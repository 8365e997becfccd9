/** The records kept by the requirements service: projects, groups,
    chapters and requirements, the request payloads that create and patch
    them, and the outcomes the handlers report. Identifiers are the uuid
    strings the service generates; timestamps are clock ticks. */
module Records {

  type Id = string

  /** A point in time, as a tick of the service's clock. */
  type Timestamp = nat

  datatype Option<T> = None | Some(value: T)

  /** The value a `$set` leaves in a field: the supplied one, or the old one
      when the field was not supplied. */
  function Overwrite<T>(current: T, supplied: Option<T>): T
  {
    match supplied
    case Some(v) => v
    case None => current
  }

  /** Every failure the modelled handlers raise is an HTTP 404 with one of
      these details. */
  datatype Error = NotFound(detail: string)

  const ProjectNotFound: Error := NotFound("Project not found")
  const GroupNotFound: Error := NotFound("Group not found")
  const ChapterNotFound: Error := NotFound("Chapter not found")
  const RequirementNotFound: Error := NotFound("Requirement not found")
  const EndpointNotFound: Error := NotFound("One or both requirements not found")

  /** A handler that returns a record, or raises. */
  datatype Result<T> = Success(value: T) | Failure(error: Error)

  /** A handler that returns only a confirmation message, or raises. */
  datatype Outcome = Done | Fail(error: Error)

  datatype RequirementStatus = Draft | InReview | Accepted | Implemented | Tested

  datatype VerificationMethod = Analysis | Review | Inspection | Test

  datatype Project = Project(
    id: Id,
    name: string,
    description: Option<string>,
    isActive: bool,
    createdAt: Timestamp,
    updatedAt: Timestamp)

  datatype Group = Group(
    id: Id,
    name: string,
    description: Option<string>,
    projectId: Id,
    parentId: Option<Id>,
    order: int,
    isActive: bool,
    createdAt: Timestamp,
    updatedAt: Timestamp)

  /** A chapter belongs to a group; it carries no project id of its own. */
  datatype Chapter = Chapter(
    id: Id,
    name: string,
    description: Option<string>,
    groupId: Id,
    parentId: Option<Id>,
    order: int,
    createdAt: Timestamp,
    updatedAt: Timestamp)

  /** `parentIds` and `childIds` are the two sides of the dependency links;
      both are lists as stored, not sets. */
  datatype Requirement = Requirement(
    id: Id,
    reqId: Option<string>,
    title: string,
    text: string,
    status: RequirementStatus,
    verificationMethods: seq<VerificationMethod>,
    projectId: Id,
    groupId: Id,
    chapterId: Option<Id>,
    parentIds: seq<Id>,
    childIds: seq<Id>,
    createdAt: Timestamp,
    updatedAt: Timestamp)

  /** The body of a project creation request. */
  datatype ProjectCreate = ProjectCreate(name: string, description: Option<string>)

  /** The body of a group creation request. */
  datatype GroupCreate = GroupCreate(
    name: string,
    description: Option<string>,
    projectId: Id,
    parentId: Option<Id>,
    order: int)

  /** The body of a requirement creation request; `None` stands for a field
      the request leaves out, which then takes its declared default. */
  datatype RequirementCreate = RequirementCreate(
    title: string,
    text: string,
    status: Option<RequirementStatus>,
    verificationMethods: Option<seq<VerificationMethod>>,
    projectId: Id,
    groupId: Id,
    chapterId: Option<Id>,
    parentIds: Option<seq<Id>>)

  /** A partial update: `None` is a field the request does not supply. */
  datatype RequirementUpdate = RequirementUpdate(
    title: Option<string>,
    text: Option<string>,
    status: Option<RequirementStatus>,
    verificationMethods: Option<seq<VerificationMethod>>,
    groupId: Option<Id>,
    chapterId: Option<Id>,
    parentIds: Option<seq<Id>>)

  datatype ChapterCreate = ChapterCreate(
    name: string,
    description: Option<string>,
    groupId: Id,
    parentId: Option<Id>,
    order: int)

  /** The requirements of one project, the set `count_documents` counts. */
  function InProject(reqs: map<Id, Requirement>, projectId: Id): set<Id>
  {
    set k | k in reqs && reqs[k].projectId == projectId
  }
}
