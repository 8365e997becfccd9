/** The filter of `get_requirements`: each query parameter that is given and
    non-empty adds one equality condition, and a record is returned when it
    meets all of them. */
module Queries {
  import opened Records

  /** The query parameters; `None` is a parameter the request leaves out. */
  datatype RequirementFilter = RequirementFilter(
    projectId: Option<Id>,
    groupId: Option<Id>,
    chapterId: Option<Id>,
    status: Option<RequirementStatus>)

  /** One entry of the query dictionary. */
  datatype Condition =
    | ProjectIs(projectId: Id)
    | GroupIs(groupId: Id)
    | ChapterIs(chapterId: Id)
    | StatusIs(status: RequirementStatus)

  /** Python truthiness of an optional string parameter: `None` and `""` are
      both false. */
  predicate Given(p: Option<Id>)
  {
    p.Some? && p.value != ""
  }

  /** The query dictionary, built in the order the handler builds it. Every
      status value is a non-empty string, so a given status always counts. */
  function BuildQuery(f: RequirementFilter): (q: seq<Condition>)
    ensures |q| <= 4
    ensures Given(f.projectId) ==> ProjectIs(f.projectId.value) in q
    ensures Given(f.groupId) ==> GroupIs(f.groupId.value) in q
    ensures Given(f.chapterId) ==> ChapterIs(f.chapterId.value) in q
    ensures f.status.Some? ==> StatusIs(f.status.value) in q
    ensures forall c | c in q :: FromFilter(c, f)
  {
    (if Given(f.projectId) then [ProjectIs(f.projectId.value)] else [])
    + (if Given(f.groupId) then [GroupIs(f.groupId.value)] else [])
    + (if Given(f.chapterId) then [ChapterIs(f.chapterId.value)] else [])
    + (if f.status.Some? then [StatusIs(f.status.value)] else [])
  }

  /** A condition comes from a parameter that is given, with its value. */
  predicate FromFilter(c: Condition, f: RequirementFilter)
  {
    match c
    case ProjectIs(p) => Given(f.projectId) && f.projectId.value == p
    case GroupIs(g) => Given(f.groupId) && f.groupId.value == g
    case ChapterIs(ch) => Given(f.chapterId) && f.chapterId.value == ch
    case StatusIs(st) => f.status == Some(st)
  }

  /** A stored record meets one equality condition. A record with no chapter
      never meets a chapter condition. */
  predicate Holds(r: Requirement, c: Condition)
  {
    match c
    case ProjectIs(p) => r.projectId == p
    case GroupIs(g) => r.groupId == g
    case ChapterIs(ch) => r.chapterId == Some(ch)
    case StatusIs(s) => r.status == s
  }

  /** MongoDB's implicit AND over the query's conditions. */
  predicate Satisfies(r: Requirement, q: seq<Condition>)
  {
    forall i | 0 <= i < |q| :: Holds(r, q[i])
  }

  /** The records `get_requirements` returns, by id. */
  function FindRequirements(reqs: map<Id, Requirement>, f: RequirementFilter): (found: map<Id, Requirement>)
    ensures found.Keys <= reqs.Keys
    ensures forall k | k in found :: found[k] == reqs[k]
  {
    map k | k in reqs && Satisfies(reqs[k], BuildQuery(f)) :: reqs[k]
  }

  /** A record is returned exactly when it agrees with every parameter that
      is given, and a missing or empty parameter constrains nothing. */
  lemma FindIsConjunction(reqs: map<Id, Requirement>, f: RequirementFilter, k: Id)
    requires k in reqs
    ensures k in FindRequirements(reqs, f) <==>
      && (Given(f.projectId) ==> reqs[k].projectId == f.projectId.value)
      && (Given(f.groupId) ==> reqs[k].groupId == f.groupId.value)
      && (Given(f.chapterId) ==> reqs[k].chapterId == f.chapterId)
      && (f.status.Some? ==> reqs[k].status == f.status.value)
  {
    var r := reqs[k];
    var q := BuildQuery(f);
    if Satisfies(r, q) {
      forall c | c in q ensures Holds(r, c) {
        var i :| 0 <= i < |q| && q[i] == c;
      }
    } else {
      var i :| 0 <= i < |q| && !Holds(r, q[i]);
      assert FromFilter(q[i], f);
    }
  }

  /** With no usable parameter every record is returned. */
  lemma EmptyFilterFindsAll(reqs: map<Id, Requirement>, f: RequirementFilter)
    requires !Given(f.projectId) && !Given(f.groupId) && !Given(f.chapterId) && f.status.None?
    ensures FindRequirements(reqs, f) == reqs
  {
    assert BuildQuery(f) == [];
  }
}
