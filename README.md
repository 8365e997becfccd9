# Requirements store: a verified model

This project models the record store behind the requirements-management
service in `backend/server.py`. The service keeps projects, groups, chapters
and requirements in document collections. Requirements are linked to each
other in two directions: a parent lists its children in `child_ids`, and a
child lists its parents in `parent_ids`.

Here each collection is a `map` from id to record, held in the class
`Server.Database`. Each HTTP handler is one sequential method on that class.
The MongoDB update operators become sequence operations:

- `$addToSet` appends an id when it is absent (`Links.AddToSet`).
- `$pull` removes every occurrence of an id (`Links.Pull`).
- `$set` overwrites the supplied fields (`Updates.ApplyUpdate`).
- `modified_count == 0` is modelled exactly: the record was missing, or the
  operator left it as it was.

Fresh uuids and the clock are parameters of the methods that need them.

The modules are:

- `Records`: the records, enumerations, payloads and error details.
- `Links`: `$addToSet` and `$pull` on one record, the two-sided link
  operations, and the link invariant `Consistent`. `Consistent` means the
  links are symmetric and every linked id exists.
- `Updates`: the patch of `update_requirement`, its parent bookkeeping, and
  `batch_update_requirements`.
- `ReqIds`: the display id `REQ-` plus the zero-padded number, and a parser
  that recovers the number.
- `Queries`: the query of `get_requirements`.
- `Dashboard`: the statistics of `get_dashboard_stats`.
- `Containers`: the active-project and active-group selection, and the
  reorder `$set`s.
- `Server`: the `Database` class with one method per handler, and lemmas
  about record creation.

The handler methods are proved against functions over the old store, for
example `requirements == Link(old(requirements), parentId, childId)`. The
properties are then proved as lemmas about those functions. The model
follows the code, including these behaviours a reader might not expect:

- Adding a link that already exists answers "One or both requirements not
  found". It does not succeed idempotently.
- A self-link is not rejected.
- Adding a link with one missing endpoint still updates the other endpoint.
- `create_requirement` stores the `parent_ids` it is given without touching
  the parents, so the link is one-sided (`Server.CreateWithParentBreaksSymmetry`).
- The display id comes from the current count of the project's
  requirements, so after a deletion it can repeat an existing id
  (`Server.ReqIdRepeatsAfterDelete`).
- `verification_methods` is a list, not a de-duplicated set.
- Title and text are not validated.
- `update_requirement` accepts every `RequirementUpdate` field, including
  `group_id`, `chapter_id` and `parent_ids`.
- `delete_project` deletes chapters matching a `project_id` field, which
  chapters do not have, so no chapter is deleted.
- The container deletes leave dangling links in the surviving requirements
  (`Server.ContainerDeleteLeavesDanglingLinks`).

## Model

| member | source | states |
|---|---|---|
| Links.AddToSet | backend/server.py:408-411 | `$addToSet`: the result holds exactly the old ids plus x; it equals the input iff x was already there; otherwise x is added exactly once |
| Links.Pull | backend/server.py:424-428 | `$pull`: every occurrence of x is removed, every other element keeps its multiplicity, and a list without x is unchanged |
| Links.PullIdempotent | backend/server.py:424-428 | pulling the same id twice is pulling it once |
| Links.Link | backend/server.py:408-417 | the two `$addToSet` updates, parent first: the keys stay the same, and each endpoint that exists lists the other afterwards; LinkAddsOnce, LinkIdempotent and LinkPreservesConsistency prove the rest |
| Links.LinkAt | backend/server.py:408-417 | per record: the parent's children gain the child by `$addToSet`, the child's parents gain the parent, and no other list or field of any record changes |
| Links.LinkAddsOnce | backend/server.py:408-417 | linking two existing, unlinked requirements puts each id exactly once on the other's list and changes no other record |
| Links.LinkMissingChildUpdatesParent | backend/server.py:408-420 | with the child missing, the parent still gains the child; this update is not rolled back |
| Links.LinkMissingParentUpdatesChild | backend/server.py:408-420 | with the parent missing, the child still gains the parent |
| Links.RelinkIsNoOp | backend/server.py:408-420 | in a consistent store, re-adding an existing link changes nothing, so both modified counts are zero |
| Links.LinkIdempotent | backend/server.py:408-417 | linking twice is linking once |
| Links.LinkPreservesConsistency | backend/server.py:405-422 | linking two existing requirements keeps the links symmetric and closed |
| Links.Unlink | backend/server.py:427-436 | the two `$pull` updates, parent first: the keys stay the same, and no endpoint that exists lists the other afterwards; UnlinkRemoves, UnlinkAbsentIsNoOp and UnlinkPreservesConsistency prove the rest |
| Links.UnlinkAt | backend/server.py:427-436 | per record: the parent's children lose every occurrence of the child, the child's parents lose every occurrence of the parent, and no other list or field changes |
| Links.UnlinkRemoves | backend/server.py:424-438 | after unlinking, neither id is on the other's list, and no other record changes |
| Links.UnlinkAbsentIsNoOp | backend/server.py:424-438 | unlinking a pair that is not linked leaves the store unchanged |
| Links.UnlinkPreservesConsistency | backend/server.py:424-438 | unlinking keeps the links symmetric and closed |
| Links.Detach | backend/server.py:459-478 | the pulls from every recorded parent and child, then the removal: exactly the deleted id leaves the key set; DetachEffect and DetachPreservesConsistency prove the rest |
| Links.DetachEffect | backend/server.py:452-479 | deleting a requirement removes its record; each recorded parent loses the id from its children, each recorded child loses it from its parents, no survivor changes in any other field, and every other record is unchanged |
| Links.DetachPreservesConsistency | backend/server.py:452-479 | deleting from a consistent store leaves no link to the deleted id and keeps the store consistent |
| Updates.ApplyUpdate | backend/server.py:371-373 | a supplied field is overwritten, a field left as None keeps its value, `updated_at` becomes the current time, and id, req_id, project and children never change |
| Updates.UpdateEffect | backend/server.py:375-392 | each old parent not in the new list loses the id from its children, each new parent not in the old list gains it, no record other than the updated one changes in any field but its children, and records outside both differences are untouched |
| Updates.Reparent | backend/server.py:375-392 | the two loops over the parent differences: the keys stay the same, every dropped parent no longer lists the id as a child, and every added parent does |
| Updates.ReparentAt | backend/server.py:375-392 | per record: an added parent's children gain the id, a dropped parent's children lose it, any other child list stays, and no other field changes |
| Updates.UpdateStore | backend/server.py:371-397 | the reparented store with the `$set` applied to the record: the keys stay the same, the record's `updated_at` is now and its parents are the supplied list; UpdateEffect and UpdatePreservesConsistency prove the rest |
| Updates.UpdateModifies | backend/server.py:394-400 | whether the `$set` modified the record; it always does once the clock has moved past the record's last update, and when it does not, UnmodifiedUpdateChangesNothing shows the store is unchanged |
| Updates.UpdatePreservesConsistency | backend/server.py:364-403 | an update whose new parents all exist keeps a consistent store consistent |
| Updates.UpdateKeepsSymmetric | backend/server.py:375-397 | with a supplied parent list, the target's parents and the parents' child lists change together, so the links stay two-sided |
| Updates.UpdateKeepsClosed | backend/server.py:371-397 | an update whose new parents all exist names no missing requirement |
| Updates.UnmodifiedUpdateChangesNothing | backend/server.py:394-400 | when the handler answers "Requirement not found" after the `$set`, the store is exactly as before |
| Updates.BatchUpdate | backend/server.py:445-448 | `update_many` with `$set` on the listed ids: the keys stay the same; BatchChangesOnlyModified proves which records change |
| Updates.BatchModified | backend/server.py:445-450 | the records `modified_count` counts all lie among the listed ids that exist; BatchCount bounds their number |
| Updates.BatchCount | backend/server.py:440-450 | the reported count is at most the number of listed ids that exist, and equals it whenever the clock has moved past every matched record |
| Updates.BatchChangesOnlyModified | backend/server.py:440-450 | a record changes exactly when it is among the counted modified records |
| ReqIds.DecimalRoundTrip | backend/server.py:328 | parsing the decimal string of n gives back n |
| ReqIds.LeadingZeros | backend/server.py:328 | zero padding keeps a digit string all digits and does not change its value |
| ReqIds.Decimal | backend/server.py:328 | `str(n)`: a non-empty digit string with no leading zero |
| ReqIds.ZFill | backend/server.py:328 | `zfill`: the result has length max(width, \|s\|), ends with s, and is zeros before it |
| ReqIds.ReqIdFor | backend/server.py:328 | a display id is `REQ-` followed by at least three digits |
| ReqIds.ReqIdRoundTrip | backend/server.py:327-328 | the number in a generated display id is the project's requirement count plus one |
| ReqIds.ReqIdInjective | backend/server.py:327-328 | different counts give different display ids |
| ReqIds.ReqIdFirst | backend/server.py:328 | the first requirement of a project gets `REQ-001` |
| ReqIds.ReqIdFourDigits | backend/server.py:328 | the thousandth requirement gets `REQ-1000`; padding never truncates |
| Queries.BuildQuery | backend/server.py:344-352 | the query has at most four conditions, has one for each given, non-empty parameter, and every condition carries a given parameter's value |
| Queries.FindRequirements | backend/server.py:337-355 | the query returns stored records unchanged, and only stored ones |
| Queries.FindIsConjunction | backend/server.py:344-354 | a record is returned iff it matches every given, non-empty parameter; the conditions are joined with AND |
| Queries.EmptyFilterFindsAll | backend/server.py:344-354 | with no parameter, or only empty ones, every record is returned |
| Dashboard.Percentage | backend/server.py:500 | the percentage is 0 when the total is 0, and otherwise satisfies p * total = 100 * count; it lies in [0, 100] when count <= total |
| Dashboard.DashboardStats | backend/server.py:483-522 | the total is the project's requirement count; there is one percentage per status, each the percentage of that status's count over the total; the children and verification percentages are those of the requirements with a non-empty list |
| Dashboard.FourRequirementsShares | backend/server.py:496-501 | statuses Draft, Draft, Implemented, Tested give Draft 50, In Review 0, Accepted 0, Implemented 25, Tested 25 |
| Dashboard.StatsInRange | backend/server.py:496-515 | every status, children and verification percentage lies in [0, 100], and all are 0 for a project with no requirements |
| Dashboard.StatusCountsPartition | backend/server.py:485-494 | the five status counts add up to the total |
| Dashboard.StatusSharesSumTo100 | backend/server.py:496-500 | for a project with requirements, the five status percentages sum to exactly 100 |
| Containers.DeactivateProjects | backend/server.py:189 | after the `update_many`, no project is active and only the flags changed |
| Containers.DeactivateGroupsOf | backend/server.py:233 | after the `update_many`, no group of the project is active, only the flags changed, and groups of other projects are untouched |
| Containers.SelectProject | backend/server.py:210-218 | deactivating all projects and then activating one leaves exactly that one active |
| Containers.SelectGroup | backend/server.py:255-265 | deactivating a project's groups and then activating one leaves exactly that one active in the project |
| Containers.ReorderedGroup | backend/server.py:269-273 | the new order and time are set, the parent is replaced only when a new one is given, and nothing else changes |
| Containers.ReorderedChapter | backend/server.py:303-307 | the new order and time are set, the parent is replaced only when a new one is given, and nothing else changes |
| Containers.RemoveScope | backend/server.py:226 | `delete_many` on requirements: exactly the records outside the filter stay, each unchanged; a chapter filter matches only records that have that chapter |
| Containers.ReorderGroupModifies | backend/server.py:273-275 | a reorder with a new time or a new order always modifies the group |
| Server.NewRequirement | backend/server.py:90-115 | the new record has the new id and display id, the payload's title, text, project, group and chapter, status Draft unless given, no verification methods or parents unless given, no children, and both timestamps equal to now |
| Server.NextReqId | backend/server.py:326-328 | the next display id parses back to the project's current requirement count plus one |
| Server.CreateWithoutParentsKeepsConsistency | backend/server.py:319-335 | creating a requirement without parents keeps a consistent store consistent |
| Server.CreateWithParentBreaksSymmetry | backend/server.py:330-334 | creating a requirement that names an existing parent leaves that parent's children without it, so the links are no longer symmetric |
| Server.ReqIdRepeatsAfterDelete | backend/server.py:327-328 | with one requirement left and holding `REQ-002`, the next requirement also gets `REQ-002` |
| Server.ContainerDeleteLeavesDanglingLinks | backend/server.py:220-227 | after the `delete_many` of a project, group or chapter delete, a surviving requirement linked to a deleted one still lists it, so the store is no longer closed |
| Server.Database.CreateProject | backend/server.py:186-196 | the new project is stored active, and it is the only active project |
| Server.Database.ActivateProject | backend/server.py:210-218 | an existing project becomes the only active one; an unknown id answers "Project not found" and leaves no project active |
| Server.Database.DeleteProject | backend/server.py:220-227 | the project, its groups and its requirements are removed (`RemoveScope` by project); chapters and the surviving records are unchanged |
| Server.Database.CreateGroup | backend/server.py:230-240 | the new group is stored active and is the only active group of its project; other projects' groups are unchanged |
| Server.Database.ActivateGroup | backend/server.py:255-265 | an unknown id answers "Group not found" and changes nothing; otherwise the group becomes the only active one of its project |
| Server.Database.ReorderGroup | backend/server.py:267-276 | the group takes the reorder `$set`; the answer is "Group not found" exactly when the store did not change |
| Server.Database.DeleteGroup | backend/server.py:278-283 | the group, its chapters and its requirements are removed (`RemoveScope` by group); surviving records are unchanged |
| Server.Database.CreateChapter | backend/server.py:286-293 | the chapter is inserted as given under the new id, with no check on its group, and nothing else changes |
| Server.Database.ReorderChapter | backend/server.py:301-310 | the chapter takes the reorder `$set`; the answer is "Chapter not found" exactly when the store did not change |
| Server.Database.DeleteChapter | backend/server.py:312-316 | the chapter and the requirements filed under it are removed (`RemoveScope` by chapter); surviving records are unchanged |
| Server.Database.CreateRequirement | backend/server.py:319-335 | a missing project answers "Project not found" and changes nothing; otherwise the new record with the next display id is inserted and nothing else changes |
| Server.Database.PullFromAll | backend/server.py:381-385 | the loop pulls the id from the children of every dropped parent that exists |
| Server.Database.AddToAll | backend/server.py:387-392 | the loop adds the id to the children of every added parent that exists |
| Server.Database.PullFromEachOf | backend/server.py:464-475 | the loop pulls the id from the given side of every listed neighbour that exists |
| Server.Database.UpdateRequirement | backend/server.py:364-403 | an unknown id answers "Requirement not found" and changes nothing; otherwise the store becomes the reparented and patched store, and success holds iff the `$set` changed the record |
| Server.Database.CreateRelationship | backend/server.py:405-422 | the store becomes the two `$addToSet` updates; success holds iff both endpoints exist and neither already lists the other |
| Server.Database.AddToOne | backend/server.py:408-411 | one `update_one` with `$addToSet`: the store becomes the single `AddLink`, and `modified_count` is 1 exactly when the record exists and did not list the value yet |
| Server.Database.DeleteRelationship | backend/server.py:424-438 | the store becomes the two `$pull` updates, and the handler always succeeds |
| Server.Database.PullFromOne | backend/server.py:427-430 | one `update_one` with `$pull`: the store becomes the single `PullLink`, and nothing changes when the record is missing |
| Server.Database.BatchUpdateRequirements | backend/server.py:440-450 | every listed, existing record takes the patch, and the count is the size of `BatchModified`, the number of records that actually changed |
| Server.Database.DeleteRequirement | backend/server.py:452-479 | an unknown id answers "Requirement not found" and changes nothing; otherwise the store is the detached store |

## Left out

- The MongoDB driver, FastAPI routing, CORS, environment and logging setup. These are I/O and framework glue; the collections are in-memory maps.
- `prepare_for_mongo` and `parse_from_mongo`. They only convert datetimes to and from strings. Timestamps are natural-number ticks passed in as `now`.
- uuid generation. Fresh ids are parameters, required to be unused.
- The read-only handlers `get_projects`, `get_active_project`, `get_groups`, `get_active_group`, `get_chapters` and `get_requirement`. They are plain lookups with no state change.
- `search_requirements`. Its case-insensitive regex semantics belong to the database engine.
- `create_change_log_entry`. Nothing in the file calls it.
- CSV import and export. They are not part of this file.
- The `to_list` result caps, the order of query results, and the response message bodies.
- `created_by` and `updated_by`. No modelled handler sets them except `batch_update_requirements`, whose body can name any field; see the line for Server.Database.BatchUpdateRequirements.
- Concurrency between the awaited database calls inside one handler. Each handler is one sequential step.
- Dashboard.DashboardStats: percentages are exact reals, not rounded to one decimal, because float rounding is left out.
- Dashboard.StatusSharesSumTo100: holds for the exact shares only; the shares the handler returns are each rounded to one decimal, so they can sum to 99.9 (three requirements with three statuses) or 100.1.
- Dashboard.StatsInRange: states the bounds of the exact percentages, not of the rounded floats the handler returns.
- Server.Database.BatchUpdateRequirements: the update body is restricted to the `RequirementUpdate` fields with their types, not an arbitrary dictionary. The handler can store any field name (`created_by`, `updated_by` or an unknown one) and any value, including a status outside the five values or null; the model cannot.
- Dashboard.StatusCountsPartition: relies on every stored status being one of the five values. A batch update that stores another status value leaves that record in the total but in none of the five counts, so the counts, and the shares in Dashboard.StatusSharesSumTo100, then sum to less than the total and less than 100.
- Server.Database.CreateProject: the new id is required to be unused, where the handler relies on uuid uniqueness.
- Server.Database.CreateChapter: the new id is required to be unused, where the handler relies on uuid uniqueness.
- Server.Database.CreateGroup: the new id is required to be unused, where the handler relies on uuid uniqueness.
- Server.Database.CreateRequirement: the new id is required to be unused, where the handler relies on uuid uniqueness.
- Server.Database.UpdateRequirement: the stored `updated_at` is compared as a tick, not as a timestamp string.
