/** Projects and groups carry an `is_active` flag that the service keeps as
    a selection: one active project overall, one active group per project.
    Groups and chapters are also reordered by `$set`. */
module Containers {
  import opened Records

  function ActiveProjects(ps: map<Id, Project>): set<Id>
  {
    set k | k in ps && ps[k].isActive
  }

  /** The active groups of one project. */
  function ActiveGroupsIn(gs: map<Id, Group>, projectId: Id): set<Id>
  {
    set k | k in gs && gs[k].projectId == projectId && gs[k].isActive
  }

  /** `projects.update_many({}, {"$set": {"is_active": False}})`: no project
      stays active and nothing but the flag changes. */
  function DeactivateProjects(ps: map<Id, Project>): (r: map<Id, Project>)
    ensures r.Keys == ps.Keys && ActiveProjects(r) == {}
    ensures forall k | k in r :: r[k].(isActive := ps[k].isActive) == ps[k]
  {
    map k | k in ps :: ps[k].(isActive := false)
  }

  /** `groups.update_many({"project_id": p}, {"$set": {"is_active": False}})`:
      no group of p stays active and groups of other projects are untouched. */
  function DeactivateGroupsOf(gs: map<Id, Group>, projectId: Id): (r: map<Id, Group>)
    ensures r.Keys == gs.Keys && ActiveGroupsIn(r, projectId) == {}
    ensures forall k | k in r :: r[k].(isActive := gs[k].isActive) == gs[k]
    ensures forall k | k in r && gs[k].projectId != projectId :: r[k] == gs[k]
  {
    map k | k in gs :: if gs[k].projectId == projectId then gs[k].(isActive := false) else gs[k]
  }

  /** Deactivating every project and then activating one leaves exactly that
      one active. */
  lemma SelectProject(ps: map<Id, Project>, id: Id, p: Project)
    requires p.isActive
    ensures ActiveProjects(DeactivateProjects(ps)[id := p]) == {id}
  {
    var after := DeactivateProjects(ps)[id := p];
    assert id in ActiveProjects(after);
    assert forall k | k in after && k != id :: !after[k].isActive;
  }

  /** Deactivating the groups of a project and then activating one of its
      groups leaves exactly that one active in the project. */
  lemma SelectGroup(gs: map<Id, Group>, id: Id, g: Group)
    requires g.isActive
    ensures ActiveGroupsIn(DeactivateGroupsOf(gs, g.projectId)[id := g], g.projectId) == {id}
  {
    var after := DeactivateGroupsOf(gs, g.projectId)[id := g];
    assert id in ActiveGroupsIn(after, g.projectId);
    assert forall k | k in after && k != id && after[k].projectId == g.projectId :: !after[k].isActive;
  }

  /** The `$set` of `reorder_group`: the new order and time, and the new
      parent when one is given. */
  function ReorderedGroup(g: Group, newOrder: int, newParentId: Option<Id>, now: Timestamp): (g': Group)
    ensures g'.order == newOrder && g'.updatedAt == now
    ensures g'.parentId == if newParentId.Some? then newParentId else g.parentId
    ensures g'.(order := g.order, updatedAt := g.updatedAt, parentId := g.parentId) == g
  {
    g.(order := newOrder, updatedAt := now, parentId := if newParentId.Some? then newParentId else g.parentId)
  }

  /** The `$set` of `reorder_chapter`. */
  function ReorderedChapter(c: Chapter, newOrder: int, newParentId: Option<Id>, now: Timestamp): (c': Chapter)
    ensures c'.order == newOrder && c'.updatedAt == now
    ensures c'.parentId == if newParentId.Some? then newParentId else c.parentId
    ensures c'.(order := c.order, updatedAt := c.updatedAt, parentId := c.parentId) == c
  {
    c.(order := newOrder, updatedAt := now, parentId := if newParentId.Some? then newParentId else c.parentId)
  }

  /** A reorder is reported as not found when the record exists but already
      has the new order, parent and time; a moved clock rules that out. */
  lemma ReorderGroupModifies(g: Group, newOrder: int, newParentId: Option<Id>, now: Timestamp)
    requires now != g.updatedAt || newOrder != g.order
    ensures ReorderedGroup(g, newOrder, newParentId, now) != g
  {
  }

  /** The filter of a container delete's `delete_many` on requirements. */
  datatype Scope = ProjectScope(projectId: Id) | GroupScope(groupId: Id) | ChapterScope(chapterId: Id)

  /** A requirement matches a chapter filter only when it has that chapter. */
  predicate InScope(r: Requirement, scope: Scope)
  {
    match scope
    case ProjectScope(p) => r.projectId == p
    case GroupScope(g) => r.groupId == g
    case ChapterScope(c) => r.chapterId == Some(c)
  }

  /** `requirements.delete_many(filter)`: the matching records go and every
      other record stays exactly as it was. */
  function RemoveScope(reqs: map<Id, Requirement>, scope: Scope): (r: map<Id, Requirement>)
    ensures forall k :: k in r <==> k in reqs && !InScope(reqs[k], scope)
    ensures forall k | k in r :: r[k] == reqs[k]
  {
    map k | k in reqs && !InScope(reqs[k], scope) :: reqs[k]
  }
}
