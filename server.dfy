/** The service's collections as one in-memory database, and each modelled
    handler as one sequential step over it. A `find_one`/`update_one` on
    `{"id": x}` is a lookup of key x; fresh uuids and the clock are
    parameters. */
module Server {
  import opened Records
  import opened Links
  import opened Updates
  import opened Containers
  import ReqIds
  import Dashboard

  /** The record `create_requirement` inserts: the payload's fields with
      their defaults, the new id and display id, no children yet. */
  function NewRequirement(payload: RequirementCreate, id: Id, reqId: string, now: Timestamp): (r: Requirement)
    ensures r.id == id && r.reqId == Some(reqId)
    ensures r.status == Overwrite(Draft, payload.status)
    ensures r.verificationMethods == Overwrite([], payload.verificationMethods)
    ensures r.parentIds == Overwrite([], payload.parentIds) && r.childIds == []
    ensures r.projectId == payload.projectId && r.groupId == payload.groupId && r.chapterId == payload.chapterId
    ensures r.title == payload.title && r.text == payload.text
    ensures r.createdAt == now && r.updatedAt == now
  {
    Requirement(
      id, Some(reqId), payload.title, payload.text,
      Overwrite(Draft, payload.status),
      Overwrite([], payload.verificationMethods),
      payload.projectId, payload.groupId, payload.chapterId,
      Overwrite([], payload.parentIds), [],
      now, now)
  }

  /** The display id the next requirement of a project gets. */
  function NextReqId(reqs: map<Id, Requirement>, projectId: Id): (id: string)
    ensures ReqIds.ReqNumber(id) == Some(|InProject(reqs, projectId)| + 1)
  {
    ReqIds.ReqIdRoundTrip(|InProject(reqs, projectId)|);
    ReqIds.ReqIdFor(|InProject(reqs, projectId)|)
  }

  /** Creating a requirement without parents keeps a consistent store
      consistent. */
  lemma CreateWithoutParentsKeepsConsistency(reqs: map<Id, Requirement>, payload: RequirementCreate, id: Id, now: Timestamp)
    requires Consistent(reqs) && id !in reqs
    requires payload.parentIds.None? || payload.parentIds == Some([])
    ensures Consistent(reqs[id := NewRequirement(payload, id, NextReqId(reqs, payload.projectId), now)])
  {
    var r := NewRequirement(payload, id, NextReqId(reqs, payload.projectId), now);
    var after := reqs[id := r];
    forall a | a in reqs ensures id !in reqs[a].childIds && id !in reqs[a].parentIds {
      assert Elems(reqs[a].childIds) <= reqs.Keys && Elems(reqs[a].parentIds) <= reqs.Keys;
    }
    assert r.parentIds == [] && r.childIds == [];
  }

  /** Creating a requirement that names an existing parent breaks the
      two-sided link: the new record lists the parent, but the parent's
      children are not updated. */
  lemma CreateWithParentBreaksSymmetry(reqs: map<Id, Requirement>, payload: RequirementCreate, id: Id, now: Timestamp, parent: Id)
    requires Consistent(reqs) && id !in reqs && parent in reqs
    requires payload.parentIds.Some? && parent in payload.parentIds.value
    ensures !Symmetric(reqs[id := NewRequirement(payload, id, NextReqId(reqs, payload.projectId), now)])
  {
    var after := reqs[id := NewRequirement(payload, id, NextReqId(reqs, payload.projectId), now)];
    assert parent in after[id].parentIds;
    assert Elems(reqs[parent].childIds) <= reqs.Keys;
    assert id !in after[parent].childIds;
  }

  /** The display id depends only on how many requirements the project has
      now, so after a deletion a new requirement can repeat the id of one
      that remains: with a single requirement left holding "REQ-002", the
      next one is "REQ-002" too. */
  lemma ReqIdRepeatsAfterDelete(reqs: map<Id, Requirement>, projectId: Id, survivor: Id)
    requires InProject(reqs, projectId) == {survivor}
    requires reqs[survivor].reqId == Some("REQ-002")
    ensures Some(NextReqId(reqs, projectId)) == reqs[survivor].reqId
  {
    assert |InProject(reqs, projectId)| == 1;
    ReqIds.ReqIdSecond();
  }

  /** The container deletes remove requirements by filter and leave the
      survivors as they were, so a survivor linked to a removed requirement
      keeps a link to an id the store no longer holds. */
  lemma ContainerDeleteLeavesDanglingLinks(reqs: map<Id, Requirement>, scope: Scope, survivor: Id, gone: Id)
    requires survivor in reqs && !InScope(reqs[survivor], scope)
    requires gone in reqs && InScope(reqs[gone], scope)
    requires gone in reqs[survivor].childIds || gone in reqs[survivor].parentIds
    ensures var after := RemoveScope(reqs, scope);
      && survivor in after && gone !in after
      && (gone in after[survivor].childIds || gone in after[survivor].parentIds)
      && !Closed(after)
  {
    var after := RemoveScope(reqs, scope);
    assert gone in Elems(after[survivor].childIds) || gone in Elems(after[survivor].parentIds);
  }

  class Database {
    var projects: map<Id, Project>
    var groups: map<Id, Group>
    var chapters: map<Id, Chapter>
    var requirements: map<Id, Requirement>

    /** Every record is stored under its own id. */
    ghost predicate Valid()
      reads this
    {
      && (forall k | k in projects :: projects[k].id == k)
      && (forall k | k in groups :: groups[k].id == k)
      && (forall k | k in chapters :: chapters[k].id == k)
      && Keyed(requirements)
    }

    constructor ()
      ensures Valid()
      ensures projects == map[] && groups == map[] && chapters == map[] && requirements == map[]
    {
      projects, groups, chapters, requirements := map[], map[], map[], map[];
    }

    /** `create_project`: every other project is deactivated and the new one
        is the only active project. */
    method CreateProject(p: ProjectCreate, freshId: Id, now: Timestamp) returns (created: Project)
      requires Valid() && freshId !in projects
      modifies this
      ensures Valid()
      ensures created == Project(freshId, p.name, p.description, true, now, now)
      ensures projects == DeactivateProjects(old(projects))[freshId := created]
      ensures ActiveProjects(projects) == {freshId}
      ensures groups == old(groups) && chapters == old(chapters) && requirements == old(requirements)
    {
      projects := DeactivateProjects(projects);
      created := Project(freshId, p.name, p.description, true, now, now);
      projects := projects[freshId := created];
      SelectProject(old(projects), freshId, created);
    }

    /** `activate_project`: all projects are deactivated first, so an unknown
        id answers "Project not found" and leaves no project active. */
    method ActivateProject(projectId: Id) returns (r: Outcome)
      requires Valid()
      modifies this
      ensures Valid()
      ensures projectId in old(projects) ==>
        && r == Done
        && projects == DeactivateProjects(old(projects))[projectId := old(projects)[projectId].(isActive := true)]
        && ActiveProjects(projects) == {projectId}
      ensures projectId !in old(projects) ==>
        r == Fail(ProjectNotFound) && projects == DeactivateProjects(old(projects)) && ActiveProjects(projects) == {}
      ensures groups == old(groups) && chapters == old(chapters) && requirements == old(requirements)
    {
      projects := DeactivateProjects(projects);
      var modified := false;
      if projectId in projects && !projects[projectId].isActive {
        projects := projects[projectId := projects[projectId].(isActive := true)];
        modified := true;
      }
      if modified {
        r := Done;
        SelectProject(old(projects), projectId, projects[projectId]);
      } else {
        r := Fail(ProjectNotFound);
      }
    }

    /** `delete_project`: the project, its groups and its requirements go.
        The chapter delete matches on a project id that chapters do not
        carry, so no chapter goes; surviving requirements keep any links to
        the deleted ones. */
    method DeleteProject(projectId: Id)
      requires Valid()
      modifies this
      ensures Valid()
      ensures projects == old(projects) - {projectId}
      ensures forall k :: k in groups <==> k in old(groups) && old(groups)[k].projectId != projectId
      ensures forall k | k in groups :: groups[k] == old(groups)[k]
      ensures chapters == old(chapters)
      ensures requirements == RemoveScope(old(requirements), ProjectScope(projectId))
    {
      projects := projects - {projectId};
      groups := map k | k in groups && groups[k].projectId != projectId :: groups[k];
      requirements := RemoveScope(requirements, ProjectScope(projectId));
    }

    /** `create_group`: the other groups of the same project are deactivated
        and the new group is the only active one there; groups of other
        projects are untouched. The project is not checked to exist. */
    method CreateGroup(g: GroupCreate, freshId: Id, now: Timestamp) returns (created: Group)
      requires Valid() && freshId !in groups
      modifies this
      ensures Valid()
      ensures created == Group(freshId, g.name, g.description, g.projectId, g.parentId, g.order, true, now, now)
      ensures groups == DeactivateGroupsOf(old(groups), g.projectId)[freshId := created]
      ensures ActiveGroupsIn(groups, g.projectId) == {freshId}
      ensures forall k | k in old(groups) && old(groups)[k].projectId != g.projectId :: groups[k] == old(groups)[k]
      ensures projects == old(projects) && chapters == old(chapters) && requirements == old(requirements)
    {
      groups := DeactivateGroupsOf(groups, g.projectId);
      created := Group(freshId, g.name, g.description, g.projectId, g.parentId, g.order, true, now, now);
      groups := groups[freshId := created];
      SelectGroup(old(groups), freshId, created);
    }

    /** `activate_group`: an unknown id answers "Group not found" and changes
        nothing; otherwise the group becomes the only active one of its
        project. */
    method ActivateGroup(groupId: Id) returns (r: Outcome)
      requires Valid()
      modifies this
      ensures Valid()
      ensures groupId !in old(groups) ==> r == Fail(GroupNotFound) && groups == old(groups)
      ensures groupId in old(groups) ==>
        var projectId := old(groups)[groupId].projectId;
        && r == Done
        && groups == DeactivateGroupsOf(old(groups), projectId)[groupId := old(groups)[groupId].(isActive := true)]
        && ActiveGroupsIn(groups, projectId) == {groupId}
      ensures projects == old(projects) && chapters == old(chapters) && requirements == old(requirements)
    {
      if groupId !in groups {
        return Fail(GroupNotFound);
      }
      var projectId := groups[groupId].projectId;
      groups := DeactivateGroupsOf(groups, projectId);
      groups := groups[groupId := groups[groupId].(isActive := true)];
      SelectGroup(old(groups), groupId, groups[groupId]);
      r := Done;
    }

    /** `reorder_group`: answers "Group not found" when the group is missing
        or the `$set` changes nothing. */
    method ReorderGroup(groupId: Id, newOrder: int, newParentId: Option<Id>, now: Timestamp) returns (r: Outcome)
      requires Valid()
      modifies this
      ensures Valid()
      ensures groupId in old(groups) ==> groups == old(groups)[groupId := ReorderedGroup(old(groups)[groupId], newOrder, newParentId, now)]
      ensures groupId !in old(groups) ==> groups == old(groups)
      ensures r == Done <==> groups != old(groups)
      ensures r != Done ==> r == Fail(GroupNotFound)
      ensures projects == old(projects) && chapters == old(chapters) && requirements == old(requirements)
    {
      var modified := false;
      if groupId in groups {
        var updated := ReorderedGroup(groups[groupId], newOrder, newParentId, now);
        modified := updated != groups[groupId];
        groups := groups[groupId := updated];
      }
      r := if modified then Done else Fail(GroupNotFound);
    }

    /** `delete_group`: the group, its chapters and its requirements go;
        surviving requirements keep any links to the deleted ones. */
    method DeleteGroup(groupId: Id)
      requires Valid()
      modifies this
      ensures Valid()
      ensures groups == old(groups) - {groupId}
      ensures forall k :: k in chapters <==> k in old(chapters) && old(chapters)[k].groupId != groupId
      ensures forall k | k in chapters :: chapters[k] == old(chapters)[k]
      ensures requirements == RemoveScope(old(requirements), GroupScope(groupId))
      ensures projects == old(projects)
    {
      groups := groups - {groupId};
      chapters := map k | k in chapters && chapters[k].groupId != groupId :: chapters[k];
      requirements := RemoveScope(requirements, GroupScope(groupId));
    }

    /** `create_chapter`: the chapter is inserted as given; its group is not
        checked to exist. */
    method CreateChapter(c: ChapterCreate, freshId: Id, now: Timestamp) returns (created: Chapter)
      requires Valid() && freshId !in chapters
      modifies this
      ensures Valid()
      ensures created == Chapter(freshId, c.name, c.description, c.groupId, c.parentId, c.order, now, now)
      ensures chapters == old(chapters)[freshId := created]
      ensures projects == old(projects) && groups == old(groups) && requirements == old(requirements)
    {
      created := Chapter(freshId, c.name, c.description, c.groupId, c.parentId, c.order, now, now);
      chapters := chapters[freshId := created];
    }

    /** `reorder_chapter`: answers "Chapter not found" when the chapter is
        missing or the `$set` changes nothing. */
    method ReorderChapter(chapterId: Id, newOrder: int, newParentId: Option<Id>, now: Timestamp) returns (r: Outcome)
      requires Valid()
      modifies this
      ensures Valid()
      ensures chapterId in old(chapters) ==> chapters == old(chapters)[chapterId := ReorderedChapter(old(chapters)[chapterId], newOrder, newParentId, now)]
      ensures chapterId !in old(chapters) ==> chapters == old(chapters)
      ensures r == Done <==> chapters != old(chapters)
      ensures r != Done ==> r == Fail(ChapterNotFound)
      ensures projects == old(projects) && groups == old(groups) && requirements == old(requirements)
    {
      var modified := false;
      if chapterId in chapters {
        var updated := ReorderedChapter(chapters[chapterId], newOrder, newParentId, now);
        modified := updated != chapters[chapterId];
        chapters := chapters[chapterId := updated];
      }
      r := if modified then Done else Fail(ChapterNotFound);
    }

    /** `delete_chapter`: the chapter and the requirements filed under it go;
        surviving requirements keep any links to the deleted ones. */
    method DeleteChapter(chapterId: Id)
      requires Valid()
      modifies this
      ensures Valid()
      ensures chapters == old(chapters) - {chapterId}
      ensures requirements == RemoveScope(old(requirements), ChapterScope(chapterId))
      ensures projects == old(projects) && groups == old(groups)
    {
      chapters := chapters - {chapterId};
      requirements := RemoveScope(requirements, ChapterScope(chapterId));
    }

    /** `create_requirement`: a missing project answers "Project not found";
        otherwise the new record is inserted as given, without touching the
        parents it names. */
    method CreateRequirement(payload: RequirementCreate, freshId: Id, now: Timestamp) returns (r: Result<Requirement>)
      requires Valid() && freshId !in requirements
      modifies this
      ensures Valid()
      ensures payload.projectId !in old(projects) ==> r == Failure(ProjectNotFound) && requirements == old(requirements)
      ensures payload.projectId in old(projects) ==>
        && r == Success(NewRequirement(payload, freshId, NextReqId(old(requirements), payload.projectId), now))
        && requirements == old(requirements)[freshId := r.value]
      ensures projects == old(projects) && groups == old(groups) && chapters == old(chapters)
    {
      if payload.projectId !in projects {
        return Failure(ProjectNotFound);
      }
      var created := NewRequirement(payload, freshId, NextReqId(requirements, payload.projectId), now);
      InsertKeepsKeyed(requirements, created);
      requirements := requirements[freshId := created];
      r := Success(created);
    }

    /** The loop of `update_one` calls with `$pull` over a set of targets:
        x is pulled from one side of every target that exists. */
    method PullFromAll(targets: set<Id>, side: Side, x: Id)
      modifies this
      ensures requirements == PullFromEach(old(requirements), targets, side, x)
      ensures projects == old(projects) && groups == old(groups) && chapters == old(chapters)
    {
      var todo := targets;
      while todo != {}
        invariant todo <= targets
        invariant requirements == PullFromEach(old(requirements), targets - todo, side, x)
        invariant projects == old(projects) && groups == old(groups) && chapters == old(chapters)
        decreases todo
      {
        var t :| t in todo;
        PullFromEachStep(old(requirements), targets - todo, t, side, x);
        requirements := PullLink(requirements, t, side, x);
        assert targets - (todo - {t}) == (targets - todo) + {t};
        todo := todo - {t};
      }
    }

    /** The loop of `update_one` calls with `$addToSet` over a set of
        targets: x is added to one side of every target that exists. */
    method AddToAll(targets: set<Id>, side: Side, x: Id)
      modifies this
      ensures requirements == AddToEach(old(requirements), targets, side, x)
      ensures projects == old(projects) && groups == old(groups) && chapters == old(chapters)
    {
      var todo := targets;
      while todo != {}
        invariant todo <= targets
        invariant requirements == AddToEach(old(requirements), targets - todo, side, x)
        invariant projects == old(projects) && groups == old(groups) && chapters == old(chapters)
        decreases todo
      {
        var t :| t in todo;
        AddToEachStep(old(requirements), targets - todo, t, side, x);
        requirements := AddLink(requirements, t, side, x);
        assert targets - (todo - {t}) == (targets - todo) + {t};
        todo := todo - {t};
      }
    }

    /** One `update_one` with `$addToSet`; `modified` is its
        `modified_count == 1`, true exactly when the record exists and did
        not list x yet. */
    method AddToOne(target: Id, side: Side, x: Id) returns (modified: bool)
      modifies this
      ensures requirements == AddLink(old(requirements), target, side, x)
      ensures modified <==> target in old(requirements) && x !in SideList(old(requirements)[target], side)
      ensures projects == old(projects) && groups == old(groups) && chapters == old(chapters)
    {
      modified := false;
      if target in requirements {
        var before := SideList(requirements[target], side);
        requirements := AddLink(requirements, target, side, x);
        modified := SideList(requirements[target], side) != before;
      }
    }

    /** One `update_one` with `$pull`; it changes nothing when the record
        does not exist. */
    method PullFromOne(target: Id, side: Side, x: Id)
      modifies this
      ensures requirements == PullLink(old(requirements), target, side, x)
      ensures projects == old(projects) && groups == old(groups) && chapters == old(chapters)
    {
      if target in requirements {
        requirements := PullLink(requirements, target, side, x);
      }
    }

    /** The loop of `update_one` calls with `$pull` over a stored id list, in
        list order; an id listed twice is pulled twice, to no further effect. */
    method PullFromEachOf(targets: seq<Id>, side: Side, x: Id)
      modifies this
      ensures requirements == PullFromEach(old(requirements), Elems(targets), side, x)
      ensures projects == old(projects) && groups == old(groups) && chapters == old(chapters)
    {
      var i := 0;
      while i < |targets|
        invariant 0 <= i <= |targets|
        invariant requirements == PullFromEach(old(requirements), Elems(targets[..i]), side, x)
        invariant projects == old(projects) && groups == old(groups) && chapters == old(chapters)
      {
        PullFromEachStep(old(requirements), Elems(targets[..i]), targets[i], side, x);
        requirements := PullLink(requirements, targets[i], side, x);
        assert targets[..i + 1] == targets[..i] + [targets[i]];
        i := i + 1;
      }
      assert targets[..i] == targets;
    }

    /** `update_requirement`: an unknown id answers "Requirement not found"
        and changes nothing. Otherwise, when the patch supplies parents, each
        dropped parent loses this id from its children and each added parent
        gains it; then the supplied fields are set, and a `$set` that changes
        nothing answers "Requirement not found" too. */
    method UpdateRequirement(id: Id, u: RequirementUpdate, now: Timestamp) returns (r: Result<Requirement>)
      requires Valid()
      modifies this
      ensures Valid()
      ensures id !in old(requirements) ==> r == Failure(RequirementNotFound) && requirements == old(requirements)
      ensures id in old(requirements) ==>
        && requirements == UpdateStore(old(requirements), id, u, now)
        && (r.Success? <==> UpdateModifies(old(requirements), id, u, now))
      ensures r.Success? ==> id in requirements && r.value == requirements[id]
      ensures r.Failure? ==> r.error == RequirementNotFound
      ensures projects == old(projects) && groups == old(groups) && chapters == old(chapters)
    {
      if id !in requirements {
        return Failure(RequirementNotFound);
      }
      if u.parentIds.Some? {
        var dropped := DroppedParents(requirements, id, u.parentIds.value);
        var added := AddedParents(requirements, id, u.parentIds.value);
        PullFromAll(dropped, Children, id);
        AddToAll(added, Children, id);
      }
      var current := requirements[id];
      var updated := ApplyUpdate(current, u, now);
      requirements := requirements[id := updated];
      r := if updated == current then Failure(RequirementNotFound) else Success(updated);
      UpdateKeepsKeyed(old(requirements), id, u, now);
    }

    /** `create_relationship`: the parent's children and then the child's
        parents get the other id by `$addToSet`. The answer is "One or both
        requirements not found" unless both updates changed something, so
        also when the link already exists; an update already made is kept. */
    method CreateRelationship(parentId: Id, childId: Id) returns (r: Outcome)
      requires Valid()
      modifies this
      ensures Valid()
      ensures requirements == Link(old(requirements), parentId, childId)
      ensures r == Done <==>
        && parentId in old(requirements) && childId in old(requirements)
        && childId !in old(requirements)[parentId].childIds
        && parentId !in old(requirements)[childId].parentIds
      ensures r != Done ==> r == Fail(EndpointNotFound)
      ensures projects == old(projects) && groups == old(groups) && chapters == old(chapters)
    {
      var parentModified := AddToOne(parentId, Children, childId);
      assert childId in requirements ==> requirements[childId].parentIds == old(requirements)[childId].parentIds;
      var childModified := AddToOne(childId, Parents, parentId);
      r := if parentModified && childModified then Done else Fail(EndpointNotFound);
      LinkKeepsKeyed(old(requirements), parentId, childId);
    }

    /** `delete_relationship`: every occurrence of each id is pulled from the
        other's list; it always succeeds. */
    method DeleteRelationship(parentId: Id, childId: Id)
      requires Valid()
      modifies this
      ensures Valid()
      ensures requirements == Unlink(old(requirements), parentId, childId)
      ensures projects == old(projects) && groups == old(groups) && chapters == old(chapters)
    {
      PullFromOne(parentId, Children, childId);
      PullFromOne(childId, Parents, parentId);
      UnlinkKeepsKeyed(old(requirements), parentId, childId);
    }

    /** `batch_update_requirements`: the patch is set on every listed record
        that exists, unknown ids are skipped, and the result is the number of
        records that actually changed. */
    method BatchUpdateRequirements(ids: seq<Id>, u: RequirementUpdate, now: Timestamp) returns (modifiedCount: nat)
      requires Valid()
      modifies this
      ensures Valid()
      ensures requirements == BatchUpdate(old(requirements), Elems(ids), u, now)
      ensures modifiedCount == |BatchModified(old(requirements), Elems(ids), u, now)|
      ensures modifiedCount == |set k | k in old(requirements) && requirements[k] != old(requirements)[k]|
      ensures projects == old(projects) && groups == old(groups) && chapters == old(chapters)
    {
      var targets := Elems(ids);
      var changed := BatchModified(requirements, targets, u, now);
      requirements := BatchUpdate(requirements, targets, u, now);
      BatchChangesOnlyModified(old(requirements), targets, u, now);
      assert changed == set k | k in old(requirements) && requirements[k] != old(requirements)[k];
      modifiedCount := |changed|;
      BatchKeepsKeyed(old(requirements), targets, u, now);
    }

    /** `delete_requirement`: an unknown id answers "Requirement not found"
        and changes nothing. Otherwise the id is pulled from the children of
        each recorded parent and from the parents of each recorded child, and
        the record is removed. */
    method DeleteRequirement(id: Id) returns (r: Outcome)
      requires Valid()
      modifies this
      ensures Valid()
      ensures id !in old(requirements) ==> r == Fail(RequirementNotFound) && requirements == old(requirements)
      ensures id in old(requirements) ==> r == Done && requirements == Detach(old(requirements), id)
      ensures projects == old(projects) && groups == old(groups) && chapters == old(chapters)
    {
      if id !in requirements {
        return Fail(RequirementNotFound);
      }
      var parentIds := requirements[id].parentIds;
      var childIds := requirements[id].childIds;
      PullFromEachOf(parentIds, Children, id);
      PullFromEachOf(childIds, Parents, id);
      requirements := requirements - {id};
      r := Done;
      DetachKeepsKeyed(old(requirements), id);
    }
  }
}
