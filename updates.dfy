/** Field updates of requirements: the `$set` of `update_requirement`, the
    parent bookkeeping that precedes it, and the `update_many` of
    `batch_update_requirements`. */
module Updates {
  import opened Records
  import opened Links

  /** The `$set` of a patch plus `updated_at`: a field the patch supplies is
      overwritten, every other field keeps its value. */
  function ApplyUpdate(r: Requirement, u: RequirementUpdate, now: Timestamp): (r': Requirement)
    ensures r'.id == r.id && r'.reqId == r.reqId && r'.projectId == r.projectId
    ensures r'.childIds == r.childIds && r'.createdAt == r.createdAt && r'.updatedAt == now
    ensures u.title.None? ==> r'.title == r.title
    ensures u.text.None? ==> r'.text == r.text
    ensures u.status.None? ==> r'.status == r.status
    ensures u.verificationMethods.None? ==> r'.verificationMethods == r.verificationMethods
    ensures u.groupId.None? ==> r'.groupId == r.groupId
    ensures u.chapterId.None? ==> r'.chapterId == r.chapterId
    ensures u.parentIds.None? ==> r'.parentIds == r.parentIds
    ensures u.title.Some? ==> r'.title == u.title.value
    ensures u.text.Some? ==> r'.text == u.text.value
    ensures u.status.Some? ==> r'.status == u.status.value
    ensures u.verificationMethods.Some? ==> r'.verificationMethods == u.verificationMethods.value
    ensures u.groupId.Some? ==> r'.groupId == u.groupId.value
    ensures u.chapterId.Some? ==> r'.chapterId == u.chapterId
    ensures u.parentIds.Some? ==> r'.parentIds == u.parentIds.value
  {
    r.(title := Overwrite(r.title, u.title),
       text := Overwrite(r.text, u.text),
       status := Overwrite(r.status, u.status),
       verificationMethods := Overwrite(r.verificationMethods, u.verificationMethods),
       groupId := Overwrite(r.groupId, u.groupId),
       chapterId := if u.chapterId.Some? then u.chapterId else r.chapterId,
       parentIds := Overwrite(r.parentIds, u.parentIds),
       updatedAt := now)
  }

  /** The parents `update_requirement` drops: in the old list, not the new. */
  function DroppedParents(reqs: map<Id, Requirement>, id: Id, newParents: seq<Id>): set<Id>
    requires id in reqs
  {
    Elems(reqs[id].parentIds) - Elems(newParents)
  }

  /** The parents `update_requirement` adds: in the new list, not the old. */
  function AddedParents(reqs: map<Id, Requirement>, id: Id, newParents: seq<Id>): set<Id>
    requires id in reqs
  {
    Elems(newParents) - Elems(reqs[id].parentIds)
  }

  /** The two loops of `update_requirement` over the parent differences:
      dropped parents lose the id from their children, added parents gain it. */
  function Reparent(reqs: map<Id, Requirement>, id: Id, newParents: seq<Id>): (r: map<Id, Requirement>)
    requires id in reqs
    ensures r.Keys == reqs.Keys
    ensures forall p | p in reqs && p in DroppedParents(reqs, id, newParents) :: id !in r[p].childIds
    ensures forall p | p in reqs && p in AddedParents(reqs, id, newParents) :: id in r[p].childIds
  {
    var pulled := PullFromEach(reqs, DroppedParents(reqs, id, newParents), Children, id);
    AddToEach(pulled, AddedParents(reqs, id, newParents), Children, id)
  }

  /** What `Reparent` does to one record: only its child list can change. */
  lemma ReparentAt(reqs: map<Id, Requirement>, id: Id, newParents: seq<Id>, k: Id)
    requires id in reqs && k in reqs
    ensures var r := Reparent(reqs, id, newParents)[k];
      && r.(childIds := reqs[k].childIds) == reqs[k]
      && r.childIds ==
        (if k in AddedParents(reqs, id, newParents) then AddToSet(reqs[k].childIds, id)
         else if k in DroppedParents(reqs, id, newParents) then Pull(reqs[k].childIds, id)
         else reqs[k].childIds)
  {
  }

  /** The store before the final `$set`: reparented only when the patch
      supplies `parent_ids`. */
  function Relinked(reqs: map<Id, Requirement>, id: Id, u: RequirementUpdate): (r: map<Id, Requirement>)
    requires id in reqs
    ensures r.Keys == reqs.Keys
  {
    if u.parentIds.Some? then Reparent(reqs, id, u.parentIds.value) else reqs
  }

  /** The whole store after `update_requirement` on an existing id. */
  function UpdateStore(reqs: map<Id, Requirement>, id: Id, u: RequirementUpdate, now: Timestamp): (r: map<Id, Requirement>)
    requires id in reqs
    ensures r.Keys == reqs.Keys && r[id].updatedAt == now
    ensures u.parentIds.Some? ==> r[id].parentIds == u.parentIds.value
  {
    var relinked := Relinked(reqs, id, u);
    relinked[id := ApplyUpdate(relinked[id], u, now)]
  }

  /** Whether the final `$set` changed the record; when it did not, the
      handler answers "Requirement not found". */
  predicate UpdateModifies(reqs: map<Id, Requirement>, id: Id, u: RequirementUpdate, now: Timestamp)
    requires id in reqs
    ensures now != reqs[id].updatedAt ==> UpdateModifies(reqs, id, u, now)
  {
    var relinked := Relinked(reqs, id, u);
    ApplyUpdate(relinked[id], u, now) != relinked[id]
  }

  /** What an update does to each record: the target takes the patch, a
      dropped parent loses the target from its children, an added parent
      gains it, no other field of another record changes, and no other
      record changes at all. */
  lemma UpdateEffect(reqs: map<Id, Requirement>, id: Id, u: RequirementUpdate, now: Timestamp)
    requires id in reqs
    ensures var after := UpdateStore(reqs, id, u, now);
      && after.Keys == reqs.Keys
      && (forall k | k in reqs && k != id :: after[k].(childIds := reqs[k].childIds) == reqs[k])
      && (u.parentIds.None? ==> forall k | k in reqs && k != id :: after[k] == reqs[k])
      && (u.parentIds.Some? ==>
            forall k | k in reqs && k != id
              && k !in DroppedParents(reqs, id, u.parentIds.value)
              && k !in AddedParents(reqs, id, u.parentIds.value) :: after[k] == reqs[k])
      && (u.parentIds.Some? ==>
            forall k | k in reqs :: forall y ::
              y in after[k].childIds <==>
                (y in reqs[k].childIds && !(y == id && k in DroppedParents(reqs, id, u.parentIds.value)))
                || (y == id && k in AddedParents(reqs, id, u.parentIds.value)))
  {
    if u.parentIds.Some? {
      forall k | k in reqs {
        ReparentAt(reqs, id, u.parentIds.value, k);
      }
    }
  }

  lemma UpdateKeepsKeyed(reqs: map<Id, Requirement>, id: Id, u: RequirementUpdate, now: Timestamp)
    requires Keyed(reqs) && id in reqs
    ensures Keyed(UpdateStore(reqs, id, u, now))
  {
    if u.parentIds.Some? {
      var np := u.parentIds.value;
      PullFromEachKeepsKeyed(reqs, DroppedParents(reqs, id, np), Children, id);
      var pulled := PullFromEach(reqs, DroppedParents(reqs, id, np), Children, id);
      AddToEachKeepsKeyed(pulled, AddedParents(reqs, id, np), Children, id);
    }
    var relinked := Relinked(reqs, id, u);
    InsertKeepsKeyed(relinked, ApplyUpdate(relinked[id], u, now));
  }

  /** With every new parent in the store, an update keeps a consistent store
      consistent: the child lists of the parents follow the new parent list. */
  lemma UpdatePreservesConsistency(reqs: map<Id, Requirement>, id: Id, u: RequirementUpdate, now: Timestamp)
    requires Consistent(reqs) && id in reqs
    requires u.parentIds.Some? ==> Elems(u.parentIds.value) <= reqs.Keys
    ensures Consistent(UpdateStore(reqs, id, u, now))
  {
    UpdateKeepsClosed(reqs, id, u, now);
    if u.parentIds.Some? {
      UpdateKeepsSymmetric(reqs, id, u, now);
    } else {
      var after := UpdateStore(reqs, id, u, now);
      assert after == reqs[id := ApplyUpdate(reqs[id], u, now)];
    }
  }

  /** A new parent list keeps the links two-sided: the target's parents
      and the parents' child lists change together. */
  lemma UpdateKeepsSymmetric(reqs: map<Id, Requirement>, id: Id, u: RequirementUpdate, now: Timestamp)
    requires Symmetric(reqs) && id in reqs && u.parentIds.Some?
    ensures Symmetric(UpdateStore(reqs, id, u, now))
  {
    var after := UpdateStore(reqs, id, u, now);
    var np := u.parentIds.value;
    UpdateEffect(reqs, id, u, now);
    forall a, b | a in after && b in after
      ensures b in after[a].childIds <==> a in after[b].parentIds
    {
      if b == id {
        if a in reqs[id].parentIds <==> a in np {
          assert b in reqs[a].childIds <==> a in reqs[b].parentIds;
        }
      } else {
        assert b in reqs[a].childIds <==> a in reqs[b].parentIds;
      }
    }
  }

  /** An update names no missing requirement when its new parents exist. */
  lemma UpdateKeepsClosed(reqs: map<Id, Requirement>, id: Id, u: RequirementUpdate, now: Timestamp)
    requires Closed(reqs) && id in reqs
    requires u.parentIds.Some? ==> Elems(u.parentIds.value) <= reqs.Keys
    ensures Closed(UpdateStore(reqs, id, u, now))
  {
    var after := UpdateStore(reqs, id, u, now);
    UpdateEffect(reqs, id, u, now);
    forall a | a in after
      ensures Elems(after[a].parentIds) <= after.Keys && Elems(after[a].childIds) <= after.Keys
    {
      assert Elems(reqs[a].parentIds) <= reqs.Keys && Elems(reqs[a].childIds) <= reqs.Keys;
    }
  }

  /** An update that the handler reports as not found changed nothing: the
      parent list it supplied equals the stored one, so neither loop ran. */
  lemma UnmodifiedUpdateChangesNothing(reqs: map<Id, Requirement>, id: Id, u: RequirementUpdate, now: Timestamp)
    requires id in reqs && !UpdateModifies(reqs, id, u, now)
    ensures UpdateStore(reqs, id, u, now) == reqs
  {
    var relinked := Relinked(reqs, id, u);
    if u.parentIds.Some? {
      assert relinked[id].parentIds == reqs[id].parentIds;
      assert u.parentIds.value == reqs[id].parentIds;
      assert DroppedParents(reqs, id, u.parentIds.value) == {};
      assert AddedParents(reqs, id, u.parentIds.value) == {};
      assert relinked == reqs;
    }
  }

  /** The store after `update_many` with `$set` on the listed ids; ids that
      name no record are skipped. */
  function BatchUpdate(reqs: map<Id, Requirement>, ids: set<Id>, u: RequirementUpdate, now: Timestamp): (r: map<Id, Requirement>)
    ensures r.Keys == reqs.Keys
  {
    map k | k in reqs :: if k in ids then ApplyUpdate(reqs[k], u, now) else reqs[k]
  }

  lemma BatchKeepsKeyed(reqs: map<Id, Requirement>, ids: set<Id>, u: RequirementUpdate, now: Timestamp)
    requires Keyed(reqs)
    ensures Keyed(BatchUpdate(reqs, ids, u, now))
  {
  }

  /** The records `update_many` reports as modified. */
  function BatchModified(reqs: map<Id, Requirement>, ids: set<Id>, u: RequirementUpdate, now: Timestamp): (m: set<Id>)
    ensures m <= ids * reqs.Keys
  {
    set k | k in reqs && k in ids && ApplyUpdate(reqs[k], u, now) != reqs[k]
  }

  /** The modified count never exceeds the number of listed ids that exist,
      and equals it when the clock has moved past every matched record's
      last update (the usual case: the batch always sets `updated_at`). */
  lemma BatchCount(reqs: map<Id, Requirement>, ids: set<Id>, u: RequirementUpdate, now: Timestamp)
    ensures BatchModified(reqs, ids, u, now) <= ids * reqs.Keys
    ensures |BatchModified(reqs, ids, u, now)| <= |ids * reqs.Keys|
    ensures (forall k | k in ids && k in reqs :: reqs[k].updatedAt != now) ==>
              |BatchModified(reqs, ids, u, now)| == |ids * reqs.Keys|
  {
    var m := BatchModified(reqs, ids, u, now);
    var matched := ids * reqs.Keys;
    assert matched == m + (matched - m);
    if forall k | k in ids && k in reqs :: reqs[k].updatedAt != now {
      assert m == matched;
    }
  }

  /** The batch changes exactly the records it reports, and nothing outside
      the listed ids. */
  lemma BatchChangesOnlyModified(reqs: map<Id, Requirement>, ids: set<Id>, u: RequirementUpdate, now: Timestamp)
    ensures forall k | k in reqs :: BatchUpdate(reqs, ids, u, now)[k] != reqs[k] <==> k in BatchModified(reqs, ids, u, now)
  {
  }
}
