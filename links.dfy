/** The parent/child links between requirements. MongoDB's array operators
    become sequence operations here: `$addToSet` appends a value unless it is
    already present, `$pull` removes every occurrence, and an `update_one`
    whose filter matches no record changes nothing. */
module Links {
  import opened Records

  /** The set of ids a link list mentions. */
  function Elems(s: seq<Id>): set<Id>
  {
    set x | x in s
  }

  /** `$addToSet`: the list changes exactly when x was absent, and then x
      is appended once at the end. */
  function AddToSet(s: seq<Id>, x: Id): (r: seq<Id>)
    ensures forall y :: y in r <==> y in s || y == x
    ensures r == s <==> x in s
    ensures x !in s ==> |r| == |s| + 1 && r[..|s|] == s && r[|s|] == x
    ensures x !in s ==> multiset(r) == multiset(s)[x := 1]
  {
    if x in s then s else s + [x]
  }

  /** `$pull`: every occurrence of x goes, and every other element keeps
      its number of occurrences. */
  function Pull(s: seq<Id>, x: Id): (r: seq<Id>)
    ensures multiset(r) == multiset(s)[x := 0]
    ensures forall y :: y in r <==> y in s && y != x
    ensures x !in s ==> r == s
  {
    if s == [] then []
    else
      assert s == [s[0]] + s[1..];
      if s[0] == x then Pull(s[1..], x) else [s[0]] + Pull(s[1..], x)
  }

  /** Pulling twice is pulling once. */
  lemma PullIdempotent(s: seq<Id>, x: Id)
    ensures Pull(Pull(s, x), x) == Pull(s, x)
  {
  }

  /** Which of a requirement's two link lists an operator works on. */
  datatype Side = Parents | Children

  function Other(side: Side): Side
  {
    if side == Parents then Children else Parents
  }

  /** The link list a side names. */
  function SideList(r: Requirement, side: Side): seq<Id>
  {
    match side
    case Parents => r.parentIds
    case Children => r.childIds
  }

  /** The record with the list on one side replaced and every other field,
      the other side included, kept. */
  function WithLinks(r: Requirement, side: Side, s: seq<Id>): (r': Requirement)
    ensures SideList(r', side) == s
    ensures SideList(r', Other(side)) == SideList(r, Other(side))
    ensures r'.(parentIds := r.parentIds, childIds := r.childIds) == r
  {
    match side
    case Parents => r.(parentIds := s)
    case Children => r.(childIds := s)
  }

  /** `update_one({"id": target}, {"$addToSet": {side: x}})`. */
  function AddLink(reqs: map<Id, Requirement>, target: Id, side: Side, x: Id): map<Id, Requirement>
  {
    if target in reqs then
      reqs[target := WithLinks(reqs[target], side, AddToSet(SideList(reqs[target], side), x))]
    else reqs
  }

  /** `update_one({"id": target}, {"$pull": {side: x}})`. */
  function PullLink(reqs: map<Id, Requirement>, target: Id, side: Side, x: Id): map<Id, Requirement>
  {
    if target in reqs then
      reqs[target := WithLinks(reqs[target], side, Pull(SideList(reqs[target], side), x))]
    else reqs
  }

  /** The two `$addToSet` updates of `create_relationship`, parent first. */
  function Link(reqs: map<Id, Requirement>, parent: Id, child: Id): (r: map<Id, Requirement>)
    ensures r.Keys == reqs.Keys
    ensures parent in reqs ==> child in r[parent].childIds
    ensures child in reqs ==> parent in r[child].parentIds
  {
    AddLink(AddLink(reqs, parent, Children, child), child, Parents, parent)
  }

  /** The two `$pull` updates of `delete_relationship`, parent first. */
  function Unlink(reqs: map<Id, Requirement>, parent: Id, child: Id): (r: map<Id, Requirement>)
    ensures r.Keys == reqs.Keys
    ensures parent in reqs ==> child !in r[parent].childIds
    ensures child in reqs ==> parent !in r[child].parentIds
  {
    PullLink(PullLink(reqs, parent, Children, child), child, Parents, parent)
  }

  /** A `$pull` of x from one side of every target that exists, one
      `update_one` per target; the order of the targets does not matter
      because each update touches a different record. */
  function PullFromEach(reqs: map<Id, Requirement>, targets: set<Id>, side: Side, x: Id): (r: map<Id, Requirement>)
    ensures r.Keys == reqs.Keys
  {
    map k | k in reqs :: if k in targets then WithLinks(reqs[k], side, Pull(SideList(reqs[k], side), x)) else reqs[k]
  }

  /** An `$addToSet` of x to one side of every target that exists. */
  function AddToEach(reqs: map<Id, Requirement>, targets: set<Id>, side: Side, x: Id): (r: map<Id, Requirement>)
    ensures r.Keys == reqs.Keys
  {
    map k | k in reqs :: if k in targets then WithLinks(reqs[k], side, AddToSet(SideList(reqs[k], side), x)) else reqs[k]
  }

  /** Pulling from one more target is one more `PullLink`; a target pulled
      twice is pulled once, since `$pull` is idempotent. */
  lemma PullFromEachStep(reqs: map<Id, Requirement>, done: set<Id>, t: Id, side: Side, x: Id)
    ensures PullFromEach(reqs, done + {t}, side, x) == PullLink(PullFromEach(reqs, done, side, x), t, side, x)
  {
    var before := PullFromEach(reqs, done, side, x);
    var a := PullFromEach(reqs, done + {t}, side, x);
    var b := PullLink(before, t, side, x);
    assert a.Keys == b.Keys;
    forall k | k in a ensures a[k] == b[k] {
      if k == t {
        if t in done {
          PullIdempotent(SideList(reqs[t], side), x);
        }
        assert b[k] == WithLinks(before[t], side, Pull(SideList(before[t], side), x));
      } else {
        assert b[k] == before[k];
      }
    }
  }

  /** Adding to one more, new target is one more `AddLink`. */
  lemma AddToEachStep(reqs: map<Id, Requirement>, done: set<Id>, t: Id, side: Side, x: Id)
    requires t !in done
    ensures AddToEach(reqs, done + {t}, side, x) == AddLink(AddToEach(reqs, done, side, x), t, side, x)
  {
  }

  /** Every requirement is stored under its own id. */
  ghost predicate Keyed(reqs: map<Id, Requirement>)
  {
    forall k | k in reqs :: reqs[k].id == k
  }

  lemma InsertKeepsKeyed(reqs: map<Id, Requirement>, r: Requirement)
    requires Keyed(reqs)
    ensures Keyed(reqs[r.id := r])
  {
  }

  lemma PullFromEachKeepsKeyed(reqs: map<Id, Requirement>, targets: set<Id>, side: Side, x: Id)
    requires Keyed(reqs)
    ensures Keyed(PullFromEach(reqs, targets, side, x))
  {
  }

  lemma AddToEachKeepsKeyed(reqs: map<Id, Requirement>, targets: set<Id>, side: Side, x: Id)
    requires Keyed(reqs)
    ensures Keyed(AddToEach(reqs, targets, side, x))
  {
  }

  lemma LinkKeepsKeyed(reqs: map<Id, Requirement>, parent: Id, child: Id)
    requires Keyed(reqs)
    ensures Keyed(Link(reqs, parent, child))
  {
  }

  lemma UnlinkKeepsKeyed(reqs: map<Id, Requirement>, parent: Id, child: Id)
    requires Keyed(reqs)
    ensures Keyed(Unlink(reqs, parent, child))
  {
  }

  lemma DetachKeepsKeyed(reqs: map<Id, Requirement>, id: Id)
    requires Keyed(reqs) && id in reqs
    ensures Keyed(Detach(reqs, id))
  {
  }

  /** The two-sided link invariant: b is a child of a exactly when a is a
      parent of b. */
  ghost predicate Symmetric(reqs: map<Id, Requirement>)
  {
    forall a, b | a in reqs && b in reqs :: b in reqs[a].childIds <==> a in reqs[b].parentIds
  }

  /** No link names a requirement that is not in the store. */
  ghost predicate Closed(reqs: map<Id, Requirement>)
  {
    forall a | a in reqs :: Elems(reqs[a].parentIds) <= reqs.Keys && Elems(reqs[a].childIds) <= reqs.Keys
  }

  ghost predicate Consistent(reqs: map<Id, Requirement>)
  {
    Symmetric(reqs) && Closed(reqs)
  }

  /** What `Link` does to one record: the parent gains the child, the child
      gains the parent, and no other list or field changes. */
  lemma LinkAt(reqs: map<Id, Requirement>, parent: Id, child: Id, k: Id)
    requires k in reqs
    ensures var after := Link(reqs, parent, child);
      && after[k].childIds == (if k == parent then AddToSet(reqs[k].childIds, child) else reqs[k].childIds)
      && after[k].parentIds == (if k == child then AddToSet(reqs[k].parentIds, parent) else reqs[k].parentIds)
      && after[k].(childIds := reqs[k].childIds, parentIds := reqs[k].parentIds) == reqs[k]
  {
  }

  /** What `Unlink` does to one record. */
  lemma UnlinkAt(reqs: map<Id, Requirement>, parent: Id, child: Id, k: Id)
    requires k in reqs
    ensures var after := Unlink(reqs, parent, child);
      && after[k].childIds == (if k == parent then Pull(reqs[k].childIds, child) else reqs[k].childIds)
      && after[k].parentIds == (if k == child then Pull(reqs[k].parentIds, parent) else reqs[k].parentIds)
      && after[k].(childIds := reqs[k].childIds, parentIds := reqs[k].parentIds) == reqs[k]
  {
  }

  /** Linking two existing requirements that are not yet linked puts each id
      exactly once on the other's list and changes nothing else. */
  lemma LinkAddsOnce(reqs: map<Id, Requirement>, parent: Id, child: Id)
    requires parent in reqs && child in reqs
    requires child !in reqs[parent].childIds && parent !in reqs[child].parentIds
    ensures var after := Link(reqs, parent, child);
      && after.Keys == reqs.Keys
      && multiset(after[parent].childIds)[child] == 1
      && multiset(after[child].parentIds)[parent] == 1
      && (forall k | k in reqs && k != parent && k != child :: after[k] == reqs[k])
  {
    var mid := AddLink(reqs, parent, Children, child);
    var after := Link(reqs, parent, child);
    var children := AddToSet(reqs[parent].childIds, child);
    assert mid == reqs[parent := reqs[parent].(childIds := children)];
    assert multiset(children)[child] == 1;
    assert after[parent].childIds == children;
    assert mid[child].parentIds == reqs[child].parentIds;
    assert multiset(after[child].parentIds)[parent] == 1;
  }

  /** When the child is missing the parent still gains it: the update on the
      side that exists is not undone. */
  lemma LinkMissingChildUpdatesParent(reqs: map<Id, Requirement>, parent: Id, child: Id)
    requires parent in reqs && child !in reqs
    ensures Link(reqs, parent, child) == reqs[parent := reqs[parent].(childIds := AddToSet(reqs[parent].childIds, child))]
  {
  }

  /** When the parent is missing the child still gains it. */
  lemma LinkMissingParentUpdatesChild(reqs: map<Id, Requirement>, parent: Id, child: Id)
    requires parent !in reqs && child in reqs
    ensures Link(reqs, parent, child) == reqs[child := reqs[child].(parentIds := AddToSet(reqs[child].parentIds, parent))]
  {
  }

  /** In a consistent store, linking an existing pair again changes nothing. */
  lemma RelinkIsNoOp(reqs: map<Id, Requirement>, parent: Id, child: Id)
    requires Consistent(reqs) && parent in reqs && child in reqs
    requires child in reqs[parent].childIds
    ensures Link(reqs, parent, child) == reqs
  {
    assert parent in reqs[child].parentIds;
  }

  /** Linking is idempotent. */
  lemma LinkIdempotent(reqs: map<Id, Requirement>, parent: Id, child: Id)
    ensures Link(Link(reqs, parent, child), parent, child) == Link(reqs, parent, child)
  {
    var once := Link(reqs, parent, child);
    var twice := Link(once, parent, child);
    forall k | k in once ensures twice[k] == once[k] {
      LinkAt(reqs, parent, child, k);
      LinkAt(once, parent, child, k);
    }
  }

  /** Linking two existing requirements keeps the store consistent. */
  lemma LinkPreservesConsistency(reqs: map<Id, Requirement>, parent: Id, child: Id)
    requires Consistent(reqs) && parent in reqs && child in reqs
    ensures Consistent(Link(reqs, parent, child))
  {
    var after := Link(reqs, parent, child);
    assert after.Keys == reqs.Keys;
    forall k | k in after
      ensures (forall y :: y in after[k].childIds <==> y in reqs[k].childIds || (k == parent && y == child))
      ensures (forall y :: y in after[k].parentIds <==> y in reqs[k].parentIds || (k == child && y == parent))
    {
      LinkAt(reqs, parent, child, k);
    }
  }

  /** Unlinking removes every occurrence on both sides that exist. */
  lemma UnlinkRemoves(reqs: map<Id, Requirement>, parent: Id, child: Id)
    ensures var after := Unlink(reqs, parent, child);
      && after.Keys == reqs.Keys
      && (parent in reqs ==> child !in after[parent].childIds)
      && (child in reqs ==> parent !in after[child].parentIds)
      && (forall k | k in reqs && k != parent && k != child :: after[k] == reqs[k])
  {
    var mid := PullLink(reqs, parent, Children, child);
    if parent in reqs && parent == child {
      assert child !in mid[parent].childIds;
    }
  }

  /** Unlinking a pair that is not linked on either side changes nothing. */
  lemma UnlinkAbsentIsNoOp(reqs: map<Id, Requirement>, parent: Id, child: Id)
    requires parent in reqs ==> child !in reqs[parent].childIds
    requires child in reqs ==> parent !in reqs[child].parentIds
    ensures Unlink(reqs, parent, child) == reqs
  {
    var mid := PullLink(reqs, parent, Children, child);
    assert mid == reqs;
  }

  /** Unlinking keeps the store consistent. */
  lemma UnlinkPreservesConsistency(reqs: map<Id, Requirement>, parent: Id, child: Id)
    requires Consistent(reqs)
    ensures Consistent(Unlink(reqs, parent, child))
  {
    var after := Unlink(reqs, parent, child);
    assert after.Keys == reqs.Keys;
    forall k | k in after
      ensures (forall y :: y in after[k].childIds <==> y in reqs[k].childIds && !(k == parent && y == child))
      ensures (forall y :: y in after[k].parentIds <==> y in reqs[k].parentIds && !(k == child && y == parent))
    {
      UnlinkAt(reqs, parent, child, k);
    }
  }

  /** `delete_requirement` after its lookup: pull the id from the children of
      every recorded parent and from the parents of every recorded child,
      then remove the record. */
  function Detach(reqs: map<Id, Requirement>, id: Id): (r: map<Id, Requirement>)
    requires id in reqs
    ensures r.Keys == reqs.Keys - {id}
  {
    var fromParents := PullFromEach(reqs, Elems(reqs[id].parentIds), Children, id);
    PullFromEach(fromParents, Elems(reqs[id].childIds), Parents, id) - {id}
  }

  /** What deleting a requirement does to each survivor: only recorded
      neighbours change, each loses exactly the deleted id, and no field but
      the two link lists changes anywhere. */
  lemma DetachEffect(reqs: map<Id, Requirement>, id: Id)
    requires id in reqs
    ensures var after := Detach(reqs, id);
      && after.Keys == reqs.Keys - {id}
      && (forall k | k in after && k !in reqs[id].parentIds && k !in reqs[id].childIds :: after[k] == reqs[k])
      && (forall k | k in after ::
            after[k].childIds == (if k in reqs[id].parentIds then Pull(reqs[k].childIds, id) else reqs[k].childIds))
      && (forall k | k in after ::
            after[k].parentIds == (if k in reqs[id].childIds then Pull(reqs[k].parentIds, id) else reqs[k].parentIds))
      && (forall k | k in after :: after[k].(childIds := reqs[k].childIds, parentIds := reqs[k].parentIds) == reqs[k])
  {
  }

  /** Deleting a requirement from a consistent store leaves no link to it
      and keeps the store consistent. */
  lemma DetachPreservesConsistency(reqs: map<Id, Requirement>, id: Id)
    requires Consistent(reqs) && id in reqs
    ensures Consistent(Detach(reqs, id))
    ensures forall k | k in Detach(reqs, id) :: id !in Detach(reqs, id)[k].childIds && id !in Detach(reqs, id)[k].parentIds
  {
    var after := Detach(reqs, id);
    DetachEffect(reqs, id);
    forall k | k in after
      ensures id !in after[k].childIds && id !in after[k].parentIds
      ensures forall y :: y in after[k].childIds <==> y in reqs[k].childIds && y != id
      ensures forall y :: y in after[k].parentIds <==> y in reqs[k].parentIds && y != id
    {
      if id in reqs[k].childIds {
        assert k in reqs[id].parentIds;
      }
      if id in reqs[k].parentIds {
        assert k in reqs[id].childIds;
      }
    }
  }
}
