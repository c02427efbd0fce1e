// Resource ids of an EGM project: the highest id kept while loading, and the pass that
// repairs missing and repeated ids.
module ResourceIds {
  datatype Kind = Background | Font | Object | Path | Room | Script | Shader | Sound | Sprite | Timeline

  /** A tree node: what its type field holds. slot says which resource message; Untyped is
      a node whose type was never set. */
  datatype Tree = Folder(name: string, children: seq<Tree>) | Resource(name: string, kind: Kind, slot: nat)
    | Unknown(name: string) | Untyped(name: string)

  datatype Item = Item(kind: Kind, slot: nat)

  /** Ids by slot; a slot that is not there has no id set. */
  type Ids = map<nat, int>

  // ---- the order of the repair pass ----

  function Own(t: Tree): seq<Item> {
    if t.Resource? then [Item(t.kind, t.slot)] else []
  }

  /** The resources below a node, a folder's before what follows it. */
  function Order(t: Tree): seq<Item> {
    if t.Folder? then OrderAll(t.children) else []
  }

  function OrderAll(ts: seq<Tree>): seq<Item> {
    if ts == [] then [] else Order(ts[0]) + Own(ts[0]) + OrderAll(ts[1..])
  }

  lemma {:induction false} OrderAppend(ts: seq<Tree>, t: Tree)
    ensures OrderAll(ts + [t]) == OrderAll(ts) + (Order(t) + Own(t))
  {
    if ts == [] {
      assert [t][1..] == [];
    } else {
      assert (ts + [t])[1..] == ts[1..] + [t];
      OrderAppend(ts[1..], t);
    }
  }

  // ---- what the pass assigns ----

  /** The i-th resource is the first of its kind with the id it has. */
  predicate First(before: Ids, order: seq<Item>, i: nat)
    requires i < |order|
  {
    order[i].slot in before
    && forall j :: 0 <= j < i ==> !SameId(before, order[j], order[i])
  }

  predicate SameId(before: Ids, x: Item, y: Item) {
    x.kind == y.kind && x.slot in before && y.slot in before && before[x.slot] == before[y.slot]
  }

  /** How many of the first n resources of the kind hold no id of their own. */
  function Homeless(before: Ids, order: seq<Item>, kind: Kind, n: nat): nat
    requires n <= |order|
  {
    if n == 0 then 0
    else if order[n - 1].kind == kind && !First(before, order, n - 1) then Homeless(before, order, kind, n - 1) + 1
    else Homeless(before, order, kind, n - 1)
  }

  predicate AllKinds(max: map<Kind, int>) {
    forall k: Kind :: k in max
  }

  /** First holders keep their id; the others get the ids above max, in order. */
  function IdOf(before: Ids, max: map<Kind, int>, order: seq<Item>, i: nat): int
    requires i < |order| && AllKinds(max)
  {
    if First(before, order, i) then before[order[i].slot]
    else max[order[i].kind] + Homeless(before, order, order[i].kind, i + 1)
  }

  ghost predicate Distinct(before: Ids, max: map<Kind, int>, order: seq<Item>)
    requires AllKinds(max)
  {
    forall i, j :: 0 <= i < j < |order| && order[i].kind == order[j].kind ==>
      IdOf(before, max, order, i) != IdOf(before, max, order, j)
  }

  /** The preset id is none of the ids that will be given out. */
  predicate OutOfTheWay(before: Ids, max: map<Kind, int>, order: seq<Item>, item: Item)
    requires AllKinds(max)
  {
    item.slot in before ==>
      !(max[item.kind] < before[item.slot] <= max[item.kind] + Homeless(before, order, item.kind, |order|))
  }

  lemma {:induction false} HomelessGrows(before: Ids, order: seq<Item>, kind: Kind, m: nat, n: nat)
    requires m <= n <= |order|
    ensures Homeless(before, order, kind, m) <= Homeless(before, order, kind, n)
    decreases n
  {
    if m < n { HomelessGrows(before, order, kind, m, n - 1); }
  }

  /** Each number up to the count is some homeless resource's. */
  lemma {:induction false} EveryRankIsTaken(before: Ids, order: seq<Item>, kind: Kind, n: nat, r: nat) returns (i: nat)
    requires n <= |order| && 0 < r <= Homeless(before, order, kind, n)
    ensures i < n && order[i].kind == kind && !First(before, order, i)
    ensures Homeless(before, order, kind, i + 1) == r
    decreases n
  {
    if r == Homeless(before, order, kind, n) && order[n - 1].kind == kind && !First(before, order, n - 1) {
      i := n - 1;
    } else {
      i := EveryRankIsTaken(before, order, kind, n - 1, r);
    }
  }

  lemma {:induction false} SomeoneIsFirst(before: Ids, order: seq<Item>, j: nat) returns (i: nat)
    requires j < |order| && order[j].slot in before
    ensures i <= j && First(before, order, i) && SameId(before, order[i], order[j])
    decreases j
  {
    if First(before, order, j) {
      i := j;
    } else {
      var k :| 0 <= k < j && SameId(before, order[k], order[j]);
      i := SomeoneIsFirst(before, order, k);
    }
  }

  lemma PairIsDistinct(before: Ids, max: map<Kind, int>, order: seq<Item>, i: nat, j: nat)
    requires AllKinds(max) && i < j < |order| && order[i].kind == order[j].kind
    requires OutOfTheWay(before, max, order, order[i]) && OutOfTheWay(before, max, order, order[j])
    ensures IdOf(before, max, order, i) != IdOf(before, max, order, j)
  {
    var kind := order[i].kind;
    HomelessGrows(before, order, kind, i + 1, j);
    HomelessGrows(before, order, kind, i + 1, |order|);
    HomelessGrows(before, order, kind, j + 1, |order|);
    if First(before, order, i) && First(before, order, j) {
      assert !SameId(before, order[i], order[j]);
    }
  }

  lemma InTheWayIsTaken(before: Ids, max: map<Kind, int>, order: seq<Item>, j: nat)
    requires AllKinds(max) && j < |order| && !OutOfTheWay(before, max, order, order[j])
    ensures !Distinct(before, max, order)
  {
    var kind := order[j].kind;
    var keeper := SomeoneIsFirst(before, order, j);
    var taker := EveryRankIsTaken(before, order, kind, |order|, before[order[j].slot] - max[kind]);
    assert IdOf(before, max, order, keeper) == IdOf(before, max, order, taker);
  }

  /** The ids end up distinct exactly when no preset id is among those given out. */
  lemma IdsAreDistinctExactly(before: Ids, max: map<Kind, int>, order: seq<Item>)
    requires AllKinds(max)
    ensures Distinct(before, max, order)
       <==> forall i :: 0 <= i < |order| ==> OutOfTheWay(before, max, order, order[i])
  {
    if forall i :: 0 <= i < |order| ==> OutOfTheWay(before, max, order, order[i]) {
      forall i, j | 0 <= i < j < |order| && order[i].kind == order[j].kind
        ensures IdOf(before, max, order, i) != IdOf(before, max, order, j)
      {
        PairIsDistinct(before, max, order, i, j);
      }
    } else {
      var j :| 0 <= j < |order| && !OutOfTheWay(before, max, order, order[j]);
      InTheWayIsTaken(before, max, order, j);
    }
  }

  /** The preset ids of each kind are no higher than the highest recorded. */
  predicate Bounded(before: Ids, max: map<Kind, int>, order: seq<Item>)
    requires AllKinds(max)
  {
    forall i :: 0 <= i < |order| && order[i].slot in before ==> before[order[i].slot] <= max[order[i].kind]
  }

  /** From bounded presets: distinct ids, the first holders keep theirs, and the new
      highest is above all. */
  lemma BoundedPresetsAreRepaired(before: Ids, max: map<Kind, int>, order: seq<Item>)
    requires AllKinds(max) && Bounded(before, max, order)
    ensures Distinct(before, max, order)
    ensures forall i :: 0 <= i < |order| ==>
      IdOf(before, max, order, i) <= max[order[i].kind] + Homeless(before, order, order[i].kind, |order|)
    ensures forall i :: 0 <= i < |order| && First(before, order, i) ==>
      IdOf(before, max, order, i) == before[order[i].slot]
  {
    IdsAreDistinctExactly(before, max, order);
    forall i | 0 <= i < |order|
      ensures IdOf(before, max, order, i) <= max[order[i].kind] + Homeless(before, order, order[i].kind, |order|)
    {
      HomelessGrows(before, order, order[i].kind, i + 1, |order|);
    }
  }

  lemma {:induction false} HomelessOfPrefix(before: Ids, order: seq<Item>, more: seq<Item>, kind: Kind, n: nat)
    requires n <= |order|
    ensures Homeless(before, order + more, kind, n) == Homeless(before, order, kind, n)
    decreases n
  {
    if n > 0 {
      HomelessOfPrefix(before, order, more, kind, n - 1);
      assert (order + more)[..n] == order[..n];
      assert First(before, order + more, n - 1) == First(before, order, n - 1) by {
        assert forall j :: 0 <= j < n ==> (order + more)[j] == order[j];
      }
    }
  }

  lemma IdOfPrefix(before: Ids, max: map<Kind, int>, order: seq<Item>, more: seq<Item>, i: nat)
    requires AllKinds(max) && i < |order|
    ensures IdOf(before, max, order + more, i) == IdOf(before, max, order, i)
  {
    HomelessOfPrefix(before, order, more, order[i].kind, i + 1);
    assert forall j :: 0 <= j <= i ==> (order + more)[j] == order[j];
  }
}

module RepairPass {
  import opened Sequences
  import opened ResourceIds

  /** The slots are the messages of different resources. */
  predicate Separate(order: seq<Item>) {
    forall i, j :: 0 <= i < j < |order| ==> order[i].slot != order[j].slot
  }

  predicate Presets(before: Ids, item: Item, kind: Kind, id: int) {
    item.kind == kind && item.slot in before && before[item.slot] == id
  }

  type Names = map<Kind, map<int, string>>

  predicate Recorded(idMap: Names, kind: Kind, id: int) {
    kind in idMap && id in idMap[kind]
  }

  predicate Visited(done: seq<Item>, slot: nat) {
    exists i :: 0 <= i < |done| && done[i].slot == slot
  }

  /** The state once these resources have been seen to, starting from before and max. */
  ghost predicate Reached(before: Ids, max: map<Kind, int>, done: seq<Item>, maxID: map<Kind, int>, idMap: Names, ids: Ids) {
    && AllKinds(max) && AllKinds(maxID)
    && (forall k: Kind :: maxID[k] == max[k] + Homeless(before, done, k, |done|))
    && IdsReached(before, max, done, ids)
    && (forall slot :: !Visited(done, slot) ==>
          (slot in ids <==> slot in before) && (slot in ids ==> ids[slot] == before[slot]))
    && (forall k, v :: Recorded(idMap, k, v) <==> exists i :: 0 <= i < |done| && Presets(before, done[i], k, v))
  }

  predicate IdsReached(before: Ids, max: map<Kind, int>, done: seq<Item>, ids: Ids)
    requires AllKinds(max)
  {
    forall i :: 0 <= i < |done| ==> done[i].slot in ids && ids[done[i].slot] == IdOf(before, max, done, i)
  }

  lemma OneMore(before: Ids, max: map<Kind, int>, done: seq<Item>, item: Item)
    requires AllKinds(max)
    ensures var order := done + [item];
      && (forall k: Kind :: Homeless(before, order, k, |done|) == Homeless(before, done, k, |done|))
      && (forall i :: 0 <= i < |done| ==> IdOf(before, max, order, i) == IdOf(before, max, done, i))
      && (First(before, order, |done|) <==>
            item.slot in before && !exists i :: 0 <= i < |done| && Presets(before, done[i], item.kind, before[item.slot]))
  {
    var order := done + [item];
    forall k: Kind ensures Homeless(before, order, k, |done|) == Homeless(before, done, k, |done|) {
      HomelessOfPrefix(before, done, [item], k, |done|);
    }
    forall i | 0 <= i < |done| ensures IdOf(before, max, order, i) == IdOf(before, max, done, i) {
      IdOfPrefix(before, max, done, [item], i);
    }
    assert forall j :: 0 <= j < |done| ==> order[j] == done[j];
    if item.slot in before {
      assert forall j :: 0 <= j < |done| ==>
        (SameId(before, done[j], item) <==> Presets(before, done[j], item.kind, before[item.slot]));
    }
  }

  lemma IdsStep(before: Ids, max: map<Kind, int>, done: seq<Item>, item: Item, ids: Ids, id: int)
    requires AllKinds(max) && IdsReached(before, max, done, ids) && Separate(done + [item])
    requires id == IdOf(before, max, done + [item], |done|)
    ensures IdsReached(before, max, done + [item], ids[item.slot := id])
  {
    hide IdOf;
    var order := done + [item];
    var ids' := ids[item.slot := id];
    assert order[|done|] == item;
    forall i | 0 <= i < |order|
      ensures order[i].slot in ids' && ids'[order[i].slot] == IdOf(before, max, order, i)
    {
      if i < |done| {
        assert order[i] == done[i] && order[i].slot != order[|done|].slot;
        IdOfPrefix(before, max, done, [item], i);
      }
    }
  }

  lemma VisitedStep(done: seq<Item>, item: Item, slot: nat)
    ensures Visited(done + [item], slot) <==> Visited(done, slot) || slot == item.slot
  {
    assert (done + [item])[|done|] == item;
    if Visited(done, slot) {
      var i :| 0 <= i < |done| && done[i].slot == slot;
      assert (done + [item])[i].slot == slot;
    }
  }

  lemma PresetsStep(before: Ids, done: seq<Item>, item: Item, k: Kind, v: int)
    ensures (exists i :: 0 <= i < |done + [item]| && Presets(before, (done + [item])[i], k, v))
       <==> (exists i :: 0 <= i < |done| && Presets(before, done[i], k, v)) || Presets(before, item, k, v)
  {
    assert (done + [item])[|done|] == item;
    if i :| 0 <= i < |done| && Presets(before, done[i], k, v) {
      assert (done + [item])[i] == done[i];
    }
  }

  /** A resource with no id, or with one that is recorded, gets the next above the highest. */
  lemma FreshStep(before: Ids, max: map<Kind, int>, done: seq<Item>, item: Item,
                  maxID: map<Kind, int>, idMap: Names, ids: Ids)
    requires Reached(before, max, done, maxID, idMap, ids) && Separate(done + [item])
    requires item.slot !in before || Recorded(idMap, item.kind, before[item.slot])
    ensures var id := maxID[item.kind] + 1;
      Reached(before, max, done + [item], maxID[item.kind := id], idMap, ids[item.slot := id])
  {
    hide IdsReached, Separate, Homeless, First, Visited, Presets;
    var order, id := done + [item], maxID[item.kind] + 1;
    OneMore(before, max, done, item);
    assert order[|done|] == item && |order| == |done| + 1;
    HomelessStep(before, order);
    IdsStep(before, max, done, item, ids, id);
    forall slot ensures Visited(order, slot) <==> Visited(done, slot) || slot == item.slot {
      VisitedStep(done, item, slot);
    }
    forall k, v
      ensures Recorded(idMap, k, v) <==> exists i :: 0 <= i < |order| && Presets(before, order[i], k, v)
    {
      PresetsStep(before, done, item, k, v);
      if Presets(before, item, k, v) { PresetsMeans(before, item, k, v); }
    }
  }

  lemma PresetsMeans(before: Ids, item: Item, k: Kind, v: int)
    ensures Presets(before, item, k, v) <==> item.kind == k && item.slot in before && before[item.slot] == v
  {
  }

  lemma HomelessStep(before: Ids, order: seq<Item>)
    requires order != []
    ensures var n := |order| - 1;
      forall k: Kind :: Homeless(before, order, k, n + 1)
        == Homeless(before, order, k, n) + (if order[n].kind == k && !First(before, order, n) then 1 else 0)
  {
  }

  /** A resource with an id that is not recorded keeps it. */
  lemma KeptStep(before: Ids, max: map<Kind, int>, done: seq<Item>, item: Item,
                 maxID: map<Kind, int>, idMap: Names, idMap': Names, ids: Ids)
    requires Reached(before, max, done, maxID, idMap, ids) && Separate(done + [item])
    requires item.slot in before && item.slot in ids && ids[item.slot] == before[item.slot]
    requires !Recorded(idMap, item.kind, before[item.slot])
    requires forall k, v ::
      (Recorded(idMap', k, v) <==> Recorded(idMap, k, v) || (k == item.kind && v == before[item.slot]))
    ensures Reached(before, max, done + [item], maxID, idMap', ids)
  {
    hide IdsReached, Separate, Homeless, First, Visited, Presets, Recorded;
    var order, id := done + [item], before[item.slot];
    OneMore(before, max, done, item);
    assert order[|done|] == item && |order| == |done| + 1;
    HomelessStep(before, order);
    assert First(before, order, |done|);
    FirstKeeps(before, max, order, |done|);
    IdsStep(before, max, done, item, ids, id);
    assert ids[item.slot := id] == ids;
    forall slot ensures Visited(order, slot) <==> Visited(done, slot) || slot == item.slot {
      VisitedStep(done, item, slot);
    }
    forall k, v
      ensures Recorded(idMap', k, v) <==> exists i :: 0 <= i < |order| && Presets(before, order[i], k, v)
    {
      PresetsStep(before, done, item, k, v);
      PresetsMeans(before, item, k, v);
    }
    assert IdsReached(before, max, order, ids);
    assert forall k: Kind :: maxID[k] == max[k] + Homeless(before, order, k, |order|);
    assert (forall slot :: !Visited(order, slot) ==>
          (slot in ids <==> slot in before) && (slot in ids ==> ids[slot] == before[slot]));
  }

  lemma FirstKeeps(before: Ids, max: map<Kind, int>, order: seq<Item>, i: nat)
    requires AllKinds(max) && i < |order| && First(before, order, i)
    ensures IdOf(before, max, order, i) == before[order[i].slot]
  {
  }

  lemma NotVisited(done: seq<Item>, item: Item)
    requires Separate(done + [item])
    ensures !Visited(done, item.slot)
  {
    assert (done + [item])[|done|] == item;
    assert forall i :: 0 <= i < |done| ==> (done + [item])[i] == done[i];
  }

  lemma SeparateStart(order: seq<Item>, more: seq<Item>)
    requires Separate(order + more)
    ensures Separate(order)
  {
    assert forall i :: 0 <= i < |order| ==> (order + more)[i] == order[i];
  }

  class SanityCheck {
    var maxID: map<Kind, int>
    var idMap: Names
    var ids: Ids

    constructor (maxID: map<Kind, int>, ids: Ids)
      ensures this.maxID == maxID && this.ids == ids && idMap == map[]
    {
      this.maxID, this.ids, idMap := maxID, ids, map[];
    }

    ghost predicate After(before: Ids, max: map<Kind, int>, done: seq<Item>)
      reads this
    {
      Reached(before, max, done, maxID, idMap, ids)
    }

    /** The loop body of the pass once a child's own children are done. */
    method CheckOne(c: Tree, ghost before: Ids, ghost max: map<Kind, int>, ghost done: seq<Item>)
      requires c.Resource? && After(before, max, done) && Separate(done + [Item(c.kind, c.slot)])
      modifies this
      ensures After(before, max, done + [Item(c.kind, c.slot)])
    {
      hide IdsReached, Separate, Homeless, Visited, Presets;
      ghost var item := Item(c.kind, c.slot);
      NotVisited(done, item);
      var id := -1;
      if c.slot in ids {
        id := ids[c.slot];
      } else {
        FreshStep(before, max, done, item, maxID, idMap, ids);
        id := maxID[c.kind] + 1;
        maxID := maxID[c.kind := id];
        ids := ids[c.slot := id];
        return;
      }
      ghost var recorded := idMap;
      if c.kind !in idMap {
        idMap := idMap[c.kind := map[]];
      }
      assert forall k, v :: Recorded(idMap, k, v) <==> Recorded(recorded, k, v);
      if id in idMap[c.kind] {
        FreshStep(before, max, done, item, maxID, idMap, ids);
        id := maxID[c.kind] + 1;
        maxID := maxID[c.kind := id];
        ids := ids[c.slot := id];
      } else {
        idMap := idMap[c.kind := idMap[c.kind][id := c.name]];
        KeptStep(before, max, done, item, maxID, recorded, idMap, ids);
      }
    }

    method RecursiveResourceSanityCheck(n: Tree, ghost before: Ids, ghost max: map<Kind, int>, ghost done: seq<Item>)
      requires After(before, max, done) && Separate(done + Order(n))
      modifies this
      ensures After(before, max, done + Order(n))
      decreases n
    {
      hide Reached, Separate, Order;
      if !n.Folder? {
        NoOrder(n, done);
        return;
      }
      ghost var all, seen := done + Order(n), done;
      assert Order(n) == OrderAll(n.children[0..]) by { FolderOrder(n); }
      var i := 0;
      while i < |n.children|
        invariant i <= |n.children| && seen + OrderAll(n.children[i..]) == all
        invariant After(before, max, seen)
      {
        var c := n.children[i];
        ghost var rest := OrderAll(n.children[i + 1..]);
        assert n.children[i..][1..] == n.children[i + 1..];
        Assoc(seen, Order(c) + Own(c), rest);
        Assoc(seen, Order(c), Own(c));
        SeparateStart(seen + Order(c) + Own(c), rest);
        SeparateStart(seen + Order(c), Own(c));
        RecursiveResourceSanityCheck(c, before, max, seen);
        seen := seen + Order(c);
        if c.Resource? {
          CheckOne(c, before, max, seen);
        } else {
          assert seen + [] == seen;
        }
        seen := seen + Own(c);
        i := i + 1;
      }
      assert n.children[i..] == [] && seen + [] == seen;
    }

    /** Resources with presets no higher than the highest recorded end up with distinct
        ids, none above the highest now recorded. */
    method ResourceSanityCheck(n: Tree)
      requires AllKinds(maxID) && Separate(Order(n)) && Bounded(ids, maxID, Order(n))
      modifies this
      ensures AllKinds(maxID) && IdsReached(old(ids), old(maxID), Order(n), ids)
      ensures forall k: Kind :: old(maxID)[k] <= maxID[k]
      ensures forall slot :: slot in ids <==> slot in old(ids) || Visited(Order(n), slot)
      ensures forall i, j :: 0 <= i < j < |Order(n)| && Order(n)[i].kind == Order(n)[j].kind ==>
        ids[Order(n)[i].slot] != ids[Order(n)[j].slot]
      ensures Bounded(ids, maxID, Order(n))
      ensures forall i :: 0 <= i < |Order(n)| && First(old(ids), Order(n), i) ==>
        ids[Order(n)[i].slot] == old(ids)[Order(n)[i].slot]
    {
      hide Order, IdOf, Homeless, First;
      idMap := map[];
      ghost var before, max := ids, maxID;
      assert [] + Order(n) == Order(n);
      NothingDone(before, max);
      RecursiveResourceSanityCheck(n, before, max, []);
      BoundedPresetsAreRepaired(before, max, Order(n));
    }
  }

  lemma NothingDone(before: Ids, max: map<Kind, int>)
    requires AllKinds(max)
    ensures Reached(before, max, [], max, map[], before)
  {
  }

  lemma NoOrder(n: Tree, done: seq<Item>)
    requires !n.Folder?
    ensures done + Order(n) == done
  {
  }

  lemma FolderOrder(n: Tree)
    requires n.Folder?
    ensures Order(n) == OrderAll(n.children[0..])
  {
    assert n.children[0..] == n.children;
  }
}

module ProjectLoader {
  import opened Options
  import opened ResourceIds
  import opened RepairPass

  /** An entry of the project tree: of tree.yaml, or of a directory. Its kind is None when
      the type is not supported. */
  datatype Entry = FolderEntry(name: string, contents: seq<Entry>)
    | ResourceEntry(name: string, kind: Option<Kind>, id: Option<int>)

  /** Resources loaded into new messages, ids no higher than the highest recorded. */
  ghost predicate Fits(order: seq<Item>, first: nat, next: nat, ids: Ids, maxID: map<Kind, int>)
    requires AllKinds(maxID)
  {
    && (forall i :: 0 <= i < |order| ==> first <= order[i].slot < next)
    && Separate(order) && Bounded(ids, maxID, order)
  }

  /** What loading more leaves of what was loaded. */
  ghost predicate Grown(next: nat, ids: Ids, maxID: map<Kind, int>, next': nat, ids': Ids, maxID': map<Kind, int>) {
    && next <= next' && AllKinds(maxID) && AllKinds(maxID')
    && (forall k: Kind :: maxID[k] <= maxID'[k])
    && (forall slot :: 0 <= slot < next ==>
          (slot in ids <==> slot in ids') && (slot in ids ==> ids[slot] == ids'[slot]))
    && (forall slot :: slot in ids' ==> slot < next')
  }

  lemma GrownNone(next: nat, ids: Ids, maxID: map<Kind, int>)
    requires AllKinds(maxID) && forall slot :: slot in ids ==> slot < next
    ensures Grown(next, ids, maxID, next, ids, maxID)
  {
  }

  lemma GrownTwice(n1: nat, ids1: Ids, max1: map<Kind, int>, n2: nat, ids2: Ids, max2: map<Kind, int>,
                   n3: nat, ids3: Ids, max3: map<Kind, int>)
    requires Grown(n1, ids1, max1, n2, ids2, max2) && Grown(n2, ids2, max2, n3, ids3, max3)
    ensures n1 <= n2 <= n3 && Grown(n1, ids1, max1, n3, ids3, max3)
  {
  }

  lemma GrownKeepsFit(order: seq<Item>, first: nat, next: nat, ids: Ids, maxID: map<Kind, int>,
                      next': nat, ids': Ids, maxID': map<Kind, int>)
    requires Grown(next, ids, maxID, next', ids', maxID') && Fits(order, first, next, ids, maxID)
    ensures Fits(order, first, next, ids', maxID')
  {
    forall i | 0 <= i < |order| && order[i].slot in ids'
      ensures ids'[order[i].slot] <= maxID'[order[i].kind]
    {
      assert order[i].slot in ids && ids[order[i].slot] <= maxID[order[i].kind];
    }
  }

  predicate TakesAnyId(kind: Kind) {
    kind == Script || kind == Shader || kind == Timeline
  }

  predicate Unsupported(e: Entry) {
    e.ResourceEntry? && e.kind.None?
  }

  predicate EndsUnsupported(entries: seq<Entry>) {
    entries != [] && Unsupported(entries[|entries| - 1])
  }

  /** How many entries go up to the last unsupported one. */
  function Dropped(entries: seq<Entry>): (n: nat)
    ensures n <= |entries|
    ensures n > 0 ==> Unsupported(entries[n - 1])
    ensures forall i :: n <= i < |entries| ==> !Unsupported(entries[i])
  {
    if entries == [] then 0
    else if EndsUnsupported(entries) then |entries|
    else Dropped(entries[..|entries| - 1])
  }

  function Children(t: Tree): seq<Tree> {
    if t.Folder? then t.children else []
  }

  predicate HoldsResource(e: Entry, t: Tree, treeFile: bool, ids: Ids, next: nat)
    requires e.ResourceEntry? && e.kind.Some?
  {
    var id := if e.id.Some? then e.id.value else -1;
    && t.Resource? && t.name == e.name && t.kind == e.kind.value && t.slot < next
    && (t.slot in ids <==> !treeFile || id >= 0 || t.kind in {Script, Shader, Timeline})
    && (treeFile && t.slot in ids ==> ids[t.slot] == id)
  }

  /** The node is what loading makes of the entry. With a tree file the id is the entry's,
      -1 when it has none; scripts, shaders and timelines are given even that. Without one
      every resource has some id, and a file that is no resource leaves an untyped node. */
  predicate Holds(e: Entry, t: Tree, treeFile: bool, ids: Ids, next: nat)
    decreases e, 0
  {
    match e
    case FolderEntry(name, contents) => t.name == name && NodeHolds(contents, t, treeFile, ids, next)
    case ResourceEntry(name, None, _) => !treeFile && t == Untyped(name)
    case ResourceEntry(_, Some(_), _) => HoldsResource(e, t, treeFile, ids, next)
  }

  /** The node after all of its entries. With a tree file an unsupported entry makes the
      node itself unknown, and what it held is gone; later entries start it afresh. An
      empty directory leaves its node untyped. */
  predicate NodeHolds(entries: seq<Entry>, node: Tree, treeFile: bool, ids: Ids, next: nat)
    decreases entries, 1
  {
    && (if treeFile then (if EndsUnsupported(entries) then node.Unknown? else node.Folder?)
        else (if entries == [] then node.Untyped? else node.Folder?))
    && HoldsFrom(entries, if treeFile then Dropped(entries) else 0, Children(node), treeFile, ids, next)
  }

  predicate HoldsFrom(entries: seq<Entry>, from: nat, children: seq<Tree>, treeFile: bool, ids: Ids, next: nat)
    decreases entries, 0
  {
    from + |children| == |entries|
    && forall i :: 0 <= i < |children| ==> Holds(entries[from + i], children[i], treeFile, ids, next)
  }

  lemma {:induction false} GrownKeepsHeld(e: Entry, t: Tree, treeFile: bool, next: nat, ids: Ids, maxID: map<Kind, int>,
                                          next': nat, ids': Ids, maxID': map<Kind, int>)
    requires Grown(next, ids, maxID, next', ids', maxID') && Holds(e, t, treeFile, ids, next)
    ensures Holds(e, t, treeFile, ids', next')
    decreases e, 0
  {
    if e.FolderEntry? {
      GrownKeepsAllHeld(e.contents, if treeFile then Dropped(e.contents) else 0, Children(t), treeFile,
                        next, ids, maxID, next', ids', maxID');
    }
  }

  lemma {:induction false} GrownKeepsAllHeld(entries: seq<Entry>, from: nat, children: seq<Tree>, treeFile: bool,
                                             next: nat, ids: Ids, maxID: map<Kind, int>,
                                             next': nat, ids': Ids, maxID': map<Kind, int>)
    requires Grown(next, ids, maxID, next', ids', maxID')
    requires HoldsFrom(entries, from, children, treeFile, ids, next)
    ensures HoldsFrom(entries, from, children, treeFile, ids', next')
    decreases entries, 1
  {
    forall i | 0 <= i < |children| ensures Holds(entries[from + i], children[i], treeFile, ids', next') {
      GrownKeepsHeld(entries[from + i], children[i], treeFile, next, ids, maxID, next', ids', maxID');
    }
  }

  /** One more supported entry is one more child. */
  lemma HoldsMore(entries: seq<Entry>, from: nat, children: seq<Tree>, e: Entry, t: Tree, treeFile: bool,
                  next: nat, ids: Ids, maxID: map<Kind, int>, next': nat, ids': Ids, maxID': map<Kind, int>)
    requires Grown(next, ids, maxID, next', ids', maxID')
    requires HoldsFrom(entries, from, children, treeFile, ids, next) && Holds(e, t, treeFile, ids', next')
    ensures HoldsFrom(entries + [e], from, children + [t], treeFile, ids', next')
    ensures !Unsupported(e) ==> Dropped(entries + [e]) == Dropped(entries)
  {
    hide Holds;
    GrownKeepsAllHeld(entries, from, children, treeFile, next, ids, maxID, next', ids', maxID');
    var all, nodes := entries + [e], children + [t];
    assert all[..|entries|] == entries;
    forall i | 0 <= i < |nodes| ensures Holds(all[from + i], nodes[i], treeFile, ids', next') {
      if i < |children| { assert nodes[i] == children[i] && all[from + i] == entries[from + i]; }
    }
  }

  lemma UnsupportedDropsAll(entries: seq<Entry>, e: Entry, ids: Ids, next: nat)
    requires Unsupported(e)
    ensures EndsUnsupported(entries + [e]) && Dropped(entries + [e]) == |entries| + 1
    ensures HoldsFrom(entries + [e], |entries| + 1, [], true, ids, next)
  {
  }

  // ---- what a tree file loses ----

  /** Every entry has its node, an unsupported one a node of unknown type. */
  predicate Mirrors(e: Entry, t: Tree, ids: Ids, next: nat)
    decreases e
  {
    match e
    case FolderEntry(name, contents) =>
      t.Folder? && t.name == name && |t.children| == |contents|
      && forall i :: 0 <= i < |contents| ==> Mirrors(contents[i], t.children[i], ids, next)
    case ResourceEntry(name, None, _) => t == Unknown(name)
    case ResourceEntry(_, Some(_), _) => HoldsResource(e, t, true, ids, next)
  }

  /** No folder level below has an entry of an unsupported type. */
  predicate AllSupported(e: Entry)
    decreases e
  {
    match e
    case FolderEntry(_, contents) => forall i :: 0 <= i < |contents| ==> AllSupported(contents[i])
    case ResourceEntry(_, kind, _) => kind.Some?
  }

  /** What is loaded from a tree file mirrors it exactly when every type in it is supported. */
  lemma {:induction false} TreeFilesAreMirroredExactly(e: Entry, t: Tree, ids: Ids, next: nat)
    requires Holds(e, t, true, ids, next)
    ensures Mirrors(e, t, ids, next) <==> AllSupported(e)
    decreases e
  {
    hide HoldsResource, Dropped;
    if e.FolderEntry? {
      var entries, n := e.contents, Dropped(e.contents);
      assert NodeHolds(entries, t, true, ids, next) && HoldsFrom(entries, n, Children(t), true, ids, next);
      if n > 0 {
        assert !AllSupported(entries[n - 1]);
      } else {
        assert !EndsUnsupported(entries) && t.Folder? && |t.children| == |entries|;
        forall i | 0 <= i < |entries| ensures Mirrors(entries[i], t.children[i], ids, next) <==> AllSupported(entries[i]) {
          assert Holds(entries[n + i], t.children[i], true, ids, next);
          TreeFilesAreMirroredExactly(entries[i], t.children[i], ids, next);
        }
      }
    }
  }

  /** A sprite listed before an include is not in the project. */
  lemma IncludeLosesSprite(t: Tree, ids: Ids, next: nat)
    requires Holds(FolderEntry("/", [ResourceEntry("hero", Some(Sprite), Some(0)), ResourceEntry("readme", None, None)]),
                   t, true, ids, next)
    ensures t == Unknown("/") && Order(t) == []
  {
    var entries := [ResourceEntry("hero", Some(Sprite), Some(0)), ResourceEntry("readme", None, None)];
    assert EndsUnsupported(entries);
  }

  lemma FitsJoin(a: seq<Item>, b: seq<Item>, first: nat, middle: nat, next: nat, ids: Ids, maxID: map<Kind, int>)
    requires AllKinds(maxID) && first <= middle <= next
    requires Fits(a, first, middle, ids, maxID) && Fits(b, middle, next, ids, maxID)
    ensures Fits(a + b, first, next, ids, maxID)
  {
  }

  // ---- ids given without a tree file ----

  function CountOf(order: seq<Item>, kind: Kind): nat {
    if order == [] then 0
    else CountOf(order[..|order| - 1], kind) + if order[|order| - 1].kind == kind then 1 else 0
  }

  /** The ids of each kind count up, in the order of loading, from the highest before. */
  ghost predicate Counted(order: seq<Item>, start: map<Kind, int>, ids: Ids, end: map<Kind, int>) {
    && AllKinds(start) && AllKinds(end)
    && (forall i :: 0 <= i < |order| ==>
          order[i].slot in ids && ids[order[i].slot] == start[order[i].kind] + CountOf(order[..i], order[i].kind))
    && (forall k: Kind :: end[k] == start[k] + CountOf(order, k))
  }

  lemma {:induction false} CountJoins(a: seq<Item>, b: seq<Item>, kind: Kind)
    ensures CountOf(a + b, kind) == CountOf(a, kind) + CountOf(b, kind)
  {
    if b == [] {
      assert a + b == a;
    } else {
      assert (a + b)[..|a + b| - 1] == a + b[..|b| - 1] && (a + b)[|a + b| - 1] == b[|b| - 1];
      CountJoins(a, b[..|b| - 1], kind);
    }
  }

  lemma CountedJoin(a: seq<Item>, b: seq<Item>, first: nat, next: nat,
    start: map<Kind, int>, ids: Ids, middle: map<Kind, int>,
                    next': nat, ids': Ids, end: map<Kind, int>)
    requires Grown(next, ids, middle, next', ids', end) && Fits(a, first, next, ids, middle)
    requires Counted(a, start, ids, middle) && Counted(b, middle, ids', end)
    ensures Counted(a + b, start, ids', end)
  {
    hide CountOf, Separate, Bounded;
    var ab := a + b;
    forall i | 0 <= i < |ab|
      ensures ab[i].slot in ids' && ids'[ab[i].slot] == start[ab[i].kind] + CountOf(ab[..i], ab[i].kind)
    {
      if i < |a| {
        assert ab[i] == a[i] && ab[..i] == a[..i];
      } else {
        assert ab[i] == b[i - |a|] && ab[..i] == a + b[..i - |a|];
        CountJoins(a, b[..i - |a|], ab[i].kind);
      }
    }
    forall k: Kind ensures end[k] == start[k] + CountOf(ab, k) { CountJoins(a, b, k); }
  }

  lemma CountedMore(children: seq<Tree>, t: Tree, first: nat, next: nat,
    start: map<Kind, int>, ids: Ids, middle: map<Kind, int>,
                    next': nat, ids': Ids, end: map<Kind, int>)
    requires Grown(next, ids, middle, next', ids', end) && Fits(OrderAll(children), first, next, ids, middle)
    requires Counted(OrderAll(children), start, ids, middle) && Counted(Order(t) + Own(t), middle, ids', end)
    ensures Counted(OrderAll(children + [t]), start, ids', end)
  {
    hide Fits, Counted, Grown, OrderAll, Own, Order;
    CountedJoin(OrderAll(children), Order(t) + Own(t), first, next, start, ids, middle, next', ids', end);
    OrderAppend(children, t);
  }

  lemma NothingCounted(ids: Ids, maxID: map<Kind, int>)
    requires AllKinds(maxID)
    ensures Counted([], maxID, ids, maxID)
  {
  }

  lemma OneCounted(item: Item, ids: Ids, maxID: map<Kind, int>, end: map<Kind, int>)
    requires AllKinds(maxID) && item.slot in ids && ids[item.slot] == maxID[item.kind]
    requires end == maxID[item.kind := maxID[item.kind] + 1]
    ensures Counted([item], maxID, ids, end)
  {
    assert [item][..0] == [];
    forall k: Kind ensures CountOf([item], k) == if item.kind == k then 1 else 0 {
      assert [item][..0] == [];
    }
  }

  class Loader {
    var maxID: map<Kind, int>
    var ids: Ids
    var nextSlot: nat

    constructor ()
      ensures Valid() && ids == map[] && nextSlot == 0 && forall k: Kind :: maxID[k] == 0
    {
      ids, nextSlot := map[], 0;
      maxID := map[Background := 0, Font := 0, Object := 0, Path := 0, Room := 0,
                   Script := 0, Shader := 0, Sound := 0, Sprite := 0, Timeline := 0];
      new;
      forall k: Kind ensures k in maxID && maxID[k] == 0 {
        EveryKind(k);
      }
    }

    ghost predicate Valid()
      reads this
    {
      && AllKinds(maxID) && (forall k: Kind :: maxID[k] >= 0)
      && forall slot :: slot in ids ==> slot < nextSlot
    }

    /** A new message of the kind. Scripts, shaders and timelines are given the id whatever
        it is, the others only when it is not negative. */
    method LoadResource(name: string, kind: Kind, id: int) returns (t: Tree)
      requires Valid() && id <= maxID[kind]
      modifies this`ids, this`nextSlot
      ensures t == Resource(name, kind, old(nextSlot)) && nextSlot == old(nextSlot) + 1
      ensures Grown(old(nextSlot), old(ids), old(maxID), nextSlot, ids, maxID)
      ensures Fits(Own(t), old(nextSlot), nextSlot, ids, maxID)
      ensures old(nextSlot) in ids <==> id >= 0 || TakesAnyId(kind)
      ensures old(nextSlot) in ids ==> ids[old(nextSlot)] == id
    {
      t := Resource(name, kind, nextSlot);
      if TakesAnyId(kind) || id >= 0 {
        ids := ids[nextSlot := id];
      }
      nextSlot := nextSlot + 1;
    }

    /** Loading with a tree file into a new node: the highest id follows the ids in the file. */
    method LoadTree(buffer: Tree, entries: seq<Entry>) returns (node: Tree)
      requires Valid() && !buffer.Resource? && Children(buffer) == []
      modifies this
      ensures node.name == buffer.name
      ensures if entries == [] then node == buffer else NodeHolds(entries, node, true, ids, nextSlot)
      ensures Valid() && Grown(old(nextSlot), old(ids), old(maxID), nextSlot, ids, maxID)
      ensures Fits(Order(node), old(nextSlot), nextSlot, ids, maxID)
      decreases entries, 1
    {
      hide Fits, Own, OrderAll, Holds, Dropped, HoldsFrom, Grown;
      node := buffer;
      GrownNone(nextSlot, ids, maxID);
      NothingFits(nextSlot, nextSlot, ids, maxID);
      NothingHeld(buffer.name, true, ids, nextSlot);
      for i := 0 to |entries|
        invariant Valid() && Grown(old(nextSlot), old(ids), old(maxID), nextSlot, ids, maxID)
        invariant node.name == buffer.name && !node.Resource?
        invariant i == 0 ==> node == buffer
        invariant i > 0 ==> if Unsupported(entries[i - 1]) then node.Unknown? else node.Folder?
        invariant HoldsFrom(entries[..i], Dropped(entries[..i]), Children(node), true, ids, nextSlot)
        invariant Fits(OrderAll(Children(node)), old(nextSlot), nextSlot, ids, maxID)
      {
        ghost var next, ids', max := nextSlot, ids, maxID;
        var children := Children(node);
        assert entries[..i] + [entries[i]] == entries[..i + 1];
        if entries[i].ResourceEntry? && entries[i].kind.None? {
          node := Unknown(buffer.name);
          UnsupportedDropsAll(entries[..i], entries[i], ids, nextSlot);
          NothingFits(old(nextSlot), nextSlot, ids, maxID);
        } else {
          var t := LoadTreeEntry(entries[i]);
          GrownTwice(old(nextSlot), old(ids), old(maxID), next, ids', max, nextSlot, ids, maxID);
          HoldsMore(entries[..i], Dropped(entries[..i]), children, entries[i], t, true,
                    next, ids', max, nextSlot, ids, maxID);
          FitsMore(children, t, old(nextSlot), next, ids', max, nextSlot, ids, maxID);
          node := Folder(buffer.name, children + [t]);
        }
      }
      assert entries[..|entries|] == entries;
      OrderOfNode(node);
    }

    method LoadTreeEntry(entry: Entry) returns (t: Tree)
      requires Valid() && !Unsupported(entry)
      modifies this
      ensures Holds(entry, t, true, ids, nextSlot)
      ensures Valid() && Grown(old(nextSlot), old(ids), old(maxID), nextSlot, ids, maxID)
      ensures Fits(Order(t) + Own(t), old(nextSlot), nextSlot, ids, maxID)
      decreases entry, 0
    {
      hide Fits, OrderAll, NodeHolds;
      match entry
      case FolderEntry(name, contents) =>
        t := LoadTree(Folder(name, []), contents);
        NothingHeld(name, true, ids, nextSlot);
        NodesAreNoResources(contents, t, true, ids, nextSlot);
      case ResourceEntry(name, Some(kind), maybe) =>
        var id := if maybe.Some? then maybe.value else -1;
        if maxID[kind] < id {
          maxID := maxID[kind := id];
        }
        t := LoadResource(name, kind, id);
        assert Order(t) + Own(t) == Own(t);
    }

    /** Loading without a tree file: each resource takes the highest id, which then goes up. */
    method LoadDirectory(n: Tree, entries: seq<Entry>) returns (node: Tree)
      requires Valid() && n.Untyped?
      modifies this
      ensures node.name == n.name && NodeHolds(entries, node, false, ids, nextSlot)
      ensures Counted(Order(node), old(maxID), ids, maxID)
      ensures Valid() && Grown(old(nextSlot), old(ids), old(maxID), nextSlot, ids, maxID)
      ensures Fits(Order(node), old(nextSlot), nextSlot, ids, maxID)
      decreases entries, 1
    {
      hide Fits, Own, OrderAll, Holds, HoldsFrom, Grown, Counted;
      node := n;
      NothingCounted(ids, maxID);
      GrownNone(nextSlot, ids, maxID);
      NothingFits(nextSlot, nextSlot, ids, maxID);
      NothingHeld(n.name, false, ids, nextSlot);
      for i := 0 to |entries|
        invariant Valid() && Grown(old(nextSlot), old(ids), old(maxID), nextSlot, ids, maxID)
        invariant node.name == n.name && if i == 0 then node == n else node.Folder?
        invariant HoldsFrom(entries[..i], 0, Children(node), false, ids, nextSlot)
        invariant Fits(OrderAll(Children(node)), old(nextSlot), nextSlot, ids, maxID)
        invariant Counted(OrderAll(Children(node)), old(maxID), ids, maxID)
      {
        ghost var next, ids', max := nextSlot, ids, maxID;
        var children := Children(node);
        assert entries[..i] + [entries[i]] == entries[..i + 1];
        var t := LoadDirectoryEntry(entries[i]);
        GrownTwice(old(nextSlot), old(ids), old(maxID), next, ids', max, nextSlot, ids, maxID);
        HoldsMore(entries[..i], 0, children, entries[i], t, false, next, ids', max, nextSlot, ids, maxID);
        FitsMore(children, t, old(nextSlot), next, ids', max, nextSlot, ids, maxID);
        CountedMore(children, t, old(nextSlot), next, old(maxID), ids', max, nextSlot, ids, maxID);
        node := Folder(n.name, children + [t]);
      }
      assert entries[..|entries|] == entries;
      OrderOfNode(node);
    }

    method LoadDirectoryEntry(entry: Entry) returns (t: Tree)
      requires Valid()
      modifies this
      ensures Holds(entry, t, false, ids, nextSlot)
      ensures Counted(Order(t) + Own(t), old(maxID), ids, maxID)
      ensures Valid() && Grown(old(nextSlot), old(ids), old(maxID), nextSlot, ids, maxID)
      ensures Fits(Order(t) + Own(t), old(nextSlot), nextSlot, ids, maxID)
      decreases entry, 0
    {
      hide Fits, OrderAll, NodeHolds, Counted;
      match entry
      case FolderEntry(name, contents) =>
        t := LoadDirectory(Untyped(name), contents);
        NodesAreNoResources(contents, t, false, ids, nextSlot);
      case ResourceEntry(name, None, id) =>
        t := Untyped(name);
        NothingFits(nextSlot, nextSlot, ids, maxID);
        NothingCounted(ids, maxID);
        assert Order(t) + Own(t) == [];
      case ResourceEntry(name, Some(kind), id) =>
        t := LoadResource(name, kind, maxID[kind]);
        assert Order(t) + Own(t) == Own(t);
        ghost var max := maxID;
        maxID := maxID[kind := maxID[kind] + 1];
        GrownKeepsFit(Own(t), old(nextSlot), nextSlot, ids, max, nextSlot, ids, maxID);
        OneCounted(Own(t)[0], ids, max, maxID);
        assert Own(t) == [Own(t)[0]];
    }

    /** Whichever way a project is loaded, and whatever was loaded before it, its resources
        of one kind end up with different ids; the ids are those of the repair pass. */
    method LoadProject(autogen: bool, entries: seq<Entry>)
      returns (root: Tree, ghost loaded: Ids, ghost highest: map<Kind, int>)
      requires Valid()
      modifies this
      ensures root.name == "/"
      ensures if entries == [] then root.Untyped? else NodeHolds(entries, root, !autogen, loaded, nextSlot)
      ensures AllKinds(highest) && IdsReached(loaded, highest, Order(root), ids)
      ensures Valid() && Separate(Order(root)) && Bounded(ids, maxID, Order(root))
      ensures forall i, j :: 0 <= i < j < |Order(root)| && Order(root)[i].kind == Order(root)[j].kind ==>
        ids[Order(root)[i].slot] != ids[Order(root)[j].slot]
    {
      hide Order, Separate, Bounded, IdOf, First, Homeless, HoldsFrom;
      if autogen {
        root := LoadDirectory(Untyped("/"), entries);
      } else {
        root := LoadTree(Untyped("/"), entries);
      }
      loaded, highest := ids, maxID;
      var check := new SanityCheck(maxID, ids);
      check.ResourceSanityCheck(root);
      ids, maxID := check.ids, check.maxID;
    }
  }

  lemma FitsMore(children: seq<Tree>, t: Tree, first: nat, next: nat, ids: Ids, maxID: map<Kind, int>,
                 next': nat, ids': Ids, maxID': map<Kind, int>)
    requires Grown(next, ids, maxID, next', ids', maxID') && first <= next
    requires Fits(OrderAll(children), first, next, ids, maxID) && Fits(Order(t) + Own(t), next, next', ids', maxID')
    ensures Fits(OrderAll(children + [t]), first, next', ids', maxID')
  {
    hide Fits, OrderAll, Own, Order;
    GrownKeepsFit(OrderAll(children), first, next, ids, maxID, next', ids', maxID');
    FitsJoin(OrderAll(children), Order(t) + Own(t), first, next, next', ids', maxID');
    OrderAppend(children, t);
  }

  lemma OrderOfNode(t: Tree)
    ensures Order(t) == OrderAll(Children(t))
  {
  }

  lemma NothingHeld(name: string, treeFile: bool, ids: Ids, next: nat)
    ensures Dropped([]) == 0 && HoldsFrom([], 0, [], treeFile, ids, next)
    ensures NodeHolds([], Folder(name, []), true, ids, next)
  {
  }

  lemma NodesAreNoResources(entries: seq<Entry>, t: Tree, treeFile: bool, ids: Ids, next: nat)
    requires NodeHolds(entries, t, treeFile, ids, next)
    ensures Own(t) == [] && Order(t) + Own(t) == Order(t)
  {
  }

  lemma EveryKind(k: Kind)
    ensures k in {Background, Font, Object, Path, Room, Script, Shader, Sound, Sprite, Timeline}
  {
  }

  lemma NothingFits(first: nat, next: nat, ids: Ids, maxID: map<Kind, int>)
    requires AllKinds(maxID)
    ensures OrderAll([]) == [] && Fits([], first, next, ids, maxID)
  {
  }
}
