/** What an update that drops a shared prefix to one live key leaves behind, and how a
    later insert picks it up again. */
module SmtDeletions {
  import opened SmtKeys
  import opened SmtTree
  import opened Options
  import opened SmtUpdate
  import opened SmtUpdateProofs
  import opened SmtHistory

  const V: Digest := DataDigest([])

  /** The state where exactly `keys` live. */
  ghost function AllV(keys: set<ResourceId>): StateMap {
    map k | k in keys :: V
  }

  /** `a` and `d` start with 00, `b` with 01 and `c` with 1. */
  ghost predicate Neighbours(a: ResourceId, d: ResourceId, b: ResourceId, c: ResourceId) {
    [false, false] <= a && [false, false] <= d && [false, true] <= b && [true] <= c && a != d
  }

  lemma NeighboursOrder(a: ResourceId, d: ResourceId, b: ResourceId, c: ResourceId)
    requires Neighbours(a, d, b, c)
    ensures Less(a, b) && Less(b, c) && Less(d, b) && a != b && a != c && d != b && d != c && b != c
    ensures [false] <= a && [false] <= d && [false] <= b && !([false] <= c)
  {
    assert a[0] == false && a[1] == false && d[0] == false && d[1] == false;
    assert b[0] == false && b[1] == true && c[0] == true;
    assert a[..1] == [false] && b[..1] == [false] && d[..1] == [false];
    assert DivergesAt(a, b, 1) && DivergesAt(d, b, 1);
    assert b[..0] == c[..0];
    assert DivergesAt(b, c, 0);
  }

  lemma SingletonSlice(c: Commitment, p: Position)
    requires p <= c.key
    ensures SliceAt([c], p) && LastWrites([c]) == map[c.key := c.value]
  {
    assert [c][..0] == [];
  }

  /** A part of the tree that the updated map no longer reaches is left as it was. */
  lemma UnreachedPartIsLeft(view: View, m: StateMap, cs: seq<Commitment>, n: StateMap, p: Position)
    requires WellPlaced(view) && SliceAt(cs, []) && Mirrors(view, m, [])
    requires Mirrors(view, m, p) && AgreeUnder(m, n, p)
    requires forall q: Position :: p <= q ==> q != [] && !Many(ApplyWrites(m, LastWrites(cs)), Parent(q))
    ensures Mirrors(view + ApplySorted(view, cs).writes, n, p)
  {
    var w := ApplySorted(view, cs).writes;
    assert w.Keys == UpdateSubtree(view, [], cs).writes.Keys + {[]};
    var newMap := ApplyWrites(m, LastWrites(cs));
    hide LastWrites;
    hide ApplyWrites;
    hide UpdateSubtree;
    hide Canon;
    UpdateIsCorrect(view, m, [], cs);
    assert forall q: Position :: q in w ==> q == [] || Many(newMap, Parent(q));
    UnwrittenMirrors(view, w, m, n, p);
  }

  lemma UnwrittenMirrors(view: View, w: View, m: StateMap, n: StateMap, p: Position)
    requires Mirrors(view, m, p) && AgreeUnder(m, n, p) && forall q: Position :: p <= q ==> q !in w
    ensures Mirrors(view + w, n, p)
  {
    hide Canon;
    hide Many;
    CanonIsLocal(m, n, p);
    forall q: Position | Below(p, q)
      ensures Read(view + w, q) == if Many(n, Parent(q)) then StoredNode(Canon(n, q)) else None
    {
      BelowIsViaAChild(p, q);
      ManyIsLocal(m, n, p, Parent(q));
      ManyIsLocal(m, n, p, q);
      CanonIsLocal(m, n, q);
    }
  }

  lemma MirrorsGrandchild(view: View, m: StateMap, b: bool)
    requires Mirrors(view, m, []) && Many(m, [false])
    ensures Mirrors(view, m, [false, b])
  {
    ManyIsMonotone(m, [], [false]);
    assert [] + [false] == [false] && [false] + [b] == [false, b];
    MirrorsChild(view, m, [], false);
    MirrorsChild(view, m, [false], b);
  }

  lemma TwoAreMany(m: StateMap, p: Position, j: ResourceId, k: ResourceId)
    requires j in m && k in m && j != k && p <= j && p <= k
    ensures Many(m, p)
  {
  }

  lemma LostForkIsThin(b: ResourceId, c: ResourceId, q: Position)
    requires [true] <= c && [false] <= q && |q| > 1
    ensures q != [] && !Many(AllV({b, c}), Parent(q))
  {
    assert c[0] == true;
    assert Parent(q)[..1] == [false];
    assert !Many(AllV({b, c}), [false]);
    if Many(AllV({b, c}), Parent(q)) {
      ManyIsMonotone(AllV({b, c}), [false], Parent(q));
    }
  }

  lemma AgreeBelowFork(a: ResourceId, b: ResourceId, c: ResourceId, p: Position)
    requires [true] <= c && [false] <= p
    ensures AgreeUnder(AllV({a, b, c}), AllV({a, b}), p)
  {
    assert c[0] == true && p[0] == false;
  }

  lemma StateAfterDelete(a: ResourceId, b: ResourceId, c: ResourceId)
    requires a != b && a != c
    ensures ApplyWrites(AllV({a, b, c}), map[a := Zero]) == AllV({b, c})
  {
  }

  lemma StateAfterPut(keys: set<ResourceId>, w: map<ResourceId, Digest>)
    requires forall k :: k in w ==> w[k] == V
    ensures ApplyWrites(AllV(keys), w) == AllV(keys + w.Keys)
  {
  }

  /** Deleting `a` from a clean view of `{a, b, c}` leaves the nodes of the fork lost at
      position `0` readable below it. */
  lemma LeftoversStayReadable(view: View, a: ResourceId, d: ResourceId, b: ResourceId, c: ResourceId, side: bool)
    requires WellPlaced(view) && Neighbours(a, d, b, c)
    requires Mirrors(view, AllV({a, b, c}), []) && SliceAt([Commitment(a, Zero)], [])
    ensures Mirrors(view + ApplySorted(view, [Commitment(a, Zero)]).writes, AllV({a, b}), [false, side])
  {
    NeighboursOrder(a, d, b, c);
    StateAfterDelete(a, b, c);
    SingletonSlice(Commitment(a, Zero), []);
    TwoAreMany(AllV({a, b, c}), [false], a, b);
    MirrorsGrandchild(view, AllV({a, b, c}), side);
    AgreeBelowFork(a, b, c, [false, side]);
    forall q: Position | [false, side] <= q ensures q != [] && !Many(AllV({b, c}), Parent(q)) {
      assert q[..1] == [false];
      LostForkIsThin(b, c, q);
    }
    UnreachedPartIsLeft(view, AllV({a, b, c}), [Commitment(a, Zero)], AllV({a, b}), [false, side]);
  }

  /** A lone commitment falls entirely on its own side. */
  lemma LoneSplit(k: ResourceId)
    requires [false] <= k
    ensures SplitPoint([k], 0) == 1
  {
    SplitIsExact([k], []);
    assert k[0] == false;
    assert [] + [true] == [true];
    assert [k][0..] == [k];
  }

  lemma PairSlice(x: Commitment, y: Commitment, p: Position)
    requires Less(x.key, y.key) && p <= x.key && p <= y.key
    ensures SliceAt([x, y], p) && LastWrites([x, y]) == map[x.key := x.value, y.key := y.value]
  {
    assert KeysOf([x, y]) == [x.key, y.key];
    SingletonSlice(x, p);
    SingletonSlice(y, p);
    LastWritesConcat([x], [y]);
    assert [x] + [y] == [x, y];
  }

  /** Below a leaf of `b`, inserting a smaller `d` recurses with both. */
  lemma InsertAtLeaf(view: View, p: Position, d: ResourceId, b: ResourceId)
    requires WellPlaced(view) && |p| < DEPTH && p <= d && p <= b && Less(d, b)
    requires p in view && view[p] == LeafNode(b, V)
    ensures SliceAt([Commitment(d, V)], p) && SliceAt([Commitment(d, V), Commitment(b, V)], p)
    ensures UpdateSubtree(view, p, [Commitment(d, V)]) ==
            SplitAndRecurse(view, p, [Commitment(d, V), Commitment(b, V)])
  {
    var cs, both := [Commitment(d, V)], [Commitment(d, V), Commitment(b, V)];
    LessIsStrict(d, b);
    SingletonSlice(cs[0], p);
    PairSlice(both[0], both[1], p);
    InsertPointIsExact(cs, b);
    assert Less(cs[0].key, b);
    assert Merged(cs, b, V) == both;
    assert NextLive(both, 0) == 0 && NextLive(both, 1) == 1;
    assert ResolveLeaves(view, p, both) == SplitAndRecurse(view, p, both);
  }

  /** An insert at a leaf of `b` with a fork of `n` still readable below it: the result
      is the canonical subtree of `n` with `d` and `b`, stale entries of `n` included. */
  lemma StaleForkIsReused(view: View, n: StateMap, p: Position, d: ResourceId, b: ResourceId)
    requires WellPlaced(view) && |p| < DEPTH && p <= d && p <= b && Less(d, b)
    requires p in view && view[p] == LeafNode(b, V)
    requires Mirrors(view, n, p + [false]) && Mirrors(view, n, p + [true])
    ensures SliceAt([Commitment(d, V)], p)
    ensures Correct(view, UpdateSubtree(view, p, [Commitment(d, V)]), ApplyWrites(n, map[d := V, b := V]), p)
  {
    InsertAtLeaf(view, p, d, b);
    PairSlice(Commitment(d, V), Commitment(b, V), p);
    SplitIsCorrect(view, n, p, [Commitment(d, V), Commitment(b, V)]);
  }

  /** The only live key below a position is its shortcut leaf. */
  lemma LoneLeaf(m: StateMap, p: Position, k: ResourceId)
    requires k in m && p <= k && forall j :: j in m && p <= j ==> j == k
    ensures Canon(m, p) == Tip(k, m[k]) && !Many(m, p)
  {
    assert !Vacant(m, p);
  }

  lemma ChildLeaf(view: View, m: StateMap, q: Position, k: ResourceId)
    requires Represents(view, m) && q != [] && Many(m, Parent(q)) && k in m && q <= k && m[k] == V
    requires forall j :: j in m && q <= j ==> j == k
    ensures q in view && view[q] == LeafNode(k, V)
  {
    LoneLeaf(m, q, k);
  }

  /** Root-level step: an internal root whose only commitment falls on the left. */
  lemma RootStep(view: View, all: StateMap, d: ResourceId, c: ResourceId)
    requires WellPlaced(view) && [false] <= d && [true] <= c
    requires [] in view && view[[]].Internal? && [true] in view && view[[true]] == LeafNode(c, V)
    requires c in all && all[c] == V && forall j :: j in all && [true] <= j ==> j == c
    requires SliceAt([Commitment(d, V)], [false])
    requires Correct(view, UpdateSubtree(view, [false], [Commitment(d, V)]), all, [false])
    ensures SliceAt([Commitment(d, V)], [])
    ensures ApplySorted(view, [Commitment(d, V)]).root == CanonRoot(all)
  {
    var cs := [Commitment(d, V)];
    SingletonSlice(cs[0], []);
    LoneSplit(d);
    assert KeysOf(cs) == [d];
    assert cs[..1] == cs && cs[1..] == [] && [] + [false] == [false] && [] + [true] == [true];
    LoneLeaf(all, [true], c);
    NothingBelow(view, all, [true]);
    var left, right := UpdateSubtree(view, [false], cs), UpdateSubtree(view, [true], []);
    JoinedIsCorrect(view, all, [], left, right);
    assert UpdateSubtree(view, [], cs) == Joined(view, [], left, right);
    StoredSummary(all, []);
  }

  lemma SidesOfTheRoot(b: ResourceId, c: ResourceId)
    requires [false] <= b && [true] <= c
    ensures b != c && !([false] <= c) && !([true] <= b)
  {
    assert b[0] == false && c[0] == true;
  }

  lemma TwoLeavedRoot(view: View, m: StateMap, b: ResourceId, c: ResourceId)
    requires Represents(view, m) && [false] <= b && [true] <= c
    requires b in m && c in m && m[b] == V && m[c] == V && forall j :: j in m ==> j == b || j == c
    ensures [] in view && view[[]].Internal?
    ensures [false] in view && view[[false]] == LeafNode(b, V)
    ensures [true] in view && view[[true]] == LeafNode(c, V)
  {
    SidesOfTheRoot(b, c);
    TwoAreMany(m, [], b, c);
    assert Parent([false]) == [] && Parent([true]) == [];
    ChildLeaf(view, m, [false], b);
    ChildLeaf(view, m, [true], c);
  }

  /** Adding an entry outside a position changes nothing there. */
  lemma AgreeWithout(keys: set<ResourceId>, c: ResourceId, p: Position)
    requires !(p <= c)
    ensures AgreeUnder(AllV(keys), AllV(keys + {c}), p)
  {
  }

  /** Inserting `d` over the leftovers of a deleted key: with `n` still readable below
      `0`, the root is that of every map with `n`, `d` and `b` there. */
  lemma InsertResurrects(view: View, n: StateMap, all: StateMap, d: ResourceId, b: ResourceId, c: ResourceId)
    requires WellPlaced(view) && [false] <= d && [false] <= b && [true] <= c && Less(d, b)
    requires [] in view && view[[]].Internal?
    requires [false] in view && view[[false]] == LeafNode(b, V)
    requires [true] in view && view[[true]] == LeafNode(c, V)
    requires Mirrors(view, n, [false] + [false]) && Mirrors(view, n, [false] + [true])
    requires AgreeUnder(ApplyWrites(n, map[d := V, b := V]), all, [false])
    requires c in all && all[c] == V && forall j :: j in all && [true] <= j ==> j == c
    ensures SliceAt([Commitment(d, V)], [])
    ensures ApplySorted(view, [Commitment(d, V)]).root == CanonRoot(all)
  {
    SingletonSlice(Commitment(d, V), [false]);
    var left := UpdateSubtree(view, [false], [Commitment(d, V)]);
    assert Correct(view, left, all, [false]) by {
      StaleForkIsReused(view, n, [false], d, b);
      CorrectIsLocal(view, left, ApplyWrites(n, map[d := V, b := V]), all, [false]);
    }
    RootStep(view, all, d, c);
  }

  lemma AllOnTheLeft(a: ResourceId, d: ResourceId, b: ResourceId, c: ResourceId)
    requires Neighbours(a, d, b, c)
    ensures AgreeUnder(ApplyWrites(AllV({a, b}), map[d := V, b := V]), AllV({a, b, d} + {c}), [false])
  {
    NeighboursOrder(a, d, b, c);
    StateAfterPut({a, b}, map[d := V, b := V]);
    assert {a, b} + map[d := V, b := V].Keys == {a, b, d};
    AgreeWithout({a, b, d}, c, [false]);
  }

  lemma OnlyCOnTheRight(a: ResourceId, d: ResourceId, b: ResourceId, c: ResourceId)
    requires Neighbours(a, d, b, c)
    ensures var all := AllV({a, b, d} + {c});
            c in all && all[c] == V && forall j :: j in all && [true] <= j ==> j == c
  {
    NeighboursOrder(a, d, b, c);
    SidesOfTheRoot(a, c);
    SidesOfTheRoot(b, c);
    SidesOfTheRoot(d, c);
  }

  lemma LeftoverSide(view: View, after: View, a: ResourceId, d: ResourceId, b: ResourceId, c: ResourceId, side: bool)
    requires WellPlaced(view) && Neighbours(a, d, b, c)
    requires Represents(view, AllV({a, b, c})) && Clean(view)
    requires SliceAt([Commitment(a, Zero)], [])
    requires after == view + ApplySorted(view, [Commitment(a, Zero)]).writes
    ensures Mirrors(after, AllV({a, b}), [false] + [side])
  {
    CleanViewsMirror(view, AllV({a, b, c}));
    LeftoversStayReadable(view, a, d, b, c, side);
    assert [false] + [side] == [false, side];
  }

  /** Deleting `a` gives the right map, but not a clean view: below the leaf now at `0` the
      old children of that fork are still there to be read. */
  lemma DeletionLeavesTwoLeaves(view: View, after: View, a: ResourceId, d: ResourceId, b: ResourceId, c: ResourceId)
    requires WellPlaced(view) && Neighbours(a, d, b, c)
    requires Represents(view, AllV({a, b, c})) && Clean(view)
    requires SliceAt([Commitment(a, Zero)], [])
    requires after == view + ApplySorted(view, [Commitment(a, Zero)]).writes
    ensures WellPlaced(after) && Represents(after, AllV({b, c})) && !Clean(after)
    ensures Mirrors(after, AllV({a, b}), [false] + [false]) && Mirrors(after, AllV({a, b}), [false] + [true])
  {
    hide Canon;
    hide ApplySorted;
    hide Mirrors;
    hide Clean;
    hide Represents;
    NeighboursOrder(a, d, b, c);
    SingletonSlice(Commitment(a, Zero), []);
    StateAfterDelete(a, b, c);
    UpdateFromCleanView(view, AllV({a, b, c}), [Commitment(a, Zero)]);
    TwoAreMany(AllV({a, b, c}), [false], a, b);
    assert !Many(AllV({b, c}), [false]);
    StaysCleanExactlyWhenForksAreKept(view, AllV({a, b, c}), [Commitment(a, Zero)]);
    LeftoverSide(view, after, a, d, b, c, false);
    LeftoverSide(view, after, a, d, b, c, true);
  }

  lemma LeavesAfterDeletion(view: View, d: ResourceId, b: ResourceId, c: ResourceId)
    requires Represents(view, AllV({b, c})) && [false] <= b && [true] <= c
    ensures [] in view && view[[]].Internal?
    ensures [false] in view && view[[false]] == LeafNode(b, V)
    ensures [true] in view && view[[true]] == LeafNode(c, V)
  {
    var m := AllV({b, c});
    assert b in m && c in m;
    TwoLeavedRoot(view, m, b, c);
  }

  lemma InsertAfterDeletion(after: View, a: ResourceId, d: ResourceId, b: ResourceId, c: ResourceId)
    requires WellPlaced(after) && Neighbours(a, d, b, c) && Represents(after, AllV({b, c}))
    requires Mirrors(after, AllV({a, b}), [false] + [false]) && Mirrors(after, AllV({a, b}), [false] + [true])
    ensures SliceAt([Commitment(d, V)], [])
    ensures ApplySorted(after, [Commitment(d, V)]).root == CanonRoot(AllV({a, b, d} + {c}))
  {
    NeighboursOrder(a, d, b, c);
    LeavesAfterDeletion(after, d, b, c);
    AllOnTheLeft(a, d, b, c);
    OnlyCOnTheRight(a, d, b, c);
    InsertResurrects(after, AllV({a, b}), AllV({a, b, d} + {c}), d, b, c);
  }

  lemma ResurrectedRoot(view: View, after: View, a: ResourceId, d: ResourceId, b: ResourceId, c: ResourceId)
    requires WellPlaced(view) && Neighbours(a, d, b, c)
    requires Represents(view, AllV({a, b, c})) && Clean(view)
    requires SliceAt([Commitment(a, Zero)], [])
    requires after == view + ApplySorted(view, [Commitment(a, Zero)]).writes
    ensures WellPlaced(after) && Represents(after, AllV({b, c})) && SliceAt([Commitment(d, V)], [])
    ensures ApplySorted(after, [Commitment(d, V)]).root == CanonRoot(AllV({a, b, d} + {c}))
  {
    DeletionLeavesTwoLeaves(view, after, a, d, b, c);
    InsertAfterDeletion(after, a, d, b, c);
  }

  /** With deletions the root can miss the final map: from a clean view of `{a, b, c}`,
      deleting `a` and then inserting `d` ends with the root of a map that still holds `a`. */
  lemma DeletionsCanResurrect(view: View, after: View, a: ResourceId, d: ResourceId, b: ResourceId, c: ResourceId)
    requires WellPlaced(view) && Neighbours(a, d, b, c)
    requires Represents(view, AllV({a, b, c})) && Clean(view)
    requires SliceAt([Commitment(a, Zero)], [])
    requires after == view + ApplySorted(view, [Commitment(a, Zero)]).writes
    ensures WellPlaced(after) && Represents(after, AllV({b, c})) && SliceAt([Commitment(d, V)], [])
    ensures ApplySorted(after, [Commitment(d, V)]).root == CanonRoot(AllV({a, b, d} + {c}))
    ensures ApplySorted(after, [Commitment(d, V)]).root != CanonRoot(AllV({b, d} + {c}))
  {
    NeighboursOrder(a, d, b, c);
    hide *;
    ResurrectedRoot(view, after, a, d, b, c);
    DifferentRoots({a, b, d} + {c}, {b, d} + {c}, a);
  }

  lemma DifferentRoots(x: set<ResourceId>, y: set<ResourceId>, a: ResourceId)
    requires a in x && a !in y
    ensures CanonRoot(AllV(x)) != CanonRoot(AllV(y))
  {
    assert a in AllV(x) && a !in AllV(y);
    if CanonRoot(AllV(x)) == CanonRoot(AllV(y)) {
      CanonRootIsInjective(AllV(x), AllV(y));
    }
  }

  /** Such ids exist. */
  lemma NeighboursExist()
    ensures exists a, d, b, c :: Neighbours(a, d, b, c)
  {
    var zeros := seq(DEPTH, i => false);
    var a: ResourceId := [false, false, false] + zeros[3..];
    var d: ResourceId := [false, false, true] + zeros[3..];
    var b: ResourceId := [false, true] + zeros[2..];
    var c: ResourceId := [true] + zeros[1..];
    assert a[2] != d[2];
    assert Neighbours(a, d, b, c);
  }
}
