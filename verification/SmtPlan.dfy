/** The shape of a built multi-proof before it is flattened, and why the verifier's cursor
    walk over the flattened form retraces it. */
module SmtPlan {
  import opened SmtKeys
  import opened SmtTree
  import opened Options
  import opened SmtProof
  import opened SmtRoots

  /** One part of a proof: a leaf answering some queried keys, a split, or a child beside
      an off-path sibling. */
  datatype Plan =
    | Answer(key: ResourceId, value: Digest, depth: nat, slots: nat)
    | Both(left: Plan, right: Plan)
    | Beside(goesLeft: bool, sibling: HashedNode, child: Plan)

  datatype PlannedLeaf = PlannedLeaf(key: ResourceId, value: Digest, depth: nat)

  function Leaves(plan: Plan): (ls: seq<PlannedLeaf>)
    ensures |ls| > 0
  {
    match plan
    case Answer(k, v, d, _) => [PlannedLeaf(k, v, d)]
    case Both(l, r) => Leaves(l) + Leaves(r)
    case Beside(_, _, c) => Leaves(c)
  }

  function Siblings(plan: Plan): seq<HashedNode> {
    match plan
    case Answer(_, _, _, _) => []
    case Both(l, r) => Siblings(l) + Siblings(r)
    case Beside(_, s, c) => [s] + Siblings(c)
  }

  function Topology(plan: Plan): seq<bool> {
    match plan
    case Answer(_, _, _, _) => []
    case Both(l, r) => [true] + (Topology(l) + Topology(r))
    case Beside(_, _, c) => [false] + Topology(c)
  }

  /** Number of queried keys the part answers. */
  function Slots(plan: Plan): nat {
    match plan
    case Answer(_, _, _, n) => n
    case Both(l, r) => Slots(l) + Slots(r)
    case Beside(_, _, c) => Slots(c)
  }

  /** The leaf, counted within the part, that answers its `s`-th queried key. */
  function LeafOfSlot(plan: Plan, s: nat): (i: nat)
    requires s < Slots(plan)
    ensures i < |Leaves(plan)|
  {
    match plan
    case Answer(_, _, _, _) => 0
    case Both(l, r) => if s < Slots(l) then LeafOfSlot(l, s) else |Leaves(l)| + LeafOfSlot(r, s - Slots(l))
    case Beside(_, _, c) => LeafOfSlot(c, s)
  }

  /** The part belongs at position `p`: its leaves lie below it, on the sides it says. */
  ghost predicate Fits(plan: Plan, p: Position) {
    match plan
    case Answer(k, _, d, n) => d == |p| && p <= k && n > 0
    case Both(l, r) => |p| < DEPTH && Fits(l, p + [false]) && Fits(r, p + [true])
    case Beside(left, _, c) => |p| < DEPTH && Fits(c, p + [!left])
  }

  lemma {:induction false} LeavesAreBelow(plan: Plan, p: Position, i: nat)
    requires Fits(plan, p) && i < |Leaves(plan)|
    ensures p <= Leaves(plan)[i].key && |p| <= Leaves(plan)[i].depth
  {
    match plan
    case Answer(_, _, _, _) =>
    case Both(l, r) =>
      if i < |Leaves(l)| {
        LeavesAreBelow(l, p + [false], i);
        BelowParent(p, false, Leaves(l)[i].key);
      } else {
        LeavesAreBelow(r, p + [true], i - |Leaves(l)|);
        BelowParent(p, true, Leaves(r)[i - |Leaves(l)|].key);
      }
    case Beside(left, _, c) =>
      LeavesAreBelow(c, p + [!left], i);
      BelowParent(p, !left, Leaves(c)[i].key);
  }

  // ---- The flattened part inside a proof ----

  ghost predicate CarriesLeaves(pf: Proof, plan: Plan, start: nat) {
    && start + |Leaves(plan)| <= |pf.leaves|
    && forall i :: 0 <= i < |Leaves(plan)| ==>
         && pf.LeafKey(start + i) == Some(Leaves(plan)[i].key)
         && pf.leaves[start + i].value == Leaves(plan)[i].value
         && pf.leaves[start + i].depth == Leaves(plan)[i].depth
  }

  ghost predicate CarriesSiblings(pf: Proof, plan: Plan, at: nat) {
    && at + |Siblings(plan)| <= |pf.siblings|
    && forall i :: 0 <= i < |Siblings(plan)| ==> pf.siblings[at + i] == Siblings(plan)[i]
  }

  ghost predicate CarriesTopology(pf: Proof, plan: Plan, at: nat) {
    forall i :: 0 <= i < |Topology(plan)| ==> pf.TopologyBit(at + i) == Topology(plan)[i]
  }

  /** The part sits in the proof at these offsets. */
  ghost predicate Carries(pf: Proof, plan: Plan, start: nat, cur: Cursor) {
    CarriesLeaves(pf, plan, start) && CarriesSiblings(pf, plan, cur.sibling) && CarriesTopology(pf, plan, cur.topo)
  }

  function CursorAfter(plan: Plan, cur: Cursor): Cursor {
    Cursor(cur.sibling + |Siblings(plan)|, cur.topo + |Topology(plan)|)
  }

  lemma CarriesBoth(pf: Proof, plan: Plan, start: nat, cur: Cursor)
    requires plan.Both? && Carries(pf, plan, start, cur)
    ensures pf.TopologyBit(cur.topo)
    ensures var next := cur.(topo := cur.topo + 1);
            && Carries(pf, plan.left, start, next)
            && Carries(pf, plan.right, start + |Leaves(plan.left)|, CursorAfter(plan.left, next))
            && CursorAfter(plan.right, CursorAfter(plan.left, next)) == CursorAfter(plan, cur)
  {
    BothLeaves(pf, plan, start);
    BothSiblings(pf, plan, cur.sibling);
    BothTopology(pf, plan, cur.topo);
  }

  lemma BothLeaves(pf: Proof, plan: Plan, start: nat)
    requires plan.Both? && CarriesLeaves(pf, plan, start)
    ensures CarriesLeaves(pf, plan.left, start) && CarriesLeaves(pf, plan.right, start + |Leaves(plan.left)|)
  {
    var l, r, n := plan.left, plan.right, |Leaves(plan.left)|;
    assert forall i :: 0 <= i < n ==> Leaves(plan)[i] == Leaves(l)[i];
    forall i | 0 <= i < |Leaves(r)|
      ensures pf.LeafKey(start + n + i) == Some(Leaves(r)[i].key)
              && pf.leaves[start + n + i].value == Leaves(r)[i].value
              && pf.leaves[start + n + i].depth == Leaves(r)[i].depth
    {
      assert Leaves(plan)[n + i] == Leaves(r)[i];
      assert pf.LeafKey(start + (n + i)) == Some(Leaves(plan)[n + i].key);
    }
  }

  lemma BothSiblings(pf: Proof, plan: Plan, at: nat)
    requires plan.Both? && CarriesSiblings(pf, plan, at)
    ensures CarriesSiblings(pf, plan.left, at) && CarriesSiblings(pf, plan.right, at + |Siblings(plan.left)|)
  {
    var l, r, n := plan.left, plan.right, |Siblings(plan.left)|;
    assert forall i :: 0 <= i < n ==> Siblings(plan)[i] == Siblings(l)[i];
    forall i | 0 <= i < |Siblings(r)| ensures pf.siblings[at + n + i] == Siblings(r)[i] {
      assert Siblings(plan)[n + i] == Siblings(r)[i];
      assert pf.siblings[at + (n + i)] == Siblings(plan)[n + i];
    }
  }

  lemma BothTopology(pf: Proof, plan: Plan, at: nat)
    requires plan.Both? && CarriesTopology(pf, plan, at)
    ensures pf.TopologyBit(at)
    ensures CarriesTopology(pf, plan.left, at + 1)
    ensures CarriesTopology(pf, plan.right, at + 1 + |Topology(plan.left)|)
  {
    var l, r, n := plan.left, plan.right, |Topology(plan.left)|;
    assert pf.TopologyBit(at + 0) == Topology(plan)[0];
    forall i | 0 <= i < n ensures pf.TopologyBit(at + 1 + i) == Topology(l)[i] {
      assert pf.TopologyBit(at + (1 + i)) == Topology(plan)[1 + i];
    }
    forall i | 0 <= i < |Topology(r)| ensures pf.TopologyBit(at + 1 + n + i) == Topology(r)[i] {
      assert pf.TopologyBit(at + (1 + n + i)) == Topology(plan)[1 + n + i];
    }
  }

  lemma CarriesBeside(pf: Proof, plan: Plan, start: nat, cur: Cursor)
    requires plan.Beside? && Carries(pf, plan, start, cur)
    ensures !pf.TopologyBit(cur.topo) && cur.sibling < |pf.siblings| && pf.siblings[cur.sibling] == plan.sibling
    ensures var next := Cursor(cur.sibling + 1, cur.topo + 1);
            Carries(pf, plan.child, start, next) && CursorAfter(plan.child, next) == CursorAfter(plan, cur)
  {
    var c := plan.child;
    assert pf.TopologyBit(cur.topo + 0) == Topology(plan)[0] && pf.siblings[cur.sibling + 0] == Siblings(plan)[0];
    forall i | 0 <= i < |Topology(c)| ensures pf.TopologyBit(cur.topo + 1 + i) == Topology(c)[i] {
      assert pf.TopologyBit(cur.topo + (1 + i)) == Topology(plan)[1 + i];
    }
    forall i | 0 <= i < |Siblings(c)| ensures pf.siblings[cur.sibling + 1 + i] == Siblings(c)[i] {
      assert pf.siblings[cur.sibling + (1 + i)] == Siblings(plan)[1 + i];
    }
  }

  // ---- The walk retraces the plan ----

  /** Pre and post summaries of a part, evaluated along the plan. */
  function Eval(pf: Proof, values: seq<Digest>, plan: Plan, start: nat): Option<(HashedNode, HashedNode)> {
    match plan
    case Answer(_, _, _, _) => LeafPair(pf, start, values)
    case Both(l, r) =>
      var a, b := Eval(pf, values, l, start), Eval(pf, values, r, start + |Leaves(l)|);
      if a.Some? && b.Some? then Some(JoinPairs(a.value, b.value)) else None
    case Beside(left, s, c) =>
      var a := Eval(pf, values, c, start);
      if a.Some? then Some(PairBeside(a.value, s, left)) else None
  }

  /** Keys below one child followed by keys below the other split at the boundary. */
  lemma SplitAtBoundary(keys: seq<ResourceId>, p: Position, n: nat)
    requires |p| < DEPTH && n <= |keys|
    requires forall i :: 0 <= i < n ==> p + [false] <= keys[i]
    requires forall i :: n <= i < |keys| ==> p + [true] <= keys[i]
    ensures SplitPoint(keys, |p|) == n
  {
    var flags := seq(|keys|, i requires 0 <= i < |keys| => !keys[i][|p|]);
    forall i | 0 <= i < |keys| ensures flags[i] <==> i < n {
      BelowParent(p, !(i < n), keys[i]);
    }
    var mid := PartitionPoint(flags, 0, |keys|);
    PartitionPointIsExact(flags, 0, |keys|);
    assert forall i :: 0 <= i < |keys| ==> (flags[i] <==> i < mid);
    assert mid < |keys| ==> !flags[mid];
    assert n < |keys| ==> !flags[n];
    assert forall i :: 0 <= i < |keys| && flags[i] ==> i < mid && i < n;
    assert 0 < mid ==> flags[mid - 1];
  }

  /** Walking the part from `cur` gives what evaluating the plan gives. */
  ghost predicate Follows(pf: Proof, values: seq<Digest>, plan: Plan, p: Position, start: nat, cur: Cursor)
    requires start + |Leaves(plan)| <= |pf.leaves| && Eval(pf, values, plan, start).Some?
  {
    var w := WalkPair(pf, values, start, start + |Leaves(plan)|, |p|, cur);
    && w.Some?
    && w.value.value == Eval(pf, values, plan, start).value
    && w.value.cursor == CursorAfter(plan, cur)
  }

  lemma {:induction false} WalkFollowsPlan(pf: Proof, values: seq<Digest>, plan: Plan, p: Position,
                                           start: nat, cur: Cursor)
    requires Fits(plan, p) && Carries(pf, plan, start, cur) && Eval(pf, values, plan, start).Some?
    ensures Follows(pf, values, plan, p, start, cur)
    decreases plan
  {
    match plan
    case Answer(_, _, d, _) =>
      assert Leaves(plan)[0].depth == d;
      assert pf.leaves[start + 0].depth == Leaves(plan)[0].depth;
    case Both(l, r) =>
      var next := cur.(topo := cur.topo + 1);
      CarriesBoth(pf, plan, start, cur);
      WalkFollowsPlan(pf, values, l, p + [false], start, next);
      WalkFollowsPlan(pf, values, r, p + [true], start + |Leaves(l)|, CursorAfter(l, next));
      RangeKeysInRange(pf, plan, start);
      BothSplitsAtMid(pf, plan, p, start);
      BothFollows(pf, values, plan, p, start, cur);
    case Beside(left, s, c) =>
      CarriesBeside(pf, plan, start, cur);
      WalkFollowsPlan(pf, values, c, p + [!left], start, Cursor(cur.sibling + 1, cur.topo + 1));
      RangeKeysInRange(pf, plan, start);
      BesideGoes(pf, plan, p, start);
      BesideFollows(pf, values, plan, p, start, cur);
  }

  lemma BothFollows(pf: Proof, values: seq<Digest>, plan: Plan, p: Position, start: nat, cur: Cursor)
    requires plan.Both? && |p| < DEPTH && start + |Leaves(plan)| <= |pf.leaves|
    requires Eval(pf, values, plan, start).Some?
    requires var next := cur.(topo := cur.topo + 1);
             && Follows(pf, values, plan.left, p + [false], start, next)
             && Follows(pf, values, plan.right, p + [true], start + |Leaves(plan.left)|, CursorAfter(plan.left, next))
             && CursorAfter(plan.right, CursorAfter(plan.left, next)) == CursorAfter(plan, cur)
    requires pf.TopologyBit(cur.topo) && TerminalAt(pf, start, start + |Leaves(plan)|, |p|) == Continue
    requires KeysInRange(pf, start, start + |Leaves(plan)|)
    requires SplitPoint(RangeKeys(pf, start, start + |Leaves(plan)|), |p|) == |Leaves(plan.left)|
    ensures Follows(pf, values, plan, p, start, cur)
  {
    var next, n, end := cur.(topo := cur.topo + 1), |Leaves(plan.left)|, start + |Leaves(plan)|;
    var left := WalkPair(pf, values, start, start + n, |p| + 1, next).value;
    var right := WalkPair(pf, values, start + n, end, |p| + 1, CursorAfter(plan.left, next)).value;
    WalkPairBothUnfolds(pf, values, start, end, |p|, cur, n, left, right);
  }

  lemma WalkPairBothUnfolds(pf: Proof, values: seq<Digest>, start: nat, end: nat, level: nat, cur: Cursor, n: nat,
                            left: Walked<(HashedNode, HashedNode)>, right: Walked<(HashedNode, HashedNode)>)
    requires start < end <= |pf.leaves| && level < DEPTH && KeysInRange(pf, start, end) && pf.TopologyBit(cur.topo)
    requires TerminalAt(pf, start, end, level) == Continue && SplitPoint(RangeKeys(pf, start, end), level) == n
    requires WalkPair(pf, values, start, start + n, level + 1, cur.(topo := cur.topo + 1)) == Some(left)
    requires WalkPair(pf, values, start + n, end, level + 1, left.cursor) == Some(right)
    ensures WalkPair(pf, values, start, end, level, cur) ==
            Some(Walked(JoinPairs(left.value, right.value), right.cursor, left.visited + right.visited))
  {
  }

  lemma BesideFollows(pf: Proof, values: seq<Digest>, plan: Plan, p: Position, start: nat, cur: Cursor)
    requires plan.Beside? && |p| < DEPTH && start + |Leaves(plan)| <= |pf.leaves|
    requires Eval(pf, values, plan, start).Some?
    requires var next := Cursor(cur.sibling + 1, cur.topo + 1);
             && Follows(pf, values, plan.child, p + [!plan.goesLeft], start, next)
             && CursorAfter(plan.child, next) == CursorAfter(plan, cur)
    requires !pf.TopologyBit(cur.topo) && TerminalAt(pf, start, start + |Leaves(plan)|, |p|) == Continue
    requires KeysInRange(pf, start, start + |Leaves(plan)|)
    requires cur.sibling < |pf.siblings| && pf.siblings[cur.sibling] == plan.sibling
    requires GoesLeft(pf, start, |p|) == plan.goesLeft
    ensures Follows(pf, values, plan, p, start, cur)
  {
    var end := start + |Leaves(plan)|;
    assert WalkPair(pf, values, start, end, |p|, cur) == WalkPairBeside(pf, values, start, end, |p|, cur);
  }

  lemma RangeKeysInRange(pf: Proof, plan: Plan, start: nat)
    requires CarriesLeaves(pf, plan, start)
    ensures KeysInRange(pf, start, start + |Leaves(plan)|)
    ensures forall i :: 0 <= i < |Leaves(plan)| ==>
              RangeKeys(pf, start, start + |Leaves(plan)|)[i] == Leaves(plan)[i].key
  {
    forall i | start <= i < start + |Leaves(plan)| ensures pf.leaves[i].keyIdx < |pf.keys| {
      assert pf.LeafKey(start + (i - start)) == Some(Leaves(plan)[i - start].key);
    }
    forall i | 0 <= i < |Leaves(plan)|
      ensures RangeKeys(pf, start, start + |Leaves(plan)|)[i] == Leaves(plan)[i].key
    {
      assert pf.LeafKey(start + i) == Some(Leaves(plan)[i].key);
    }
  }

  lemma BothSplitsAtMid(pf: Proof, plan: Plan, p: Position, start: nat)
    requires plan.Both? && Fits(plan, p) && CarriesLeaves(pf, plan, start)
    requires KeysInRange(pf, start, start + |Leaves(plan)|)
    ensures SplitPoint(RangeKeys(pf, start, start + |Leaves(plan)|), |p|) == |Leaves(plan.left)|
    ensures TerminalAt(pf, start, start + |Leaves(plan)|, |p|) == Continue
  {
    RangeKeysInRange(pf, plan, start);
    var keys, n := RangeKeys(pf, start, start + |Leaves(plan)|), |Leaves(plan.left)|;
    forall i | 0 <= i < n ensures p + [false] <= keys[i] {
      LeavesAreBelow(plan.left, p + [false], i);
      assert Leaves(plan)[i] == Leaves(plan.left)[i];
    }
    forall i | n <= i < |keys| ensures p + [true] <= keys[i] {
      LeavesAreBelow(plan.right, p + [true], i - n);
      assert Leaves(plan)[i] == Leaves(plan.right)[i - n];
    }
    SplitAtBoundary(keys, p, n);
  }

  lemma BesideGoes(pf: Proof, plan: Plan, p: Position, start: nat)
    requires plan.Beside? && Fits(plan, p) && CarriesLeaves(pf, plan, start)
    requires KeysInRange(pf, start, start + |Leaves(plan)|)
    ensures GoesLeft(pf, start, |p|) == plan.goesLeft
    ensures TerminalAt(pf, start, start + |Leaves(plan)|, |p|) == Continue
  {
    LeavesAreBelow(plan.child, p + [!plan.goesLeft], 0);
    assert pf.LeafKey(start + 0) == Some(Leaves(plan)[0].key);
    assert pf.leaves[start + 0].depth == Leaves(plan)[0].depth;
    BelowParent(p, !plan.goesLeft, Leaves(plan)[0].key);
  }
}
