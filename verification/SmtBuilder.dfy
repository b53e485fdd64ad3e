/** The proof builder as it runs: one pass over the tree that pushes leaves, siblings and
    topology bits and fills the slot table, then one pass that classifies the members. */
module SmtBuilder {
  import opened SmtKeys
  import opened SmtTree
  import opened Options
  import opened SmtUpdate
  import opened SmtUpdateProofs
  import opened SmtHistory
  import opened SmtProof
  import opened SmtRoots
  import opened SmtPlan
  import opened SmtBuild

  // ---- Sorting the queried keys ----

  ghost predicate Distinct(input: seq<ResourceId>) {
    forall i, j :: 0 <= i < j < |input| ==> input[i] != input[j]
  }

  /** `order` lists every index below `n` once. */
  ghost predicate Permutes(order: seq<nat>, n: nat) {
    && |order| == n
    && (forall s :: 0 <= s < n ==> order[s] < n)
    && (forall s, t :: 0 <= s < t < n ==> order[s] != order[t])
    && (forall i: nat :: i < n ==> i in order)
  }

  ghost predicate InOrder(input: seq<ResourceId>, order: seq<nat>) {
    && (forall s :: 0 <= s < |order| ==> order[s] < |input|)
    && (forall s, t :: 0 <= s < t < |order| ==> !Less(input[order[t]], input[order[s]]))
  }

  method SortOrder(input: seq<ResourceId>) returns (order: seq<nat>)
    ensures Permutes(order, |input|) && InOrder(input, order)
  {
    order := [];
    for n := 0 to |input|
      invariant Permutes(order, n) && InOrder(input, order)
    {
      var pos := n;
      while pos > 0 && Less(input[n], input[order[pos - 1]])
        invariant 0 <= pos <= n
        invariant forall s :: pos <= s < n ==> Less(input[n], input[order[s]])
      {
        pos := pos - 1;
      }
      InsertPermutes(order, pos, n);
      InsertInOrder(input, order, pos, n);
      order := order[..pos] + [n] + order[pos..];
    }
  }

  lemma InsertPermutes(order: seq<nat>, pos: nat, n: nat)
    requires Permutes(order, n) && pos <= n
    ensures Permutes(order[..pos] + [n] + order[pos..], n + 1)
  {
    var out := order[..pos] + [n] + order[pos..];
    forall i: nat | i < n + 1 ensures i in out {
      if i < n {
        assert i in order;
        var s :| 0 <= s < n && order[s] == i;
        assert out[if s < pos then s else s + 1] == i;
      } else {
        assert out[pos] == n;
      }
    }
  }

  lemma InsertInOrder(input: seq<ResourceId>, order: seq<nat>, pos: nat, n: nat)
    requires InOrder(input, order) && pos <= |order| && n < |input|
    requires pos > 0 ==> !Less(input[n], input[order[pos - 1]])
    requires forall s :: pos <= s < |order| ==> Less(input[n], input[order[s]])
    ensures InOrder(input, order[..pos] + [n] + order[pos..])
  {
    var out := order[..pos] + [n] + order[pos..];
    forall s, t | 0 <= s < t < |out| ensures !Less(input[out[t]], input[out[s]]) {
      if t == pos {
        if s < pos - 1 && Less(input[n], input[order[s]]) {
          LessIsTotal(input[order[s]], input[order[pos - 1]]);
          if Less(input[order[s]], input[order[pos - 1]]) {
            LessIsTransitive(input[n], input[order[s]], input[order[pos - 1]]);
          }
        }
      } else if s == pos {
        LessIsStrict(input[n], input[order[t - 1]]);
      }
    }
  }

  /** `sorted` and `order` are the queried keys in ascending order and where each came from. */
  ghost predicate Sorts(input: seq<ResourceId>, sorted: seq<ResourceId>, order: seq<nat>) {
    && Permutes(order, |input|) && |sorted| == |input|
    && Ascending(sorted)
    && (forall s :: 0 <= s < |sorted| ==> sorted[s] == input[order[s]])
  }

  /** The keys in ascending order with their positions in the input; none on duplicates. */
  method SortUnique(input: seq<ResourceId>) returns (r: Option<(seq<ResourceId>, seq<nat>)>)
    ensures r.Some? <==> Distinct(input)
    ensures r.Some? ==> Sorts(input, r.value.0, r.value.1)
  {
    var order := SortOrder(input);
    var sorted := [];
    for s := 0 to |order|
      invariant |sorted| == s && Ascending(sorted)
      invariant forall t :: 0 <= t < s ==> sorted[t] == input[order[t]]
    {
      var item := input[order[s]];
      if s > 0 && sorted[s - 1] == item {
        assert order[s - 1] != order[s];
        assert input[order[s - 1]] == input[order[s]];
        return None;
      }
      NextAscends(input, order, sorted, s);
      sorted := sorted + [item];
    }
    AscendingIsDistinct(input, sorted, order);
    r := Some((sorted, order));
  }

  lemma NextAscends(input: seq<ResourceId>, order: seq<nat>, sorted: seq<ResourceId>, s: nat)
    requires InOrder(input, order) && s < |order| && |sorted| == s && Ascending(sorted)
    requires forall t :: 0 <= t < s ==> sorted[t] == input[order[t]]
    requires s > 0 ==> sorted[s - 1] != input[order[s]]
    ensures Ascending(sorted + [input[order[s]]])
  {
    forall t | 0 <= t < s ensures Less(sorted[t], input[order[s]]) {
      LessIsTotal(sorted[s - 1], input[order[s]]);
      if t < s - 1 {
        LessIsTransitive(sorted[t], sorted[s - 1], input[order[s]]);
      }
    }
  }

  lemma AscendingIsDistinct(input: seq<ResourceId>, sorted: seq<ResourceId>, order: seq<nat>)
    requires Sorts(input, sorted, order)
    ensures Distinct(input)
  {
    forall i, j | 0 <= i < j < |input| ensures input[i] != input[j] {
      assert i in order && j in order;
      var s :| 0 <= s < |order| && order[s] == i;
      var t :| 0 <= t < |order| && order[t] == j;
      LessIsStrict(sorted[if s < t then s else t], sorted[if s < t then t else s]);
    }
  }

  // ---- What a collection pass adds ----

  /** The builder's buffers. */
  datatype Buffers = Buffers(
    keys: seq<ResourceId>,
    leaves: seq<ProofLeaf>,
    siblings: seq<HashedNode>,
    topology: seq<bool>,
    slots: seq<nat>)

  /** `idx` inverts `keys`, so no key is interned twice. */
  ghost predicate Table(keys: seq<ResourceId>, idx: map<ResourceId, nat>) {
    && (forall k :: k in idx ==> idx[k] < |keys| && keys[idx[k]] == k)
    && (forall i :: 0 <= i < |keys| ==> keys[i] in idx && idx[keys[i]] == i)
  }

  ghost predicate IsLeaf(keys: seq<ResourceId>, leaf: ProofLeaf, l: PlannedLeaf) {
    leaf.keyIdx < |keys| && keys[leaf.keyIdx] == l.key && leaf.value == l.value && leaf.depth == l.depth
  }

  ghost predicate EmitsLeaves(keys: seq<ResourceId>, a: seq<ProofLeaf>, b: seq<ProofLeaf>, ls: seq<PlannedLeaf>) {
    && |b| == |a| + |ls| && b[..|a|] == a
    && forall i :: 0 <= i < |ls| ==> IsLeaf(keys, b[|a| + i], ls[i])
  }

  /** Slots `off..` of the part now name its leaves, counted from `start`; others are untouched. */
  ghost predicate FillsSlots(a: seq<nat>, b: seq<nat>, plan: Plan, off: nat, start: nat) {
    && off + Slots(plan) <= |a| == |b|
    && (forall s :: 0 <= s < Slots(plan) ==> b[off + s] == start + LeafOfSlot(plan, s))
    && (forall s :: 0 <= s < |a| && !(off <= s < off + Slots(plan)) ==> b[s] == a[s])
  }

  /** The pass that turned `a` into `b` flattened `plan`. */
  ghost predicate Collects(a: Buffers, b: Buffers, plan: Plan, off: nat) {
    && a.keys <= b.keys
    && EmitsLeaves(b.keys, a.leaves, b.leaves, Leaves(plan))
    && b.siblings == a.siblings + Siblings(plan)
    && b.topology == a.topology + Topology(plan)
    && FillsSlots(a.slots, b.slots, plan, off, |a.leaves|)
  }

  lemma CollectsBoth(a: Buffers, b: Buffers, c: Buffers, plan: Plan, off: nat)
    requires plan.Both?
    requires Collects(a.(topology := a.topology + [true]), b, plan.left, off)
    requires Collects(b, c, plan.right, off + Slots(plan.left))
    ensures Collects(a, c, plan, off)
  {
    assert |b.leaves| == |a.leaves| + |Leaves(plan.left)|;
    hide EmitsLeaves;
    hide FillsSlots;
    hide IsLeaf;
    EmitsBoth(a, b, c, Leaves(plan.left), Leaves(plan.right));
    FillsBoth(a.slots, b.slots, c.slots, plan, off, |a.leaves|);
    assert c.topology == a.topology + Topology(plan);
    assert c.siblings == a.siblings + Siblings(plan);
  }

  lemma EmitsBoth(a: Buffers, b: Buffers, c: Buffers, l: seq<PlannedLeaf>, r: seq<PlannedLeaf>)
    requires b.keys <= c.keys
    requires EmitsLeaves(b.keys, a.leaves, b.leaves, l) && EmitsLeaves(c.keys, b.leaves, c.leaves, r)
    ensures EmitsLeaves(c.keys, a.leaves, c.leaves, l + r)
  {
    var n := |a.leaves|;
    forall i | 0 <= i < |l + r| ensures IsLeaf(c.keys, c.leaves[n + i], (l + r)[i]) {
      if i < |l| {
        assert c.leaves[n + i] == c.leaves[..|b.leaves|][n + i] == b.leaves[n + i];
        assert IsLeaf(b.keys, b.leaves[n + i], l[i]);
      } else {
        assert IsLeaf(c.keys, c.leaves[|b.leaves| + (i - |l|)], r[i - |l|]);
      }
    }
    assert c.leaves[..n] == c.leaves[..|b.leaves|][..n];
  }

  lemma FillsBoth(a: seq<nat>, b: seq<nat>, c: seq<nat>, plan: Plan, off: nat, start: nat)
    requires plan.Both?
    requires FillsSlots(a, b, plan.left, off, start)
    requires FillsSlots(b, c, plan.right, off + Slots(plan.left), start + |Leaves(plan.left)|)
    ensures FillsSlots(a, c, plan, off, start)
  {
    var l, r := plan.left, plan.right;
    forall s | 0 <= s < Slots(plan) ensures c[off + s] == start + LeafOfSlot(plan, s) {
      if s < Slots(l) {
        assert b[off + s] == start + LeafOfSlot(l, s);
      } else {
        assert c[off + Slots(l) + (s - Slots(l))] == start + |Leaves(l)| + LeafOfSlot(r, s - Slots(l));
      }
    }
  }

  lemma CollectsBeside(a: Buffers, b: Buffers, plan: Plan, off: nat)
    requires plan.Beside?
    requires Collects(a.(topology := a.topology + [false], siblings := a.siblings + [plan.sibling]), b, plan.child, off)
    ensures Collects(a, b, plan, off)
  {
    hide EmitsLeaves;
    assert Leaves(plan) == Leaves(plan.child);
    FillsBeside(a.slots, b.slots, plan, off, |a.leaves|);
    hide FillsSlots;
    assert b.topology == a.topology + Topology(plan);
    assert b.siblings == a.siblings + Siblings(plan);
  }

  lemma FillsBeside(a: seq<nat>, b: seq<nat>, plan: Plan, off: nat, start: nat)
    requires plan.Beside? && FillsSlots(a, b, plan.child, off, start)
    ensures FillsSlots(a, b, plan, off, start)
  {
    forall s | 0 <= s < Slots(plan) ensures b[off + s] == start + LeafOfSlot(plan, s) {
      assert b[off + s] == start + LeafOfSlot(plan.child, s);
    }
  }

  class ProofBuilder {
    const view: View
    var keys: seq<ResourceId>
    var keyToIdx: map<ResourceId, nat>
    var leaves: seq<ProofLeaf>
    var siblings: seq<HashedNode>
    var topology: seq<bool>
    var sortedToLeaf: seq<nat>

    ghost function Contents(): Buffers
      reads this
    {
      Buffers(keys, leaves, siblings, topology, sortedToLeaf)
    }

    /** An empty collection over `input`, whose keys come first in the table. */
    constructor (view: View, input: seq<ResourceId>)
      requires Distinct(input)
      ensures this.view == view && |sortedToLeaf| == |input|
      ensures Table(keys, keyToIdx) && keys == input && leaves == [] && siblings == [] && topology == []
    {
      this.view := view;
      this.sortedToLeaf := seq(|input|, _ => 0);
      this.leaves, this.siblings, this.topology := [], [], [];
      this.keys, this.keyToIdx := [], map[];
      new;
      for i := 0 to |input|
        invariant keys == input[..i] && Table(keys, keyToIdx)
        invariant leaves == [] && siblings == [] && topology == [] && |sortedToLeaf| == |input|
      {
        keys := keys + [input[i]];
        keyToIdx := keyToIdx[input[i] := i];
      }
    }

    /** The key's index, after adding it to the table if it is new. */
    method InternKey(key: ResourceId) returns (idx: nat)
      requires Table(keys, keyToIdx)
      modifies this`keys, this`keyToIdx
      ensures Table(keys, keyToIdx) && old(keys) <= keys
      ensures idx < |keys| && keys[idx] == key
      ensures key in old(keys) ==> keys == old(keys)
    {
      if key in keyToIdx {
        return keyToIdx[key];
      }
      idx := |keys|;
      keys := keys + [key];
      keyToIdx := keyToIdx[key := idx];
    }

    /** Both children hold queried keys. */
    method PushSplit()
      modifies this`topology
      ensures var c := old(Contents()); Contents() == c.(topology := c.topology + [true])
    {
      topology := topology + [true];
    }

    /** Only one child holds queried keys; the other is summarised. */
    method PushBeside(sibling: HashedNode)
      modifies this`topology, this`siblings
      ensures var c := old(Contents());
              Contents() == c.(topology := c.topology + [false], siblings := c.siblings + [sibling])
    {
      topology := topology + [false];
      siblings := siblings + [sibling];
    }

    /** Appends a leaf and makes it the answer of `n` slots. */
    method EmitLeaf(key: ResourceId, value: Digest, depth: nat, off: nat, n: nat)
      requires Table(keys, keyToIdx) && off + n <= |sortedToLeaf|
      modifies this
      ensures Table(keys, keyToIdx) && |sortedToLeaf| == |old(sortedToLeaf)|
      ensures Collects(old(Contents()), Contents(), Answer(key, value, depth, n), off)
    {
      var keyIdx := InternKey(key);
      var leafPos := |leaves|;
      leaves := leaves + [ProofLeaf(depth, keyIdx, value)];
      for s := off to off + n
        modifies this`sortedToLeaf
        invariant |sortedToLeaf| == |old(sortedToLeaf)|
        invariant forall t :: off <= t < s ==> sortedToLeaf[t] == leafPos
        invariant forall t :: 0 <= t < |sortedToLeaf| && !(off <= t < s) ==> sortedToLeaf[t] == old(sortedToLeaf)[t]
      {
        sortedToLeaf := sortedToLeaf[s := leafPos];
      }
    }

    /** Collects `ks` below `p`, the answers going to the slots from `off`. */
    method Collect(p: Position, ks: seq<ResourceId>, off: nat)
      requires WellPlaced(view) && KeySlice(ks, p) && Table(keys, keyToIdx) && off + |ks| <= |sortedToLeaf|
      modifies this
      ensures Table(keys, keyToIdx) && |sortedToLeaf| == |old(sortedToLeaf)|
      ensures ks == [] ==> Contents() == old(Contents())
      ensures ks != [] ==> Collects(old(Contents()), Contents(), PlanAt(view, p, ks), off)
      decreases DEPTH - |p|, 1
    {
      if ks == [] {
        return;
      }
      var node := Read(view, p);
      if node.None? {
        CollectEmpty(p, ks, |p|, off);
      } else if node.value.Leaf? {
        EmitLeaf(node.value.key, node.value.value, |p|, off, |ks|);
      } else {
        CollectInternal(p, ks, off);
      }
    }

    /** All keys are absent: splits them until each has an empty leaf of its own. Only the
        level is known here; `p` is the position it belongs to. */
    method CollectEmpty(ghost p: Position, ks: seq<ResourceId>, level: nat, off: nat)
      requires KeySlice(ks, p) && ks != [] && level == |p|
      requires Table(keys, keyToIdx) && off + |ks| <= |sortedToLeaf|
      modifies this
      ensures Table(keys, keyToIdx) && |sortedToLeaf| == |old(sortedToLeaf)|
      ensures Collects(old(Contents()), Contents(), PlanEmpty(p, ks), off)
      decreases DEPTH - |p|
    {
      hide *;
      EmptyPlanParts(p, ks);
      ghost var before := Contents();
      if |ks| == 1 {
        EmitLeaf(ks[0], Zero, level, off, 1);
        return;
      }
      var mid := SplitPoint(ks, level);
      if 0 < mid < |ks| {
        PushSplit();
        CollectEmpty(p + [false], ks[..mid], level + 1, off);
        ghost var between := Contents();
        CollectEmpty(p + [true], ks[mid..], level + 1, off + mid);
        CollectsBoth(before, between, Contents(), PlanEmpty(p, ks), off);
      } else {
        PushBeside(EMPTY_NODE);
        CollectEmpty(p + [mid == 0], ks, level + 1, off);
        CollectsBeside(before, Contents(), PlanEmpty(p, ks), off);
      }
    }

    method CollectInternal(p: Position, ks: seq<ResourceId>, off: nat)
      requires WellPlaced(view) && KeySlice(ks, p) && ks != []
      requires Read(view, p).Some? && Read(view, p).value.Internal?
      requires Table(keys, keyToIdx) && off + |ks| <= |sortedToLeaf|
      modifies this
      ensures Table(keys, keyToIdx) && |sortedToLeaf| == |old(sortedToLeaf)|
      ensures Collects(old(Contents()), Contents(), PlanAt(view, p, ks), off)
      decreases DEPTH - |p|, 0
    {
      hide *;
      InternalPlan(view, p, ks);
      ghost var before := Contents();
      ghost var plan := PlanAt(view, p, ks);
      var mid := SplitPoint(ks, |p|);
      if mid == 0 {
        PushBeside(ChildSummary(Read(view, p + [false])));
        Collect(p + [true], ks, off);
        CollectsBeside(before, Contents(), plan, off);
      } else if mid == |ks| {
        PushBeside(ChildSummary(Read(view, p + [true])));
        Collect(p + [false], ks, off);
        CollectsBeside(before, Contents(), plan, off);
      } else {
        PushSplit();
        Collect(p + [false], ks[..mid], off);
        ghost var between := Contents();
        Collect(p + [true], ks[mid..], off + mid);
        CollectsBoth(before, between, Contents(), plan, off);
      }
    }

    /** One membership per queried key, in input order. */
    method ClassifyMemberships(order: seq<nat>) returns (memberships: seq<Membership>)
      requires Permutes(order, |sortedToLeaf|)
      requires forall s :: 0 <= s < |sortedToLeaf| ==> sortedToLeaf[s] < |leaves|
      ensures |memberships| == |order|
      ensures forall s :: 0 <= s < |order| ==> memberships[order[s]] == Claim(sortedToLeaf[s], order[s])
    {
      var ms := new Membership[|order|](_ => Absent(0));
      for s := 0 to |order|
        invariant forall t :: 0 <= t < s ==> ms[order[t]] == Claim(sortedToLeaf[t], order[t])
      {
        var leafPos := sortedToLeaf[s];
        ms[order[s]] := if leaves[leafPos].keyIdx == order[s] then Present(leafPos) else Absent(leafPos);
      }
      memberships := ms[..];
    }

    /** Present exactly when the leaf carries the key with that index. */
    ghost function Claim(leafPos: nat, idx: nat): Membership
      requires leafPos < |leaves|
      reads this`leaves
    {
      if leaves[leafPos].keyIdx == idx then Present(leafPos) else Absent(leafPos)
    }
  }

  // ---- Building a proof ----

  /** Evaluating the proof gives both canonical roots, and its members the queried values,
      for every map the view can represent and every list of new values. */
  ghost predicate Proves(pf: Proof, view: View, input: seq<ResourceId>) {
    && (forall m: StateMap, values: seq<Digest> :: Represents(view, m) && |values| == |input| ==>
          ComputeRoots(pf, values)
          == Some((CanonRoot(m), CanonRoot(ApplyWrites(m, LastWrites(Zip(input, values)))))))
    && (forall m: StateMap, i: nat :: Represents(view, m) && i < |input| ==>
          MemberValue(pf, i) == Some(ValueIn(m, input[i])))
  }

  /** What the builder promises of a proof. Without a queried key it visits nothing. */
  ghost predicate BuiltFor(pf: Proof, view: View, input: seq<ResourceId>) {
    && Distinct(input) && input <= pf.keys && |pf.memberships| == |input|
    && if input == [] then pf.leaves == [] else Proves(pf, view, input)
  }

  /** A proof without leaves evaluates to the empty root, whatever the tree holds. */
  lemma LeaflessProofGivesEmptyRoots(pf: Proof, values: seq<Digest>)
    requires pf.leaves == []
    ensures ComputeRoots(pf, values) == Some((Zero, Zero))
  {
  }

  /** A multi-proof for the queried keys; none when a key is queried twice. */
  method Build(view: View, input: seq<ResourceId>) returns (r: Option<Proof>)
    requires WellPlaced(view)
    ensures r.Some? <==> Distinct(input)
    ensures r.Some? ==> BuiltFor(r.value, view, input)
    ensures r.Some? && input == [] ==> forall values :: ComputeRoots(r.value, values) == Some((Zero, Zero))
  {
    var s := SortUnique(input);
    if s.None? {
      return None;
    }
    var sorted, order := s.value.0, s.value.1;
    var b := new ProofBuilder(view, input);
    ghost var before := b.Contents();
    b.Collect([], sorted, 0);
    ghost var after := b.Contents();
    hide Collects;
    hide Table;
    hide Ascending;
    if sorted != [] {
      CollectedSlots(before, after, PlanAt(view, [], sorted));
    }
    var memberships := b.ClassifyMemberships(order);
    r := Some(Proof(b.keys, b.leaves, b.siblings, b.topology, memberships));
    if sorted != [] {
      CollectedIsBuilt(before, after, b.keyToIdx, PlanAt(view, [], sorted), input, sorted, order, memberships);
      BuiltProves(r.value, view, input, sorted);
    } else {
      forall values ensures ComputeRoots(r.value, values) == Some((Zero, Zero)) {
        LeaflessProofGivesEmptyRoots(r.value, values);
      }
    }
  }

  /** A fresh collection of all slots. */
  ghost predicate CollectsAll(a: Buffers, b: Buffers, plan: Plan) {
    && a.leaves == [] && a.siblings == [] && a.topology == [] && |a.slots| == Slots(plan)
    && Collects(a, b, plan, 0)
  }

  lemma CollectedSlots(a: Buffers, b: Buffers, plan: Plan)
    requires CollectsAll(a, b, plan)
    ensures |b.slots| == Slots(plan) && |b.leaves| == |Leaves(plan)|
    ensures forall s :: 0 <= s < |b.slots| ==> b.slots[s] == LeafOfSlot(plan, s) && b.slots[s] < |b.leaves|
  {
    forall s | 0 <= s < |b.slots| ensures b.slots[s] == LeafOfSlot(plan, s) {
      assert b.slots[0 + s] == LeafOfSlot(plan, s);
    }
  }

  lemma CollectedCarries(a: Buffers, b: Buffers, plan: Plan, ms: seq<Membership>)
    requires CollectsAll(a, b, plan)
    ensures Carries(Proof(b.keys, b.leaves, b.siblings, b.topology, ms), plan, 0, Cursor(0, 0))
    ensures forall l :: 0 <= l < |b.leaves| ==> b.leaves[l].keyIdx < |b.keys|
  {
    var pf := Proof(b.keys, b.leaves, b.siblings, b.topology, ms);
    assert pf.siblings == Siblings(plan) && pf.topology == Topology(plan);
    forall i | 0 <= i < |Leaves(plan)| ensures IsLeaf(b.keys, b.leaves[i], Leaves(plan)[i]) {
      assert IsLeaf(b.keys, b.leaves[0 + i], Leaves(plan)[i]);
    }
  }

  /** Each queried key's membership names the leaf of its slot. */
  ghost predicate Classified(b: Buffers, ms: seq<Membership>, order: seq<nat>) {
    && |ms| == |order| == |b.slots|
    && forall s :: 0 <= s < |order| ==>
         && order[s] < |ms| && b.slots[s] < |b.leaves|
         && ms[order[s]] ==
            (if b.leaves[b.slots[s]].keyIdx == order[s] then Present(b.slots[s]) else Absent(b.slots[s]))
  }

  lemma CollectedIsBuilt(a: Buffers, b: Buffers, idx: map<ResourceId, nat>, plan: Plan, input: seq<ResourceId>,
                         ks: seq<ResourceId>, order: seq<nat>, ms: seq<Membership>)
    requires CollectsAll(a, b, plan) && |ks| == Slots(plan) && Table(b.keys, idx) && Sorts(input, ks, order)
    requires a.keys == input && Classified(b, ms, order)
    ensures Built(Proof(b.keys, b.leaves, b.siblings, b.topology, ms), plan, input, ks)
  {
    var pf := Proof(b.keys, b.leaves, b.siblings, b.topology, ms);
    CollectedCarries(a, b, plan, ms);
    CollectedSlots(a, b, plan);
    AscendingIsDistinct(input, ks, order);
    assert input <= pf.keys;
    hide Collects;
    hide Carries;
    hide Leaves;
    hide LeafOfSlot;
    forall i: nat | i < |input|
      ensures input[i] in ks
      ensures MemberBacks(pf, plan, 0, ks, i)
      ensures pf.memberships[i].Present? <==> pf.LeafKey(pf.memberships[i].leaf) == Some(input[i])
    {
      MemberIsClassified(b, idx, plan, input, ks, order, pf, i);
    }
    forall s: nat | s < |ks| ensures SlotBacked(pf, plan, 0, ks, s) {
      assert Backs(pf, plan, 0, ks, s, order[s]);
    }
  }

  lemma MemberIsClassified(b: Buffers, idx: map<ResourceId, nat>, plan: Plan, input: seq<ResourceId>,
                           ks: seq<ResourceId>, order: seq<nat>, pf: Proof, i: nat)
    requires Table(b.keys, idx) && Sorts(input, ks, order) && input <= b.keys && i < |input|
    requires |b.slots| == Slots(plan) == |ks| && forall s :: 0 <= s < |b.slots| ==> b.slots[s] == LeafOfSlot(plan, s)
    requires Classified(b, pf.memberships, order) && pf.keys == b.keys && pf.leaves == b.leaves
    requires forall l :: 0 <= l < |b.leaves| ==> b.leaves[l].keyIdx < |b.keys|
    ensures input[i] in ks
    ensures MemberBacks(pf, plan, 0, ks, i)
    ensures pf.memberships[i].Present? <==> pf.LeafKey(pf.memberships[i].leaf) == Some(input[i])
  {
    assert i in order;
    var s :| 0 <= s < |order| && order[s] == i;
    assert ks[s] == input[i] && pf.keys[i] == input[i];
    assert Backs(pf, plan, 0, ks, s, i);
    var l := b.slots[s];
    assert b.leaves[l].keyIdx < |b.keys|;
  }

  lemma BuiltProves(pf: Proof, view: View, input: seq<ResourceId>, ks: seq<ResourceId>)
    requires WellPlaced(view) && KeySlice(ks, []) && ks != [] && Built(pf, PlanAt(view, [], ks), input, ks)
    ensures Proves(pf, view, input)
  {
    hide Represents;
    hide Built;
    hide PlanAt;
    hide ComputeRoots;
    hide MemberValue;
    hide CanonRoot;
    hide LastWrites;
    hide ApplyWrites;
    forall m: StateMap, values: seq<Digest> | Represents(view, m) && |values| == |input|
      ensures ComputeRoots(pf, values)
              == Some((CanonRoot(m), CanonRoot(ApplyWrites(m, LastWrites(Zip(input, values))))))
    {
      BuiltProofGivesBothRoots(pf, view, input, ks, m, values);
    }
    forall m: StateMap, i: nat | Represents(view, m) && i < |input|
      ensures MemberValue(pf, i) == Some(ValueIn(m, input[i]))
    {
      BuiltProofDecidesItsMembers(pf, view, input, ks, m, i);
    }
  }
}
