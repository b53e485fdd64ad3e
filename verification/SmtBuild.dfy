/** What the proof builder collects, as a plan over the readable nodes, and the completeness
    of built proofs: both roots they evaluate to are canonical. */
module SmtBuild {
  import opened SmtKeys
  import opened SmtTree
  import opened Options
  import opened SmtUpdate
  import opened SmtUpdateProofs
  import opened SmtHistory
  import opened SmtProof
  import opened SmtRoots
  import opened SmtLeafPost
  import opened SmtPlan

  /** Queried keys as the collection receives them: strictly ascending, all below `p`. */
  ghost predicate KeySlice(ks: seq<ResourceId>, p: Position) {
    Ascending(ks) && AllUnder(ks, p)
  }

  lemma TwoKeysAreAboveTheBottom(ks: seq<ResourceId>, p: Position)
    requires KeySlice(ks, p) && |ks| > 1
    ensures |p| < DEPTH
  {
    LessIsStrict(ks[0], ks[1]);
    DistinctKeysAreAboveTheBottom(ks[0], ks[1], p);
  }

  lemma KeyHalves(ks: seq<ResourceId>, p: Position)
    requires KeySlice(ks, p) && |p| < DEPTH
    ensures var mid := SplitPoint(ks, |p|);
            && KeySlice(ks[..mid], p + [false]) && KeySlice(ks[mid..], p + [true])
            && (mid == 0 ==> KeySlice(ks, p + [true]))
            && (mid == |ks| ==> KeySlice(ks, p + [false]))
  {
    SplitIsExact(ks, p);
    assert ks[..|ks|] == ks && ks[0..] == ks;
  }

  /** What collecting `ks` from the node at `p` downwards emits. */
  function PlanAt(view: View, p: Position, ks: seq<ResourceId>): (plan: Plan)
    requires WellPlaced(view) && KeySlice(ks, p) && ks != []
    ensures Fits(plan, p) && Slots(plan) == |ks|
    decreases DEPTH - |p|, view
  {
    var node := Read(view, p);
    if node.None? then PlanEmpty(p, ks)
    else if node.value.Leaf? then Answer(node.value.key, node.value.value, |p|, |ks|)
    else
      var mid := SplitPoint(ks, |p|);
      KeyHalves(ks, p);
      if mid == 0 then
        Beside(false, ChildSummary(Read(view, p + [false])), PlanAt(view, p + [true], ks))
      else if mid == |ks| then
        Beside(true, ChildSummary(Read(view, p + [true])), PlanAt(view, p + [false], ks))
      else
        Both(PlanAt(view, p + [false], ks[..mid]), PlanAt(view, p + [true], ks[mid..]))
  }

  /** Below a position without a node: one empty leaf per key, at the depth that separates it. */
  function PlanEmpty(p: Position, ks: seq<ResourceId>): (plan: Plan)
    requires KeySlice(ks, p) && ks != []
    ensures Fits(plan, p) && Slots(plan) == |ks|
    decreases DEPTH - |p|, ks
  {
    if |ks| == 1 then Answer(ks[0], Zero, |p|, 1)
    else
      TwoKeysAreAboveTheBottom(ks, p);
      var mid := SplitPoint(ks, |p|);
      KeyHalves(ks, p);
      if 0 < mid < |ks| then Both(PlanEmpty(p + [false], ks[..mid]), PlanEmpty(p + [true], ks[mid..]))
      else Beside(mid != 0, EMPTY_NODE, PlanEmpty(p + [mid == 0], ks))
  }

  // ---- Members of a built proof ----

  /** Member `i` asks for `ks[s]` and names the leaf that answers slot `s` of the part. */
  ghost predicate Backs(pf: Proof, plan: Plan, start: nat, ks: seq<ResourceId>, s: nat, i: nat) {
    && s < |ks| == Slots(plan)
    && i < |pf.memberships| <= |pf.keys|
    && pf.keys[i] == ks[s]
    && pf.memberships[i].leaf == start + LeafOfSlot(plan, s)
  }

  ghost predicate SlotBacked(pf: Proof, plan: Plan, start: nat, ks: seq<ResourceId>, s: nat) {
    exists i: nat :: Backs(pf, plan, start, ks, s, i)
  }

  ghost predicate MemberBacks(pf: Proof, plan: Plan, start: nat, ks: seq<ResourceId>, i: nat) {
    exists s: nat :: Backs(pf, plan, start, ks, s, i)
  }

  /** The members naming a leaf of the part are exactly those of its keys. */
  ghost predicate Answered(pf: Proof, plan: Plan, start: nat, ks: seq<ResourceId>) {
    && |ks| == Slots(plan)
    && (forall i :: 0 <= i < |pf.memberships| && start <= pf.memberships[i].leaf < start + |Leaves(plan)| ==>
          MemberBacks(pf, plan, start, ks, i))
    && (forall s :: 0 <= s < |ks| ==> SlotBacked(pf, plan, start, ks, s))
  }

  /** The members' keys are distinct, `w` writes member `i`'s key with `values[i]` and
      nothing else, and a member is present exactly when its leaf carries its key. */
  ghost predicate Queried(pf: Proof, values: seq<Digest>, w: map<ResourceId, Digest>) {
    && |pf.memberships| <= |pf.keys| && |values| == |pf.memberships|
    && (forall i, j :: 0 <= i < j < |pf.memberships| ==> pf.keys[i] != pf.keys[j])
    && (forall i :: 0 <= i < |pf.memberships| ==> pf.keys[i] in w && w[pf.keys[i]] == values[i])
    && (forall k :: k in w ==> exists i :: 0 <= i < |pf.memberships| && pf.keys[i] == k)
    && (forall i :: 0 <= i < |pf.memberships| ==>
          (pf.memberships[i].Present? <==> pf.LeafKey(pf.memberships[i].leaf) == Some(pf.keys[i])))
  }

  lemma AnsweredBoth(pf: Proof, plan: Plan, start: nat, ks: seq<ResourceId>)
    requires plan.Both? && Answered(pf, plan, start, ks)
    ensures Answered(pf, plan.left, start, ks[..Slots(plan.left)])
    ensures Answered(pf, plan.right, start + |Leaves(plan.left)|, ks[Slots(plan.left)..])
  {
    var l, r, n, at := plan.left, plan.right, Slots(plan.left), start + |Leaves(plan.left)|;
    forall i | 0 <= i < |pf.memberships| && start <= pf.memberships[i].leaf < at
      ensures MemberBacks(pf, l, start, ks[..n], i)
    {
      assert MemberBacks(pf, plan, start, ks, i);
      var s: nat :| Backs(pf, plan, start, ks, s, i);
      assert Backs(pf, l, start, ks[..n], s, i);
    }
    forall i | 0 <= i < |pf.memberships| && at <= pf.memberships[i].leaf < at + |Leaves(r)|
      ensures MemberBacks(pf, r, at, ks[n..], i)
    {
      assert MemberBacks(pf, plan, start, ks, i);
      var s: nat :| Backs(pf, plan, start, ks, s, i);
      assert Backs(pf, r, at, ks[n..], s - n, i);
    }
    forall s | 0 <= s < n ensures SlotBacked(pf, l, start, ks[..n], s) {
      assert SlotBacked(pf, plan, start, ks, s);
      var i: nat :| Backs(pf, plan, start, ks, s, i);
      assert Backs(pf, l, start, ks[..n], s, i);
    }
    forall s | 0 <= s < |ks[n..]| ensures SlotBacked(pf, r, at, ks[n..], s) {
      assert SlotBacked(pf, plan, start, ks, n + s);
      var i: nat :| Backs(pf, plan, start, ks, n + s, i);
      assert Backs(pf, r, at, ks[n..], s, i);
    }
  }

  lemma AnsweredBeside(pf: Proof, plan: Plan, start: nat, ks: seq<ResourceId>)
    requires plan.Beside? && Answered(pf, plan, start, ks)
    ensures Answered(pf, plan.child, start, ks)
  {
    forall i | 0 <= i < |pf.memberships| && start <= pf.memberships[i].leaf < start + |Leaves(plan.child)|
      ensures MemberBacks(pf, plan.child, start, ks, i)
    {
      assert MemberBacks(pf, plan, start, ks, i);
      var s: nat :| Backs(pf, plan, start, ks, s, i);
      assert Backs(pf, plan.child, start, ks, s, i);
    }
    forall s | 0 <= s < |ks| ensures SlotBacked(pf, plan.child, start, ks, s) {
      assert SlotBacked(pf, plan, start, ks, s);
      var i: nat :| Backs(pf, plan, start, ks, s, i);
      assert Backs(pf, plan.child, start, ks, s, i);
    }
  }

  // ---- Evaluating the plan ----

  /** The canonical summaries at `p` before and after the writes. */
  ghost function CanonPair(m: StateMap, w: map<ResourceId, Digest>, p: Position): (HashedNode, HashedNode) {
    (Summary(Canon(m, p)), Summary(Canon(ApplyWrites(m, w), p)))
  }

  /** Every write below `p` is to a key of `ks`. */
  ghost predicate Covers(ks: seq<ResourceId>, w: map<ResourceId, Digest>, p: Position) {
    forall k :: k in w && p <= k ==> k in ks
  }

  /** The nodes readable from `p` downwards are the canonical tree of `m`. */
  ghost predicate Shows(view: View, m: StateMap, p: Position) {
    && Read(view, p) == StoredNode(Canon(m, p))
    && forall q: Position :: Below(p, q) && Many(m, Parent(q)) ==> Read(view, q) == StoredNode(Canon(m, q))
  }

  lemma PairsJoin(m: StateMap, w: map<ResourceId, Digest>, p: Position)
    requires |p| < DEPTH
    ensures JoinPairs(CanonPair(m, w, p + [false]), CanonPair(m, w, p + [true])) == CanonPair(m, w, p)
  {
    hide Canon;
    CombineIsCanonical(m, p);
    CombineIsCanonical(ApplyWrites(m, w), p);
  }

  lemma PairJoinsSibling(m: StateMap, w: map<ResourceId, Digest>, p: Position, b: bool, ks: seq<ResourceId>)
    requires |p| < DEPTH && Covers(ks, w, p) && AllUnder(ks, p + [b])
    ensures PairBeside(CanonPair(m, w, p + [b]), Summary(Canon(m, p + [!b])), !b) == CanonPair(m, w, p)
  {
    hide Canon;
    forall k: ResourceId | p + [!b] <= k ensures k !in w {
      BelowParent(p, !b, k);
      if k in w {
        BelowParent(p, b, k);
      }
    }
    CanonIsLocal(m, ApplyWrites(m, w), p + [!b]);
    CombineIsCanonical(m, p);
    CombineIsCanonical(ApplyWrites(m, w), p);
    assert p + [b] == if b then p + [true] else p + [false];
    assert p + [!b] == if b then p + [false] else p + [true];
  }

  lemma {:induction false} MembersAtIsExact(ms: seq<Membership>, leaf: nat, n: nat)
    requires n <= |ms|
    ensures var idxs := MembersAt(ms, leaf, n);
            && (forall i: nat :: i in idxs <==> i < n && ms[i].leaf == leaf)
            && (forall a, b :: 0 <= a < b < |idxs| ==> idxs[a] < idxs[b])
  {
    if n > 0 {
      MembersAtIsExact(ms, leaf, n - 1);
    }
  }

  lemma AnswerLeaf(pf: Proof, plan: Plan, start: nat)
    requires plan.Answer? && CarriesLeaves(pf, plan, start)
    ensures start < |pf.leaves| && pf.LeafKey(start) == Some(plan.key)
    ensures pf.leaves[start].value == plan.value && pf.leaves[start].depth == plan.depth
  {
    assert pf.LeafKey(start + 0) == Some(Leaves(plan)[0].key);
    assert pf.leaves[start + 0].value == Leaves(plan)[0].value && pf.leaves[start + 0].depth == Leaves(plan)[0].depth;
  }

  /** Exactly the members of the part's keys name its one leaf. */
  lemma AnswerMember(pf: Proof, values: seq<Digest>, w: map<ResourceId, Digest>,
                     plan: Plan, start: nat, ks: seq<ResourceId>, i: nat)
    requires plan.Answer? && Answered(pf, plan, start, ks) && Queried(pf, values, w) && i < |pf.memberships|
    ensures pf.memberships[i].leaf == start <==> pf.keys[i] in ks
  {
    if pf.memberships[i].leaf == start {
      assert MemberBacks(pf, plan, start, ks, i);
    }
    if pf.keys[i] in ks {
      var s :| 0 <= s < |ks| && ks[s] == pf.keys[i];
      assert SlotBacked(pf, plan, start, ks, s);
      var j: nat :| Backs(pf, plan, start, ks, s, j);
      assert i == j;
    }
  }

  /** A key of the part is asked for by some member. */
  lemma KeyIsQueried(pf: Proof, plan: Plan, start: nat, ks: seq<ResourceId>, k: ResourceId) returns (i: nat)
    requires Answered(pf, plan, start, ks) && k in ks
    ensures i < |pf.memberships| <= |pf.keys| && pf.keys[i] == k
  {
    var s :| 0 <= s < |ks| && ks[s] == k;
    assert SlotBacked(pf, plan, start, ks, s);
    i :| Backs(pf, plan, start, ks, s, i);
  }

  lemma AnswerMembers(pf: Proof, values: seq<Digest>, w: map<ResourceId, Digest>,
                      plan: Plan, start: nat, ks: seq<ResourceId>)
    requires plan.Answer? && Answered(pf, plan, start, ks) && Queried(pf, values, w)
    ensures var idxs := MembersAt(pf.memberships, start, |pf.memberships|);
            && (forall i: nat :: i in idxs <==> i < |pf.memberships| && pf.keys[i] in ks)
            && (forall a, b :: 0 <= a < b < |idxs| ==> idxs[a] < idxs[b])
  {
    var n := |pf.memberships|;
    var idxs := MembersAt(pf.memberships, start, n);
    MembersAtIsExact(pf.memberships, start, n);
    hide MembersAt;
    forall i: nat | i < n ensures i in idxs <==> pf.keys[i] in ks {
      AnswerMember(pf, values, w, plan, start, ks, i);
    }
  }

  lemma AnswerMembersFit(pf: Proof, values: seq<Digest>, w: map<ResourceId, Digest>, plan: Plan, p: Position,
                         start: nat, ks: seq<ResourceId>, idxs: seq<nat>)
    requires CarriesLeaves(pf, plan, start) && plan.Answer? && Queried(pf, values, w) && AllUnder(ks, p)
    requires forall i: nat :: i in idxs <==> i < |pf.memberships| && pf.keys[i] in ks
    requires forall i: nat :: i in idxs ==> pf.memberships[i].leaf == start
    requires forall a, b :: 0 <= a < b < |idxs| ==> idxs[a] < idxs[b]
    ensures MembersOf(pf, idxs, values, plan.key, p)
  {
    AnswerLeaf(pf, plan, start);
    forall a | 0 <= a < |idxs|
      ensures idxs[a] < |pf.memberships| && pf.keys[idxs[a]] in ks && p <= pf.keys[idxs[a]]
              && (pf.memberships[idxs[a]].Present? <==> pf.keys[idxs[a]] == plan.key)
    {
      assert idxs[a] in idxs;
    }
  }

  /** Below the leaf's position, writing its members is writing everything. */
  lemma AnswerWrites(pf: Proof, values: seq<Digest>, w: map<ResourceId, Digest>, plan: Plan, p: Position,
                     start: nat, ks: seq<ResourceId>, idxs: seq<nat>, k: ResourceId)
    requires Answered(pf, plan, start, ks) && Queried(pf, values, w) && AllUnder(ks, p) && Covers(ks, w, p)
    requires forall i: nat :: i in idxs <==> i < |pf.memberships| && pf.keys[i] in ks
    requires forall i :: 0 <= i < |idxs| ==> idxs[i] < |pf.keys| && idxs[i] < |values|
    ensures var wl := MemberWrites(pf, idxs, values, |idxs|);
            (k in wl <==> k in w && p <= k) && (k in wl ==> wl[k] == w[k])
  {
    hide Answered;
    var wl := MemberWrites(pf, idxs, values, |idxs|);
    MemberWritesKeys(pf, idxs, values, |idxs|, k);
    forall a | 0 <= a < |idxs| ensures idxs[a] < |pf.memberships| && pf.keys[idxs[a]] in ks {
      assert idxs[a] in idxs;
    }
    if k in w && p <= k {
      var i := KeyIsQueried(pf, plan, start, ks, k);
      assert i in idxs;
    }
    MemberWritesValues(pf, idxs, values, w, |idxs|, k);
  }

  /** A leaf of the part, re-evaluated from its members. */
  lemma AnswerEvaluates(pf: Proof, values: seq<Digest>, m: StateMap, w: map<ResourceId, Digest>,
                        plan: Plan, p: Position, start: nat, ks: seq<ResourceId>)
    requires plan.Answer? && Fits(plan, p) && CarriesLeaves(pf, plan, start)
    requires Answered(pf, plan, start, ks) && Queried(pf, values, w) && AllUnder(ks, p) && Covers(ks, w, p)
    requires AgreeUnder(LeafState(plan.key, plan.value), m, p)
    ensures Eval(pf, values, plan, start) == Some(CanonPair(m, w, p))
  {
    var idxs := MembersAt(pf.memberships, start, |pf.memberships|);
    AnswerMembers(pf, values, w, plan, start, ks);
    MembersAtIsExact(pf.memberships, start, |pf.memberships|);
    AnswerLeaf(pf, plan, start);
    hide MembersAt;
    hide Answered;
    hide Queried;
    AnswerMembersFit(pf, values, w, plan, p, start, ks, idxs);
    var wl := MemberWrites(pf, idxs, values, |idxs|);
    forall k: ResourceId ensures (k in wl <==> k in w && p <= k) && (k in wl ==> wl[k] == w[k]) {
      AnswerWrites(pf, values, w, plan, p, start, ks, idxs, k);
    }
    AnswerPair(pf, values, m, w, plan.key, p, start, idxs);
  }

  lemma AnswerPair(pf: Proof, values: seq<Digest>, m: StateMap, w: map<ResourceId, Digest>,
                   key: ResourceId, p: Position, start: nat, idxs: seq<nat>)
    requires start < |pf.leaves| && pf.LeafKey(start) == Some(key) && pf.leaves[start].depth == |p| && p <= key
    requires MembersOf(pf, idxs, values, key, p) && idxs == MembersAt(pf.memberships, start, |pf.memberships|)
    requires AgreeUnder(LeafState(key, pf.leaves[start].value), m, p)
    requires var wl := MemberWrites(pf, idxs, values, |idxs|);
             forall k: ResourceId :: (k in wl <==> k in w && p <= k) && (k in wl ==> wl[k] == w[k])
    ensures LeafPair(pf, start, values) == Some(CanonPair(m, w, p))
  {
    var leaf, wl := pf.leaves[start], MemberWrites(pf, idxs, values, |idxs|);
    var before, s := LeafState(key, leaf.value), ScanMembers(pf, leaf.value, idxs, values, |idxs|);
    hide *;
    LeafPairIs(pf, start, values, key, idxs, p);
    SameWritesAgree(before, m, wl, w, p);
    ScanRecordsItsWrites(pf, idxs, values, key, leaf.value, p, |idxs|);
    PostIsCanonical(key, leaf, s, wl, p);
    LoneSummary(before, p, key, leaf.value);
    CanonIsLocal(before, m, p);
    CanonIsLocal(ApplyWrites(before, wl), ApplyWrites(m, w), p);
    CanonPairIs(m, w, p);
  }

  lemma LeafPairIs(pf: Proof, start: nat, values: seq<Digest>, key: ResourceId, idxs: seq<nat>, p: Position)
    requires start < |pf.leaves| && pf.LeafKey(start) == Some(key)
    requires MembersOf(pf, idxs, values, key, p) && idxs == MembersAt(pf.memberships, start, |pf.memberships|)
    ensures var post := PostOf(key, pf.leaves[start], ScanMembers(pf, pf.leaves[start].value, idxs, values, |idxs|));
            post.Some? ==> LeafPair(pf, start, values) == Some((LeafSummary(key, pf.leaves[start].value), post.value))
  {
    hide PostOf;
    hide ScanMembers;
    hide MembersAt;
  }

  lemma SameWritesAgree(m: StateMap, n: StateMap, v: map<ResourceId, Digest>, w: map<ResourceId, Digest>, p: Position)
    requires AgreeUnder(m, n, p)
    requires forall k: ResourceId :: (k in v <==> k in w && p <= k) && (k in v ==> v[k] == w[k])
    ensures AgreeUnder(ApplyWrites(m, v), ApplyWrites(n, w), p)
  {
  }

  lemma CanonPairIs(m: StateMap, w: map<ResourceId, Digest>, p: Position)
    ensures CanonPair(m, w, p) == (Summary(Canon(m, p)), Summary(Canon(ApplyWrites(m, w), p)))
  {
  }

  lemma {:induction false} MemberWritesValues(pf: Proof, idxs: seq<nat>, values: seq<Digest>,
                                              w: map<ResourceId, Digest>, n: nat, k: ResourceId)
    requires n <= |idxs|
    requires forall i :: 0 <= i < |idxs| ==> idxs[i] < |pf.keys| && idxs[i] < |values|
    requires forall i :: 0 <= i < |idxs| ==> pf.keys[idxs[i]] in w && w[pf.keys[idxs[i]]] == values[idxs[i]]
    ensures var wl := MemberWrites(pf, idxs, values, n); k in wl ==> k in w && wl[k] == w[k]
  {
    if n > 0 {
      MemberWritesValues(pf, idxs, values, w, n - 1, k);
    }
  }

  /** Everything the evaluation of a part at `p` relies on. */
  ghost predicate Ready(pf: Proof, values: seq<Digest>, w: map<ResourceId, Digest>,
                        plan: Plan, p: Position, start: nat, ks: seq<ResourceId>) {
    && Fits(plan, p) && CarriesLeaves(pf, plan, start) && Answered(pf, plan, start, ks)
    && Queried(pf, values, w) && KeySlice(ks, p) && Covers(ks, w, p)
  }

  lemma CoversHalves(ks: seq<ResourceId>, mid: nat, w: map<ResourceId, Digest>, p: Position)
    requires |p| < DEPTH && mid <= |ks| && Covers(ks, w, p)
    requires AllUnder(ks[..mid], p + [false]) && AllUnder(ks[mid..], p + [true])
    ensures Covers(ks[..mid], w, p + [false]) && Covers(ks[mid..], w, p + [true])
  {
    forall k: ResourceId, b: bool | k in w && p + [b] <= k ensures k in if b then ks[mid..] else ks[..mid] {
      BelowParent(p, b, k);
      assert ks == ks[..mid] + ks[mid..];
      if k in ks[..mid] {
        BelowParent(p, false, k);
      } else {
        BelowParent(p, true, k);
      }
    }
  }

  lemma ReadyBoth(pf: Proof, values: seq<Digest>, w: map<ResourceId, Digest>,
                  plan: Plan, p: Position, start: nat, ks: seq<ResourceId>)
    requires Ready(pf, values, w, plan, p, start, ks) && plan.Both? && |p| < DEPTH
    requires var n := Slots(plan.left);
             n <= |ks| && KeySlice(ks[..n], p + [false]) && KeySlice(ks[n..], p + [true])
    ensures Ready(pf, values, w, plan.left, p + [false], start, ks[..Slots(plan.left)])
    ensures Ready(pf, values, w, plan.right, p + [true], start + |Leaves(plan.left)|, ks[Slots(plan.left)..])
  {
    hide Answered;
    hide Queried;
    hide Covers;
    hide CarriesLeaves;
    AnsweredBoth(pf, plan, start, ks);
    BothLeaves(pf, plan, start);
    CoversHalves(ks, Slots(plan.left), w, p);
  }

  lemma ReadyBeside(pf: Proof, values: seq<Digest>, w: map<ResourceId, Digest>,
                    plan: Plan, p: Position, start: nat, ks: seq<ResourceId>)
    requires Ready(pf, values, w, plan, p, start, ks) && plan.Beside? && |p| < DEPTH
    requires KeySlice(ks, p + [!plan.goesLeft])
    ensures Ready(pf, values, w, plan.child, p + [!plan.goesLeft], start, ks)
  {
    hide Answered;
    hide Queried;
    AnsweredBeside(pf, plan, start, ks);
    assert Leaves(plan) == Leaves(plan.child);
    forall k | k in w && p + [!plan.goesLeft] <= k ensures k in ks {
      BelowParent(p, !plan.goesLeft, k);
    }
  }

  lemma BothEvaluates(pf: Proof, values: seq<Digest>, m: StateMap, w: map<ResourceId, Digest>,
                      plan: Plan, p: Position, start: nat)
    requires plan.Both? && |p| < DEPTH
    requires Eval(pf, values, plan.left, start) == Some(CanonPair(m, w, p + [false]))
    requires Eval(pf, values, plan.right, start + |Leaves(plan.left)|) == Some(CanonPair(m, w, p + [true]))
    ensures Eval(pf, values, plan, start) == Some(CanonPair(m, w, p))
  {
    hide CanonPair;
    PairsJoin(m, w, p);
  }

  lemma BesideEvaluates(pf: Proof, values: seq<Digest>, m: StateMap, w: map<ResourceId, Digest>,
                        plan: Plan, p: Position, start: nat, ks: seq<ResourceId>)
    requires plan.Beside? && |p| < DEPTH && Covers(ks, w, p) && KeySlice(ks, p + [!plan.goesLeft])
    requires plan.sibling == Summary(Canon(m, p + [plan.goesLeft]))
    requires Eval(pf, values, plan.child, start) == Some(CanonPair(m, w, p + [!plan.goesLeft]))
    ensures Eval(pf, values, plan, start) == Some(CanonPair(m, w, p))
  {
    hide CanonPair;
    hide Canon;
    PairJoinsSibling(m, w, p, !plan.goesLeft, ks);
  }

  lemma {:induction false} EmptyPlanEvaluates(pf: Proof, values: seq<Digest>, m: StateMap, w: map<ResourceId, Digest>,
                                              plan: Plan, p: Position, start: nat, ks: seq<ResourceId>)
    requires Ready(pf, values, w, plan, p, start, ks) && ks != [] && plan == PlanEmpty(p, ks) && Vacant(m, p)
    ensures Eval(pf, values, plan, start) == Some(CanonPair(m, w, p))
    decreases DEPTH - |p|
  {
    hide *;
    ReadyCovers(pf, values, w, plan, p, start, ks);
    EmptyPlanParts(p, ks);
    if |ks| == 1 {
      EmptyAnswer(pf, values, m, w, plan, p, start, ks);
    } else {
      VacantChildren(m, p);
      var mid := SplitPoint(ks, |p|);
      if 0 < mid < |ks| {
        ReadyBoth(pf, values, w, plan, p, start, ks);
        EmptyPlanEvaluates(pf, values, m, w, plan.left, p + [false], start, ks[..mid]);
        EmptyPlanEvaluates(pf, values, m, w, plan.right, p + [true], start + |Leaves(plan.left)|, ks[mid..]);
        BothEvaluates(pf, values, m, w, plan, p, start);
      } else {
        ReadyBeside(pf, values, w, plan, p, start, ks);
        EmptyPlanEvaluates(pf, values, m, w, plan.child, p + [mid == 0], start, ks);
        VacantSummary(m, p + [plan.goesLeft]);
        BesideEvaluates(pf, values, m, w, plan, p, start, ks);
      }
    }
  }

  lemma ReadyCovers(pf: Proof, values: seq<Digest>, w: map<ResourceId, Digest>,
                    plan: Plan, p: Position, start: nat, ks: seq<ResourceId>)
    requires Ready(pf, values, w, plan, p, start, ks)
    ensures KeySlice(ks, p) && Covers(ks, w, p) && |ks| == Slots(plan)
  {
  }

  lemma VacantSummary(m: StateMap, p: Position)
    requires Vacant(m, p)
    ensures Summary(Canon(m, p)) == EMPTY_NODE
  {
  }

  lemma EmptyAnswer(pf: Proof, values: seq<Digest>, m: StateMap, w: map<ResourceId, Digest>,
                    plan: Plan, p: Position, start: nat, ks: seq<ResourceId>)
    requires Ready(pf, values, w, plan, p, start, ks) && plan.Answer? && plan.value == Zero && Vacant(m, p)
    ensures Eval(pf, values, plan, start) == Some(CanonPair(m, w, p))
  {
    assert AgreeUnder(LeafState(plan.key, Zero), m, p);
    assert AllUnder(ks, p);
    hide Answered;
    hide Queried;
    AnswerEvaluates(pf, values, m, w, plan, p, start, ks);
  }

  lemma EmptyPlanParts(p: Position, ks: seq<ResourceId>)
    requires KeySlice(ks, p) && ks != []
    ensures |ks| == 1 ==> PlanEmpty(p, ks) == Answer(ks[0], Zero, |p|, 1)
    ensures |ks| > 1 ==> |p| < DEPTH
    ensures |ks| > 1 ==>
              var mid, plan := SplitPoint(ks, |p|), PlanEmpty(p, ks);
              && KeySlice(ks[..mid], p + [false]) && KeySlice(ks[mid..], p + [true])
              && (0 < mid < |ks| ==>
                    && plan == Both(PlanEmpty(p + [false], ks[..mid]), PlanEmpty(p + [true], ks[mid..]))
                    && Slots(plan.left) == mid)
              && (!(0 < mid < |ks|) ==>
                    && KeySlice(ks, p + [mid == 0])
                    && plan == Beside(mid != 0, EMPTY_NODE, PlanEmpty(p + [mid == 0], ks)))
  {
    if |ks| > 1 {
      TwoKeysAreAboveTheBottom(ks, p);
      KeyHalves(ks, p);
      var mid := SplitPoint(ks, |p|);
      assert p + [mid == 0] == if mid == 0 then p + [true] else p + [false];
    }
  }

  /** Along the nodes of a represented map, a plan evaluates to the canonical summaries. */
  lemma {:induction false} PlanEvaluates(pf: Proof, values: seq<Digest>, view: View, m: StateMap,
                                         w: map<ResourceId, Digest>, plan: Plan, p: Position, start: nat,
                                         ks: seq<ResourceId>)
    requires Ready(pf, values, w, plan, p, start, ks) && ks != [] && WellPlaced(view) && Shows(view, m, p)
    requires KeySlice(ks, p) && plan == PlanAt(view, p, ks)
    ensures Eval(pf, values, plan, start) == Some(CanonPair(m, w, p))
    decreases DEPTH - |p|
  {
    hide *;
    ReadyCovers(pf, values, w, plan, p, start, ks);
    if Vacant(m, p) {
      VacantPlan(view, m, p, ks);
      EmptyPlanEvaluates(pf, values, m, w, plan, p, start, ks);
    } else if !Many(m, p) {
      TipAnswer(pf, values, view, m, w, plan, p, start, ks);
    } else {
      ForkPlan(view, m, p, ks);
      var mid := SplitPoint(ks, |p|);
      if 0 < mid < |ks| {
        ReadyBoth(pf, values, w, plan, p, start, ks);
        PlanEvaluates(pf, values, view, m, w, plan.left, p + [false], start, ks[..mid]);
        PlanEvaluates(pf, values, view, m, w, plan.right, p + [true], start + |Leaves(plan.left)|, ks[mid..]);
        BothEvaluates(pf, values, m, w, plan, p, start);
      } else {
        ReadyBeside(pf, values, w, plan, p, start, ks);
        PlanEvaluates(pf, values, view, m, w, plan.child, p + [mid == 0], start, ks);
        BesideEvaluates(pf, values, m, w, plan, p, start, ks);
      }
    }
  }

  lemma VacantPlan(view: View, m: StateMap, p: Position, ks: seq<ResourceId>)
    requires WellPlaced(view) && Shows(view, m, p) && Vacant(m, p) && KeySlice(ks, p) && ks != []
    ensures PlanAt(view, p, ks) == PlanEmpty(p, ks)
  {
  }

  lemma TipAnswer(pf: Proof, values: seq<Digest>, view: View, m: StateMap, w: map<ResourceId, Digest>,
                  plan: Plan, p: Position, start: nat, ks: seq<ResourceId>)
    requires Ready(pf, values, w, plan, p, start, ks) && ks != [] && WellPlaced(view) && Shows(view, m, p)
    requires KeySlice(ks, p) && plan == PlanAt(view, p, ks) && !Vacant(m, p) && !Many(m, p)
    ensures Eval(pf, values, plan, start) == Some(CanonPair(m, w, p))
  {
    hide Answered;
    hide Queried;
    hide CanonPair;
    var k :| k in m && p <= k;
    assert Canon(m, p) == Tip(k, m[k]);
    assert plan == Answer(k, m[k], |p|, |ks|);
    hide *;
    TipState(m, p, k);
    ReadyAnswer(pf, values, w, plan, p, start, ks);
    AnswerEvaluates(pf, values, m, w, plan, p, start, ks);
  }

  lemma TipState(m: StateMap, p: Position, k: ResourceId)
    requires k in m && p <= k && !Many(m, p)
    ensures AgreeUnder(LeafState(k, m[k]), m, p)
  {
  }

  lemma ReadyAnswer(pf: Proof, values: seq<Digest>, w: map<ResourceId, Digest>,
                    plan: Plan, p: Position, start: nat, ks: seq<ResourceId>)
    requires Ready(pf, values, w, plan, p, start, ks)
    ensures Fits(plan, p) && CarriesLeaves(pf, plan, start) && Answered(pf, plan, start, ks)
    ensures Queried(pf, values, w) && AllUnder(ks, p) && Covers(ks, w, p)
  {
  }

  lemma InternalPlan(view: View, p: Position, ks: seq<ResourceId>)
    requires WellPlaced(view) && KeySlice(ks, p) && ks != []
    requires Read(view, p).Some? && Read(view, p).value.Internal?
    ensures |p| < DEPTH
    ensures var mid, plan := SplitPoint(ks, |p|), PlanAt(view, p, ks);
            && KeySlice(ks[..mid], p + [false]) && KeySlice(ks[mid..], p + [true])
            && (mid == 0 ==>
                  && KeySlice(ks, p + [true])
                  && plan == Beside(false, ChildSummary(Read(view, p + [false])), PlanAt(view, p + [true], ks)))
            && (mid == |ks| ==>
                  && KeySlice(ks, p + [false])
                  && plan == Beside(true, ChildSummary(Read(view, p + [true])), PlanAt(view, p + [false], ks)))
            && (0 < mid < |ks| ==>
                  && plan == Both(PlanAt(view, p + [false], ks[..mid]), PlanAt(view, p + [true], ks[mid..]))
                  && Slots(plan.left) == mid)
  {
    KeyHalves(ks, p);
  }

  /** At a fork the plan splits, or steps beside the child without queried keys. */
  lemma ForkPlan(view: View, m: StateMap, p: Position, ks: seq<ResourceId>)
    requires WellPlaced(view) && Shows(view, m, p) && Many(m, p) && KeySlice(ks, p) && ks != []
    ensures |p| < DEPTH && Shows(view, m, p + [false]) && Shows(view, m, p + [true])
    ensures var mid, plan := SplitPoint(ks, |p|), PlanAt(view, p, ks);
            && KeySlice(ks[..mid], p + [false]) && KeySlice(ks[mid..], p + [true])
            && (0 < mid < |ks| ==>
                  && plan == Both(PlanAt(view, p + [false], ks[..mid]), PlanAt(view, p + [true], ks[mid..]))
                  && Slots(plan.left) == mid)
            && (!(0 < mid < |ks|) ==>
                  && KeySlice(ks, p + [mid == 0])
                  && plan == Beside(mid != 0, Summary(Canon(m, p + [mid != 0])), PlanAt(view, p + [mid == 0], ks)))
  {
    hide *;
    ForkIsInternal(view, m, p);
    InternalPlan(view, p, ks);
    ShowsChildren(view, m, p);
    var mid := SplitPoint(ks, |p|);
    assert p + [mid == 0] == if mid == 0 then p + [true] else p + [false];
    assert p + [mid != 0] == if mid == 0 then p + [false] else p + [true];
    StoredSummary(m, p + [mid != 0]);
  }

  lemma ForkIsInternal(view: View, m: StateMap, p: Position)
    requires Shows(view, m, p) && Many(m, p)
    ensures |p| < DEPTH && Read(view, p).Some? && Read(view, p).value.Internal?
  {
    ManyIsAboveTheBottom(m, p);
  }

  lemma ShowsChildren(view: View, m: StateMap, p: Position)
    requires Shows(view, m, p) && Many(m, p) && |p| < DEPTH
    ensures Shows(view, m, p + [false]) && Shows(view, m, p + [true])
    ensures Read(view, p + [false]) == StoredNode(Canon(m, p + [false]))
    ensures Read(view, p + [true]) == StoredNode(Canon(m, p + [true]))
  {
    hide Canon;
    hide Many;
    forall b: bool ensures Read(view, p + [b]) == StoredNode(Canon(m, p + [b])) {
      ParentOfChild(p, b);
    }
    forall b: bool, q: Position | Below(p + [b], q) ensures Below(p, q) {
      BelowChildIsBelow(p, b, q);
    }
  }

  // ---- Whole proofs ----

  /** Member `i`'s key given its new value. */
  function Zip(input: seq<ResourceId>, values: seq<Digest>): (cs: seq<Commitment>)
    requires |values| == |input|
    ensures |cs| == |input| && forall i :: 0 <= i < |cs| ==> cs[i] == Commitment(input[i], values[i])
  {
    seq(|input|, i requires 0 <= i < |input| => Commitment(input[i], values[i]))
  }

  /** The entry of `k`, or the empty hash. */
  function ValueIn(m: StateMap, k: ResourceId): Digest {
    if k in m then m[k] else Zero
  }

  /** The proof flattens the plan for `ks`, and its members ask for `input`. */
  ghost predicate Built(pf: Proof, plan: Plan, input: seq<ResourceId>, ks: seq<ResourceId>) {
    && Carries(pf, plan, 0, Cursor(0, 0)) && |pf.leaves| == |Leaves(plan)|
    && Answered(pf, plan, 0, ks)
    && |pf.memberships| == |input| && input <= pf.keys
    && (forall i, j :: 0 <= i < j < |input| ==> input[i] != input[j])
    && (forall i :: 0 <= i < |input| ==> input[i] in ks)
    && (forall i :: 0 <= i < |input| ==>
          (pf.memberships[i].Present? <==> pf.LeafKey(pf.memberships[i].leaf) == Some(input[i])))
  }

  lemma ZipWrites(input: seq<ResourceId>, values: seq<Digest>, i: nat)
    requires |values| == |input| && i < |input|
    requires forall i, j :: 0 <= i < j < |input| ==> input[i] != input[j]
    ensures var w := LastWrites(Zip(input, values)); input[i] in w && w[input[i]] == values[i]
  {
    var cs := Zip(input, values);
    var w := LastWrites(cs);
    assert cs[i].key == input[i];
    hide *;
    LastWritesKeys(cs, input[i]);
    var j :| 0 <= j < |cs| && cs[j] == Commitment(input[i], w[input[i]]);
    assert i == j;
  }

  lemma ZipWritesNothingElse(input: seq<ResourceId>, values: seq<Digest>, k: ResourceId)
    requires |values| == |input| && k in LastWrites(Zip(input, values))
    ensures k in input
  {
    var cs := Zip(input, values);
    hide *;
    LastWritesKeys(cs, k);
    var i :| 0 <= i < |cs| && cs[i].key == k;
    assert input[i] == k;
  }

  lemma BuiltIsQueried(pf: Proof, plan: Plan, input: seq<ResourceId>, ks: seq<ResourceId>, values: seq<Digest>)
    requires Built(pf, plan, input, ks) && |values| == |input|
    ensures Queried(pf, values, LastWrites(Zip(input, values))) && Covers(ks, LastWrites(Zip(input, values)), [])
  {
    var w := LastWrites(Zip(input, values));
    assert forall i, j :: 0 <= i < j < |input| ==> input[i] != input[j];
    hide *;
    forall i | 0 <= i < |input| ensures input[i] in w && w[input[i]] == values[i] {
      ZipWrites(input, values, i);
    }
    forall k | k in w ensures k in input {
      ZipWritesNothingElse(input, values, k);
    }
    WritesAreQueried(pf, plan, input, ks, values, w);
  }

  lemma WritesAreQueried(pf: Proof, plan: Plan, input: seq<ResourceId>, ks: seq<ResourceId>, values: seq<Digest>,
                         w: map<ResourceId, Digest>)
    requires Built(pf, plan, input, ks) && |values| == |input|
    requires forall i :: 0 <= i < |input| ==> input[i] in w && w[input[i]] == values[i]
    requires forall k :: k in w ==> k in input
    ensures Queried(pf, values, w) && Covers(ks, w, [])
  {
    hide Answered;
    hide Carries;
    assert forall i :: 0 <= i < |input| ==> pf.keys[i] == input[i];
    forall k | k in w ensures exists i :: 0 <= i < |pf.memberships| && pf.keys[i] == k {
      var i :| 0 <= i < |input| && input[i] == k;
      assert pf.keys[i] == k;
    }
  }

  /** Completeness: whatever map the view represents and whatever values are written, a
      built proof evaluates to the canonical root of the map and of the updated map. */
  lemma BuiltProofGivesBothRoots(pf: Proof, view: View, input: seq<ResourceId>, ks: seq<ResourceId>,
                                 m: StateMap, values: seq<Digest>)
    requires WellPlaced(view) && KeySlice(ks, []) && ks != [] && Built(pf, PlanAt(view, [], ks), input, ks)
    requires Represents(view, m) && |values| == |input|
    ensures ComputeRoots(pf, values)
            == Some((CanonRoot(m), CanonRoot(ApplyWrites(m, LastWrites(Zip(input, values))))))
  {
    var plan, w := PlanAt(view, [], ks), LastWrites(Zip(input, values));
    assert Fits(plan, []);
    hide PlanAt;
    hide LastWrites;
    hide Canon;
    assert Shows(view, m, []) by { ShowsRoot(view, m); }
    BuiltIsQueried(pf, plan, input, ks, values);
    BuiltIsReady(pf, plan, input, ks, values, w);
    hide Built;
    hide Queried;
    PlanEvaluates(pf, values, view, m, w, plan, [], 0, ks);
    WalkFollowsPlan(pf, values, plan, [], 0, Cursor(0, 0));
    CanonPairIs(m, w, []);
  }

  lemma ShowsRoot(view: View, m: StateMap)
    requires Represents(view, m)
    ensures Shows(view, m, [])
  {
    hide Canon;
    hide Many;
  }

  lemma BuiltIsReady(pf: Proof, plan: Plan, input: seq<ResourceId>, ks: seq<ResourceId>, values: seq<Digest>,
                     w: map<ResourceId, Digest>)
    requires Built(pf, plan, input, ks) && Fits(plan, []) && Queried(pf, values, w) && KeySlice(ks, []) &&
             Covers(ks, w, [])
    ensures Ready(pf, values, w, plan, [], 0, ks) && Carries(pf, plan, 0, Cursor(0, 0)) && |pf.leaves| == |Leaves(plan)|
  {
  }

  // ---- What the members of a built proof claim ----

  /** The leaf a key is sent to decides it: it carries the key's entry, or, carrying another
      key that agrees with it down to the leaf's depth, shows the key is not in the map. */
  ghost predicate Decides(l: PlannedLeaf, m: StateMap, k: ResourceId) {
    && SharesPrefix(k, l.key, l.depth)
    && (l.key == k ==> l.value == ValueIn(m, k))
    && (l.key != k ==> k !in m)
  }

  /** The leaf that answers slot `s` of the part. */
  function SlotLeaf(plan: Plan, s: nat): PlannedLeaf
    requires s < Slots(plan)
  {
    Leaves(plan)[LeafOfSlot(plan, s)]
  }

  lemma SlotLeafOfPart(plan: Plan, s: nat)
    requires s < Slots(plan)
    ensures plan.Answer? ==> SlotLeaf(plan, s) == PlannedLeaf(plan.key, plan.value, plan.depth)
    ensures plan.Both? && s < Slots(plan.left) ==> SlotLeaf(plan, s) == SlotLeaf(plan.left, s)
    ensures plan.Both? && s >= Slots(plan.left) ==>
              s - Slots(plan.left) < Slots(plan.right) &&
              SlotLeaf(plan, s) == SlotLeaf(plan.right, s - Slots(plan.left))
    ensures plan.Beside? ==> s < Slots(plan.child) && SlotLeaf(plan, s) == SlotLeaf(plan.child, s)
  {
  }

  lemma {:induction false} EmptySlotDecides(m: StateMap, p: Position, ks: seq<ResourceId>, s: nat)
    requires KeySlice(ks, p) && s < |ks| && Vacant(m, p)
    ensures Decides(SlotLeaf(PlanEmpty(p, ks), s), m, ks[s])
    decreases DEPTH - |p|
  {
    hide *;
    EmptyPlanParts(p, ks);
    SlotLeafOfPart(PlanEmpty(p, ks), s);
    if |ks| == 1 {
      KeyBelow(ks, p, 0);
      OwnLeafDecides(m, p, ks[0]);
    } else {
      VacantChildren(m, p);
      var mid := SplitPoint(ks, |p|);
      if 0 < mid < |ks| {
        if s < mid {
          EmptySlotDecides(m, p + [false], ks[..mid], s);
        } else {
          EmptySlotDecides(m, p + [true], ks[mid..], s - mid);
        }
      } else {
        EmptySlotDecides(m, p + [mid == 0], ks, s);
      }
    }
  }

  lemma OwnLeafDecides(m: StateMap, p: Position, k: ResourceId)
    requires p <= k && Vacant(m, p)
    ensures Decides(PlannedLeaf(k, Zero, |p|), m, k)
  {
  }

  lemma KeyBelow(ks: seq<ResourceId>, p: Position, s: nat)
    requires KeySlice(ks, p) && s < |ks|
    ensures p <= ks[s]
  {
  }

  lemma {:induction false} SlotDecides(view: View, m: StateMap, p: Position, ks: seq<ResourceId>, s: nat)
    requires WellPlaced(view) && Shows(view, m, p) && KeySlice(ks, p) && s < |ks|
    ensures Decides(SlotLeaf(PlanAt(view, p, ks), s), m, ks[s])
    decreases DEPTH - |p|
  {
    hide *;
    SlotLeafOfPart(PlanAt(view, p, ks), s);
    if Vacant(m, p) {
      VacantPlan(view, m, p, ks);
      EmptySlotDecides(m, p, ks, s);
    } else if !Many(m, p) {
      TipDecides(view, m, p, ks, s);
    } else {
      ForkPlan(view, m, p, ks);
      var mid := SplitPoint(ks, |p|);
      if 0 < mid < |ks| {
        if s < mid {
          SlotDecides(view, m, p + [false], ks[..mid], s);
        } else {
          SlotDecides(view, m, p + [true], ks[mid..], s - mid);
        }
      } else {
        SlotDecides(view, m, p + [mid == 0], ks, s);
      }
    }
  }

  lemma TipDecides(view: View, m: StateMap, p: Position, ks: seq<ResourceId>, s: nat)
    requires WellPlaced(view) && Shows(view, m, p) && KeySlice(ks, p) && s < |ks| && !Vacant(m, p) && !Many(m, p)
    ensures Decides(SlotLeaf(PlanAt(view, p, ks), s), m, ks[s])
  {
    var k :| k in m && p <= k;
    assert Canon(m, p) == Tip(k, m[k]);
    assert PlanAt(view, p, ks) == Answer(k, m[k], |p|, |ks|);
    hide Canon;
    hide PlanAt;
    KeyBelow(ks, p, s);
  }

  /** Every member of a built proof resolves to the queried key's value, presence and
      absence alike. */
  lemma BuiltProofDecidesItsMembers(pf: Proof, view: View, input: seq<ResourceId>, ks: seq<ResourceId>,
                                    m: StateMap, i: nat)
    requires WellPlaced(view) && KeySlice(ks, []) && ks != [] && Built(pf, PlanAt(view, [], ks), input, ks)
    requires Represents(view, m) && i < |input|
    ensures MemberValue(pf, i) == Some(ValueIn(m, input[i]))
  {
    var plan := PlanAt(view, [], ks);
    hide PlanAt;
    hide KeySlice;
    hide WellPlaced;
    hide Carries;
    ShowsRoot(view, m);
    var s := MemberSlot(pf, plan, input, ks, i);
    hide Represents;
    SlotDecides(view, m, [], ks, s);
    LeafIsPlanned(pf, plan, LeafOfSlot(plan, s));
    hide Answered;
    assert SlotLeaf(plan, s) == Leaves(plan)[LeafOfSlot(plan, s)];
  }

  lemma LeafIsPlanned(pf: Proof, plan: Plan, l: nat)
    requires Carries(pf, plan, 0, Cursor(0, 0)) && l < |Leaves(plan)|
    ensures l < |pf.leaves| && pf.LeafKey(l) == Some(Leaves(plan)[l].key)
    ensures pf.leaves[l].value == Leaves(plan)[l].value && pf.leaves[l].depth == Leaves(plan)[l].depth
  {
    assert pf.LeafKey(0 + l) == Some(Leaves(plan)[l].key);
  }

  lemma MemberSlot(pf: Proof, plan: Plan, input: seq<ResourceId>, ks: seq<ResourceId>, i: nat) returns (s: nat)
    requires Built(pf, plan, input, ks) && i < |input|
    ensures |ks| == Slots(plan) && s < |ks| && ks[s] == input[i] && pf.memberships[i].leaf == LeafOfSlot(plan, s)
  {
    s :| 0 <= s < |ks| && ks[s] == input[i];
    assert SlotBacked(pf, plan, 0, ks, s);
    var j: nat :| Backs(pf, plan, 0, ks, s, j);
    assert pf.keys[j] == input[j];
    assert i == j;
  }
}
