/** What a lane tip stands for: over a bundle it records every transaction, in order. */
module LaneHistory {
  import opened SmtTree
  import opened BatchRuns
  import opened BatchVerifier
  import opened BundleVerifier

  /** The transactions recorded since the anchor. */
  function Leaves(tip: LaneTip): seq<ActivityLeaf> {
    match tip
    case Anchor(_) => []
    case NextTip(parent, _, activity, _) => Leaves(parent) + activity
  }

  ghost predicate Records(leaves: seq<ActivityLeaf>, js: seq<Journal>) {
    |leaves| == |js| && forall i :: 0 <= i < |js| ==>
      leaves[i].txId == js[i].txId && leaves[i].version == js[i].version && leaves[i].mergeIdx == js[i].mergeIdx
  }

  ghost function Journals(bs: seq<Inputs>): seq<Journal> {
    if bs == [] then [] else Journals(bs[..|bs| - 1]) + bs[|bs| - 1].journals
  }

  /** The verifier may commit `t` for the batch. */
  ghost predicate Committed(t: BatchTransition, b: Inputs) {
    exists m: StateMap, roots :: DepositOf(b.journals).Some? && t == Transition(m, b, roots)
  }

  /** What the lane goes on from: an expired lane is anchored anew by its first transaction. */
  function Base(b: Inputs): LaneTip {
    if b.laneExpired && b.journals != [] then b.prevSeqCommit else b.prevLaneTip
  }

  lemma BatchIsRecorded(t: BatchTransition, b: Inputs)
    requires Committed(t, b)
    ensures exists leaves :: Records(leaves, b.journals) && Leaves(t.newLaneTip) == Leaves(Base(b)) + leaves
    ensures t.laneExpired == b.laneExpired && t.prevLaneTip == b.prevLaneTip && t.laneKey == b.laneKey
    ensures t.covenant == b.covenant && t.txImage == b.txImage && t.prevLaneBlueScore == b.prevLaneBlueScore
    ensures b.journals == [] ==> t.newLaneTip == b.prevLaneTip && t.newLaneBlueScore == b.prevLaneBlueScore
    ensures b.journals != [] ==> && t.newLaneTip.NextTip? && t.newLaneTip.laneKey == b.laneKey
                                 && t.newLaneTip.context == b.Context() && t.newLaneBlueScore == b.blueScore
  {
    hide DepositOf;
    hide ExitsOf;
    var leaves := if b.journals == [] then [] else t.newLaneTip.activity;
    assert Leaves(Base(b)) + [] == Leaves(Base(b));
    assert Records(leaves, b.journals);
  }

  /** Over an accepted bundle whose lane does not expire behind its first batch, the settled lane
      tip records what the lane held before, then every transaction of the bundle in order. */
  lemma {:induction false} LaneRecordsTheBundle(bs: seq<Inputs>, ts: seq<BatchTransition>)
    requires |bs| == |ts| > 0 && Chained(ts) && forall i :: 0 <= i < |ts| ==> Committed(ts[i], bs[i])
    requires forall i :: 0 < i < |bs| ==> !bs[i].laneExpired
    ensures exists leaves :: Records(leaves, Journals(bs))
                             && Leaves(ts[|ts| - 1].newLaneTip) == Leaves(Base(bs[0])) + leaves
    decreases |bs|
  {
    hide Committed;
    hide Leaves;
    var n := |bs| - 1;
    BatchIsRecorded(ts[n], bs[n]);
    var last :| Records(last, bs[n].journals) && Leaves(ts[n].newLaneTip) == Leaves(Base(bs[n])) + last;
    if n == 0 {
      assert Journals(bs) == bs[0].journals;
    } else {
      LaneRecordsTheBundle(bs[..n], ts[..n]);
      var leaves :| Records(leaves, Journals(bs[..n]))
                    && Leaves(ts[..n][n - 1].newLaneTip) == Leaves(Base(bs[0])) + leaves;
      assert Follows(ts[n - 1], ts[n]);
      assert Leaves(ts[n].newLaneTip) == Leaves(Base(bs[0])) + (leaves + last);
      assert Records(leaves + last, Journals(bs));
    }
  }

  /** Batch `k` is the last one with transactions. */
  ghost predicate LastActive(bs: seq<Inputs>, k: nat) {
    k < |bs| && bs[k].journals != [] && forall i :: k < i < |bs| ==> bs[i].journals == []
  }

  /** The settled blue score is that of the last batch with transactions; a bundle without any
      leaves score and tip as they were. */
  lemma {:induction false} ScoreIsOfTheLastActive(bs: seq<Inputs>, ts: seq<BatchTransition>)
    requires |bs| == |ts| > 0 && Chained(ts) && forall i :: 0 <= i < |ts| ==> Committed(ts[i], bs[i])
    ensures forall k: nat :: LastActive(bs, k) ==> ts[|ts| - 1].newLaneBlueScore == bs[k].blueScore
    ensures Journals(bs) == [] ==> ts[|ts| - 1].newLaneBlueScore == bs[0].prevLaneBlueScore
    ensures Journals(bs) == [] && (forall i :: 0 < i < |bs| ==> !bs[i].laneExpired) ==>
              ts[|ts| - 1].newLaneTip == bs[0].prevLaneTip
    decreases |bs|
  {
    hide Committed;
    var n := |bs| - 1;
    BatchIsRecorded(ts[n], bs[n]);
    if n > 0 {
      ScoreIsOfTheLastActive(bs[..n], ts[..n]);
      assert Follows(ts[n - 1], ts[n]);
      forall k: nat | LastActive(bs, k) ensures ts[n].newLaneBlueScore == bs[k].blueScore {
        if k < n {
          assert LastActive(bs[..n], k);
        }
      }
    }
  }
}
