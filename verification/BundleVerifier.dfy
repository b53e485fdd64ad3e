/** The batch aggregator's verifier: it chains the transitions of consecutive batches into one
    settlement transition. */
module BundleVerifier {
  import opened Options
  import opened SmtKeys
  import opened SmtTree
  import opened SmtUpdate
  import opened SmtHistory
  import opened SmtRoots
  import opened SmtBuild
  import opened SmtBuilder
  import opened BatchRuns
  import opened BatchVerifier

  /** The lane commitment of the final block, as a free term. */
  datatype SeqCommit = SeqCommit(laneKey: nat, laneTip: LaneTip, blueScore: nat, laneProof: nat)

  datatype StateTransition = StateTransition(
    prevState: Digest, prevLaneTip: LaneTip, newState: Digest, newLaneTip: LaneTip, newSeqCommit: SeqCommit,
    covenant: nat, txImage: nat, batchImage: nat, exits: seq<Exit>, deposit: nat, laneKey: nat)

  /** A batch of the same lane, covenant and image, right behind its predecessor on the lane. */
  predicate SameLane(prev: BatchTransition, next: BatchTransition) {
    && next.laneKey == prev.laneKey && next.covenant == prev.covenant && next.txImage == prev.txImage
    && next.prevLaneBlueScore == prev.newLaneBlueScore
    && (!next.laneExpired ==> next.prevLaneTip == prev.newLaneTip)
  }

  /** A batch consistent with its predecessor. */
  predicate Follows(prev: BatchTransition, next: BatchTransition) {
    SameLane(prev, next) && next.prevState == prev.newState
  }

  ghost predicate Chained(ts: seq<BatchTransition>) {
    forall i, j :: 0 <= i && j == i + 1 < |ts| ==> Follows(ts[i], ts[j])
  }

  function Deposits(ts: seq<BatchTransition>): (hashes: seq<nat>)
    ensures |hashes| == |ts| && forall i :: 0 <= i < |ts| ==> hashes[i] == ts[i].deposit
  {
    seq(|ts|, i requires 0 <= i < |ts| => ts[i].deposit)
  }

  function AllExits(ts: seq<BatchTransition>): seq<Exit> {
    if ts == [] then [] else AllExits(ts[..|ts| - 1]) + ts[|ts| - 1].exits
  }

  /** A batch journal; `proven` is the answer of the inner proof check. */
  datatype BatchJournal = BatchJournal(proven: bool, transition: BatchTransition)

  ghost function Transitions(js: seq<BatchJournal>): (ts: seq<BatchTransition>)
    ensures |ts| == |js| && forall i :: 0 <= i < |js| ==> ts[i] == js[i].transition
  {
    seq(|js|, i requires 0 <= i < |js| => js[i].transition)
  }

  /** What the aggregator accepts. */
  ghost predicate Bundles(js: seq<BatchJournal>) {
    && js != [] && (forall i :: 0 <= i < |js| ==> js[i].proven)
    && Chained(Transitions(js)) && DepositFrom(0, Deposits(Transitions(js))).Some?
  }

  lemma BundleNext(js: seq<BatchJournal>, n: nat)
    requires 0 < n < |js| && Bundles(js[..n])
    ensures var some, more := Transitions(js[..n]), Transitions(js[..n + 1]);
            && AllExits(more) == AllExits(some) + js[n].transition.exits
            && DepositFrom(0, Deposits(some)).Some?
            && DepositFrom(0, Deposits(more)) ==
               CarryDeposit(DepositFrom(0, Deposits(some)).value, js[n].transition.deposit)
            && (Bundles(js[..n + 1]) <==>
                  && js[n].proven && Follows(js[n - 1].transition, js[n].transition)
                  && CarryDeposit(DepositFrom(0, Deposits(some)).value, js[n].transition.deposit).Some?)
            && (Bundles(js) ==> Bundles(js[..n + 1]))
  {
    hide Follows;
    var some, more, all := Transitions(js[..n]), Transitions(js[..n + 1]), Transitions(js);
    assert more[..n] == some && Deposits(more)[..n] == Deposits(some);
    DepositPrefix(js, n + 1);
    NextFollows(js, n);
  }

  lemma NextFollows(js: seq<BatchJournal>, n: nat)
    requires 0 < n < |js| && Chained(Transitions(js[..n]))
    ensures Chained(Transitions(js[..n + 1])) <==> Follows(js[n - 1].transition, js[n].transition)
    ensures Chained(Transitions(js)) ==> Chained(Transitions(js[..n + 1]))
  {
    hide Follows;
    var some, more, all := Transitions(js[..n]), Transitions(js[..n + 1]), Transitions(js);
    if Chained(more) {
      assert Follows(more[n - 1], more[n]);
    }
    if Follows(js[n - 1].transition, js[n].transition) {
      forall i, j | 0 <= i && j == i + 1 < |more| ensures Follows(more[i], more[j]) {
        if j < n {
          assert Follows(some[i], some[j]);
        }
      }
    }
    if Chained(all) {
      forall i, j | 0 <= i && j == i + 1 < |more| ensures Follows(more[i], more[j]) {
        assert Follows(all[i], all[j]);
      }
    }
  }

  lemma DepositPrefix(js: seq<BatchJournal>, n: nat)
    requires n <= |js|
    ensures DepositFrom(0, Deposits(Transitions(js))).Some? ==> DepositFrom(0, Deposits(Transitions(js[..n]))).Some?
  {
    var all := Deposits(Transitions(js));
    DepositFromTwo(0, all[..n], all[n..]);
    assert all[..n] + all[n..] == all && Deposits(Transitions(js[..n])) == all[..n];
  }

  lemma BundleOfOne(j: BatchJournal)
    ensures Transitions([j]) == [j.transition] && AllExits([j.transition]) == j.transition.exits
    ensures DepositFrom(0, Deposits([j.transition])) == Some(j.transition.deposit)
    ensures Bundles([j]) <==> j.proven
  {
    assert Deposits([j.transition]) == [j.transition.deposit] && [j.transition.deposit][..0] == [];
    assert [j.transition][..0] == [];
  }

  class Verifier {
    const batchImage: nat
    const laneProof: nat
    const first: BatchTransition
    const remaining: seq<BatchJournal>
    var exits: seq<Exit>
    var deposit: nat

    constructor (batchImage: nat, laneProof: nat, journals: seq<BatchJournal>)
      requires |journals| > 0
      ensures this.batchImage == batchImage && this.laneProof == laneProof
      ensures first == journals[0].transition && remaining == journals[1..] && exits == [] && deposit == 0
    {
      this.batchImage, this.laneProof := batchImage, laneProof;
      first, remaining := journals[0].transition, journals[1..];
      exits, deposit := [], 0;
    }

    /** Streams a batch's exits one by one, in order. */
    method StreamExits(batch: BatchTransition)
      modifies this`exits
      ensures exits == old(exits) + batch.exits
    {
      for i := 0 to |batch.exits|
        invariant exits == old(exits) + batch.exits[..i]
      {
        exits := exits + [batch.exits[i]];
      }
    }

    /** Chains every remaining batch onto the first one; returns the last. */
    method VerifyBatches() returns (last: Option<BatchTransition>)
      requires exits == [] && deposit == 0
      modifies this
      ensures var js := [BatchJournal(true, first)] + remaining;
              && (last.Some? <==> Bundles(js))
              && (last.Some? ==> && last.value == js[|js| - 1].transition && exits == AllExits(Transitions(js))
                                 && Some(deposit) == DepositFrom(0, Deposits(Transitions(js))))
    {
      hide *;
      ghost var js := [BatchJournal(true, first)] + remaining;
      StreamExits(first);
      deposit := first.deposit;
      var prev, n := first, 0;
      BundleOfOne(js[0]);
      assert js[..1] == [js[0]];
      while n < |remaining|
        invariant n <= |remaining| && prev == js[n].transition
        invariant Bundles(js[..n + 1]) && exits == AllExits(Transitions(js[..n + 1]))
        invariant Some(deposit) == DepositFrom(0, Deposits(Transitions(js[..n + 1])))
      {
        BundleNext(js, n + 1);
        var journal := remaining[n];
        assert js[n + 1] == journal;
        if !journal.proven || !Follows(prev, journal.transition) {
          return None;
        }
        StreamExits(journal.transition);
        var carried := CarryDeposit(deposit, journal.transition.deposit);
        if carried.None? {
          return None;
        }
        deposit := carried.value;
        prev := journal.transition;
        n := n + 1;
      }
      assert js[..|js|] == js;
      return Some(prev);
    }
  }

  /** The settlement transition of a chained bundle. */
  ghost function Settlement(batchImage: nat, laneProof: nat, ts: seq<BatchTransition>): StateTransition
    requires ts != [] && DepositFrom(0, Deposits(ts)).Some?
  {
    var first, last := ts[0], ts[|ts| - 1];
    StateTransition(first.prevState, first.prevLaneTip, last.newState, last.newLaneTip,
                    SeqCommit(first.laneKey, last.newLaneTip, last.newLaneBlueScore, laneProof),
                    first.covenant, first.txImage, batchImage, AllExits(ts), DepositFrom(0, Deposits(ts)).value,
                    first.laneKey)
  }

  /** Verifies a bundle and commits its settlement. */
  method VerifyBundle(batchImage: nat, laneProof: nat, journals: seq<BatchJournal>) returns (r: Option<StateTransition>)
    ensures r.Some? <==> Bundles(journals)
    ensures r.Some? ==> r.value == Settlement(batchImage, laneProof, Transitions(journals))
  {
    hide Chained;
    hide AllExits;
    hide DepositFrom;
    if |journals| == 0 || !journals[0].proven {
      return None;
    }
    var v := new Verifier(batchImage, laneProof, journals);
    var last := v.VerifyBatches();
    assert [BatchJournal(true, v.first)] + v.remaining == journals;
    if last.None? {
      return None;
    }
    var end := last.value;
    return Some(StateTransition(v.first.prevState, v.first.prevLaneTip, end.newState, end.newLaneTip,
                                SeqCommit(v.first.laneKey, end.newLaneTip, end.newLaneBlueScore, laneProof),
                                v.first.covenant, v.first.txImage, batchImage, v.exits, v.deposit, v.first.laneKey));
  }

  // ---- Settlements compose ----

  lemma {:induction false} AllExitsOfTwo(a: seq<BatchTransition>, b: seq<BatchTransition>)
    ensures AllExits(a + b) == AllExits(a) + AllExits(b)
    decreases |b|
  {
    if b == [] {
      assert a + b == a;
    } else {
      AllExitsOfTwo(a, b[..|b| - 1]);
      assert (a + b)[..|a + b| - 1] == a + b[..|b| - 1];
    }
  }

  lemma ChainedOfTwo(a: seq<BatchTransition>, b: seq<BatchTransition>)
    requires a != [] && b != []
    ensures Chained(a + b) <==> Chained(a) && Chained(b) && Follows(a[|a| - 1], b[0])
  {
    hide Follows;
    var c := a + b;
    if Chained(c) {
      assert Follows(c[|a| - 1], c[|a|]);
      forall i, j | 0 <= i && j == i + 1 < |b| ensures Follows(b[i], b[j]) {
        assert Follows(c[|a| + i], c[|a| + j]);
      }
      forall i, j | 0 <= i && j == i + 1 < |a| ensures Follows(a[i], a[j]) {
        assert Follows(c[i], c[j]);
      }
    }
  }

  /** A chained bundle is of one lane, covenant and image throughout. */
  lemma {:induction false} OneLaneThroughout(ts: seq<BatchTransition>, i: nat)
    requires Chained(ts) && i < |ts|
    ensures ts[i].laneKey == ts[0].laneKey && ts[i].covenant == ts[0].covenant && ts[i].txImage == ts[0].txImage
  {
    if i > 0 {
      OneLaneThroughout(ts, i - 1);
      assert Follows(ts[i - 1], ts[i]);
    }
  }

  lemma DepositsOfTwo(a: seq<BatchTransition>, b: seq<BatchTransition>)
    requires DepositFrom(0, Deposits(a + b)).Some?
    ensures DepositFrom(0, Deposits(a)).Some? && DepositFrom(0, Deposits(b)).Some?
    ensures DepositFrom(0, Deposits(a + b)) ==
            CarryDeposit(DepositFrom(0, Deposits(a)).value, DepositFrom(0, Deposits(b)).value)
  {
    hide CarryDeposit;
    assert Deposits(a + b) == Deposits(a) + Deposits(b);
    DepositFromTwo(0, Deposits(a), Deposits(b));
    hide DepositFrom;
    CarryOfGroup(DepositFrom(0, Deposits(a)).value, Deposits(b));
  }

  /** The settlement of one batch is the batch's transition. */
  lemma SettlementOfOne(batchImage: nat, laneProof: nat, t: BatchTransition)
    ensures DepositFrom(0, Deposits([t])) == Some(t.deposit)
    ensures var s := Settlement(batchImage, laneProof, [t]);
            && s.prevState == t.prevState && s.newState == t.newState && s.exits == t.exits && s.deposit == t.deposit
            && s.prevLaneTip == t.prevLaneTip && s.newLaneTip == t.newLaneTip && s.laneKey == t.laneKey
            && s.covenant == t.covenant && s.txImage == t.txImage && s.batchImage == batchImage
            && s.newSeqCommit == SeqCommit(t.laneKey, t.newLaneTip, t.newLaneBlueScore, laneProof)
  {
    assert Deposits([t]) == [t.deposit] && [t.deposit][..0] == [] && [t][..0] == [];
    assert AllExits([t]) == [] + t.exits;
  }

  /** Two chained bundles settle together what they settle one after the other: the first one's
      start, the second one's end and lane commitment, the exits of both in order, and the
      deposit they agree on. */
  lemma SettlementsCompose(batchImage: nat, p: nat, q: nat, a: seq<BatchTransition>, b: seq<BatchTransition>)
    requires a != [] && b != [] && Chained(a + b) && DepositFrom(0, Deposits(a + b)).Some?
    ensures DepositFrom(0, Deposits(a)).Some? && DepositFrom(0, Deposits(b)).Some? && Chained(a) && Chained(b)
    ensures var s, t, u := Settlement(batchImage, p, a), Settlement(batchImage, q, b), Settlement(batchImage, q, a + b);
            && u == t.(prevState := s.prevState, prevLaneTip := s.prevLaneTip, exits := s.exits + t.exits,
                       deposit := u.deposit)
            && Some(u.deposit) == CarryDeposit(s.deposit, t.deposit)
            && t.prevState == s.newState && t.laneKey == s.laneKey && t.covenant == s.covenant && t.txImage == s.txImage
  {
    hide DepositFrom;
    hide CarryDeposit;
    hide AllExits;
    ChainedOfTwo(a, b);
    DepositsOfTwo(a, b);
    AllExitsOfTwo(a, b);
    OneLaneThroughout(a + b, |a|);
    OneLaneThroughout(a, |a| - 1);
    hide Chained;
  }

  // ---- A bundle is one run ----

  /** A batch of transactions that ran from state `from`, and whether it queried any key. */
  datatype Ran = Ran(from: StateMap, journals: seq<Journal>, queried: bool)

  ghost function RanTo(b: Ran): StateMap {
    RunState(b.from, b.journals)
  }

  /** The root a batch commits for a state. */
  ghost function Shown(m: StateMap, queried: bool): Digest {
    if queried then CanonRoot(m) else Zero
  }

  /** The transition is that of an accepted batch over a built proof. */
  ghost predicate Commits(t: BatchTransition, b: Ran) {
    && t.prevState == Shown(b.from, b.queried) && t.newState == Shown(RanTo(b), b.queried)
    && (!b.queried ==> RanTo(b) == b.from)
    && t.exits == ExitsOf(b.journals) && Some(t.deposit) == DepositOf(b.journals)
  }

  /** The batch commits the roots of its states. */
  ghost predicate RootsHold(b: Ran) {
    b.queried || b.from == map[]
  }

  lemma RootsHoldExactlyWhen(t: BatchTransition, b: Ran)
    requires Commits(t, b)
    ensures t.prevState == CanonRoot(b.from) <==> RootsHold(b)
    ensures t.newState == CanonRoot(RanTo(b)) <==> RootsHold(b)
    ensures !RootsHold(b) ==> t.prevState == Zero
  {
    hide RunState;
    hide CanonRoot;
    EmptyRootMeansEmptyMap(b.from);
  }

  ghost predicate AllCommit(ts: seq<BatchTransition>, bs: seq<Ran>) {
    |ts| == |bs| && forall i :: 0 <= i < |ts| ==> Commits(ts[i], bs[i])
  }

  /** Each batch ran from the state its predecessor left. */
  ghost predicate Consecutive(bs: seq<Ran>) {
    forall i, j :: 0 <= i && j == i + 1 < |bs| ==> bs[j].from == RanTo(bs[i])
  }

  /** All transactions of the batches, in order. */
  ghost function AllJournals(bs: seq<Ran>): seq<Journal> {
    if bs == [] then [] else AllJournals(bs[..|bs| - 1]) + bs[|bs| - 1].journals
  }

  /** An accepted batch over a proof built for its state commits its run. */
  lemma AcceptedBatchCommits(inputs: Inputs, view: View, m: StateMap)
    requires Represents(view, m) && BuiltFor(inputs.proof, view, inputs.Keys()) && Accepts(m, inputs)
    ensures ComputeRoots(inputs.proof, FinalValues(m, inputs)).Some?
    ensures Commits(Transition(m, inputs, ComputeRoots(inputs.proof, FinalValues(m, inputs)).value),
                    Ran(m, inputs.journals, inputs.Keys() != []))
  {
    hide Represents;
    hide BuiltFor;
    hide ComputeRoots;
    hide RunState;
    hide JournalFits;
    BatchRootsAreCanonicalExactlyWhen(inputs, view, m);
    if inputs.Keys() == [] {
      NothingQueriedChangesNothing(m, inputs.Context(), inputs.journals);
    }
  }

  /** Exits and deposit do not depend on where the batches are cut. */
  lemma {:induction false} OneFoldOverAll(ts: seq<BatchTransition>, bs: seq<Ran>)
    requires AllCommit(ts, bs)
    ensures AllExits(ts) == ExitsOf(AllJournals(bs))
    ensures DepositFrom(0, Deposits(ts)) == DepositOf(AllJournals(bs))
    decreases |ts|
  {
    hide RunState;
    hide CanonRoot;
    hide ExitsOf;
    hide DepositFrom;
    hide CarryDeposit;
    hide TxDeposits;
    if ts == [] {
      NoFold(ts, bs);
    } else {
      var n := |ts| - 1;
      CommitPrefix(ts, bs, n);
      OneFoldOverAll(ts[..n], bs[..n]);
      ExitsOfTwo(AllJournals(bs[..n]), bs[n].journals);
      DepositOfTwo(AllJournals(bs[..n]), bs[n].journals);
      DepositsNext(ts);
    }
  }

  lemma NoFold(ts: seq<BatchTransition>, bs: seq<Ran>)
    requires AllCommit(ts, bs) && ts == []
    ensures AllExits(ts) == ExitsOf(AllJournals(bs)) && DepositFrom(0, Deposits(ts)) == DepositOf(AllJournals(bs))
  {
    assert TxDeposits([]) == [] && Deposits(ts) == [];
  }

  lemma CommitPrefix(ts: seq<BatchTransition>, bs: seq<Ran>, n: nat)
    requires AllCommit(ts, bs) && n < |ts|
    ensures |ts| == |bs| && Commits(ts[n], bs[n]) && AllCommit(ts[..n], bs[..n])
  {
    hide Commits;
  }

  lemma DepositOfTwo(a: seq<Journal>, b: seq<Journal>)
    requires DepositOf(b).Some?
    ensures DepositOf(a + b) ==
            if DepositOf(a).None? then None else CarryDeposit(DepositOf(a).value, DepositOf(b).value)
  {
    hide CarryDeposit;
    hide TxDeposit;
    assert TxDeposits(a + b) == TxDeposits(a) + TxDeposits(b);
    DepositFromTwo(0, TxDeposits(a), TxDeposits(b));
    hide DepositFrom;
    CarryOfGroup(if DepositOf(a).Some? then DepositOf(a).value else 0, TxDeposits(b));
  }

  lemma DepositsNext(ts: seq<BatchTransition>)
    requires |ts| > 0
    ensures var before := DepositFrom(0, Deposits(ts[..|ts| - 1]));
            DepositFrom(0, Deposits(ts)) ==
            if before.None? then None else CarryDeposit(before.value, ts[|ts| - 1].deposit)
  {
    hide CarryDeposit;
    assert Deposits(ts)[..|ts| - 1] == Deposits(ts[..|ts| - 1]);
  }

  /** Chained batches run one after the other: equal roots mean equal states. */
  lemma {:induction false} ChainedBatchesRunOn(ts: seq<BatchTransition>, bs: seq<Ran>)
    requires AllCommit(ts, bs) && Chained(ts) && ts != [] && |ts| == |bs|
    requires forall i :: 0 <= i < |bs| ==> RootsHold(bs[i])
    ensures RanTo(bs[|bs| - 1]) == RunState(bs[0].from, AllJournals(bs))
    decreases |ts|
  {
    hide RootsHold;
    hide AllCommit;
    hide Chained;
    hide AllJournals;
    hide RunState;
    var n := |ts| - 1;
    AllJournalsSplit(bs);
    if n > 0 {
      ChainedPrefix(ts, bs, n);
      ChainedBatchesRunOn(ts[..n], bs[..n]);
      NextBatchContinues(ts, bs, n);
      RunStateOfTwo(bs[0].from, AllJournals(bs[..n]), bs[n].journals);
    }
  }

  lemma AllJournalsSplit(bs: seq<Ran>)
    requires bs != []
    ensures AllJournals(bs) == AllJournals(bs[..|bs| - 1]) + bs[|bs| - 1].journals
    ensures |bs| == 1 ==> AllJournals(bs) == bs[0].journals
  {
  }

  lemma NextBatchContinues(ts: seq<BatchTransition>, bs: seq<Ran>, n: nat)
    requires AllCommit(ts, bs) && Chained(ts) && 0 < n < |ts| == |bs| && RootsHold(bs[n - 1]) && RootsHold(bs[n])
    ensures bs[n].from == RanTo(bs[n - 1])
  {
    hide RootsHold;
    hide Commits;
    hide CanonRoot;
    hide RanTo;
    assert Follows(ts[n - 1], ts[n]);
    RootsHoldExactlyWhen(ts[n - 1], bs[n - 1]);
    RootsHoldExactlyWhen(ts[n], bs[n]);
    CanonRootIsInjective(bs[n].from, RanTo(bs[n - 1]));
  }

  lemma ChainedPrefix(ts: seq<BatchTransition>, bs: seq<Ran>, n: nat)
    requires AllCommit(ts, bs) && Chained(ts) && n <= |ts|
    ensures AllCommit(ts[..n], bs[..n]) && Chained(ts[..n])
  {
    hide Follows;
    hide Commits;
  }

  /** The settlement leads from the first batch's state to that of running all transactions. */
  ghost predicate SettlesRun(s: StateTransition, bs: seq<Ran>)
    requires bs != []
  {
    s.prevState == CanonRoot(bs[0].from) && s.newState == CanonRoot(RunState(bs[0].from, AllJournals(bs)))
  }

  /** A settled bundle of accepted batches has the exits and the deposit address of one run of
      all their transactions. If every batch commits its roots it leads from the first
      batch's state to that of running them all; if the batches ran one after the other it
      does so exactly if the first one does. */
  lemma BundleIsOneRun(journals: seq<BatchJournal>, bs: seq<Ran>, batchImage: nat, laneProof: nat)
    requires Bundles(journals) && AllCommit(Transitions(journals), bs)
    ensures var s := Settlement(batchImage, laneProof, Transitions(journals));
            && s.exits == ExitsOf(AllJournals(bs)) && Some(s.deposit) == DepositOf(AllJournals(bs))
            && ((forall i :: 0 <= i < |bs| ==> RootsHold(bs[i])) ==> SettlesRun(s, bs))
            && (Consecutive(bs) ==> (SettlesRun(s, bs) <==> RootsHold(bs[0])))
  {
    hide RunState;
    hide AllExits;
    hide AllJournals;
    hide DepositOf;
    hide ExitsOf;
    hide Chained;
    hide RootsHold;
    hide Commits;
    hide Consecutive;
    hide CanonRoot;
    var ts := Transitions(journals);
    OneFoldOverAll(ts, bs);
    RootsHoldExactlyWhen(ts[0], bs[0]);
    RootsHoldExactlyWhen(ts[|ts| - 1], bs[|ts| - 1]);
    if Consecutive(bs) && RootsHold(bs[0]) {
      forall i: nat | i < |bs| ensures RootsHold(bs[i]) {
        RootsGoOnHolding(ts, bs, i);
      }
    }
    if forall i :: 0 <= i < |bs| ==> RootsHold(bs[i]) {
      ChainedBatchesRunOn(ts, bs);
    }
  }

  /** Behind a batch that commits its roots, a chained successor does so too. */
  lemma {:induction false} RootsGoOnHolding(ts: seq<BatchTransition>, bs: seq<Ran>, i: nat)
    requires AllCommit(ts, bs) && Chained(ts) && Consecutive(bs) && i < |ts| == |bs| && RootsHold(bs[0])
    ensures RootsHold(bs[i])
  {
    hide RunState;
    hide CanonRoot;
    if i > 0 {
      RootsGoOnHolding(ts, bs, i - 1);
      assert Follows(ts[i - 1], ts[i]) && bs[i].from == RanTo(bs[i - 1]);
      RootsHoldExactlyWhen(ts[i - 1], bs[i - 1]);
      RootsHoldExactlyWhen(ts[i], bs[i]);
      EmptyRootMeansEmptyMap(bs[i].from);
    }
  }

  /** Neighbours whose roots meet: both or neither queried keys, or nothing is in between. */
  ghost predicate Meet(a: Ran, b: Ran) {
    a.queried == b.queried || b.from == map[]
  }

  /** Proven batches that ran one after the other on one lane, with one deposit address. */
  ghost predicate HonestBundle(journals: seq<BatchJournal>, bs: seq<Ran>) {
    && journals != [] && (forall i :: 0 <= i < |journals| ==> journals[i].proven)
    && AllCommit(Transitions(journals), bs) && Consecutive(bs) && DepositOf(AllJournals(bs)).Some?
    && forall i, j :: 0 <= i && j == i + 1 < |journals| ==> SameLane(journals[i].transition, journals[j].transition)
  }

  /** An honest bundle is accepted exactly if no batch that queried nothing stands next to one
      that did over a state that is not empty. */
  lemma HonestBundleIsAcceptedExactlyWhen(journals: seq<BatchJournal>, bs: seq<Ran>)
    requires HonestBundle(journals, bs)
    ensures Bundles(journals) <==> forall i, j :: 0 <= i && j == i + 1 < |bs| ==> Meet(bs[i], bs[j])
  {
    hide AllExits;
    hide AllJournals;
    hide DepositOf;
    hide DepositFrom;
    hide Commits;
    hide SameLane;
    hide Meet;
    var ts := Transitions(journals);
    OneFoldOverAll(ts, bs);
    forall i, j | 0 <= i && j == i + 1 < |ts| ensures Follows(ts[i], ts[j]) <==> Meet(bs[i], bs[j]) {
      assert SameLane(journals[i].transition, journals[j].transition);
      NeighboursMeet(ts[i], bs[i], ts[j], bs[j]);
    }
  }

  lemma NeighboursMeet(s: BatchTransition, a: Ran, t: BatchTransition, b: Ran)
    requires Commits(s, a) && Commits(t, b) && b.from == RanTo(a)
    ensures t.prevState == s.newState <==> Meet(a, b)
  {
    hide RunState;
    hide CanonRoot;
    EmptyRootMeansEmptyMap(b.from);
  }

  /** So an honest bundle can be refused: a batch without resources behind one with some. */
  lemma HonestBundleCanBeRefused(journals: seq<BatchJournal>, bs: seq<Ran>)
    requires HonestBundle(journals, bs) && |bs| == 2 && bs[0].queried && !bs[1].queried && bs[1].from != map[]
    ensures !Bundles(journals)
  {
    hide HonestBundle;
    HonestBundleIsAcceptedExactlyWhen(journals, bs);
    assert !Meet(bs[0], bs[1]);
  }

  /** And it is, over every state that is not empty: a batch with one failed transaction on any
      resource, a batch with one on none behind it, both accepted, and the bundle refused. */
  method ResourceFreeBatchBreaksABundle(view: View, m: StateMap, key: ResourceId, template: Inputs)
    returns (first: Option<BatchTransition>, second: Option<BatchTransition>, bundle: Option<StateTransition>)
    requires WellPlaced(view) && Represents(view, m) && m != map[]
    ensures first.Some? && second.Some? && bundle.None?
  {
    hide Represents;
    hide BuiltFor;
    hide WellPlaced;
    hide Explains;
    hide Resolves;
    hide Accepts;
    hide ComputeRoots;
    hide FinalValues;
    hide RunState;
    hide DepositOf;
    hide ExitsOf;
    hide Commits;
    hide Bundles;
    hide HonestBundle;
    hide LaneAfter;
    hide Ascending;
    var context := template.Context();
    var one := Build(view, [key]);
    var none := Build(view, []);
    var touching := Journal(true, 7, 1, 0, Some(Execution(context, [Input(0, key, ValueIn(m, key))])), Failure(None));
    var free := Journal(true, 8, 1, 0, Some(Execution(context, [])), Failure(None));
    OneKey(key);
    var a := template.(proof := one.value, journals := [touching]);
    Failing(view, m, a, [key], touching);
    first := VerifyBatch(a, m);
    var b := template.(proof := none.value, journals := [free], laneExpired := false,
                       prevLaneTip := first.value.newLaneTip, prevLaneBlueScore := first.value.newLaneBlueScore);
    Failing(view, m, b, [], free);
    second := VerifyBatch(b, m);
    var journals := [BatchJournal(true, first.value), BatchJournal(true, second.value)];
    bundle := VerifyBundle(0, 0, journals);
    TwoAreHonest(journals, Ran(m, [touching], true), Ran(m, [free], false));
    HonestBundleCanBeRefused(journals, [Ran(m, [touching], true), Ran(m, [free], false)]);
  }

  lemma OneKey(key: ResourceId)
    ensures Distinct([key]) && Distinct([])
  {
  }

  lemma Failing(view: View, m: StateMap, inputs: Inputs, keys: seq<ResourceId>, j: Journal)
    requires Represents(view, m) && BuiltFor(inputs.proof, view, keys) && |keys| <= 1 && inputs.journals == [j]
    requires j.proven && j.execution.Some? && j.execution.value.context == inputs.Context() && j.result.Failure?
    requires forall r :: r in j.execution.value.resources ==> InputMatches(m, keys, r)
    ensures Explains(m, inputs.proof) && |inputs.proof.memberships| <= |inputs.proof.keys| && Ascending(inputs.Keys())
    ensures Resolves(inputs.proof) && Accepts(m, inputs)
    ensures ComputeRoots(inputs.proof, FinalValues(m, inputs)).Some?
    ensures Commits(Transition(m, inputs, ComputeRoots(inputs.proof, FinalValues(m, inputs)).value),
                    Ran(m, inputs.journals, keys != []))
    ensures RunState(m, [j]) == m && DepositOf([j]) == Some(0)
  {
    assert inputs.Keys() == keys;
    assert Ascending(keys);
    hide HonestRun;
    hide ComputeRoots;
    hide Represents;
    hide BuiltFor;
    hide Explains;
    hide Resolves;
    hide RunState;
    hide DepositOf;
    hide Commits;
    LoneFailureIsHonest(m, keys, inputs.Context(), j);
    BatchRootsAreCanonicalExactlyWhen(inputs, view, m);
    AcceptedBatchCommits(inputs, view, m);
  }

  lemma TwoAreHonest(journals: seq<BatchJournal>, a: Ran, b: Ran)
    requires |journals| == 2 && journals[0].proven && journals[1].proven
    requires Commits(journals[0].transition, a) && Commits(journals[1].transition, b)
    requires SameLane(journals[0].transition, journals[1].transition) && b.from == RanTo(a)
    requires DepositOf(a.journals) == DepositOf(b.journals) == Some(0)
    ensures HonestBundle(journals, [a, b])
  {
    hide DepositOf;
    hide Commits;
    hide SameLane;
    hide RunState;
    assert [a, b][..1] == [a] && [a][..0] == [] && [] + a.journals == a.journals;
    assert AllJournals([a]) == a.journals;
    assert AllJournals([a, b]) == a.journals + b.journals;
    DepositOfTwo(a.journals, b.journals);
    assert CarryDeposit(0, 0) == Some(0);
  }
}
