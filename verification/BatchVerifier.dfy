/** The batch verifier: it threads the value hash of every proven resource through the
    transaction journals and commits both roots of the batch. */
module BatchVerifier {
  import opened Options
  import opened SmtKeys
  import opened SmtTree
  import opened SmtUpdate
  import opened SmtUpdateProofs
  import opened SmtHistory
  import opened SmtProof
  import opened SmtRoots
  import opened SmtBuild
  import opened SmtBuilder
  import opened SmtTraversal
  import opened BatchRuns

  datatype ActivityLeaf = ActivityLeaf(txId: nat, version: nat, mergeIdx: nat)

  /** Lane tips as free terms. */
  datatype LaneTip =
    | Anchor(id: nat)
    | NextTip(parent: LaneTip, laneKey: nat, activity: seq<ActivityLeaf>, context: ContextHash)

  datatype Inputs = Inputs(txImage: nat, covenant: nat, declaredDeposit: nat, laneKey: nat, proof: Proof,
                           blueScore: nat, daaScore: nat, prevTimestamp: nat, prevSeqCommit: LaneTip,
                           prevLaneTip: LaneTip, prevLaneBlueScore: nat, laneExpired: bool, journals: seq<Journal>)
  {
    function Context(): ContextHash {
      ContextHash(prevTimestamp, daaScore, blueScore)
    }

    /** The queried keys. */
    function Keys(): seq<ResourceId> {
      if |proof.memberships| <= |proof.keys| then proof.keys[..|proof.memberships|] else []
    }
  }

  datatype BatchTransition = BatchTransition(
    prevState: Digest, prevLaneTip: LaneTip, prevLaneBlueScore: nat,
    newState: Digest, newLaneTip: LaneTip, newLaneBlueScore: nat,
    laneKey: nat, covenant: nat, txImage: nat, deposit: nat, laneExpired: bool, exits: seq<Exit>)

  /** The values hold what state `m` has for the keys. */
  ghost predicate Tracks(values: seq<Digest>, keys: seq<ResourceId>, m: StateMap) {
    |values| == |keys| && forall i :: 0 <= i < |keys| ==> values[i] == ValueIn(m, keys[i])
  }

  lemma WriteTracks(values: seq<Digest>, keys: seq<ResourceId>, m: StateMap, i: nat, v: Digest)
    requires Tracks(values, keys, m) && Distinct(keys) && i < |keys|
    ensures Tracks(values[i := v], keys, Write(m, keys[i], v))
  {
  }

  /** The queried keys are a strictly ascending prefix of the key table. */
  method CheckSortedQueriedKeys(pf: Proof) returns (ok: bool)
    ensures ok <==> |pf.memberships| <= |pf.keys| && Ascending(pf.keys[..|pf.memberships|])
  {
    hide Less;
    if |pf.memberships| > |pf.keys| {
      return false;
    }
    var queried := pf.keys[..|pf.memberships|];
    var i := 1;
    while i < |queried|
      invariant 1 <= i && (|queried| > 0 ==> i <= |queried|)
      invariant Ascending(if i <= |queried| then queried[..i] else queried)
    {
      if !Less(queried[i - 1], queried[i]) {
        return false;
      }
      AscendingNext(queried, i);
      i := i + 1;
    }
    assert |queried| > 0 ==> queried[..i] == queried;
    return true;
  }

  lemma AscendingNext(keys: seq<ResourceId>, n: nat)
    requires 0 < n < |keys| && Ascending(keys[..n]) && Less(keys[n - 1], keys[n])
    ensures Ascending(keys[..n + 1])
  {
    hide Less;
    var some, more := keys[..n], keys[..n + 1];
    forall i, j | 0 <= i < j < |more| ensures Less(more[i], more[j]) {
      if j == n && i < n - 1 {
        assert some[i] == keys[i] && some[n - 1] == keys[n - 1];
        LessIsTransitive(keys[i], keys[n - 1], keys[n]);
      } else if j < n {
        assert some[i] == more[i] && some[j] == more[j];
      }
    }
  }

  lemma SortedIsDistinct(keys: seq<ResourceId>)
    requires Ascending(keys)
    ensures Distinct(keys)
  {
    hide Less;
    forall i, j | 0 <= i < j < |keys| ensures keys[i] != keys[j] {
      LessIsStrict(keys[i], keys[j]);
    }
  }

  /** The members of a proof that resolves have the values of state `m`. */
  ghost predicate Explains(m: StateMap, pf: Proof) {
    forall i :: 0 <= i < |pf.memberships| && i < |pf.keys| && MemberValue(pf, i).Some? ==>
      MemberValue(pf, i).value == ValueIn(m, pf.keys[i])
  }

  ghost predicate Resolves(pf: Proof) {
    forall i :: 0 <= i < |pf.memberships| ==> MemberValue(pf, i).Some?
  }

  /** The values of all members, in order. */
  method MemberValues(pf: Proof) returns (values: Option<seq<Digest>>)
    ensures values.Some? <==> Resolves(pf)
    ensures values.Some? ==> |values.value| == |pf.memberships|
                             && forall i :: 0 <= i < |pf.memberships| ==> MemberValue(pf, i) == Some(values.value[i])
  {
    hide MemberValue;
    var vs := [];
    for i := 0 to |pf.memberships|
      invariant |vs| == i && forall j :: 0 <= j < i ==> MemberValue(pf, j) == Some(vs[j])
    {
      var v := MemberValue(pf, i);
      if v.None? {
        return None;
      }
      vs := vs + [v.value];
    }
    return Some(vs);
  }

  function Activity(js: seq<Journal>): (leaves: seq<ActivityLeaf>)
    ensures |leaves| == |js|
  {
    seq(|js|, i requires 0 <= i < |js| => ActivityLeaf(js[i].txId, js[i].version, js[i].mergeIdx))
  }

  lemma ActivityNext(js: seq<Journal>, n: nat)
    requires n < |js|
    ensures Activity(js[..n + 1]) == Activity(js[..n]) + [ActivityLeaf(js[n].txId, js[n].version, js[n].mergeIdx)]
  {
  }

  /** The lane tip and blue score after the batch. An empty batch leaves both alone. */
  function LaneAfter(inputs: Inputs): (LaneTip, nat) {
    if inputs.journals == [] then (inputs.prevLaneTip, inputs.prevLaneBlueScore)
    else (NextTip(if inputs.laneExpired then inputs.prevSeqCommit else inputs.prevLaneTip, inputs.laneKey,
                  Activity(inputs.journals), inputs.Context()),
          inputs.blueScore)
  }

  /** What the verifier accepts, in terms of the state the proof is about. */
  ghost predicate Accepts(m: StateMap, inputs: Inputs) {
    && HonestRun(m, inputs.Keys(), inputs.Context(), inputs.journals)
    && (DepositOf(inputs.journals).value == 0 || DepositOf(inputs.journals).value == inputs.declaredDeposit)
  }

  ghost function ValuesOf(m: StateMap, keys: seq<ResourceId>): (values: seq<Digest>)
    ensures Tracks(values, keys, m)
  {
    seq(|keys|, i requires 0 <= i < |keys| => ValueIn(m, keys[i]))
  }

  /** The values of the final state for the queried keys. */
  ghost function FinalValues(m: StateMap, inputs: Inputs): seq<Digest> {
    ValuesOf(RunState(m, inputs.journals), inputs.Keys())
  }

  /** The journal of an accepted batch. */
  ghost function Transition(m: StateMap, inputs: Inputs, roots: (Digest, Digest)): BatchTransition
    requires DepositOf(inputs.journals).Some?
  {
    BatchTransition(roots.0, inputs.prevLaneTip, inputs.prevLaneBlueScore, roots.1, LaneAfter(inputs).0,
                    LaneAfter(inputs).1, inputs.laneKey, inputs.covenant, inputs.txImage,
                    DepositOf(inputs.journals).value, inputs.laneExpired, ExitsOf(inputs.journals))
  }

  class Verifier {
    const inputs: Inputs
    const latest: array<Digest>
    var exits: seq<Exit>
    var deposit: nat

    /** The tracked value hashes are those of state `m`. */
    ghost predicate Valid(m: StateMap)
      reads this, latest
    {
      Distinct(inputs.Keys()) && Tracks(latest[..], inputs.Keys(), m)
    }

    constructor (inputs: Inputs, values: seq<Digest>)
      ensures this.inputs == inputs && fresh(latest) && latest[..] == values && exits == [] && deposit == 0
    {
      this.inputs := inputs;
      latest := new Digest[|values|](i requires 0 <= i < |values| => values[i]);
      exits, deposit := [], 0;
    }

    /** The proof, shape and merge order of one journal. */
    method VerifiedJournal(j: Journal, lastMergeIdx: Option<nat>) returns (ok: bool)
      ensures ok <==> && j.proven && (lastMergeIdx.Some? ==> lastMergeIdx.value < j.mergeIdx)
                      && (j.execution.None? ==> j.result == Failure(Some(VERSION_INCOMPATIBLE)))
    {
      if !j.proven {
        return false;
      }
      if lastMergeIdx.Some? && j.mergeIdx <= lastMergeIdx.value {
        return false;
      }
      if j.execution.None? {
        if !(j.result.Failure? && j.result.guestCode.Some?) {
          return false;
        }
        return j.result.guestCode.value == VERSION_INCOMPATIBLE;
      }
      return true;
    }

    /** Checks a resource against its tracked value and returns its slot. */
    method VerifiedBatchIdx(r: Input, ghost m: StateMap) returns (idx: Option<nat>)
      requires Valid(m)
      ensures idx.Some? <==> InputMatches(m, inputs.Keys(), r)
      ensures idx.Some? ==> idx.value == r.index < |inputs.Keys()| == latest.Length
    {
      if r.index >= latest.Length || latest[r.index] != r.hash {
        assert r.index < latest.Length ==> latest[..][r.index] == latest[r.index];
        return None;
      }
      assert latest[..][r.index] == latest[r.index];
      if inputs.Keys()[r.index] != r.id {
        return None;
      }
      return Some(r.index);
    }

    /** Checks the touched resources of an executed transaction one by one, and takes over the
        outputs of a successful one. */
    method VerifyResources(j: Journal, ghost m: StateMap) returns (ok: bool)
      requires Valid(m) && j.execution.Some?
      modifies latest
      ensures ok <==> InputsMatch(m, inputs.Keys(), j)
      ensures ok ==> Valid(TxState(m, j))
    {
      hide Distinct;
      hide Tracks;
      hide Written;
      var resources, next := j.execution.value.resources, 0;
      DuringStarts(m, j);
      while next < |resources|
        invariant next <= |resources| && Valid(During(m, j, next)) && (j.result.Success? ==> next <= |j.result.outputs|)
        invariant forall i :: 0 <= i < next ==> InputMatches(During(m, j, i), inputs.Keys(), resources[i])
      {
        var idx := VerifiedBatchIdx(resources[next], During(m, j, next));
        if idx.None? {
          return false;
        }
        if j.result.Success? {
          if next >= |j.result.outputs| {
            return false;
          }
          DuringNext(m, j, next);
          match j.result.outputs[next] {
            case Changed(hash) =>
              WriteTracks(latest[..], inputs.Keys(), During(m, j, next), idx.value, hash);
              latest[idx.value] := hash;
            case Unchanged =>
          }
        }
        next := next + 1;
      }
      return j.result.Success? ==> |resources| == |j.result.outputs|;
    }

    /** One journal: exits and deposit of a successful transaction, then its resources. */
    method VerifyTx(j: Journal, lastMergeIdx: Option<nat>, ghost m: StateMap) returns (ok: bool)
      requires Valid(m)
      modifies this, latest
      ensures ok <==> && JournalFits(m, inputs.Keys(), inputs.Context(), j)
                      && (lastMergeIdx.Some? ==> lastMergeIdx.value < j.mergeIdx)
                      && CarryDeposit(old(deposit), TxDeposit(j)).Some?
      ensures ok ==> && Valid(TxState(m, j)) && exits == old(exits) + TxExits(j)
                     && Some(deposit) == CarryDeposit(old(deposit), TxDeposit(j))
    {
      hide Tracks;
      hide Distinct;
      hide InputsMatch;
      hide During;
      ok := VerifiedJournal(j, lastMergeIdx);
      if !ok || j.execution.None? {
        return;
      }
      if j.execution.value.context != inputs.Context() {
        return false;
      }
      if j.result.Success? {
        var carried := CarryDeposit(deposit, j.result.deposit);
        if carried.None? {
          return false;
        }
        deposit := carried.value;
        exits := exits + j.result.exits;
      }
      ok := VerifyResources(j, m);
    }

    /** Verifies every transaction and returns the activity of the batch. */
    method VerifiedActivity(ghost m: StateMap) returns (activity: Option<seq<ActivityLeaf>>)
      requires Valid(m) && exits == [] && deposit == 0
      modifies this, latest
      ensures activity.Some? <==> HonestRun(m, inputs.Keys(), inputs.Context(), inputs.journals)
      ensures activity.Some? ==> && activity.value == Activity(inputs.journals)
                                 && Valid(RunState(m, inputs.journals)) && exits == ExitsOf(inputs.journals)
                                 && Some(deposit) == DepositOf(inputs.journals)
    {
      hide *;
      var js := inputs.journals;
      var leaves, lastMergeIdx: Option<nat>, n := [], None, 0;
      NothingVerified(m, inputs.Keys(), inputs.Context(), js);
      while n < |js|
        invariant n <= |js| && leaves == Activity(js[..n]) && Valid(RunState(m, js[..n]))
        invariant exits == ExitsOf(js[..n]) && Some(deposit) == DepositOf(js[..n])
        invariant HonestRun(m, inputs.Keys(), inputs.Context(), js[..n])
        invariant lastMergeIdx == if n == 0 then None else Some(js[n - 1].mergeIdx)
      {
        var j := js[n];
        VerifiedOneMore(m, inputs.Keys(), inputs.Context(), js, n);
        ActivityNext(js, n);
        var ok := VerifyTx(j, lastMergeIdx, RunState(m, js[..n]));
        if !ok {
          return None;
        }
        lastMergeIdx := Some(j.mergeIdx);
        leaves := leaves + [ActivityLeaf(j.txId, j.version, j.mergeIdx)];
        n := n + 1;
      }
      assert js[..|js|] == js;
      return Some(leaves);
    }

    /** The batch's activity, its deposit against the declared one, and the new lane tip. */
    method VerifyLane(ghost m: StateMap) returns (lane: Option<(LaneTip, nat)>)
      requires Valid(m) && exits == [] && deposit == 0
      modifies this, latest
      ensures lane.Some? <==> Accepts(m, inputs)
      ensures lane.Some? ==> && lane.value == LaneAfter(inputs) && Valid(RunState(m, inputs.journals))
                             && exits == ExitsOf(inputs.journals) && Some(deposit) == DepositOf(inputs.journals)
    {
      hide *;
      AcceptedMeans(m, inputs);
      if |inputs.journals| == 0 {
        NothingVerified(m, inputs.Keys(), inputs.Context(), inputs.journals);
        assert inputs.journals[..0] == inputs.journals;
        return Some((inputs.prevLaneTip, inputs.prevLaneBlueScore));
      }
      var activity := VerifiedActivity(m);
      if activity.None? {
        return None;
      }
      if deposit != 0 && deposit != inputs.declaredDeposit {
        return None;
      }
      var parent := if inputs.laneExpired then inputs.prevSeqCommit else inputs.prevLaneTip;
      return Some((NextTip(parent, inputs.laneKey, activity.value, inputs.Context()), inputs.blueScore));
    }

    /** Commits both roots of the batch, computed in one walk over the proof. */
    method CommitBatchTransition(lane: (LaneTip, nat), ghost m: StateMap) returns (r: Option<BatchTransition>)
      requires Valid(RunState(m, inputs.journals)) && |inputs.proof.memberships| <= |inputs.proof.keys|
      requires lane == LaneAfter(inputs) && exits == ExitsOf(inputs.journals)
      requires Some(deposit) == DepositOf(inputs.journals)
      ensures r.Some? <==> ComputeRoots(inputs.proof, FinalValues(m, inputs)).Some?
      ensures r.Some? ==> r.value == Transition(m, inputs, ComputeRoots(inputs.proof, FinalValues(m, inputs)).value)
    {
      hide *;
      LatestIsFinal(m);
      var roots := RunRoots(inputs.proof, latest[..]);
      TransitionMeans(m, inputs);
      if roots.None? {
        return None;
      }
      return Some(BatchTransition(roots.value.0, inputs.prevLaneTip, inputs.prevLaneBlueScore, roots.value.1,
                                  lane.0, lane.1, inputs.laneKey, inputs.covenant, inputs.txImage, deposit,
                                  inputs.laneExpired, exits));
    }

    lemma LatestIsFinal(m: StateMap)
      requires Valid(RunState(m, inputs.journals)) && |inputs.proof.memberships| <= |inputs.proof.keys|
      ensures latest[..] == FinalValues(m, inputs) && |latest[..]| == |inputs.proof.memberships|
    {
      hide RunState;
    }
  }

  /** Every transaction of an accepted batch is proven, ran in the context of the batch's block or
      is of a version not run, and if it succeeded deposits what the batch declares or nothing. */
  lemma AcceptedBatchAgrees(m: StateMap, inputs: Inputs, n: nat)
    requires Accepts(m, inputs) && n < |inputs.journals|
    ensures var j := inputs.journals[n];
            && j.proven
            && (j.execution.None? ==> j.result == Failure(Some(VERSION_INCOMPATIBLE)))
            && (j.execution.Some? ==>
                  j.execution.value.context == ContextHash(inputs.prevTimestamp, inputs.daaScore, inputs.blueScore))
            && (j.execution.Some? && j.result.Success? ==>
                  j.result.deposit == 0 || j.result.deposit == inputs.declaredDeposit)
  {
    hide RunState;
    hide InputsMatch;
    hide DepositOf;
    var j := inputs.journals[n];
    DepositIsTheOneDeclared(inputs.journals);
    assert JournalFits(RunState(m, inputs.journals[..n]), inputs.Keys(), inputs.Context(), j);
    if j.execution.Some? && j.result.Success? && j.result.deposit != 0 {
      assert Declares(inputs.journals, n, j.result.deposit);
    }
  }

  lemma AcceptedMeans(m: StateMap, inputs: Inputs)
    ensures Accepts(m, inputs) <==>
              && HonestRun(m, inputs.Keys(), inputs.Context(), inputs.journals) && DepositOf(inputs.journals).Some?
              && (DepositOf(inputs.journals).value == 0 || DepositOf(inputs.journals).value == inputs.declaredDeposit)
    ensures LaneAfter(inputs)
         == if |inputs.journals| == 0 then (inputs.prevLaneTip, inputs.prevLaneBlueScore)
            else (NextTip(if inputs.laneExpired then inputs.prevSeqCommit else inputs.prevLaneTip, inputs.laneKey,
                          Activity(inputs.journals), inputs.Context()), inputs.blueScore)
  {
    hide DepositOf;
    hide Activity;
    hide JournalFits;
    hide RunState;
  }

  lemma TransitionMeans(m: StateMap, inputs: Inputs)
    ensures forall roots: (Digest, Digest) :: DepositOf(inputs.journals).Some? ==>
              Transition(m, inputs, roots)
              == BatchTransition(roots.0, inputs.prevLaneTip, inputs.prevLaneBlueScore, roots.1, LaneAfter(inputs).0,
                                 LaneAfter(inputs).1, inputs.laneKey, inputs.covenant, inputs.txImage,
                                 DepositOf(inputs.journals).value, inputs.laneExpired, ExitsOf(inputs.journals))
  {
    hide DepositOf;
    hide ExitsOf;
    hide LaneAfter;
  }

  lemma BatchKeys(inputs: Inputs)
    ensures |inputs.proof.memberships| <= |inputs.proof.keys| ==>
              inputs.Keys() == inputs.proof.keys[..|inputs.proof.memberships|]
  {
  }

  lemma MembersTrack(inputs: Inputs, m: StateMap, values: seq<Digest>)
    requires Explains(m, inputs.proof) && |values| == |inputs.proof.memberships| <= |inputs.proof.keys|
    requires forall i :: 0 <= i < |inputs.proof.memberships| ==> MemberValue(inputs.proof, i) == Some(values[i])
    ensures Tracks(values, inputs.Keys(), m)
  {
    hide MemberValue;
    hide ValueIn;
  }

  lemma VerifierStarts(v: Verifier, inputs: Inputs, m: StateMap)
    requires v.inputs == inputs && Tracks(v.latest[..], inputs.Keys(), m) && Distinct(inputs.Keys())
    ensures v.Valid(m)
  {
  }

  lemma DuringStarts(m: StateMap, j: Journal)
    requires j.execution.Some?
    ensures During(m, j, 0) == m
  {
  }

  lemma DuringNext(m: StateMap, j: Journal, i: nat)
    requires j.execution.Some? && j.result.Success? && i < |j.execution.value.resources| && i < |j.result.outputs|
    ensures During(m, j, i + 1) == match j.result.outputs[i]
                                   case Unchanged => During(m, j, i)
                                   case Changed(hash) => Write(During(m, j, i), j.execution.value.resources[i].id, hash)
  {
  }

  lemma NothingVerified(m: StateMap, keys: seq<ResourceId>, context: ContextHash, js: seq<Journal>)
    ensures Activity(js[..0]) == [] && RunState(m, js[..0]) == m && ExitsOf(js[..0]) == [] &&
            DepositOf(js[..0]) == Some(0)
    ensures HonestRun(m, keys, context, js[..0])
  {
    assert js[..0] == [] && TxDeposits([]) == [];
  }

  lemma DepositOfPrefix(js: seq<Journal>, n: nat)
    requires n <= |js| && DepositOf(js).Some?
    ensures DepositOf(js[..n]).Some?
  {
    DepositFromTwo(0, TxDeposits(js[..n]), TxDeposits(js[n..]));
    assert TxDeposits(js[..n]) + TxDeposits(js[n..]) == TxDeposits(js);
  }

  lemma DepositNext(js: seq<Journal>, n: nat)
    requires n < |js| && DepositOf(js[..n]).Some?
    ensures DepositOf(js[..n + 1]) == CarryDeposit(DepositOf(js[..n]).value, TxDeposit(js[n]))
  {
    hide TxDeposit;
    var hashes := TxDeposits(js[..n + 1]);
    assert hashes[..n] == TxDeposits(js[..n]);
  }

  /** An honest run is honest up to each journal. */
  lemma HonestPrefix(m: StateMap, keys: seq<ResourceId>, context: ContextHash, js: seq<Journal>, n: nat)
    requires n <= |js| && HonestRun(m, keys, context, js)
    ensures HonestRun(m, keys, context, js[..n])
  {
    hide JournalFits;
    hide RunState;
    hide DepositOf;
    DepositOfPrefix(js, n);
    forall i | 0 <= i < n ensures JournalFits(RunState(m, js[..n][..i]), keys, context, js[..n][i]) {
      assert js[..n][..i] == js[..i];
    }
  }

  /** One more journal has to fit behind an honest run. */
  lemma HonestNext(m: StateMap, keys: seq<ResourceId>, context: ContextHash, js: seq<Journal>, n: nat)
    requires n < |js| && HonestRun(m, keys, context, js[..n])
    ensures HonestRun(m, keys, context, js[..n + 1]) <==>
              && JournalFits(RunState(m, js[..n]), keys, context, js[n])
              && (n > 0 ==> js[n - 1].mergeIdx < js[n].mergeIdx)
              && CarryDeposit(DepositOf(js[..n]).value, TxDeposit(js[n])).Some?
  {
    hide JournalFits;
    hide RunState;
    hide DepositOf;
    DepositNext(js, n);
    var some, more := js[..n], js[..n + 1];
    assert more[..n] == some && more[n] == js[n];
    forall i | 0 <= i < n
      ensures JournalFits(RunState(m, more[..i]), keys, context, more[i])
    {
      assert more[..i] == some[..i] && some[i] == more[i];
    }
    forall i, j | 0 <= i && j == i + 1 < n ensures more[i].mergeIdx < more[j].mergeIdx {
      assert some[i] == more[i] && some[j] == more[j];
    }
    if n > 0 && MergeOrder(more) {
      assert more[n - 1].mergeIdx < more[n].mergeIdx;
    }
  }

  lemma VerifiedOneMore(m: StateMap, keys: seq<ResourceId>, context: ContextHash, js: seq<Journal>, n: nat)
    requires n < |js| && HonestRun(m, keys, context, js[..n]) && DepositOf(js[..n]).Some?
    ensures RunState(m, js[..n + 1]) == TxState(RunState(m, js[..n]), js[n])
    ensures ExitsOf(js[..n + 1]) == ExitsOf(js[..n]) + TxExits(js[n])
    ensures DepositOf(js[..n + 1]) == CarryDeposit(DepositOf(js[..n]).value, TxDeposit(js[n]))
    ensures HonestRun(m, keys, context, js[..n + 1]) <==>
              && JournalFits(RunState(m, js[..n]), keys, context, js[n])
              && (n > 0 ==> js[n - 1].mergeIdx < js[n].mergeIdx)
              && CarryDeposit(DepositOf(js[..n]).value, TxDeposit(js[n])).Some?
    ensures HonestRun(m, keys, context, js) ==> HonestRun(m, keys, context, js[..n + 1])
  {
    hide HonestRun;
    hide DepositOf;
    hide TxState;
    assert js[..n + 1][..n] == js[..n];
    DepositNext(js, n);
    HonestNext(m, keys, context, js, n);
    if HonestRun(m, keys, context, js) {
      HonestPrefix(m, keys, context, js, n + 1);
    }
  }

  // ---- Whole batches ----

  /** Verifies a batch and commits its transition. State `m` is any state the proof's members
      agree with. */
  method VerifyBatch(inputs: Inputs, ghost m: StateMap) returns (r: Option<BatchTransition>)
    requires Explains(m, inputs.proof)
    ensures r.Some? <==> && |inputs.proof.memberships| <= |inputs.proof.keys| && Ascending(inputs.Keys())
                         && Resolves(inputs.proof) && Accepts(m, inputs)
                         && ComputeRoots(inputs.proof, FinalValues(m, inputs)).Some?
    ensures r.Some? ==> r.value == Transition(m, inputs, ComputeRoots(inputs.proof, FinalValues(m, inputs)).value)
  {
    hide *;
    var sorted := CheckSortedQueriedKeys(inputs.proof);
    if !sorted {
      BatchKeys(inputs);
      return None;
    }
    BatchKeys(inputs);
    SortedIsDistinct(inputs.Keys());
    var values := MemberValues(inputs.proof);
    if values.None? {
      return None;
    }
    MembersTrack(inputs, m, values.value);
    var v := new Verifier(inputs, values.value);
    VerifierStarts(v, inputs, m);
    var lane := v.VerifyLane(m);
    if lane.None? {
      return None;
    }
    r := v.CommitBatchTransition(lane.value, m);
  }

  // ---- The roots of a batch over a built proof ----

  lemma ValuesDecide(a: StateMap, b: StateMap)
    requires forall k: ResourceId :: ValueIn(a, k) == ValueIn(b, k)
    ensures a == b
  {
    forall k: ResourceId ensures k in a <==> k in b {
      assert ValueIn(a, k) == ValueIn(b, k);
    }
    forall k: ResourceId | k in a ensures a[k] == b[k] {
      assert ValueIn(a, k) == ValueIn(b, k);
    }
  }

  /** Writing the values of the keys gives any state that differs in the keys only. */
  lemma ZipReaches(m: StateMap, n: StateMap, keys: seq<ResourceId>)
    requires Distinct(keys) && forall k: ResourceId :: k !in keys ==> ValueIn(n, k) == ValueIn(m, k)
    ensures ApplyWrites(m, LastWrites(Zip(keys, ValuesOf(n, keys)))) == n
  {
    hide LastWrites;
    hide Zip;
    hide ValuesOf;
    var values := ValuesOf(n, keys);
    var w := LastWrites(Zip(keys, values));
    forall k: ResourceId ensures ValueIn(ApplyWrites(m, w), k) == ValueIn(n, k) {
      if k in keys {
        var i :| 0 <= i < |keys| && keys[i] == k;
        ZipWrites(keys, values, i);
      } else if k in w {
        ZipWritesNothingElse(keys, values, k);
      }
    }
    ValuesDecide(ApplyWrites(m, w), n);
  }

  /** Whatever a proof with distinct keys claims, some state agrees with its members. */
  lemma SomeStateExplains(pf: Proof) returns (m: StateMap)
    requires |pf.memberships| <= |pf.keys| && Distinct(pf.keys[..|pf.memberships|])
    ensures Explains(m, pf)
  {
    hide LastWrites;
    hide Zip;
    hide MemberValue;
    var keys := pf.keys[..|pf.memberships|];
    var values := seq(|keys|, i requires 0 <= i < |keys| =>
      if MemberValue(pf, i).Some? then MemberValue(pf, i).value else Zero);
    var w := LastWrites(Zip(keys, values));
    m := ApplyWrites(map[], w);
    forall i | 0 <= i < |keys| ensures ValueIn(m, keys[i]) == values[i] {
      ZipWrites(keys, values, i);
    }
  }

  lemma {:induction false} WrittenStays(m: StateMap, j: Journal, keys: seq<ResourceId>, k: ResourceId, n: nat)
    requires j.Succeeds() && k !in keys && n <= |j.execution.value.resources| == |j.result.outputs|
    requires forall i :: 0 <= i < |j.execution.value.resources| ==> j.execution.value.resources[i].id in keys
    ensures ValueIn(Written(m, j.execution.value.resources, j.result.outputs, n), k) == ValueIn(m, k)
  {
    if n > 0 {
      WrittenStays(m, j, keys, k, n - 1);
    }
  }

  /** A fitting journal changes queried keys only. */
  lemma JournalStays(m: StateMap, keys: seq<ResourceId>, context: ContextHash, j: Journal, k: ResourceId)
    requires JournalFits(m, keys, context, j) && k !in keys
    ensures ValueIn(TxState(m, j), k) == ValueIn(m, k)
  {
    hide Written;
    if j.Succeeds() {
      var inputs := j.execution.value.resources;
      forall i | 0 <= i < |inputs| ensures inputs[i].id in keys {
        assert InputMatches(During(m, j, i), keys, inputs[i]);
      }
      WrittenStays(m, j, keys, k, |inputs|);
    }
  }

  lemma {:induction false} RunStays(m: StateMap, keys: seq<ResourceId>, context: ContextHash, js: seq<Journal>,
                                    k: ResourceId)
    requires HonestRun(m, keys, context, js) && k !in keys
    ensures ValueIn(RunState(m, js), k) == ValueIn(m, k)
    decreases |js|
  {
    hide JournalFits;
    hide DepositOf;
    if js != [] {
      var n := |js| - 1;
      HonestPrefix(m, keys, context, js, n);
      RunStays(m, keys, context, js[..n], k);
      assert JournalFits(RunState(m, js[..n]), keys, context, js[n]);
      JournalStays(RunState(m, js[..n]), keys, context, js[n], k);
    }
  }

  /** Without a queried key no transaction of an honest run can name a resource. */
  lemma NothingQueriedChangesNothing(m: StateMap, context: ContextHash, js: seq<Journal>)
    requires HonestRun(m, [], context, js)
    ensures RunState(m, js) == m
    decreases |js|
  {
    hide RunState;
    hide HonestRun;
    forall k: ResourceId ensures ValueIn(RunState(m, js), k) == ValueIn(m, k) {
      RunStays(m, [], context, js, k);
    }
    ValuesDecide(RunState(m, js), m);
  }

  /** The roots of an honest run from `m`. */
  ghost function CanonRoots(m: StateMap, js: seq<Journal>): (Digest, Digest) {
    (CanonRoot(m), CanonRoot(RunState(m, js)))
  }

  /** The roots an accepted batch commits over a proof built for its state: those of its run,
      but the empty root twice if nothing was queried. */
  ghost function CommittedRoots(m: StateMap, inputs: Inputs): (Digest, Digest) {
    if inputs.Keys() == [] then (Zero, Zero) else CanonRoots(m, inputs.journals)
  }

  /** A batch over a proof built for state `m` is accepted exactly when its journals are an
      honest run from `m` (see `VerifyBatch`). Its roots are then those of `m` and of the
      state its transactions leave, exactly if a key was queried or the state is empty. */
  lemma BatchRootsAreCanonicalExactlyWhen(inputs: Inputs, view: View, m: StateMap)
    requires Represents(view, m) && BuiltFor(inputs.proof, view, inputs.Keys())
    ensures |inputs.proof.memberships| <= |inputs.proof.keys| && Explains(m, inputs.proof) && Resolves(inputs.proof)
    ensures Accepts(m, inputs) ==>
              && ComputeRoots(inputs.proof, FinalValues(m, inputs)) == Some(CommittedRoots(m, inputs))
              && (CommittedRoots(m, inputs) == CanonRoots(m, inputs.journals) <==> inputs.Keys() != [] || m == map[])
  {
    hide *;
    BuiltShape(inputs, view);
    if inputs.Keys() == [] {
      UnqueriedRoots(inputs, view, m);
    } else {
      QueriedRoots(inputs, view, m);
    }
  }

  lemma BuiltShape(inputs: Inputs, view: View)
    requires BuiltFor(inputs.proof, view, inputs.Keys())
    ensures |inputs.proof.memberships| <= |inputs.proof.keys|
  {
  }

  lemma UnqueriedRoots(inputs: Inputs, view: View, m: StateMap)
    requires inputs.Keys() == [] && BuiltFor(inputs.proof, view, [])
    ensures Explains(m, inputs.proof) && Resolves(inputs.proof)
    ensures Accepts(m, inputs) ==>
              && ComputeRoots(inputs.proof, FinalValues(m, inputs)) == Some(CommittedRoots(m, inputs))
              && (CommittedRoots(m, inputs) == CanonRoots(m, inputs.journals) <==> m == map[])
  {
    hide HonestRun;
    hide ComputeRoots;
    hide RunState;
    hide CanonRoot;
    LeaflessProofGivesEmptyRoots(inputs.proof, FinalValues(m, inputs));
    EmptyRootMeansEmptyMap(m);
    if Accepts(m, inputs) {
      NothingQueriedChangesNothing(m, inputs.Context(), inputs.journals);
    }
  }

  lemma QueriedRoots(inputs: Inputs, view: View, m: StateMap)
    requires |inputs.proof.memberships| <= |inputs.proof.keys| && inputs.Keys() != []
    requires Represents(view, m) && BuiltFor(inputs.proof, view, inputs.Keys())
    ensures Explains(m, inputs.proof) && Resolves(inputs.proof)
    ensures Accepts(m, inputs) ==>
              && ComputeRoots(inputs.proof, FinalValues(m, inputs)) == Some(CommittedRoots(m, inputs))
              && CommittedRoots(m, inputs) == CanonRoots(m, inputs.journals)
  {
    hide MemberValue;
    hide Represents;
    hide ComputeRoots;
    hide LastWrites;
    hide Canon;
    hide RunState;
    hide HonestRun;
    hide DepositOf;
    var keys, js := inputs.Keys(), inputs.journals;
    forall i: nat | i < |keys| ensures MemberValue(inputs.proof, i) == Some(ValueIn(m, keys[i])) {}
    if Accepts(m, inputs) {
      forall k: ResourceId | k !in keys ensures ValueIn(RunState(m, js), k) == ValueIn(m, k) {
        RunStays(m, keys, inputs.Context(), js, k);
      }
      ZipReaches(m, RunState(m, js), keys);
    }
  }

  /** The case is real: over any state that is not empty, a batch of one transaction without
      resources is accepted with the proof built for no key, and commits the empty root as
      the root of that state. */
  lemma ResourceFreeBatchCommitsTheEmptyRoot(view: View, m: StateMap, template: Inputs) returns (inputs: Inputs)
    requires m != map[]
    ensures inputs.journals == [Journal(true, 7, 1, 0, Some(Execution(inputs.Context(), [])), Failure(None))]
    ensures BuiltFor(inputs.proof, view, inputs.Keys()) && Accepts(m, inputs)
    ensures ComputeRoots(inputs.proof, FinalValues(m, inputs)) == Some((Zero, Zero))
    ensures CanonRoot(m) != Zero && RunState(m, inputs.journals) == m
  {
    var context := template.Context();
    var j := Journal(true, 7, 1, 0, Some(Execution(context, [])), Failure(None));
    inputs := template.(proof := Proof([], [], [], [], []), journals := [j]);
    hide Canon;
    LoneFailureIsHonest(m, [], context, j);
    LeaflessProofGivesEmptyRoots(inputs.proof, FinalValues(m, inputs));
    EmptyRootMeansEmptyMap(m);
  }

  lemma LoneFailureIsHonest(m: StateMap, keys: seq<ResourceId>, context: ContextHash, j: Journal)
    requires j.proven && j.execution.Some? && j.execution.value.context == context && j.result.Failure?
    requires forall r :: r in j.execution.value.resources ==> InputMatches(m, keys, r)
    ensures HonestRun(m, keys, context, [j]) && RunState(m, [j]) == m && DepositOf([j]) == Some(0)
  {
    assert [j][..0] == [] && TxDeposits([j]) == [0] && [0][..0] == [];
  }
}
