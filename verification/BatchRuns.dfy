/** What the transactions of a batch do to the state, their exits and deposits, and when a list
    of transaction journals is one honest run. */
module BatchRuns {
  import opened Numbers
  import opened Options
  import opened SmtKeys
  import opened SmtTree
  import opened SmtBuild

  const VERSION_INCOMPATIBLE: nat := 1

  datatype Exit = Exit(dest: nat, amount: nat)

  /** A resource a transaction was executed on: its slot in the proof, its id and value hash. */
  datatype Input = Input(index: nat, id: ResourceId, hash: Digest)
  datatype Output = Unchanged | Changed(hash: Digest)

  datatype ContextHash = ContextHash(timestamp: nat, daaScore: nat, blueScore: nat)
  datatype Execution = Execution(context: ContextHash, resources: seq<Input>)
  datatype Result = Success(exits: seq<Exit>, deposit: nat, outputs: seq<Output>) | Failure(guestCode: Option<nat>)

  /** A decoded transaction journal; `proven` is the answer of the inner proof check. */
  datatype Journal = Journal(proven: bool, txId: nat, version: nat, mergeIdx: nat,
                             execution: Option<Execution>, result: Result)
  {
    predicate Succeeds() {
      execution.Some? && result.Success?
    }
  }

  // ---- The state ----

  /** Gives `k` a new value hash; the empty hash deletes it. */
  function Write(m: StateMap, k: ResourceId, v: Digest): StateMap {
    if v == Zero then m - {k} else m[k := v]
  }

  function Written(m: StateMap, inputs: seq<Input>, outputs: seq<Output>, n: nat): StateMap
    requires n <= |inputs| && n <= |outputs|
  {
    if n == 0 then m
    else
      var before := Written(m, inputs, outputs, n - 1);
      match outputs[n - 1]
      case Unchanged => before
      case Changed(hash) => Write(before, inputs[n - 1].id, hash)
  }

  /** The state when a transaction's first `i` resources have been handled. */
  function During(m: StateMap, j: Journal, i: nat): StateMap
    requires j.execution.Some?
  {
    if j.result.Success? then
      var inputs, outputs := j.execution.value.resources, j.result.outputs;
      Written(m, inputs, outputs, Min(i, Min(|inputs|, |outputs|)))
    else m
  }

  /** A transaction that failed, or was not executed, has no effect. */
  function TxState(m: StateMap, j: Journal): StateMap {
    if j.Succeeds() then During(m, j, |j.execution.value.resources|) else m
  }

  function RunState(m: StateMap, js: seq<Journal>): StateMap {
    if js == [] then m else TxState(RunState(m, js[..|js| - 1]), js[|js| - 1])
  }

  // ---- Exits and deposits ----

  function TxExits(j: Journal): seq<Exit> {
    if j.Succeeds() then j.result.exits else []
  }

  function ExitsOf(js: seq<Journal>): seq<Exit> {
    if js == [] then [] else ExitsOf(js[..|js| - 1]) + TxExits(js[|js| - 1])
  }

  function TxDeposit(j: Journal): nat {
    if j.Succeeds() then j.result.deposit else 0
  }

  /** The first deposit hash other than zero is kept; a second, different one is refused. */
  function CarryDeposit(carry: nat, hash: nat): Option<nat> {
    if hash == 0 then Some(carry)
    else if carry == 0 then Some(hash)
    else if carry == hash then Some(carry)
    else None
  }

  function DepositFrom(carry: nat, hashes: seq<nat>): Option<nat> {
    if hashes == [] then Some(carry)
    else
      var before := DepositFrom(carry, hashes[..|hashes| - 1]);
      if before.None? then None else CarryDeposit(before.value, hashes[|hashes| - 1])
  }

  function TxDeposits(js: seq<Journal>): (hashes: seq<nat>)
    ensures |hashes| == |js| && forall i :: 0 <= i < |js| ==> hashes[i] == TxDeposit(js[i])
  {
    seq(|js|, i requires 0 <= i < |js| => TxDeposit(js[i]))
  }

  function DepositOf(js: seq<Journal>): Option<nat> {
    DepositFrom(0, TxDeposits(js))
  }

  /** The carry is the one hash other than zero that occurs, and exists if there is only one. */
  lemma {:induction false} DepositIsTheOnlyOne(carry: nat, hashes: seq<nat>)
    ensures var all := [carry] + hashes;
            && (DepositFrom(carry, hashes).Some? <==>
                  forall i, j :: 0 <= i < j < |all| && all[i] != 0 && all[j] != 0 ==> all[i] == all[j])
            && (DepositFrom(carry, hashes).Some? ==>
                  var d := DepositFrom(carry, hashes).value;
                  d in all && forall i :: 0 <= i < |all| && all[i] != 0 ==> d == all[i])
  {
    if hashes != [] {
      var init, last := hashes[..|hashes| - 1], hashes[|hashes| - 1];
      DepositIsTheOnlyOne(carry, init);
      var some, all := [carry] + init, [carry] + hashes;
      assert all == some + [last];
      var before := DepositFrom(carry, init);
      if before.Some? && before.value != 0 {
        var k :| 0 <= k < |some| && some[k] == before.value;
        assert all[k] == before.value && all[|some|] == last;
      } else if before.None? {
        var i, j :| 0 <= i < j < |some| && some[i] != 0 && some[j] != 0 && some[i] != some[j];
        assert all[i] == some[i] && all[j] == some[j];
      }
    }
  }

  lemma {:induction false} DepositFromTwo(carry: nat, a: seq<nat>, b: seq<nat>)
    ensures var first := DepositFrom(carry, a);
            DepositFrom(carry, a + b) == if first.None? then None else DepositFrom(first.value, b)
    decreases |b|
  {
    if b == [] {
      assert a + b == a;
    } else {
      DepositFromTwo(carry, a, b[..|b| - 1]);
      assert (a + b)[..|a + b| - 1] == a + b[..|b| - 1];
    }
  }

  /** Carrying the carry of a group is carrying its members. */
  lemma {:induction false} CarryOfGroup(carry: nat, hashes: seq<nat>)
    ensures var group := DepositFrom(0, hashes);
            DepositFrom(carry, hashes) == if group.None? then None else CarryDeposit(carry, group.value)
  {
    if hashes != [] {
      CarryOfGroup(carry, hashes[..|hashes| - 1]);
    }
  }

  lemma {:induction false} RunStateOfTwo(m: StateMap, a: seq<Journal>, b: seq<Journal>)
    ensures RunState(m, a + b) == RunState(RunState(m, a), b)
    decreases |b|
  {
    if b == [] {
      assert a + b == a;
    } else {
      RunStateOfTwo(m, a, b[..|b| - 1]);
      assert (a + b)[..|a + b| - 1] == a + b[..|b| - 1];
    }
  }

  lemma {:induction false} ExitsOfTwo(a: seq<Journal>, b: seq<Journal>)
    ensures ExitsOf(a + b) == ExitsOf(a) + ExitsOf(b)
    decreases |b|
  {
    hide TxExits;
    if b == [] {
      assert a + b == a;
    } else {
      ExitsOfTwo(a, b[..|b| - 1]);
      assert (a + b)[..|a + b| - 1] == a + b[..|b| - 1];
    }
  }

  /** The exits of the run are those of the successful executed transactions, one after the other. */
  lemma {:induction false} ExitsAreThoseOfSuccesses(js: seq<Journal>, n: nat)
    requires n < |js|
    ensures ExitsOf([]) == [] && ExitsOf(js[..n]) <= ExitsOf(js[..n + 1]) <= ExitsOf(js)
    ensures ExitsOf(js[..n + 1])[|ExitsOf(js[..n])|..] ==
            if js[n].execution.Some? && js[n].result.Success? then js[n].result.exits else []
    decreases |js|
  {
    assert js[..n + 1][..n] == js[..n];
    if n + 1 < |js| {
      var init := js[..|js| - 1];
      ExitsAreThoseOfSuccesses(init, n);
      assert init[..n] == js[..n] && init[..n + 1] == js[..n + 1];
    } else {
      assert js[..n + 1] == js;
    }
  }

  /** Journal `n` pays to a deposit address: it was executed, succeeded and names one. */
  predicate Declares(js: seq<Journal>, n: nat, hash: nat) {
    n < |js| && js[n].execution.Some? && js[n].result.Success? && js[n].result.deposit == hash != 0
  }

  /** The run has a deposit exactly if its transactions name one address at most, and then it is
      the one they name, or zero. */
  lemma DepositIsTheOneDeclared(js: seq<Journal>)
    ensures DepositOf(js).Some? <==>
            forall m: nat, n: nat, x: nat, y: nat :: Declares(js, m, x) && Declares(js, n, y) ==> x == y
    ensures DepositOf(js).Some? ==>
              && (forall n: nat, x: nat :: Declares(js, n, x) ==> DepositOf(js) == Some(x))
              && (DepositOf(js) == Some(0) || exists n: nat :: Declares(js, n, DepositOf(js).value))
  {
    var hashes := TxDeposits(js);
    var all := [0] + hashes;
    DepositIsTheOnlyOne(0, hashes);
    forall n: nat, x: nat | n < |js| && x != 0 ensures Declares(js, n, x) <==> all[n + 1] == x {
    }
    hide Declares;
    hide DepositFrom;
    if DepositOf(js).Some? && DepositOf(js) != Some(0) {
      var i :| 0 <= i < |all| && all[i] == DepositOf(js).value;
      assert Declares(js, i - 1, DepositOf(js).value);
    }
    if forall m: nat, n: nat, x: nat, y: nat :: Declares(js, m, x) && Declares(js, n, y) ==> x == y {
      forall i, j | 0 <= i < j < |all| && all[i] != 0 && all[j] != 0 ensures all[i] == all[j] {
        assert Declares(js, i - 1, all[i]) && Declares(js, j - 1, all[j]);
      }
    }
    if DepositOf(js).Some? {
      forall n: nat, x: nat | Declares(js, n, x) ensures DepositOf(js) == Some(x) {
        DeclaredIsListed(js, n, x);
      }
    }
  }

  lemma DeclaredIsListed(js: seq<Journal>, n: nat, x: nat)
    requires Declares(js, n, x)
    ensures n < |js| && ([0] + TxDeposits(js))[n + 1] == x != 0
  {
  }

  // ---- Honest runs ----

  /** An input names its slot's key and the value the state holds for it. */
  predicate InputMatches(m: StateMap, keys: seq<ResourceId>, r: Input) {
    r.index < |keys| && keys[r.index] == r.id && r.hash == ValueIn(m, r.id)
  }

  ghost predicate InputsMatch(m: StateMap, keys: seq<ResourceId>, j: Journal)
    requires j.execution.Some?
  {
    var inputs := j.execution.value.resources;
    && (j.result.Success? ==> |j.result.outputs| == |inputs|)
    && forall i :: 0 <= i < |inputs| ==> InputMatches(During(m, j, i), keys, inputs[i])
  }

  /** The journal was proven and, if executed, executed on this state in this context; only a
      transaction of an incompatible version may go without execution. */
  ghost predicate JournalFits(m: StateMap, keys: seq<ResourceId>, context: ContextHash, j: Journal) {
    && j.proven
    && if j.execution.Some? then j.execution.value.context == context && InputsMatch(m, keys, j)
       else j.result == Failure(Some(VERSION_INCOMPATIBLE))
  }

  ghost predicate MergeOrder(js: seq<Journal>) {
    forall i, j :: 0 <= i && j == i + 1 < |js| ==> js[i].mergeIdx < js[j].mergeIdx
  }

  /** The journals are one run of transactions from state `m`, each on the state its
      predecessors left, in merge order and with one deposit address at most. */
  ghost predicate HonestRun(m: StateMap, keys: seq<ResourceId>, context: ContextHash, js: seq<Journal>) {
    && (forall n :: 0 <= n < |js| ==> JournalFits(RunState(m, js[..n]), keys, context, js[n]))
    && MergeOrder(js) && DepositOf(js).Some?
  }

  /** No two transactions of an accepted batch share a merge index: they come in its order. */
  lemma {:induction false} MergeIndicesAscend(m: StateMap, keys: seq<ResourceId>, context: ContextHash,
                                              js: seq<Journal>, i: nat, j: nat)
    requires HonestRun(m, keys, context, js) && i < j < |js|
    ensures js[i].mergeIdx < js[j].mergeIdx
    decreases j
  {
    hide JournalFits;
    assert js[j - 1].mergeIdx < js[j].mergeIdx;
    if i < j - 1 {
      MergeIndicesAscend(m, keys, context, js, i, j - 1);
    }
  }

  // ---- The hash chain of a resource ----

  /** Resource `i` of journal `n` gives `k` the value hash `hash`: the transaction was executed,
      succeeded and declares the output changed. */
  predicate Gives(js: seq<Journal>, n: nat, i: nat, k: ResourceId, hash: Digest) {
    && n < |js| && js[n].execution.Some? && js[n].result.Success?
    && i < |js[n].execution.value.resources| && i < |js[n].result.outputs|
    && js[n].execution.value.resources[i].id == k && js[n].result.outputs[i] == Changed(hash)
  }

  predicate Precedes(n: nat, i: nat, m: nat, j: nat) {
    n < m || (n == m && i < j)
  }

  /** Before resource `j` of journal `m`, the last hash given to `k` is `hash`. */
  ghost predicate LastGiven(js: seq<Journal>, m: nat, j: nat, n: nat, i: nat, k: ResourceId, hash: Digest) {
    && Gives(js, n, i, k, hash) && Precedes(n, i, m, j)
    && forall x: nat, y: nat, other: Digest :: Gives(js, x, y, k, other) && Precedes(x, y, m, j) ==>
         !Precedes(n, i, x, y)
  }

  ghost predicate NeverGiven(js: seq<Journal>, m: nat, j: nat, k: ResourceId) {
    forall x: nat, y: nat, other: Digest :: Gives(js, x, y, k, other) ==> !Precedes(x, y, m, j)
  }

  /** `value` is what `k` was last given before resource `j` of journal `m`, or what it had in
      `from` if it was given nothing. */
  ghost predicate ChainEndsIn(from: StateMap, js: seq<Journal>, m: nat, j: nat, k: ResourceId, value: Digest) {
    && (NeverGiven(js, m, j, k) ==> value == ValueIn(from, k))
    && (NeverGiven(js, m, j, k) || exists n: nat, i: nat, hash: Digest :: LastGiven(js, m, j, n, i, k, hash))
    && forall n: nat, i: nat, hash: Digest :: LastGiven(js, m, j, n, i, k, hash) ==> value == hash
  }

  /** The journals' state before resource `j` of journal `m` is handled. */
  ghost function StateAt(from: StateMap, js: seq<Journal>, m: nat, j: nat): StateMap
    requires m <= |js|
  {
    if m < |js| && js[m].execution.Some? then During(RunState(from, js[..m]), js[m], j) else RunState(from, js[..m])
  }

  /** How many resources of a journal can give a hash. */
  function Giving(j: Journal): nat {
    if j.Succeeds() then Min(|j.execution.value.resources|, |j.result.outputs|) else 0
  }

  lemma GivenLast(from: StateMap, js: seq<Journal>, m: nat, j: nat, k: ResourceId, hash: Digest)
    requires 0 < j && Gives(js, m, j - 1, k, hash)
    ensures ChainEndsIn(from, js, m, j, k, hash)
  {
    assert Precedes(m, j - 1, m, j);
    assert LastGiven(js, m, j, m, j - 1, k, hash);
    forall n: nat, i: nat, other: Digest | LastGiven(js, m, j, n, i, k, other) ensures other == hash {
      assert !Precedes(n, i, m, j - 1);
    }
  }

  lemma ValueWithin(from: StateMap, js: seq<Journal>, m: nat, i: nat, k: ResourceId)
    requires m < |js| && i < Giving(js[m])
    ensures forall hash :: Gives(js, m, i, k, hash) ==> ValueIn(StateAt(from, js, m, i + 1), k) == hash
    ensures (forall hash :: !Gives(js, m, i, k, hash)) ==>
              ValueIn(StateAt(from, js, m, i + 1), k) == ValueIn(StateAt(from, js, m, i), k)
  {
    hide RunState;
    var output := js[m].result.outputs[i];
    if output.Changed? && js[m].execution.value.resources[i].id == k {
      assert Gives(js, m, i, k, output.hash);
    }
  }

  lemma ChainWithin(from: StateMap, js: seq<Journal>, m: nat, j: nat, k: ResourceId)
    requires m < |js| && 0 < j <= Giving(js[m])
    requires ChainEndsIn(from, js, m, j - 1, k, ValueIn(StateAt(from, js, m, j - 1), k))
    ensures ChainEndsIn(from, js, m, j, k, ValueIn(StateAt(from, js, m, j), k))
  {
    hide StateAt;
    hide Gives;
    var i := j - 1;
    ValueWithin(from, js, m, i, k);
    if hash :| Gives(js, m, i, k, hash) {
      GivenLast(from, js, m, j, k, hash);
    } else {
      SameBefore(js, m, i, m, j, k);
    }
  }

  /** Nothing is given to `k` between the two places. */
  lemma SameBefore(js: seq<Journal>, m: nat, j: nat, x: nat, y: nat, k: ResourceId)
    requires forall n: nat, i: nat, hash: Digest :: Gives(js, n, i, k, hash) ==>
               (Precedes(n, i, m, j) <==> Precedes(n, i, x, y))
    ensures NeverGiven(js, m, j, k) <==> NeverGiven(js, x, y, k)
    ensures forall n: nat, i: nat, hash: Digest ::
              LastGiven(js, m, j, n, i, k, hash) <==> LastGiven(js, x, y, n, i, k, hash)
  {
    hide Gives;
    hide Precedes;
  }

  lemma StateBehind(from: StateMap, js: seq<Journal>, m: nat)
    requires 0 < m <= |js|
    ensures StateAt(from, js, m, 0) == StateAt(from, js, m - 1, Giving(js[m - 1]))
  {
    assert js[..m][..m - 1] == js[..m - 1];
  }

  lemma {:induction false} ChainDecides(from: StateMap, js: seq<Journal>, m: nat, j: nat, k: ResourceId)
    requires m <= |js| && (if m < |js| then j <= Giving(js[m]) else j == 0)
    ensures ChainEndsIn(from, js, m, j, k, ValueIn(StateAt(from, js, m, j), k))
    decreases m, j
  {
    hide StateAt;
    hide ChainEndsIn;
    if j > 0 {
      ChainDecides(from, js, m, j - 1, k);
      ChainWithin(from, js, m, j, k);
    } else if m > 0 {
      ChainDecides(from, js, m - 1, Giving(js[m - 1]), k);
      ChainOn(from, js, m, k);
    } else {
      ChainStarts(from, js, k);
    }
  }

  lemma ChainStarts(from: StateMap, js: seq<Journal>, k: ResourceId)
    ensures ChainEndsIn(from, js, 0, 0, k, ValueIn(StateAt(from, js, 0, 0), k))
  {
    assert js[..0] == [];
  }

  lemma ChainOn(from: StateMap, js: seq<Journal>, m: nat, k: ResourceId)
    requires 0 < m <= |js|
    requires ChainEndsIn(from, js, m - 1, Giving(js[m - 1]), k, ValueIn(StateAt(from, js, m - 1, Giving(js[m - 1])), k))
    ensures ChainEndsIn(from, js, m, 0, k, ValueIn(StateAt(from, js, m, 0), k))
  {
    hide StateAt;
    StateBehind(from, js, m);
    SameBefore(js, m - 1, Giving(js[m - 1]), m, 0, k);
  }

  /** After a run every resource has the value hash it was last given by a changed output of a
      successful executed transaction, or the one it had before. */
  lemma RunLeavesWhatWasLastGiven(from: StateMap, js: seq<Journal>, k: ResourceId)
    ensures ChainEndsIn(from, js, |js|, 0, k, ValueIn(RunState(from, js), k))
  {
    ChainDecides(from, js, |js|, 0, k);
    assert js[..|js|] == js;
  }

  /** In an honest run every input hash is the one its resource was last given before. */
  lemma InputsFollowTheChain(from: StateMap, keys: seq<ResourceId>, context: ContextHash, js: seq<Journal>, m: nat,
                             j: nat)
    requires HonestRun(from, keys, context, js) && m < |js| && js[m].execution.Some?
    requires j < |js[m].execution.value.resources|
    ensures var input := js[m].execution.value.resources[j];
            && input.index < |keys| && keys[input.index] == input.id
            && ChainEndsIn(from, js, m, j, input.id, input.hash)
  {
    hide RunState;
    hide ChainEndsIn;
    var input := js[m].execution.value.resources[j];
    assert JournalFits(RunState(from, js[..m]), keys, context, js[m]);
    assert InputMatches(During(RunState(from, js[..m]), js[m], j), keys, input);
    if js[m].result.Success? {
      ChainDecides(from, js, m, j, input.id);
    } else {
      ChainDecides(from, js, m, 0, input.id);
      FailureGivesNothing(from, js, m, j, input.id, input.hash);
    }
  }

  lemma FailureGivesNothing(from: StateMap, js: seq<Journal>, m: nat, j: nat, k: ResourceId, value: Digest)
    requires m < |js| && js[m].result.Failure? && ChainEndsIn(from, js, m, 0, k, value)
    ensures ChainEndsIn(from, js, m, j, k, value)
  {
    SameBefore(js, m, 0, m, j, k);
  }
}
