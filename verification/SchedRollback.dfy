/** Serial equivalence across a rollback. Rolling back cancels the batches above the target and
    empties the resource cache, so the transactions scheduled afterwards form a run of their own
    over what the disk then shows. */
module SchedRollback {
  import opened Options
  import opened SchedProgram
  import opened SchedMachine
  import opened SchedSafety
  import opened SchedInvariant
  import opened SchedTheorems

  /** The transactions of `q`, in batches numbered from `first` on. */
  function Renumbered(q: Program, first: nat): seq<Tx> {
    seq(|q.txs|, t requires 0 <= t < |q.txs| => Tx(first + q.txs[t].batch, q.txs[t].accesses))
  }

  /** The transactions of `pr` below batch `target` followed by those of `q`, as if nothing
      else had ever been scheduled. */
  function Resumed(pr: Program, target: nat, q: Program): (whole: Program)
    ensures |whole.txs| == FirstOf(pr, target) + |q.txs|
  {
    var kept := FirstOf(pr, target);
    Program(pr.txs[..kept] + Renumbered(q, target),
            (t: nat, inputs: seq<Value>) => if t < kept then pr.run(t, inputs) else q.run(t - kept, inputs),
            pr.initial)
  }

  // ---- Two programs that do the same from some transaction on ----

  /** Transaction `m` of one program is transaction `n` of the other. */
  ghost predicate SameTx(p: Program, m: nat, q: Program, n: nat) {
    && m < |p.txs| && n < |q.txs| && p.txs[m].accesses == q.txs[n].accesses
    && forall inputs :: p.run(m, inputs) == q.run(n, inputs)
  }

  lemma {:induction false} SameAccessTo(p: Program, m: nat, q: Program, n: nat, r: nat, from: nat)
    requires SameTx(p, m, q, n) && from <= |p.txs[m].accesses|
    ensures var a, b := AccessTo(p, m, r, from), AccessTo(q, n, r, from);
            a.Some? == b.Some? && (a.Some? ==> a.value.k == b.value.k)
    decreases |p.txs[m].accesses| - from
  {
    if from < |p.txs[m].accesses| {
      SameAccessTo(p, m, q, n, r, from + 1);
    }
  }

  /** Reading the same, the same transaction leaves the same. */
  lemma SameTxSameValue(p: Program, m: nat, q: Program, n: nat, r: nat)
    requires SameTx(p, m, q, n) && Serial(p, m, r) == Serial(q, n, r)
    requires SerialInputs(p, m) == SerialInputs(q, n)
    ensures Serial(p, m + 1, r) == Serial(q, n + 1, r)
  {
    SameAccessTo(p, m, q, n, r, 0);
  }

  lemma KeptIsSame(pr: Program, target: nat, q: Program, t: nat)
    requires t < FirstOf(pr, target)
    ensures SameTx(pr, t, Resumed(pr, target, q), t)
  {
  }

  lemma ResumedIsSame(pr: Program, target: nat, q: Program, t: nat)
    requires t < |q.txs|
    ensures SameTx(q, t, Resumed(pr, target, q), FirstOf(pr, target) + t)
  {
  }

  /** The kept transactions leave what they always left. */
  lemma {:induction false} KeptIsSerial(pr: Program, target: nat, q: Program, n: nat, r: nat)
    requires n <= FirstOf(pr, target)
    ensures Serial(pr, n, r) == Serial(Resumed(pr, target, q), n, r)
    decreases n
  {
    hide Find;
    if n > 0 {
      var whole := Resumed(pr, target, q);
      KeptIsSame(pr, target, q, n - 1);
      KeptIsSerial(pr, target, q, n - 1, r);
      var alone, within := SerialInputs(pr, n - 1), SerialInputs(whole, n - 1);
      forall k | 0 <= k < |alone| ensures alone[k] == within[k] {
        KeptIsSerial(pr, target, q, n - 1, pr.txs[n - 1].accesses[k].resource);
      }
      assert alone == within;
      SameTxSameValue(pr, n - 1, whole, n - 1, r);
    }
  }

  // ---- When the resumed transactions read serially ----

  ghost predicate Accessed(q: Program, r: nat) {
    exists a :: IsAccess(q, a) && ResourceOf(q, a) == r
  }

  /** The values the resumed transactions start on are those the kept ones left. */
  ghost predicate StartsOnTarget(pr: Program, target: nat, q: Program) {
    forall r :: Accessed(q, r) ==> q.initial(r) == Serial(pr, FirstOf(pr, target), r)
  }

  lemma {:induction false} ResumedIsSerial(pr: Program, target: nat, q: Program, n: nat, r: nat)
    requires StartsOnTarget(pr, target, q) && n <= |q.txs|
    requires q.initial(r) == Serial(pr, FirstOf(pr, target), r)
    ensures Serial(q, n, r) == Serial(Resumed(pr, target, q), FirstOf(pr, target) + n, r)
    decreases n
  {
    hide Resumed;
    hide Find;
    hide FirstOf;
    var whole, kept := Resumed(pr, target, q), FirstOf(pr, target);
    if n == 0 {
      KeptIsSerial(pr, target, q, kept, r);
    } else {
      ResumedIsSame(pr, target, q, n - 1);
      ResumedIsSerial(pr, target, q, n - 1, r);
      var alone, within := SerialInputs(q, n - 1), SerialInputs(whole, kept + n - 1);
      forall k | 0 <= k < |alone| ensures alone[k] == within[k] {
        var a := Id(n - 1, k);
        assert IsAccess(q, a) && Accessed(q, ResourceOf(q, a));
        ResumedIsSerial(pr, target, q, n - 1, ResourceOf(q, a));
      }
      assert alone == within;
      SameTxSameValue(q, n - 1, whole, kept + n - 1, r);
    }
  }

  /** The access reads what it would have read had everything run one by one without the
      rolled back batches. */
  ghost predicate ReadsAsResumed(pr: Program, target: nat, q: Program, a: Id)
    requires IsAccess(q, a)
  {
    SerialRead(q, a) == Serial(Resumed(pr, target, q), FirstOf(pr, target) + a.tx, ResourceOf(q, a))
  }

  /** The first access to a resource reads what the run starts on. */
  lemma FirstAccessDecides(pr: Program, target: nat, q: Program, a: Id)
    requires WellFormed(q) && IsAccess(q, a) && Prev(q, a).None? && ReadsAsResumed(pr, target, q, a)
    ensures q.initial(ResourceOf(q, a)) == Serial(pr, FirstOf(pr, target), ResourceOf(q, a))
  {
    hide Resumed;
    hide Serial;
    hide FirstOf;
    var whole, kept, r := Resumed(pr, target, q), FirstOf(pr, target), ResourceOf(q, a);
    ChainCarriesValues(q, a);
    LastIsLast(q, a.tx, r);
    forall t | kept <= t < kept + a.tx ensures Find(whole, t, r).None? {
      ResumedIsSame(pr, target, q, t - kept);
      SameAccessTo(q, t - kept, whole, t, r, 0);
      assert Find(q, t - kept, r).None?;
    }
    UntouchedKeepsValue(whole, kept, kept + a.tx, r);
    KeptIsSerial(pr, target, q, kept, r);
  }

  lemma {:induction false} AccessDecides(pr: Program, target: nat, q: Program, a: Id)
    requires WellFormed(q) && IsAccess(q, a)
    requires forall b :: IsAccess(q, b) ==> ReadsAsResumed(pr, target, q, b)
    ensures q.initial(ResourceOf(q, a)) == Serial(pr, FirstOf(pr, target), ResourceOf(q, a))
    decreases a.tx
  {
    hide Serial;
    hide ReadsAsResumed;
    if Prev(q, a).None? {
      FirstAccessDecides(pr, target, q, a);
    } else {
      AccessDecides(pr, target, q, Prev(q, a).value);
    }
  }

  /** The later transactions read serially across the rollback exactly when every resource
      they name starts on what the kept transactions left. */
  lemma ResumesSeriallyExactlyWhen(pr: Program, target: nat, q: Program)
    requires WellFormed(q)
    ensures (forall a :: IsAccess(q, a) ==> ReadsAsResumed(pr, target, q, a)) <==> StartsOnTarget(pr, target, q)
  {
    hide Serial;
    hide Resumed;
    hide FirstOf;
    if StartsOnTarget(pr, target, q) {
      forall a | IsAccess(q, a) ensures ReadsAsResumed(pr, target, q, a) {
        assert Accessed(q, ResourceOf(q, a));
        ResumedIsSerial(pr, target, q, a.tx, ResourceOf(q, a));
      }
    }
    if forall a :: IsAccess(q, a) ==> ReadsAsResumed(pr, target, q, a) {
      forall r | Accessed(q, r) ensures q.initial(r) == Serial(pr, FirstOf(pr, target), r) {
        var a :| IsAccess(q, a) && ResourceOf(q, a) == r;
        AccessDecides(pr, target, q, a);
      }
    }
  }

  // ---- Rolling back to a committed batch ----

  /** The later run starts on the state the disk shows for `target`. */
  ghost predicate ResumesFrom(pr: Program, s: State, target: nat, q: Program) {
    forall r: nat :: q.initial(r) == Latest(pr, s, r, target)
  }

  /** Everything read, written, executed on or committed after the rollback is as if the kept
      and the later transactions had run one by one. */
  ghost predicate SerialAcross(pr: Program, target: nat, q: Program, s: State) {
    var whole, kept := Resumed(pr, target, q), FirstOf(pr, target);
    && (forall a :: a in s.read ==> IsAccess(q, a) && s.read[a] == Serial(whole, kept + a.tx, ResourceOf(q, a)))
    && (forall a :: a in s.written ==>
          IsAccess(q, a) && s.written[a] == Serial(whole, kept + a.tx + 1, ResourceOf(q, a)))
    && (forall u :: u in s.available ==> u < |q.txs| && Inputs(q, s, u) == SerialInputs(whole, kept + u))
    && (forall r: nat :: Latest(q, s, r, s.committed) == Serial(whole, kept + FirstOf(q, s.committed), r))
  }

  lemma ResumesOnTarget(pr: Program, s: State, target: nat, q: Program, r: nat)
    requires Inv(pr, s) && target <= s.committed && ResumesFrom(pr, s, target, q)
    ensures q.initial(r) == Serial(pr, FirstOf(pr, target), r)
  {
    hide Inv;
    LatestIsSerial(pr, s, r, target);
  }

  lemma InputsResume(pr: Program, target: nat, q: Program, u: nat)
    requires u < |q.txs|
    requires forall r: nat :: q.initial(r) == Serial(pr, FirstOf(pr, target), r)
    ensures SerialInputs(q, u) == SerialInputs(Resumed(pr, target, q), FirstOf(pr, target) + u)
  {
    hide Serial;
    hide Resumed;
    hide FirstOf;
    ResumedIsSame(pr, target, q, u);
    var alone, within := SerialInputs(q, u), SerialInputs(Resumed(pr, target, q), FirstOf(pr, target) + u);
    forall k | 0 <= k < |alone| ensures alone[k] == within[k] {
      ResumedIsSerial(pr, target, q, u, q.txs[u].accesses[k].resource);
    }
  }

  lemma SerialValuesResume(pr: Program, target: nat, q: Program, s: State)
    requires WellFormed(q) && Serializable(q, s)
    requires forall r: nat :: q.initial(r) == Serial(pr, FirstOf(pr, target), r)
    ensures SerialAcross(pr, target, q, s)
  {
    hide Serial;
    hide SerialInputs;
    hide Latest;
    hide Resumed;
    hide FirstOf;
    hide Inputs;
    hide WellFormed;
    var whole, kept := Resumed(pr, target, q), FirstOf(pr, target);
    forall n: nat, r: nat | n <= |q.txs| ensures Serial(q, n, r) == Serial(whole, kept + n, r) {
      ResumedIsSerial(pr, target, q, n, r);
    }
    forall u | u in s.available ensures SerialInputs(q, u) == SerialInputs(whole, kept + u) {
      InputsResume(pr, target, q, u);
    }
  }

  /** After any run, rolling back to a batch that is committed and scheduling anything from
      there on is serially equivalent to never having scheduled what was rolled back. */
  lemma RollbackStaysSerial(pr: Program, states: seq<State>, events: seq<Event>, i: nat, target: nat,
                            q: Program, later: seq<State>, laterEvents: seq<Event>, j: nat)
    requires IsRun(pr, states, events) && i < |states| && target <= states[i].committed
    requires ResumesFrom(pr, states[i], target, q)
    requires IsRun(q, later, laterEvents) && j < |later|
    ensures SerialAcross(pr, target, q, later[j])
  {
    hide Inv;
    hide IsRun;
    hide Serial;
    hide Serializable;
    hide SerialAcross;
    RunKeepsInv(pr, states, events, i);
    forall r: nat ensures q.initial(r) == Serial(pr, FirstOf(pr, target), r) {
      ResumesOnTarget(pr, states[i], target, q, r);
    }
    RunIsWellFormed(q, later, laterEvents);
    SerialEquivalence(q, later, laterEvents, j);
    SerialValuesResume(pr, target, q, later[j]);
  }

  lemma RunIsWellFormed(pr: Program, states: seq<State>, events: seq<Event>)
    requires IsRun(pr, states, events)
    ensures WellFormed(pr)
  {
  }

  /** With the target still in flight the disk is at the last committed batch. The later
      transactions then read serially exactly if the batches in between left every resource
      they name as it was. */
  lemma InFlightTargetIsSerialExactlyWhen(pr: Program, states: seq<State>, events: seq<Event>, i: nat, target: nat,
                                          q: Program)
    requires IsRun(pr, states, events) && i < |states| && states[i].committed <= target && WellFormed(q)
    requires ResumesFrom(pr, states[i], states[i].committed, q)
    ensures (forall a :: IsAccess(q, a) ==> ReadsAsResumed(pr, target, q, a)) <==>
            forall r :: Accessed(q, r) ==>
              Serial(pr, FirstOf(pr, states[i].committed), r) == Serial(pr, FirstOf(pr, target), r)
  {
    hide Inv;
    hide IsRun;
    hide Serial;
    hide FirstOf;
    hide ReadsAsResumed;
    hide Accessed;
    var s := states[i];
    RunKeepsInv(pr, states, events, i);
    forall r: nat ensures q.initial(r) == Serial(pr, FirstOf(pr, s.committed), r) {
      ResumesOnTarget(pr, s, s.committed, q, r);
    }
    ResumesSeriallyExactlyWhen(pr, target, q);
  }

  lemma TwoBatchesScheduled(pr: Program) returns (states: seq<State>, events: seq<Event>)
    requires WellFormed(pr) && |pr.txs| == 2 && pr.txs[0].batch == 0 && pr.txs[1].batch == 1
    ensures IsRun(pr, states, events) && |states| == 3 && Scheduled(states[2]) == 2 && states[2].committed == 0
  {
    hide AccessesOf;
    hide FreeTxs;
    hide Evictable;
    hide Processed;
    var one := Apply(pr, Start(pr), Schedule({}));
    events, states := [Schedule({}), Schedule({})], [Start(pr), one, Apply(pr, one, Schedule({}))];
    assert pr.txs[0].batch >= Scheduled(Start(pr)) && pr.txs[1].batch >= Scheduled(one);
  }

  lemma FirstTxDecides(pr: Program, v: Value)
    requires pr.txs != [] && pr.txs[0].accesses == [Access(0, true)] && forall inputs :: pr.run(0, inputs) == Some([v])
    ensures Serial(pr, 1, 0) == v
  {
    assert Find(pr, 0, 0) == Some(Id(0, 0));
  }

  /** The other case arises: two batches are scheduled, neither is committed, and the second
      is rolled back. The cache is emptied, and a later transaction reads the state before the
      first batch. */
  lemma InFlightTargetIsMissed()
    returns (pr: Program, states: seq<State>, events: seq<Event>, q: Program)
    ensures IsRun(pr, states, events) && |states| == 3 && Scheduled(states[2]) == 2 && states[2].committed == 0
    ensures ResumesFrom(pr, states[2], states[2].committed, q)
    ensures WellFormed(q) && IsAccess(q, Id(0, 0)) && !ReadsAsResumed(pr, 1, q, Id(0, 0))
  {
    hide IsRun;
    hide Resumed;
    var nothing, something := Value(0, ""), Value(1, "x");
    pr := Program([Tx(0, [Access(0, true)]), Tx(1, [])], (t: nat, inputs: seq<Value>) => Some([something]),
                  (r: nat) => nothing);
    q := pr.(txs := [Tx(0, [Access(0, true)])]);
    states, events := TwoBatchesScheduled(pr);
    FirstTxDecides(pr, something);
    assert FirstOf(pr, 1) == 1;
    KeptIsSerial(pr, 1, q, 1, 0);
    hide FirstOf;
    hide SerialInputs;
    hide Find;
  }
}
