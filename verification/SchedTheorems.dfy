/** What holds in every run of the scheduler's access chains. */
module SchedTheorems {
  import opened SchedProgram
  import opened SchedMachine
  import opened SchedSafety
  import opened SchedInvariant
  import opened SchedRuns

  /** The event names things that exist. */
  ghost predicate Known(pr: Program, s: State, e: Event) {
    && |s.pending| == |pr.txs|
    && (e.Do? ==> IsAccess(pr, e.task.a))
    && (e.Execute? ==> e.tx < |pr.txs|)
  }

  ghost predicate Next(pr: Program, s: State, e: Event, t: State) {
    Known(pr, s, e) && Enabled(pr, s, e) && t == Apply(pr, s, e)
  }

  /** A run: any interleaving of hand-off steps, executions, schedulings and commits. */
  ghost predicate IsRun(pr: Program, states: seq<State>, events: seq<Event>) {
    && WellFormed(pr) && |states| == |events| + 1 && states[0] == Start(pr)
    && forall i :: 0 <= i < |events| ==> Next(pr, states[i], events[i], states[i + 1])
  }

  lemma EnabledIsKnown(pr: Program, s: State, e: Event)
    requires Inv(pr, s) && Enabled(pr, s, e)
    ensures Known(pr, s, e)
  {
    hide Inv;
    hide Evictable;
    hide Processed;
    hide AccessInv;
    InvShape(pr, s);
    if e.Do? {
      AtTask(pr, s, e.task);
    }
  }

  lemma StepKeepsInv(pr: Program, s: State, e: Event, t: State)
    requires Inv(pr, s) && Next(pr, s, e, t)
    ensures Inv(pr, t)
  {
    hide Inv;
    hide Evictable;
    hide Processed;
    hide Perform;
    match e
    case Do(task) => PerformKeepsInv(pr, s, task);
    case Execute(u) => ExecuteKeepsInv(pr, s, u);
    case Schedule(evicted) => ScheduleKeepsInv(pr, s, evicted);
    case Commit => CommitKeepsInv(pr, s);
  }

  lemma {:induction false} RunKeepsInv(pr: Program, states: seq<State>, events: seq<Event>, i: nat)
    requires IsRun(pr, states, events) && i < |states|
    ensures Inv(pr, states[i])
  {
    hide Inv;
    hide Next;
    if i == 0 {
      StartInv(pr);
    } else {
      RunKeepsInv(pr, states, events, i - 1);
      StepKeepsInv(pr, states[i - 1], events[i - 1], states[i]);
    }
  }

  // ---- Serial equivalence ----

  /** Everything read, written, recorded, committed or about to be executed is as if the
      transactions had run one by one in schedule order, failed ones having no effect. */
  ghost predicate Serializable(pr: Program, s: State) {
    && (forall a :: a in s.read ==> IsAccess(pr, a) && s.read[a] == SerialRead(pr, a))
    && (forall a :: a in s.written ==> IsAccess(pr, a) && s.written[a] == SerialWritten(pr, a))
    && (forall u :: u in s.available ==> u < |pr.txs| && Inputs(pr, s, u) == SerialInputs(pr, u))
    && (forall r: nat :: Latest(pr, s, r, s.committed) == Serial(pr, FirstOf(pr, s.committed), r))
  }

  lemma SerialEquivalence(pr: Program, states: seq<State>, events: seq<Event>, i: nat)
    requires IsRun(pr, states, events) && i < |states|
    ensures Serializable(pr, states[i])
  {
    hide Inv;
    hide IsRun;
    hide Serial;
    hide Latest;
    var s := states[i];
    RunKeepsInv(pr, states, events, i);
    forall a | a in s.read ensures IsAccess(pr, a) && s.read[a] == SerialRead(pr, a) {
      ReadIsSerial(pr, s, a);
    }
    forall a | a in s.written ensures IsAccess(pr, a) && s.written[a] == SerialWritten(pr, a) {
      WrittenIsSerial(pr, s, a);
    }
    forall u | u in s.available ensures u < |pr.txs| && Inputs(pr, s, u) == SerialInputs(pr, u) {
      AvailableReadsSerially(pr, s, u);
    }
    forall r: nat ensures Latest(pr, s, r, s.committed) == Serial(pr, FirstOf(pr, s.committed), r) {
      LatestIsSerial(pr, s, r, s.committed);
    }
  }

  /** A transaction that has run found serial values in all its handles. */
  lemma ExecutedReadsSerially(pr: Program, s: State, u: nat)
    requires Inv(pr, s) && u in s.executed
    ensures u < |pr.txs| && Inputs(pr, s, u) == SerialInputs(pr, u)
  {
    InvShape(pr, s);
    assert u < |pr.txs|;
    hide Inv;
    hide Serial;
    hide Open;
    AtTx(pr, s, u);
    forall k | 0 <= k < |pr.txs[u].accesses| ensures ReadOf(pr, s, Id(u, k)) == SerialRead(pr, Id(u, k)) {
      ClosedMeansCounted(pr, s, u, |pr.txs[u].accesses|, k);
      ReadIsSerial(pr, s, Id(u, k));
    }
  }

  /** In every state of every run a read access hands on what it read; a write access hands on
      what it read if its transaction, run on what its handles hold, fails, and its output if
      the transaction succeeds. */
  lemma HandsOnReadOrOutput(pr: Program, states: seq<State>, events: seq<Event>, i: nat, a: Id)
    requires IsRun(pr, states, events) && i < |states| && a in states[i].written
    ensures a in states[i].read && IsAccess(pr, a) && (Writes(pr, a) ==> a.tx in states[i].executed)
    ensures !Writes(pr, a) ==> states[i].written[a] == states[i].read[a]
    ensures Writes(pr, a) ==>
              var s, out := states[i], pr.run(a.tx, Inputs(pr, states[i], a.tx));
              s.written[a] == if out.Some? && a.k < |out.value| then out.value[a.k] else s.read[a]
  {
    hide Inv;
    hide IsRun;
    hide Serial;
    hide SerialInputs;
    hide ReadStage;
    hide DiffStage;
    hide NextStage;
    hide EvictStage;
    hide TxInv;
    var s := states[i];
    RunKeepsInv(pr, states, events, i);
    WrittenIsSerial(pr, s, a);
    AtAccess(pr, s, a);
    AccessIsBorn(pr, s, a);
    ReadIsSerial(pr, s, a);
    WrittenIsResult(pr, a);
    if Writes(pr, a) {
      ExecutedReadsSerially(pr, s, a.tx);
      var out := pr.run(a.tx, SerialInputs(pr, a.tx));
      if out.None? {
        FailureChangesNothing(pr, a.tx, ResourceOf(pr, a));
      } else {
        SuccessLeavesItsOutputs(pr, a.tx, out.value, ResourceOf(pr, a));
        OnlyOneGives(pr, a, out.value);
      }
    }
  }

  lemma AccessIsBorn(pr: Program, s: State, a: Id)
    requires IsAccess(pr, a) && AccessInv(pr, s, a) && a in s.written
    ensures BatchOf(pr, a) < Scheduled(s)
  {
  }

  lemma OnlyOneGives(pr: Program, a: Id, out: seq<Value>)
    requires WellFormed(pr) && IsAccess(pr, a) && Writes(pr, a)
    ensures forall k: nat :: Gives(pr, a.tx, out, k, ResourceOf(pr, a)) <==> k == a.k < |out|
  {
    forall k: nat | Gives(pr, a.tx, out, k, ResourceOf(pr, a)) ensures k == a.k {
      FindIsUnique(pr, a);
      FindIsUnique(pr, Id(a.tx, k));
    }
  }

  // ---- Exactly once ----

  /** A transaction that is being offered was neither offered nor executed before. */
  lemma OffersOnce(pr: Program, s: State, task: Task)
    requires Inv(pr, s) && task in s.tasks && Known(pr, s, Do(task))
    requires task.Finish? && s.pending[task.a.tx] == 1
    ensures task.a.tx !in s.available && task.a.tx !in s.executed
    ensures task.a.tx in Perform(pr, s, task).available
  {
    hide Inv;
    hide Open;
    AtTx(pr, s, task.a.tx);
  }

  lemma ExecutedStays(pr: Program, s: State, e: Event, t: State, u: nat)
    requires Inv(pr, s) && Next(pr, s, e, t) && u in s.executed
    ensures u in t.executed
  {
    hide Inv;
    hide Perform;
    if e.Do? {
      PerformCounters(pr, s, e.task);
    }
  }

  lemma {:induction false} ExecutedSince(pr: Program, states: seq<State>, events: seq<Event>, i: nat, j: nat, u: nat)
    requires IsRun(pr, states, events) && i <= j < |states| && u in states[i].executed
    ensures u in states[j].executed
    decreases j
  {
    hide Inv;
    hide Next;
    if i < j {
      ExecutedSince(pr, states, events, i, j - 1, u);
      RunKeepsInv(pr, states, events, j - 1);
      ExecutedStays(pr, states[j - 1], events[j - 1], states[j], u);
    }
  }

  /** No transaction runs twice. */
  lemma ExecutesOnce(pr: Program, states: seq<State>, events: seq<Event>, i: nat, j: nat, u: nat)
    requires IsRun(pr, states, events) && i < j < |events| && events[i] == Execute(u)
    ensures events[j] != Execute(u)
  {
    hide Inv;
    hide Serial;
    assert Next(pr, states[i], events[i], states[i + 1]) && Next(pr, states[j], events[j], states[j + 1]);
    ExecutedSince(pr, states, events, i + 1, j, u);
    RunKeepsInv(pr, states, events, j);
    if u in states[j].available {
      AvailableReadsSerially(pr, states[j], u);
    }
  }

  /** Once set, a read or written state never changes. */
  lemma SlotsAreSetOnce(pr: Program, s: State, e: Event, t: State)
    requires Inv(pr, s) && Next(pr, s, e, t)
    ensures KeepsSlots(s, t)
  {
    hide Inv;
    hide Perform;
    hide Tail;
    hide Link;
    hide Outputs;
    if e.Do? {
      PerformAdds(pr, s, e.task);
    }
  }

  // ---- Submitted diffs ----

  /** If the last access of a batch to a resource has written, the first one was recorded. */
  lemma {:induction false} WrittenMeansHeadNoted(pr: Program, s: State, a: Id) returns (h: Id)
    requires Inv(pr, s) && a in s.written
    ensures IsAccess(pr, a) && IsAccess(pr, h) && Head(pr, h) && Noted(pr, s, h)
    ensures BatchOf(pr, h) == BatchOf(pr, a) && ResourceOf(pr, h) == ResourceOf(pr, a)
    decreases a.tx
  {
    hide Inv;
    hide Serial;
    hide DiffStage;
    hide EvictStage;
    InvShape(pr, s);
    AtAccess(pr, s, a);
    if Head(pr, a) {
      h := a;
    } else {
      h := WrittenMeansHeadNoted(pr, s, Prev(pr, a).value);
    }
  }

  /** A diff submitted for writing has both its states. */
  lemma SubmittedDiffsAreComplete(pr: Program, states: seq<State>, events: seq<Event>, i: nat, b: nat, r: nat)
    requires IsRun(pr, states, events) && i < |states| && (b, r) in states[i].diffWritten
    ensures (b, r) in states[i].diffRead
  {
    hide Inv;
    hide IsRun;
    hide Serial;
    hide Tail;
    hide ReadStage;
    hide WriteStage;
    hide NextStage;
    hide EvictStage;
    hide TxInv;
    RunKeepsInv(pr, states, events, i);
    var s := states[i];
    var a := DiffHasTail(pr, s, b, r);
    AtDiff(pr, s, b, r);
    AtAccess(pr, s, a);
    var h := WrittenMeansHeadNoted(pr, s, a);
    AtAccess(pr, s, h);
  }

  // ---- Progress ----

  /** No thread can take a step. */
  ghost predicate Stuck(s: State) {
    s.tasks == {} && s.available == {}
  }

  lemma ExecutedHasWritten(pr: Program, s: State, a: Id)
    requires Inv(pr, s) && s.tasks == {} && IsAccess(pr, a) && a.tx in s.executed
    ensures a in s.read && a in s.written
  {
    hide Inv;
    hide Serial;
    hide Open;
    hide DiffStage;
    hide NextStage;
    hide EvictStage;
    hide ReadStage;
    AtAccess(pr, s, a);
    ClosedMeansCounted(pr, s, a.tx, |pr.txs[a.tx].accesses|, a.k);
  }

  lemma PredecessorsDeliver(pr: Program, s: State, a: Id)
    requires Inv(pr, s) && s.tasks == {} && IsAccess(pr, a) && BatchOf(pr, a) < Scheduled(s)
    requires Link(pr, s, a).Some? ==> Link(pr, s, a).value in s.written
    ensures Counted(pr, s, a)
  {
    hide Inv;
    hide Serial;
    hide DiffStage;
    hide NextStage;
    hide EvictStage;
    hide WriteStage;
    AtAccess(pr, s, a);
  }

  lemma {:induction false} AllCounted(pr: Program, s: State, u: nat, n: nat)
    requires u < |pr.txs| && n <= |pr.txs[u].accesses|
    requires forall k :: 0 <= k < n ==> Counted(pr, s, Id(u, k))
    ensures Open(pr, s, u, n) == 0
  {
    if n > 0 {
      AllCounted(pr, s, u, n - 1);
    }
  }

  /** When nothing moves, every scheduled transaction has run. */
  lemma {:induction false} StuckMeansExecuted(pr: Program, s: State, u: nat)
    requires Inv(pr, s) && Stuck(s) && u < |pr.txs| && pr.txs[u].batch < Scheduled(s)
    ensures u in s.executed
    decreases u
  {
    hide Inv;
    hide Serial;
    hide Counted;
    hide Open;
    AtTx(pr, s, u);
    forall k | 0 <= k < |pr.txs[u].accesses| ensures Counted(pr, s, Id(u, k)) {
      var a := Id(u, k);
      if Link(pr, s, a).Some? {
        AtLink(pr, s, a);
        StuckMeansExecuted(pr, s, Link(pr, s, a).value.tx);
        ExecutedHasWritten(pr, s, Link(pr, s, a).value);
      }
      PredecessorsDeliver(pr, s, a);
    }
    AllCounted(pr, s, u, |pr.txs[u].accesses|);
  }

  /** While a scheduled transaction has not run, some thread can take a step. */
  lemma Progress(pr: Program, states: seq<State>, events: seq<Event>, i: nat, u: nat)
    requires IsRun(pr, states, events) && i < |states|
    requires u < |pr.txs| && pr.txs[u].batch < Scheduled(states[i]) && u !in states[i].executed
    ensures exists e: Event :: (e.Do? || e.Execute?) && Known(pr, states[i], e) && Enabled(pr, states[i], e)
  {
    hide Inv;
    hide IsRun;
    var s := states[i];
    RunKeepsInv(pr, states, events, i);
    assert !Stuck(s) by {
      if Stuck(s) {
        StuckMeansExecuted(pr, s, u);
      }
    }
    if s.tasks != {} {
      var task :| task in s.tasks;
      EnabledIsKnown(pr, s, Do(task));
    } else {
      var x :| x in s.available;
      EnabledIsKnown(pr, s, Execute(x));
    }
  }

  /** When nothing moves, every scheduled access is done with its serial values, and the
      next batch can be committed. */
  lemma Settled(pr: Program, s: State)
    requires Inv(pr, s) && Stuck(s)
    ensures forall u :: 0 <= u < |pr.txs| && pr.txs[u].batch < Scheduled(s) ==> u in s.executed
    ensures forall a :: IsAccess(pr, a) && BatchOf(pr, a) < Scheduled(s) ==> a in s.read && a in s.written
    ensures s.committed < Scheduled(s) ==> Enabled(pr, s, Commit)
    ensures s.committed == Scheduled(s) && (exists u :: 0 <= u < |pr.txs| && pr.txs[u].batch >= Scheduled(s)) ==>
              forall evicted :: Enabled(pr, s, Schedule(evicted))
  {
    hide Inv;
    hide Serial;
    hide Tail;
    hide AccessInv;
    forall u | 0 <= u < |pr.txs| && pr.txs[u].batch < Scheduled(s) ensures u in s.executed {
      StuckMeansExecuted(pr, s, u);
    }
    forall a | IsAccess(pr, a) && BatchOf(pr, a) < Scheduled(s) ensures a in s.read && a in s.written {
      ExecutedHasWritten(pr, s, a);
    }
    forall a | IsAccess(pr, a) && BatchOf(pr, a) < Scheduled(s) && Tail(pr, a)
      ensures (BatchOf(pr, a), ResourceOf(pr, a)) in s.diffWritten
    {
      TailIsSubmitted(pr, s, a);
    }
  }

  lemma TailIsSubmitted(pr: Program, s: State, a: Id)
    requires Inv(pr, s) && s.tasks == {} && IsAccess(pr, a) && BatchOf(pr, a) < Scheduled(s) && Tail(pr, a) &&
             a in s.written
    ensures (BatchOf(pr, a), ResourceOf(pr, a)) in s.diffWritten
  {
    hide Inv;
    hide Serial;
    hide Tail;
    hide Head;
    hide ReadStage;
    hide WriteStage;
    AtAccess(pr, s, a);
  }
}
