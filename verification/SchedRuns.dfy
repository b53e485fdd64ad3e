/** Every event keeps the scheduler's invariant. */
module SchedRuns {
  import opened SchedProgram
  import opened SchedMachine
  import opened SchedSafety
  import opened SchedSteps
  import opened SchedInvariant

  // ---- Tasks after a step ----

  /** Tasks of `t` that are not in `s`. */
  ghost function New(s: State, t: State): set<Task> {
    t.tasks - s.tasks
  }

  lemma ConnectTasks(pr: Program, s: State, a: Id)
    requires IsAccess(pr, a)
    ensures New(s, DoConnect(pr, s, a)) <= {Check(a), DiskRead(a)}
  {
    hide Link;
  }

  lemma CheckTasks(pr: Program, s: State, a: Id)
    requires IsAccess(pr, a)
    ensures forall n :: n in New(s, DoCheck(pr, s, a)) ==>
              var p := Link(pr, s, a); p.Some? && p.value in s.written && n == SetRead(a, s.written[p.value], true)
  {
    hide Link;
  }

  lemma DiskReadTasks(pr: Program, s: State, a: Id)
    requires IsAccess(pr, a)
    ensures New(s, DoDiskRead(pr, s, a)) <= {SetRead(a, Latest(pr, s, ResourceOf(pr, a), s.committed), true)}
  {
    hide Latest;
  }

  lemma SetReadTasks(s: State, a: Id, v: Value, direct: bool)
    ensures New(s, DoSetRead(s, a, v, direct)) <= {NoteRead(a, v)}
  {
  }

  lemma NoteReadTasks(pr: Program, s: State, a: Id, v: Value)
    requires IsAccess(pr, a)
    ensures forall n :: n in New(s, DoNoteRead(pr, s, a, v)) ==>
              n == Finish(a) || (!Writes(pr, a) && n == SetWritten(a, v))
  {
    hide Head;
  }

  lemma FinishTasks(s: State, a: Id)
    requires a.tx < |s.pending|
    ensures New(s, DoFinish(s, a)) == {}
  {
  }

  lemma SetWrittenTasks(s: State, a: Id, v: Value)
    ensures New(s, DoSetWritten(s, a, v)) <= {NoteWritten(a, v)}
  {
  }

  lemma NoteWrittenTasks(pr: Program, s: State, a: Id, v: Value)
    requires IsAccess(pr, a)
    ensures New(s, DoNoteWritten(pr, s, a, v)) <= {HandOver(a, v)}
  {
    hide Tail;
  }

  lemma HandOverTasks(s: State, a: Id, v: Value)
    ensures forall n :: n in New(s, DoHandOver(s, a, v)) ==> a in s.next && n == SetRead(s.next[a], v, false)
  {
  }

  /** A new task belongs to a scheduled access and carries its serial value. */
  lemma NewTaskIsSerial(pr: Program, s: State, task: Task, n: Task)
    requires Inv(pr, s) && task in s.tasks && IsAccess(pr, task.a) && |s.pending| == |pr.txs|
    requires n in New(s, Perform(pr, s, task))
    ensures TaskInv(pr, s, n)
  {
    hide Inv;
    hide AccessInv;
    hide Serial;
    hide Latest;
    hide Link;
    hide New;
    hide DoConnect;
    hide DoCheck;
    hide DoDiskRead;
    hide DoSetRead;
    hide DoNoteRead;
    hide DoFinish;
    hide DoSetWritten;
    hide DoNoteWritten;
    hide DoHandOver;
    AtTask(pr, s, task);
    match task
    case Connect(a) => ConnectTasks(pr, s, a);
    case Check(a) => CheckTasks(pr, s, a); LinkCarries(pr, s, a);
    case DiskRead(a) => DiskReadTasks(pr, s, a); DiskHoldsTheSerialValue(pr, s, a);
    case SetRead(a, v, direct) => SetReadTasks(s, a, v, direct);
    case NoteRead(a, v) => NoteReadTasks(pr, s, a, v); WrittenIsResult(pr, a);
    case Finish(a) => FinishTasks(s, a);
    case SetWritten(a, v) => SetWrittenTasks(s, a, v);
    case NoteWritten(a, v) => NoteWrittenTasks(pr, s, a, v);
    case HandOver(a, v) => HandOverTasks(s, a, v); NextCarries(pr, s, a);
  }

  /** What the predecessor wrote is what the access reads. */
  lemma LinkCarries(pr: Program, s: State, a: Id)
    requires Inv(pr, s) && IsAccess(pr, a)
    ensures var p := Link(pr, s, a); p.Some? && p.value in s.written ==> s.written[p.value] == SerialRead(pr, a)
  {
    hide Inv;
    hide Serial;
    hide Link;
    var p := Link(pr, s, a);
    AtAccess(pr, s, a);
    if p.Some? && p.value in s.written {
      AtLink(pr, s, a);
      ChainCarriesValues(pr, a);
      WrittenIsSerial(pr, s, p.value);
    }
  }

  lemma WrittenIsSerial(pr: Program, s: State, a: Id)
    requires Inv(pr, s) && a in s.written
    ensures IsAccess(pr, a) && s.written[a] == SerialWritten(pr, a)
  {
    assert AccessInv(pr, s, a);
  }

  lemma ReadIsSerial(pr: Program, s: State, a: Id)
    requires Inv(pr, s) && a in s.read
    ensures IsAccess(pr, a) && s.read[a] == SerialRead(pr, a)
  {
    assert AccessInv(pr, s, a);
  }

  lemma NextCarries(pr: Program, s: State, a: Id)
    requires Inv(pr, s) && IsAccess(pr, a) && a in s.next
    ensures IsAccess(pr, s.next[a]) && BatchOf(pr, s.next[a]) < Scheduled(s)
    ensures SerialRead(pr, s.next[a]) == SerialWritten(pr, a)
  {
    hide Inv;
    hide Serial;
    hide Link;
    AtNext(pr, s, a);
    AtAccess(pr, s, a);
    AtLink(pr, s, s.next[a]);
    ChainCarriesValues(pr, s.next[a]);
  }

  // ---- Slots and diffs after a step ----

  /** Which slots and diffs a step on `a` may add. */
  ghost predicate Adds(pr: Program, s: State, t: State, a: Id)
    requires IsAccess(pr, a)
  {
    var d := (BatchOf(pr, a), ResourceOf(pr, a));
    && KeepsSlots(s, t)
    && t.read.Keys <= s.read.Keys + {a} && t.written.Keys <= s.written.Keys + {a}
    && t.next.Keys <= s.next.Keys + (if Link(pr, s, a).Some? then {Link(pr, s, a).value} else {})
    && t.diffRead.Keys <= s.diffRead.Keys + {d}
    && s.diffWritten.Keys <= t.diffWritten.Keys <= s.diffWritten.Keys + (if Tail(pr, a) then {d} else {})
  }

  /** Once set, a read or written state stays. */
  ghost predicate KeepsSlots(s: State, t: State) {
    && (forall a :: a in s.read ==> a in t.read && t.read[a] == s.read[a])
    && (forall a :: a in s.written ==> a in t.written && t.written[a] == s.written[a])
  }

  lemma PerformAdds(pr: Program, s: State, task: Task)
    requires IsAccess(pr, task.a) && |s.pending| == |pr.txs|
    ensures Adds(pr, s, Perform(pr, s, task), task.a)
  {
    hide DoConnect;
    hide DoCheck;
    hide DoDiskRead;
    hide DoSetRead;
    hide DoNoteRead;
    hide DoFinish;
    hide DoSetWritten;
    hide DoNoteWritten;
    hide DoHandOver;
    hide Adds;
    match task
    case Connect(a) => ConnectAdds(pr, s, a);
    case Check(a) => CheckAdds(pr, s, a);
    case DiskRead(a) => DiskReadAdds(pr, s, a);
    case SetRead(a, v, direct) => SetReadAdds(pr, s, a, v, direct);
    case NoteRead(a, v) => NoteReadAdds(pr, s, a, v);
    case Finish(a) => FinishAdds(pr, s, a);
    case SetWritten(a, v) => SetWrittenAdds(pr, s, a, v);
    case NoteWritten(a, v) => NoteWrittenAdds(pr, s, a, v);
    case HandOver(a, v) => HandOverAdds(pr, s, a, v);
  }

  lemma CheckAdds(pr: Program, s: State, a: Id)
    requires IsAccess(pr, a)
    ensures Adds(pr, s, DoCheck(pr, s, a), a)
  {
    hide Link;
    hide Tail;
    hide Latest;
    hide BatchOf;
    hide ResourceOf;
  }

  lemma DiskReadAdds(pr: Program, s: State, a: Id)
    requires IsAccess(pr, a)
    ensures Adds(pr, s, DoDiskRead(pr, s, a), a)
  {
    hide Link;
    hide Tail;
    hide Latest;
    hide BatchOf;
    hide ResourceOf;
  }

  lemma FinishAdds(pr: Program, s: State, a: Id)
    requires IsAccess(pr, a) && |s.pending| == |pr.txs|
    ensures Adds(pr, s, DoFinish(s, a), a)
  {
    hide Link;
    hide Tail;
    hide Latest;
    hide BatchOf;
    hide ResourceOf;
  }

  lemma ConnectAdds(pr: Program, s: State, a: Id)
    requires IsAccess(pr, a)
    ensures Adds(pr, s, DoConnect(pr, s, a), a)
  {
    hide Link;
    hide Tail;
    hide Head;
    hide BatchOf;
    hide ResourceOf;
  }

  lemma SetReadAdds(pr: Program, s: State, a: Id, v: Value, direct: bool)
    requires IsAccess(pr, a)
    ensures Adds(pr, s, DoSetRead(s, a, v, direct), a)
  {
    hide Link;
    hide Tail;
    hide Head;
    hide BatchOf;
    hide ResourceOf;
  }

  lemma NoteReadAdds(pr: Program, s: State, a: Id, v: Value)
    requires IsAccess(pr, a)
    ensures Adds(pr, s, DoNoteRead(pr, s, a, v), a)
  {
    hide Link;
    hide Tail;
    hide Head;
    hide BatchOf;
    hide ResourceOf;
  }

  lemma SetWrittenAdds(pr: Program, s: State, a: Id, v: Value)
    requires IsAccess(pr, a)
    ensures Adds(pr, s, DoSetWritten(s, a, v), a)
  {
    hide Link;
    hide Tail;
    hide Head;
    hide BatchOf;
    hide ResourceOf;
  }

  lemma NoteWrittenAdds(pr: Program, s: State, a: Id, v: Value)
    requires IsAccess(pr, a)
    ensures Adds(pr, s, DoNoteWritten(pr, s, a, v), a)
  {
    hide Link;
    hide Tail;
    hide Head;
    hide BatchOf;
    hide ResourceOf;
  }

  lemma HandOverAdds(pr: Program, s: State, a: Id, v: Value)
    requires IsAccess(pr, a)
    ensures Adds(pr, s, DoHandOver(s, a, v), a)
  {
    hide Link;
    hide Tail;
    hide Head;
    hide BatchOf;
    hide ResourceOf;
  }

  // ---- The invariant, event by event ----

  /** The parts of the invariant that speak of keys only. */
  ghost predicate KeysKnown(pr: Program, s: State) {
    && (forall t :: t in s.available || t in s.executed ==> t < |pr.txs|)
    && (forall a :: a in s.read || a in s.written || a in s.next ==> IsAccess(pr, a))
  }

  lemma InvParts(pr: Program, s: State)
    requires WellFormed(pr) && |s.pending| == |pr.txs| && CommitInv(pr, s) && KeysKnown(pr, s)
    requires forall a :: IsAccess(pr, a) ==> AccessInv(pr, s, a)
    requires forall task :: task in s.tasks ==> TaskInv(pr, s, task)
    requires forall t :: 0 <= t < |pr.txs| ==> TxInv(pr, s, t)
    ensures Inv(pr, s)
  {
    hide AccessInv;
    hide TaskInv;
    hide TxInv;
    hide CommitInv;
    hide WellFormed;
  }

  lemma InvShape(pr: Program, s: State)
    requires Inv(pr, s)
    ensures WellFormed(pr) && |s.pending| == |pr.txs| && CommitInv(pr, s) && KeysKnown(pr, s)
    ensures forall t: nat :: t in s.available || t in s.executed ==> t < |pr.txs|
  {
    hide AccessInv;
    hide TaskInv;
    hide TxInv;
    hide CommitInv;
    hide WellFormed;
  }

  lemma PerformKeepsShape(pr: Program, s: State, task: Task)
    requires Inv(pr, s) && task in s.tasks && IsAccess(pr, task.a) && |s.pending| == |pr.txs|
    ensures CommitInv(pr, Perform(pr, s, task)) && KeysKnown(pr, Perform(pr, s, task))
  {
    hide Inv;
    hide Perform;
    hide Tail;
    hide Head;
    hide AccessInv;
    hide TaskInv;
    hide TxInv;
    hide Link;
    InvShape(pr, s);
    AtTask(pr, s, task);
    PerformCounters(pr, s, task);
    PerformAdds(pr, s, task);
    AtTx(pr, s, task.a.tx);
    if Link(pr, s, task.a).Some? {
      AtLink(pr, s, task.a);
    }
    FinishIsOpen(pr, s, task);
    CommitInvKept(pr, s, Perform(pr, s, task), task.a);
  }

  lemma ProcessedIsKept(pr: Program, s: State, t: State, b: nat)
    requires Processed(pr, s, b) && s.executed <= t.executed && s.diffWritten.Keys <= t.diffWritten.Keys
    ensures Processed(pr, t, b)
  {
    hide Tail;
    forall a | IsAccess(pr, a) && BatchOf(pr, a) == b && Tail(pr, a)
      ensures (b, ResourceOf(pr, a)) in t.diffWritten
    {
      assert (b, ResourceOf(pr, a)) in s.diffWritten.Keys;
    }
  }

  lemma CommitInvKept(pr: Program, s: State, t: State, a: Id)
    requires IsAccess(pr, a) && CommitInv(pr, s) && Adds(pr, s, t, a) && BatchOf(pr, a) < Scheduled(s)
    requires s.executed <= t.executed && s.evictions == t.evictions && s.committed == t.committed
    ensures CommitInv(pr, t)
  {
    hide Tail;
    hide Link;
    hide Processed;
    forall b: nat | b < t.committed ensures Processed(pr, t, b) {
      ProcessedIsKept(pr, s, t, b);
    }
    forall b: nat, r: nat | (b, r) in t.diffRead ensures b < Scheduled(t) {
      assert (b, r) in t.diffRead.Keys;
    }
    if Tail(pr, a) {
      OwnTail(pr, a);
    }
    forall b: nat, r: nat | (b, r) in t.diffWritten ensures b < Scheduled(t) && HasTail(pr, b, r) {
      assert (b, r) in t.diffWritten.Keys;
    }
  }

  lemma OwnTail(pr: Program, a: Id)
    requires IsAccess(pr, a) && Tail(pr, a)
    ensures HasTail(pr, BatchOf(pr, a), ResourceOf(pr, a))
  {
    hide Tail;
  }

  /** A count-down never underflows. */
  lemma FinishIsOpen(pr: Program, s: State, task: Task)
    requires Inv(pr, s) && task in s.tasks && IsAccess(pr, task.a) && |s.pending| == |pr.txs|
    ensures task.Finish? ==> s.pending[task.a.tx] > 0
  {
    hide Inv;
    hide Perform;
    hide Open;
    AtTx(pr, s, task.a.tx);
    PerformOpen(pr, s, task, task.a.tx);
  }

  lemma PerformKeepsInv(pr: Program, s: State, task: Task)
    requires Inv(pr, s) && task in s.tasks && IsAccess(pr, task.a) && |s.pending| == |pr.txs|
    ensures Inv(pr, Perform(pr, s, task))
  {
    hide *;
    var t := Perform(pr, s, task);
    InvShape(pr, s);
    PerformKeepsShape(pr, s, task);
    forall x | IsAccess(pr, x) ensures AccessInv(pr, t, x) {
      PerformKeepsAccess(pr, s, task, x);
    }
    forall n | n in t.tasks ensures TaskInv(pr, t, n) {
      PerformKeepsTask(pr, s, task, n);
    }
    forall u | 0 <= u < |pr.txs| ensures TxInv(pr, t, u) {
      PerformKeepsTx(pr, s, task, u);
    }
    PendingLength(pr, s, task);
    InvParts(pr, t);
  }

  lemma PendingLength(pr: Program, s: State, task: Task)
    requires Inv(pr, s) && task in s.tasks && IsAccess(pr, task.a) && |s.pending| == |pr.txs|
    ensures |Perform(pr, s, task).pending| == |pr.txs|
  {
    hide Inv;
    hide Perform;
    PerformCounters(pr, s, task);
    FinishIsOpen(pr, s, task);
  }

  lemma PerformKeepsTask(pr: Program, s: State, task: Task, n: Task)
    requires Inv(pr, s) && task in s.tasks && IsAccess(pr, task.a) && |s.pending| == |pr.txs|
    requires n in Perform(pr, s, task).tasks
    ensures TaskInv(pr, Perform(pr, s, task), n)
  {
    hide Inv;
    hide Perform;
    hide AccessInv;
    hide Serial;
    PerformCounters(pr, s, task);
    if n in s.tasks {
      AtTask(pr, s, n);
    } else {
      NewTaskIsSerial(pr, s, task, n);
    }
  }

  // ---- Executing ----

  /** An available transaction finds serial values in all its handles. */
  lemma AvailableReadsSerially(pr: Program, s: State, u: nat)
    requires Inv(pr, s) && u in s.available
    ensures u < |pr.txs| && pr.txs[u].batch < Scheduled(s) && u !in s.executed
    ensures Inputs(pr, s, u) == SerialInputs(pr, u)
    ensures forall k :: 0 <= k < |pr.txs[u].accesses| ==> Noted(pr, s, Id(u, k))
  {
    hide Inv;
    hide Serial;
    hide Open;
    InvShape(pr, s);
    AtTx(pr, s, u);
    forall k | 0 <= k < |pr.txs[u].accesses|
      ensures Noted(pr, s, Id(u, k)) && ReadOf(pr, s, Id(u, k)) == SerialRead(pr, Id(u, k))
    {
      ClosedMeansCounted(pr, s, u, |pr.txs[u].accesses|, k);
      ReadIsSerial(pr, s, Id(u, k));
    }
    assert forall k :: 0 <= k < |pr.txs[u].accesses| ==> Inputs(pr, s, u)[k] == SerialInputs(pr, u)[k];
  }

  lemma ExecuteKeepsTask(pr: Program, s: State, u: nat, n: Task)
    requires Inv(pr, s) && u in s.available && u < |pr.txs| && |s.pending| == |pr.txs|
    requires n in Apply(pr, s, Execute(u)).tasks
    ensures TaskInv(pr, Apply(pr, s, Execute(u)), n)
  {
    hide Inv;
    hide Serial;
    hide AccessInv;
    hide Result;
    InvShape(pr, s);
    AvailableReadsSerially(pr, s, u);
    if n in s.tasks {
      AtTask(pr, s, n);
    } else {
      WrittenIsResult(pr, n.a);
    }
  }

  lemma ExecuteKeepsTx(pr: Program, s: State, u: nat, x: nat)
    requires Inv(pr, s) && u in s.available && u < |pr.txs| && |s.pending| == |pr.txs| && x < |pr.txs|
    ensures TxInv(pr, Apply(pr, s, Execute(u)), x)
  {
    hide Inv;
    hide Serial;
    hide Open;
    hide Result;
    hide Inputs;
    AtTx(pr, s, x);
    var t := Apply(pr, s, Execute(u));
    SameOpen(pr, s, t, x, |pr.txs[x].accesses|);
  }

  lemma ExecuteKeepsInv(pr: Program, s: State, u: nat)
    requires Inv(pr, s) && u in s.available && u < |pr.txs| && |s.pending| == |pr.txs|
    ensures Inv(pr, Apply(pr, s, Execute(u)))
  {
    hide *;
    var t := Apply(pr, s, Execute(u));
    InvShape(pr, s);
    AvailableReadsSerially(pr, s, u);
    forall x | IsAccess(pr, x) ensures AccessInv(pr, t, x) {
      AtAccess(pr, s, x);
      ExecuteKeeps(pr, s, u, x);
    }
    forall n | n in t.tasks ensures TaskInv(pr, t, n) {
      ExecuteKeepsTask(pr, s, u, n);
    }
    forall x | 0 <= x < |pr.txs| ensures TxInv(pr, t, x) {
      ExecuteKeepsTx(pr, s, u, x);
    }
    ExecuteKeepsShape(pr, s, u);
    InvParts(pr, t);
  }

  lemma ExecuteKeepsShape(pr: Program, s: State, u: nat)
    requires WellFormed(pr) && u < |pr.txs| && |s.pending| == |pr.txs| && CommitInv(pr, s) && KeysKnown(pr, s)
    ensures var t := Apply(pr, s, Execute(u)); CommitInv(pr, t) && KeysKnown(pr, t) && |t.pending| == |pr.txs|
  {
    hide Tail;
    hide WellFormed;
    hide Processed;
    hide Outputs;
    var t := Apply(pr, s, Execute(u));
    forall b: nat | b < t.committed ensures Processed(pr, t, b) {
      ProcessedIsKept(pr, s, t, b);
    }
  }

  // ---- Committing ----

  lemma CommitKeepsInv(pr: Program, s: State)
    requires Inv(pr, s) && |s.pending| == |pr.txs| && Enabled(pr, s, Commit)
    ensures Inv(pr, Apply(pr, s, Commit))
  {
    hide *;
    var t := Apply(pr, s, Commit);
    InvShape(pr, s);
    forall x | IsAccess(pr, x) ensures AccessInv(pr, t, x) {
      AtAccess(pr, s, x);
      CommitKeeps(pr, s, x);
    }
    CommitKeepsRest(pr, s);
    InvParts(pr, t);
  }

  lemma CommitKeepsRest(pr: Program, s: State)
    requires Inv(pr, s) && |s.pending| == |pr.txs| && Enabled(pr, s, Commit)
    ensures var t := Apply(pr, s, Commit);
            && CommitInv(pr, t) && KeysKnown(pr, t) && |t.pending| == |pr.txs|
            && (forall n :: n in t.tasks ==> TaskInv(pr, t, n))
            && (forall u :: 0 <= u < |pr.txs| ==> TxInv(pr, t, u))
  {
    hide Inv;
    hide Tail;
    hide WellFormed;
    hide Serial;
    hide Open;
    hide Processed;
    hide AccessInv;
    var t := Apply(pr, s, Commit);
    InvShape(pr, s);
    forall b: nat | b < t.committed ensures Processed(pr, t, b) {
      ProcessedIsKept(pr, s, t, b);
    }
    forall n | n in t.tasks ensures TaskInv(pr, t, n) {
      AtTask(pr, s, n);
    }
    forall u | 0 <= u < |pr.txs| ensures TxInv(pr, t, u) {
      AtTx(pr, s, u);
      SameOpen(pr, s, t, u, |pr.txs[u].accesses|);
    }
  }

  // ---- Scheduling ----

  lemma ScheduleKeepsAccess(pr: Program, s: State, evicted: set<nat>, x: Id)
    requires Inv(pr, s) && |s.pending| == |pr.txs| && IsAccess(pr, x)
    requires forall r :: r in evicted ==> Evictable(pr, s, r)
    ensures AccessInv(pr, Apply(pr, s, Schedule(evicted)), x)
  {
    hide Inv;
    hide Apply;
    hide Evictable;
    hide ReadStage;
    hide WriteStage;
    hide DiffStage;
    hide NextStage;
    hide EvictStage;
    hide Unborn;
    InvShape(pr, s);
    AtAccess(pr, s, x);
    if BatchOf(pr, x) < Scheduled(s) {
      if x in s.next {
        AtNext(pr, s, x);
      }
      ScheduleKeepsOld(pr, s, evicted, x);
    } else if BatchOf(pr, x) == Scheduled(s) {
      ScheduleBears(pr, s, evicted, x);
    } else {
      ScheduleKeepsUnborn(pr, s, evicted, x);
    }
  }

  lemma ScheduleKeepsTx(pr: Program, s: State, evicted: set<nat>, u: nat)
    requires Inv(pr, s) && |s.pending| == |pr.txs| && u < |pr.txs|
    ensures TxInv(pr, Apply(pr, s, Schedule(evicted)), u)
  {
    hide Inv;
    hide Serial;
    hide Open;
    hide AccessesOf;
    AtTx(pr, s, u);
    var t := Apply(pr, s, Schedule(evicted));
    SameOpen(pr, s, t, u, |pr.txs[u].accesses|);
    if pr.txs[u].batch >= Scheduled(s) {
      UnbornIsOpen(pr, s, u);
    }
  }

  lemma UnbornIsOpen(pr: Program, s: State, u: nat)
    requires Inv(pr, s) && u < |pr.txs| && pr.txs[u].batch >= Scheduled(s)
    ensures Open(pr, s, u, |pr.txs[u].accesses|) == |pr.txs[u].accesses|
  {
    hide Inv;
    hide ReadStage;
    hide WriteStage;
    hide DiffStage;
    hide NextStage;
    hide EvictStage;
    InvShape(pr, s);
    forall a | a in s.read ensures a.tx != u {
      AtAccess(pr, s, a);
    }
    AllOpen(pr, s, u, |pr.txs[u].accesses|);
  }

  lemma ScheduleKeepsInv(pr: Program, s: State, evicted: set<nat>)
    requires Inv(pr, s) && |s.pending| == |pr.txs|
    requires forall r :: r in evicted ==> Evictable(pr, s, r)
    ensures Inv(pr, Apply(pr, s, Schedule(evicted)))
  {
    hide *;
    var t := Apply(pr, s, Schedule(evicted));
    InvShape(pr, s);
    forall x | IsAccess(pr, x) ensures AccessInv(pr, t, x) {
      ScheduleKeepsAccess(pr, s, evicted, x);
    }
    forall u | 0 <= u < |pr.txs| ensures TxInv(pr, t, u) {
      ScheduleKeepsTx(pr, s, evicted, u);
    }
    ScheduleKeepsRest(pr, s, evicted);
    InvParts(pr, t);
  }

  lemma ScheduleKeepsRest(pr: Program, s: State, evicted: set<nat>)
    requires Inv(pr, s) && |s.pending| == |pr.txs|
    ensures var t := Apply(pr, s, Schedule(evicted));
            && CommitInv(pr, t) && KeysKnown(pr, t) && |t.pending| == |pr.txs|
            && (forall n :: n in t.tasks ==> TaskInv(pr, t, n))
  {
    hide Inv;
    hide Tail;
    hide WellFormed;
    hide Serial;
    hide Processed;
    hide AccessInv;
    var t := Apply(pr, s, Schedule(evicted));
    InvShape(pr, s);
    forall b: nat | b < t.committed ensures Processed(pr, t, b) {
      ProcessedIsKept(pr, s, t, b);
    }
    forall n | n in t.tasks ensures TaskInv(pr, t, n) {
      if n in s.tasks {
        AtTask(pr, s, n);
      }
    }
  }
}
