/** The invariant over whole runs. */
module SchedInvariant {
  import opened Options
  import opened SchedProgram
  import opened SchedMachine
  import opened SchedSafety
  import opened SchedSteps

  lemma AtAccess(pr: Program, s: State, x: Id)
    requires Inv(pr, s) && IsAccess(pr, x)
    ensures WellFormed(pr) && |s.pending| == |pr.txs| && AccessInv(pr, s, x) && TxInv(pr, s, x.tx)
  {
  }

  lemma AtTask(pr: Program, s: State, task: Task)
    requires Inv(pr, s) && task in s.tasks
    ensures WellFormed(pr) && |s.pending| == |pr.txs| && TaskInv(pr, s, task) && AccessInv(pr, s, task.a)
    ensures BatchOf(pr, task.a) < Scheduled(s)
  {
  }

  lemma AtTx(pr: Program, s: State, u: nat)
    requires Inv(pr, s) && u < |pr.txs|
    ensures WellFormed(pr) && |s.pending| == |pr.txs| && TxInv(pr, s, u)
  {
  }

  lemma AtPair(pr: Program, s: State, task: Task, x: Id)
    requires Inv(pr, s) && task in s.tasks && IsAccess(pr, x)
    ensures Around(pr, s, task, x)
  {
  }

  lemma AtDiff(pr: Program, s: State, b: nat, r: nat)
    requires Inv(pr, s) && (b, r) in s.diffWritten
    ensures HasTail(pr, b, r) && b < Scheduled(s)
  {
  }

  lemma AtLink(pr: Program, s: State, a: Id)
    requires Inv(pr, s) && IsAccess(pr, a) && Link(pr, s, a).Some?
    ensures IsAccess(pr, Link(pr, s, a).value) && AccessInv(pr, s, Link(pr, s, a).value)
    ensures Link(pr, s, a) == Prev(pr, a) && Link(pr, s, a).value != a
    ensures BatchOf(pr, Link(pr, s, a).value) <= BatchOf(pr, a)
  {
  }

  lemma AtBatch(pr: Program, s: State, b: nat)
    requires Inv(pr, s) && b < s.committed
    ensures Processed(pr, s, b)
  {
  }

  // ---- What is on disk ----

  /** The transactions of batches below `b` are the first ones. */
  function Before(pr: Program, b: nat, n: nat): (c: nat)
    requires n <= |pr.txs|
    ensures c <= n && forall t :: c <= t < n ==> pr.txs[t].batch >= b
    ensures c > 0 ==> pr.txs[c - 1].batch < b
  {
    if n == 0 then 0 else if pr.txs[n - 1].batch < b then n else Before(pr, b, n - 1)
  }

  function FirstOf(pr: Program, b: nat): (c: nat)
    ensures c <= |pr.txs|
  {
    Before(pr, b, |pr.txs|)
  }

  lemma FirstSplits(pr: Program, b: nat, t: nat)
    requires WellFormed(pr) && t < |pr.txs|
    ensures t < FirstOf(pr, b) <==> pr.txs[t].batch < b
  {
  }

  /** Some access of the batch is the last to its resource. */
  lemma {:induction false} TailExists(pr: Program, a: Id) returns (last: Id)
    requires WellFormed(pr) && IsAccess(pr, a)
    ensures IsAccess(pr, last) && Tail(pr, last) && a.tx <= last.tx
    ensures BatchOf(pr, last) == BatchOf(pr, a) && ResourceOf(pr, last) == ResourceOf(pr, a)
    decreases |pr.txs| - a.tx
  {
    if Tail(pr, a) {
      last := a;
    } else {
      var b :| IsAccess(pr, b) && Prev(pr, b) == Some(a) && BatchOf(pr, b) == BatchOf(pr, a);
      last := TailExists(pr, b);
    }
  }

  /** After the last access of the batch the resource is left alone until the next batch. */
  lemma TailIsFinal(pr: Program, a: Id)
    requires WellFormed(pr) && IsAccess(pr, a) && Tail(pr, a)
    ensures a.tx < FirstOf(pr, BatchOf(pr, a) + 1)
    ensures Untouched(pr, a.tx + 1, FirstOf(pr, BatchOf(pr, a) + 1), ResourceOf(pr, a))
  {
    var r, end := ResourceOf(pr, a), FirstOf(pr, BatchOf(pr, a) + 1);
    FirstSplits(pr, BatchOf(pr, a) + 1, a.tx);
    forall t | a.tx + 1 <= t < end ensures Find(pr, t, r).None? {
      if Find(pr, t, r).Some? {
        FirstSplits(pr, BatchOf(pr, a) + 1, t);
        var y := Successor(pr, a, Find(pr, t, r).value);
      }
    }
  }

  /** Looking back from batch `b` finds the serial value at its start. */
  lemma {:induction false} LatestIsSerial(pr: Program, s: State, r: nat, b: nat)
    requires Inv(pr, s) && b <= s.committed
    ensures Latest(pr, s, r, b) == Serial(pr, FirstOf(pr, b), r)
  {
    hide Inv;
    if b == 0 {
      assert FirstOf(pr, 0) == 0;
    } else {
      LatestIsSerial(pr, s, r, b - 1);
      LatestStep(pr, s, r, b);
    }
  }

  lemma LatestStep(pr: Program, s: State, r: nat, b: nat)
    requires Inv(pr, s) && 0 < b <= s.committed && Latest(pr, s, r, b - 1) == Serial(pr, FirstOf(pr, b - 1), r)
    ensures Latest(pr, s, r, b) == Serial(pr, FirstOf(pr, b), r)
  {
    hide Inv;
    hide Serial;
    hide FirstOf;
    hide Untouched;
    if (b - 1, r) in s.diffWritten {
      var a := DiffHasTail(pr, s, b - 1, r);
      TailIsFinal(pr, a);
      UntouchedKeepsValue(pr, a.tx + 1, FirstOf(pr, b), r);
    } else {
      NoDiffMeansUntouched(pr, s, b - 1, r);
      UntouchedKeepsValue(pr, FirstOf(pr, b - 1), FirstOf(pr, b), r);
    }
  }

  lemma DiffHasTail(pr: Program, s: State, b: nat, r: nat) returns (a: Id)
    requires Inv(pr, s) && (b, r) in s.diffWritten
    ensures WellFormed(pr) && IsAccess(pr, a) && Tail(pr, a) && BatchOf(pr, a) == b && ResourceOf(pr, a) == r
    ensures s.diffWritten[(b, r)] == SerialWritten(pr, a)
  {
    hide Inv;
    hide Serial;
    hide Link;
    hide Tail;
    hide TxInv;
    AtDiff(pr, s, b, r);
    a :| IsAccess(pr, a) && Tail(pr, a) && BatchOf(pr, a) == b && ResourceOf(pr, a) == r;
    AtAccess(pr, s, a);
  }

  lemma NoDiffMeansUntouched(pr: Program, s: State, b: nat, r: nat)
    requires Inv(pr, s) && b < s.committed && (b, r) !in s.diffWritten
    ensures FirstOf(pr, b) <= FirstOf(pr, b + 1) && Untouched(pr, FirstOf(pr, b), FirstOf(pr, b + 1), r)
  {
    AtBatch(pr, s, b);
    assert WellFormed(pr);
    hide Inv;
    hide FirstOf;
    hide Tail;
    hide Find;
    FirstAscends(pr, b, b + 1);
    forall t | FirstOf(pr, b) <= t < FirstOf(pr, b + 1) ensures Find(pr, t, r).None? {
      FirstSplits(pr, b, t);
      FirstSplits(pr, b + 1, t);
      NoAccessWithoutDiff(pr, s, b, t, r);
    }
  }

  lemma NoAccessWithoutDiff(pr: Program, s: State, b: nat, t: nat, r: nat)
    requires WellFormed(pr) && Processed(pr, s, b) && t < |pr.txs| && pr.txs[t].batch == b && (b, r) !in s.diffWritten
    ensures Find(pr, t, r).None?
  {
    hide Tail;
    var a := Find(pr, t, r);
    if a.Some? {
      var last := TailExists(pr, a.value);
    }
  }

  lemma FirstAscends(pr: Program, b: nat, c: nat)
    requires WellFormed(pr) && b <= c
    ensures FirstOf(pr, b) <= FirstOf(pr, c)
  {
    var n := FirstOf(pr, b);
    if n > 0 {
      FirstSplits(pr, c, n - 1);
    }
  }

  /** A disk read returns the value the access would read serially. */
  lemma DiskHoldsTheSerialValue(pr: Program, s: State, a: Id)
    requires Inv(pr, s) && DiskRead(a) in s.tasks
    ensures IsAccess(pr, a) && Latest(pr, s, ResourceOf(pr, a), s.committed) == SerialRead(pr, a)
  {
    assert TaskInv(pr, s, DiskRead(a)) && AccessInv(pr, s, a) && TxInv(pr, s, a.tx);
    var r, c := ResourceOf(pr, a), FirstOf(pr, s.committed);
    LatestIsSerial(pr, s, r, s.committed);
    UnreadIsUncommitted(pr, s, a);
    FirstSplits(pr, s.committed, a.tx);
    LastIsLast(pr, a.tx, r);
    if Prev(pr, a).Some? {
      FirstSplits(pr, s.committed, Prev(pr, a).value.tx);
    }
    UntouchedKeepsValue(pr, c, a.tx, r);
  }

  lemma UnreadIsUncommitted(pr: Program, s: State, a: Id)
    requires Inv(pr, s) && IsAccess(pr, a) && a !in s.read
    ensures BatchOf(pr, a) >= s.committed
  {
    assert TxInv(pr, s, a.tx);
    if BatchOf(pr, a) < s.committed {
      assert Processed(pr, s, BatchOf(pr, a));
      ClosedMeansCounted(pr, s, a.tx, |pr.txs[a.tx].accesses|, a.k);
    }
  }

  // ---- The count-down ----

  lemma {:induction false} ClosedMeansCounted(pr: Program, s: State, t: nat, n: nat, k: nat)
    requires t < |pr.txs| && k < n <= |pr.txs[t].accesses| && Open(pr, s, t, n) == 0
    ensures Counted(pr, s, Id(t, k))
  {
    if k < n - 1 {
      ClosedMeansCounted(pr, s, t, n - 1, k);
    }
  }

  lemma {:induction false} SameOpen(pr: Program, s: State, t: State, u: nat, n: nat)
    requires u < |pr.txs| && n <= |pr.txs[u].accesses|
    requires forall k :: 0 <= k < n ==> (Counted(pr, s, Id(u, k)) <==> Counted(pr, t, Id(u, k)))
    ensures Open(pr, s, u, n) == Open(pr, t, u, n)
  {
    if n > 0 {
      SameOpen(pr, s, t, u, n - 1);
    }
  }

  lemma {:induction false} OneLessOpen(pr: Program, s: State, t: State, a: Id, n: nat)
    requires IsAccess(pr, a) && a.k < n <= |pr.txs[a.tx].accesses|
    requires !Counted(pr, s, a) && Counted(pr, t, a)
    requires forall k :: 0 <= k < n && k != a.k ==> (Counted(pr, s, Id(a.tx, k)) <==> Counted(pr, t, Id(a.tx, k)))
    ensures Open(pr, s, a.tx, n) == Open(pr, t, a.tx, n) + 1
  {
    if a.k < n - 1 {
      OneLessOpen(pr, s, t, a, n - 1);
    } else {
      SameOpen(pr, s, t, a.tx, n - 1);
    }
  }

  /** No read state was set, noted or counted. */
  ghost predicate SameCounts(s: State, t: State) {
    && s.read == t.read
    && forall task: Task :: task.NoteRead? || task.Finish? ==> (task in s.tasks <==> task in t.tasks)
  }

  /** Only a count-down changes which accesses are counted. */
  lemma CountedIsKept(pr: Program, s: State, task: Task, x: Id)
    requires Around(pr, s, task, x) && !task.Finish?
    ensures Counted(pr, s, x) <==> Counted(pr, Perform(pr, s, task), x)
  {
    if task.SetRead? {
      SetReadCounts(pr, s, task.a, task.v, task.direct, x);
    } else if task.NoteRead? {
      NoteReadCounts(pr, s, task.a, task.v, x);
    } else {
      OtherCounts(pr, s, task);
      hide Perform;
      hide Around;
    }
  }

  lemma OtherCounts(pr: Program, s: State, task: Task)
    requires IsAccess(pr, task.a) && |s.pending| == |pr.txs|
    requires !task.Finish? && !task.SetRead? && !task.NoteRead?
    ensures SameCounts(s, Perform(pr, s, task))
  {
    hide DoConnect;
    hide DoCheck;
    hide DoDiskRead;
    hide DoSetRead;
    hide DoNoteRead;
    hide DoFinish;
    hide DoSetWritten;
    hide DoNoteWritten;
    hide DoHandOver;
    hide SameCounts;
    match task
    case Connect(a) => ConnectCounts(pr, s, a);
    case Check(a) => CheckCounts(pr, s, a);
    case DiskRead(a) => DiskReadCounts(pr, s, a);
    case SetWritten(a, v) => SetWrittenCounts(s, a, v);
    case NoteWritten(a, v) => NoteWrittenCounts(pr, s, a, v);
    case HandOver(a, v) => HandOverCounts(s, a, v);
  }

  lemma ConnectCounts(pr: Program, s: State, a: Id)
    requires IsAccess(pr, a)
    ensures SameCounts(s, DoConnect(pr, s, a))
  {
    hide Link;
  }

  lemma CheckCounts(pr: Program, s: State, a: Id)
    requires IsAccess(pr, a)
    ensures SameCounts(s, DoCheck(pr, s, a))
  {
    hide Link;
  }

  lemma DiskReadCounts(pr: Program, s: State, a: Id)
    requires IsAccess(pr, a)
    ensures SameCounts(s, DoDiskRead(pr, s, a))
  {
    hide Latest;
  }

  lemma SetWrittenCounts(s: State, a: Id, v: Value)
    ensures SameCounts(s, DoSetWritten(s, a, v))
  {
  }

  lemma NoteWrittenCounts(pr: Program, s: State, a: Id, v: Value)
    requires IsAccess(pr, a)
    ensures SameCounts(s, DoNoteWritten(pr, s, a, v))
  {
    hide Tail;
  }

  lemma HandOverCounts(s: State, a: Id, v: Value)
    ensures SameCounts(s, DoHandOver(s, a, v))
  {
  }

  lemma SetReadCounts(pr: Program, s: State, a: Id, v: Value, direct: bool, x: Id)
    requires Around(pr, s, SetRead(a, v, direct), x)
    ensures Counted(pr, s, x) <==> Counted(pr, DoSetRead(s, a, v, direct), x)
  {
    hide SerialRead;
    hide AccessInv;
  }

  lemma NoteReadCounts(pr: Program, s: State, a: Id, v: Value, x: Id)
    requires Around(pr, s, NoteRead(a, v), x)
    ensures Counted(pr, s, x) <==> Counted(pr, DoNoteRead(pr, s, a, v), x)
  {
    hide SerialRead;
    hide SerialWritten;
    hide AccessInv;
    hide Head;
  }

  lemma FinishCounts(pr: Program, s: State, a: Id, x: Id)
    requires Around(pr, s, Finish(a), x) && BatchOf(pr, a) < Scheduled(s)
    ensures var t := DoFinish(s, a);
            && (x != a ==> (Counted(pr, s, x) <==> Counted(pr, t, x)))
            && !Counted(pr, s, a) && Counted(pr, t, a)
  {
    hide SerialRead;
    hide SerialWritten;
    hide ReadStage;
    hide DiffStage;
    hide NextStage;
    hide EvictStage;
  }

  /** The number of open accesses goes down by one with each count-down, and only then. */
  lemma PerformOpen(pr: Program, s: State, task: Task, u: nat)
    requires Inv(pr, s) && task in s.tasks && u < |pr.txs| && IsAccess(pr, task.a) && |s.pending| == |pr.txs|
    ensures var n := |pr.txs[u].accesses|;
            Open(pr, s, u, n)
            == Open(pr, Perform(pr, s, task), u, n) + if task.Finish? && task.a.tx == u then 1 else 0
  {
    if task.Finish? {
      FinishOpen(pr, s, task.a, u);
    } else {
      OtherOpen(pr, s, task, u);
    }
    hide Inv;
    hide Open;
  }

  lemma FinishOpen(pr: Program, s: State, a: Id, u: nat)
    requires Inv(pr, s) && Finish(a) in s.tasks && u < |pr.txs| && IsAccess(pr, a) && |s.pending| == |pr.txs|
    ensures var n := |pr.txs[u].accesses|;
            Open(pr, s, u, n) == Open(pr, DoFinish(s, a), u, n) + if a.tx == u then 1 else 0
  {
    hide Inv;
    hide DoFinish;
    hide Counted;
    hide Open;
    hide Around;
    hide AccessInv;
    hide TaskInv;
    var t, n := DoFinish(s, a), |pr.txs[u].accesses|;
    AtTask(pr, s, Finish(a));
    forall k | 0 <= k < n && Id(u, k) != a ensures Counted(pr, s, Id(u, k)) <==> Counted(pr, t, Id(u, k)) {
      AtPair(pr, s, Finish(a), Id(u, k));
      FinishCounts(pr, s, a, Id(u, k));
    }
    AtPair(pr, s, Finish(a), a);
    FinishCounts(pr, s, a, a);
    if u == a.tx {
      OneLessOpen(pr, s, t, a, n);
    } else {
      SameOpen(pr, s, t, u, n);
    }
  }

  lemma OtherOpen(pr: Program, s: State, task: Task, u: nat)
    requires Inv(pr, s) && task in s.tasks && u < |pr.txs| && IsAccess(pr, task.a) && |s.pending| == |pr.txs| &&
             !task.Finish?
    ensures var n := |pr.txs[u].accesses|;
            Open(pr, s, u, n) == Open(pr, Perform(pr, s, task), u, n)
  {
    hide Inv;
    hide Perform;
    hide Counted;
    hide Open;
    hide Around;
    var t, n := Perform(pr, s, task), |pr.txs[u].accesses|;
    forall k | 0 <= k < n ensures Counted(pr, s, Id(u, k)) <==> Counted(pr, t, Id(u, k)) {
      AtPair(pr, s, task, Id(u, k));
      CountedIsKept(pr, s, task, Id(u, k));
    }
    SameOpen(pr, s, t, u, n);
  }

  /** What a step does to the counters. */
  lemma PerformCounters(pr: Program, s: State, task: Task)
    requires IsAccess(pr, task.a) && |s.pending| == |pr.txs|
    ensures var t := Perform(pr, s, task);
            && t.executed == s.executed && t.evictions == s.evictions && t.committed == s.committed
            && (!task.Finish? ==> t.pending == s.pending && t.available == s.available)
            && (task.Finish? && s.pending[task.a.tx] > 0 ==>
                  && t.pending == s.pending[task.a.tx := s.pending[task.a.tx] - 1]
                  && t.available == if s.pending[task.a.tx] == 1 then s.available + {task.a.tx} else s.available)
  {
    hide DoConnect;
    hide DoCheck;
    hide DoDiskRead;
    hide DoSetRead;
    hide DoNoteRead;
    hide DoSetWritten;
    hide DoNoteWritten;
    hide DoHandOver;
  }

  lemma PerformKeepsTx(pr: Program, s: State, task: Task, u: nat)
    requires Inv(pr, s) && task in s.tasks && u < |pr.txs| && IsAccess(pr, task.a) && |s.pending| == |pr.txs|
    ensures TxInv(pr, Perform(pr, s, task), u)
  {
    hide Inv;
    hide Open;
    hide Perform;
    hide TaskInv;
    hide AccessInv;
    AtTx(pr, s, u);
    AtTx(pr, s, task.a.tx);
    AtTask(pr, s, task);
    PerformOpen(pr, s, task, u);
    PerformOpen(pr, s, task, task.a.tx);
    PerformCounters(pr, s, task);
  }

  // ---- Accesses ----

  /** Every step of every thread keeps the stages of every access. */
  lemma PerformKeepsAccess(pr: Program, s: State, task: Task, x: Id)
    requires Inv(pr, s) && task in s.tasks && IsAccess(pr, x) && IsAccess(pr, task.a) && |s.pending| == |pr.txs|
    ensures AccessInv(pr, Perform(pr, s, task), x)
  {
    hide DoConnect;
    hide DoCheck;
    hide DoDiskRead;
    hide DoSetRead;
    hide DoNoteRead;
    hide DoFinish;
    hide DoSetWritten;
    hide DoNoteWritten;
    hide DoHandOver;
    hide Inv;
    hide AccessInv;
    match task
    case Connect(a) => ConnectKeeps(pr, s, a, x);
    case Check(a) => CheckKeeps(pr, s, a, x);
    case DiskRead(a) => DiskReadKeeps(pr, s, a, x);
    case SetRead(a, v, direct) => SetReadKeeps(pr, s, a, v, direct, x);
    case NoteRead(a, v) => NoteReadKeeps(pr, s, a, v, x);
    case Finish(a) => FinishKeeps(pr, s, a, x);
    case SetWritten(a, v) => SetWrittenKeeps(pr, s, a, v, x);
    case NoteWritten(a, v) => NoteWrittenKeeps(pr, s, a, v, x);
    case HandOver(a, v) => HandOverKeeps(pr, s, a, v, x);
  }

  /** The stages of a scheduled access. */
  lemma StagesAre(pr: Program, s: State, x: Id)
    requires IsAccess(pr, x) && BatchOf(pr, x) < Scheduled(s)
    requires ReadStage(pr, s, x) && WriteStage(pr, s, x) && DiffStage(pr, s, x) && NextStage(pr, s, x) &&
             EvictStage(pr, s, x)
    ensures AccessInv(pr, s, x)
  {
  }

  lemma CheckKeeps(pr: Program, s: State, a: Id, x: Id)
    requires Inv(pr, s) && Check(a) in s.tasks && IsAccess(pr, x) && IsAccess(pr, a) && |s.pending| == |pr.txs|
    ensures AccessInv(pr, DoCheck(pr, s, a), x)
  {
    hide Inv;
    hide DoCheck;
    hide AccessInv;
    hide Around;
    hide LocalStep;
    hide Link;
    hide TaskInv;
    var t := DoCheck(pr, s, a);
    AtTask(pr, s, Check(a));
    AtPair(pr, s, Check(a), x);
    AtAccess(pr, s, x);
    if Link(pr, s, a).Some? {
      AtLink(pr, s, a);
    }
    CheckIsLocal(pr, s, a);
    if x == a {
      CheckOwn(pr, s, a);
      StagesAre(pr, t, a);
    } else {
      SameMapsSameDiffs(pr, s, t, x);
      LocalStepKeepsOthers(pr, s, t, a, x);
    }
  }

  lemma DiskReadKeeps(pr: Program, s: State, a: Id, x: Id)
    requires Inv(pr, s) && DiskRead(a) in s.tasks && IsAccess(pr, x) && IsAccess(pr, a) && |s.pending| == |pr.txs|
    ensures AccessInv(pr, DoDiskRead(pr, s, a), x)
  {
    hide Inv;
    hide DoDiskRead;
    hide AccessInv;
    hide Around;
    hide LocalStep;
    hide Link;
    hide TaskInv;
    var t := DoDiskRead(pr, s, a);
    AtTask(pr, s, DiskRead(a));
    AtPair(pr, s, DiskRead(a), x);
    AtAccess(pr, s, x);
    DiskHoldsTheSerialValue(pr, s, a);
    DiskReadIsLocal(pr, s, a);
    if x == a {
      DiskReadOwn(pr, s, a);
      StagesAre(pr, t, a);
    } else {
      SameMapsSameDiffs(pr, s, t, x);
      LocalStepKeepsOthers(pr, s, t, a, x);
    }
  }

  lemma SetReadKeeps(pr: Program, s: State, a: Id, v: Value, direct: bool, x: Id)
    requires Inv(pr, s) && SetRead(a, v, direct) in s.tasks && IsAccess(pr, x) && IsAccess(pr, a) &&
             |s.pending| == |pr.txs|
    ensures AccessInv(pr, DoSetRead(s, a, v, direct), x)
  {
    hide Inv;
    hide DoSetRead;
    hide AccessInv;
    hide Around;
    hide LocalStep;
    hide Link;
    hide TaskInv;
    var t := DoSetRead(s, a, v, direct);
    AtTask(pr, s, SetRead(a, v, direct));
    AtPair(pr, s, SetRead(a, v, direct), x);
    AtAccess(pr, s, x);
    SetReadIsLocal(pr, s, a, v, direct);
    if x == a {
      SetReadOwn(pr, s, a, v, direct);
      StagesAre(pr, t, a);
    } else {
      SameMapsSameDiffs(pr, s, t, x);
      LocalStepKeepsOthers(pr, s, t, a, x);
    }
  }

  lemma NoteReadKeeps(pr: Program, s: State, a: Id, v: Value, x: Id)
    requires Inv(pr, s) && NoteRead(a, v) in s.tasks && IsAccess(pr, x) && IsAccess(pr, a) && |s.pending| == |pr.txs|
    ensures AccessInv(pr, DoNoteRead(pr, s, a, v), x)
  {
    hide Inv;
    hide DoNoteRead;
    hide AccessInv;
    hide Around;
    hide LocalStep;
    hide Link;
    hide TaskInv;
    var t := DoNoteRead(pr, s, a, v);
    AtTask(pr, s, NoteRead(a, v));
    AtPair(pr, s, NoteRead(a, v), x);
    AtAccess(pr, s, x);
    NoteReadIsLocal(pr, s, a, v);
    if x == a {
      NoteReadOwn(pr, s, a, v);
      StagesAre(pr, t, a);
    } else {
      NoteReadDiffs(pr, s, a, v, x);
      LocalStepKeepsOthers(pr, s, t, a, x);
    }
  }

  lemma FinishKeeps(pr: Program, s: State, a: Id, x: Id)
    requires Inv(pr, s) && Finish(a) in s.tasks && IsAccess(pr, x) && IsAccess(pr, a) && |s.pending| == |pr.txs|
    ensures AccessInv(pr, DoFinish(s, a), x)
  {
    hide Inv;
    hide DoFinish;
    hide AccessInv;
    hide Around;
    hide LocalStep;
    hide Link;
    hide TaskInv;
    var t := DoFinish(s, a);
    AtTask(pr, s, Finish(a));
    AtPair(pr, s, Finish(a), x);
    AtAccess(pr, s, x);
    FinishIsLocal(pr, s, a);
    if x == a {
      FinishOwn(pr, s, a);
      StagesAre(pr, t, a);
    } else {
      SameMapsSameDiffs(pr, s, t, x);
      LocalStepKeepsOthers(pr, s, t, a, x);
    }
  }

  lemma SetWrittenKeeps(pr: Program, s: State, a: Id, v: Value, x: Id)
    requires Inv(pr, s) && SetWritten(a, v) in s.tasks && IsAccess(pr, x) && IsAccess(pr, a) && |s.pending| == |pr.txs|
    ensures AccessInv(pr, DoSetWritten(s, a, v), x)
  {
    hide Inv;
    hide DoSetWritten;
    hide AccessInv;
    hide Around;
    hide WritingStep;
    hide Link;
    hide TaskInv;
    var t := DoSetWritten(s, a, v);
    AtTask(pr, s, SetWritten(a, v));
    AtPair(pr, s, SetWritten(a, v), x);
    AtAccess(pr, s, x);
    SetWrittenIsWriting(pr, s, a, v);
    if x == a {
      SetWrittenOwn(pr, s, a, v);
      StagesAre(pr, t, a);
    } else if Link(pr, s, x) == Some(a) && BatchOf(pr, x) < Scheduled(s) {
      SetWrittenSuccessor(pr, s, a, v, x);
      StagesAre(pr, t, x);
    } else {
      SameMapsSameDiffs(pr, s, t, x);
      WritingStepKeepsOthers(pr, s, t, a, x);
    }
  }

  lemma NoteWrittenKeeps(pr: Program, s: State, a: Id, v: Value, x: Id)
    requires Inv(pr, s) && NoteWritten(a, v) in s.tasks && IsAccess(pr, x) && IsAccess(pr, a) && |s.pending| == |pr.txs|
    ensures AccessInv(pr, DoNoteWritten(pr, s, a, v), x)
  {
    hide Inv;
    hide DoNoteWritten;
    hide AccessInv;
    hide Around;
    hide WritingStep;
    hide Link;
    hide TaskInv;
    var t := DoNoteWritten(pr, s, a, v);
    AtTask(pr, s, NoteWritten(a, v));
    AtPair(pr, s, NoteWritten(a, v), x);
    AtAccess(pr, s, x);
    NoteWrittenIsWriting(pr, s, a, v);
    if x == a {
      NoteWrittenOwn(pr, s, a, v);
      StagesAre(pr, t, a);
    } else {
      NoteWrittenDiffs(pr, s, a, v, x);
      if Link(pr, s, x) == Some(a) && BatchOf(pr, x) < Scheduled(s) {
        NoteWrittenSuccessor(pr, s, a, v, x);
        StagesAre(pr, t, x);
      } else {
        WritingStepKeepsOthers(pr, s, t, a, x);
      }
    }
  }

  lemma HandOverKeeps(pr: Program, s: State, a: Id, v: Value, x: Id)
    requires Inv(pr, s) && HandOver(a, v) in s.tasks && IsAccess(pr, x) && IsAccess(pr, a) && |s.pending| == |pr.txs|
    ensures AccessInv(pr, DoHandOver(s, a, v), x)
  {
    hide Inv;
    hide DoHandOver;
    hide AccessInv;
    hide Around;
    hide HandOverStep;
    hide Link;
    hide TaskInv;
    var t := DoHandOver(s, a, v);
    AtTask(pr, s, HandOver(a, v));
    AtPair(pr, s, HandOver(a, v), x);
    AtAccess(pr, s, x);
    HandOverIsHandOver(pr, s, a, v);
    if a in s.next {
      AtNext(pr, s, a);
    }
    if x == a {
      HandOverOwn(pr, s, a, v);
      StagesAre(pr, t, a);
    } else if Link(pr, s, x) == Some(a) && BatchOf(pr, x) < Scheduled(s) {
      HandOverSuccessor(pr, s, a, v, x);
      StagesAre(pr, t, x);
    } else {
      HandOverKeepsOthers(pr, s, t, a, x);
    }
  }

  lemma AtNext(pr: Program, s: State, a: Id)
    requires Inv(pr, s) && IsAccess(pr, a) && a in s.next
    ensures IsAccess(pr, s.next[a]) && Link(pr, s, s.next[a]) == Some(a) && BatchOf(pr, s.next[a]) < Scheduled(s)
  {
    hide ReadStage;
    hide WriteStage;
    hide DiffStage;
    hide Link;
    assert AccessInv(pr, s, a);
  }

  lemma ConnectKeeps(pr: Program, s: State, a: Id, x: Id)
    requires Inv(pr, s) && Connect(a) in s.tasks && IsAccess(pr, x) && IsAccess(pr, a) && |s.pending| == |pr.txs|
    ensures AccessInv(pr, DoConnect(pr, s, a), x)
  {
    hide Inv;
    hide DoConnect;
    hide AccessInv;
    hide Around;
    hide ConnectStep;
    hide Link;
    hide TaskInv;
    var t := DoConnect(pr, s, a);
    AtTask(pr, s, Connect(a));
    AtPair(pr, s, Connect(a), x);
    AtAccess(pr, s, x);
    ConnectIsConnecting(pr, s, a);
    if Link(pr, s, a).Some? {
      AtLink(pr, s, a);
    }
    if Link(pr, s, x).Some? {
      AtLink(pr, s, x);
    }
    if x == a {
      ConnectOwn(pr, s, a);
      StagesAre(pr, t, a);
    } else if Link(pr, s, a) == Some(x) {
      ConnectPredecessor(pr, s, a, x);
      StagesAre(pr, t, x);
    } else {
      ConnectKeepsOthers(pr, s, t, a, x);
    }
  }
}
