/** What the disk names after a rollback. The undo entries are those of the diffs submitted so
    far, and nothing orders the diffs of different batches: a written state is handed on before
    its diff is submitted. */
module SchedUndo {
  import opened Options
  import opened SchedProgram
  import opened SchedMachine
  import opened SchedSafety
  import opened SchedInvariant
  import opened SchedTheorems
  import opened SchedBound
  import opened SchedRollback

  /** Batch `b` has submitted a diff that changes `r`, and so has an undo entry for it. */
  ghost predicate HasEntry(s: State, b: nat, r: nat) {
    && (b, r) in s.diffWritten && (b, r) in s.diffRead
    && s.diffRead[(b, r)] != s.diffWritten[(b, r)]
  }

  /** The first batch from `b` on with an entry for `r`; the number of batches if none has. */
  ghost function FirstEntry(s: State, b: nat, r: nat): (n: nat)
    ensures b <= n && (n < Scheduled(s) ==> HasEntry(s, n, r))
    ensures forall x :: b <= x < n ==> !HasEntry(s, x, r)
    decreases Scheduled(s) - b
  {
    if b >= Scheduled(s) || HasEntry(s, b, r) then b else FirstEntry(s, b + 1, r)
  }

  /** The value `r`'s latest pointer leads to once the batches from `target` on are undone: what
      the first of them with an entry had read, or what was committed. */
  ghost function Restored(pr: Program, s: State, target: nat, r: nat): Value {
    var b := FirstEntry(s, target, r);
    if b < Scheduled(s) then s.diffRead[(b, r)] else Latest(pr, s, r, s.committed)
  }

  /** Up to which transaction that value is the serial one. */
  ghost function Source(pr: Program, s: State, target: nat, r: nat): (n: nat)
    ensures n <= |pr.txs|
  {
    var b := FirstEntry(s, target, r);
    FirstOf(pr, if b < Scheduled(s) then b else s.committed)
  }

  /** Before the first access of a batch the resource is as the batch found it. */
  lemma HeadReadsTheStart(pr: Program, h: Id)
    requires WellFormed(pr) && IsAccess(pr, h) && Head(pr, h)
    ensures SerialRead(pr, h) == Serial(pr, FirstOf(pr, BatchOf(pr, h)), ResourceOf(pr, h))
  {
    hide Serial;
    hide FirstOf;
    var b, r := BatchOf(pr, h), ResourceOf(pr, h);
    LastIsLast(pr, h.tx, r);
    FirstSplits(pr, b, h.tx);
    if Prev(pr, h).Some? {
      FirstSplits(pr, b, Prev(pr, h).value.tx);
    }
    UntouchedKeepsValue(pr, FirstOf(pr, b), h.tx, r);
  }

  /** A submitted diff leads from the serial value at the batch's start to that at its end. */
  lemma DiffIsSerial(pr: Program, s: State, b: nat, r: nat)
    requires Inv(pr, s) && (b, r) in s.diffWritten
    ensures (b, r) in s.diffRead && s.diffRead[(b, r)] == Serial(pr, FirstOf(pr, b), r)
    ensures s.diffWritten[(b, r)] == Serial(pr, FirstOf(pr, b + 1), r)
  {
    hide Inv;
    hide Serial;
    hide Tail;
    hide ReadStage;
    hide WriteStage;
    hide NextStage;
    hide EvictStage;
    hide TxInv;
    hide FirstOf;
    hide Untouched;
    AtDiff(pr, s, b, r);
    var a := DiffHasTail(pr, s, b, r);
    AtAccess(pr, s, a);
    TailIsFinal(pr, a);
    UntouchedKeepsValue(pr, a.tx + 1, FirstOf(pr, b + 1), r);
    var h := WrittenMeansHeadNoted(pr, s, a);
    AtAccess(pr, s, h);
    HeadReadsTheStart(pr, h);
  }

  lemma RestoredIsSerial(pr: Program, s: State, target: nat, r: nat)
    requires Inv(pr, s)
    ensures Restored(pr, s, target, r) == Serial(pr, Source(pr, s, target, r), r)
  {
    hide Inv;
    hide Serial;
    hide FirstOf;
    hide Latest;
    var b := FirstEntry(s, target, r);
    if b < Scheduled(s) {
      DiffIsSerial(pr, s, b, r);
    } else {
      LatestIsSerial(pr, s, r, s.committed);
    }
  }

  /** After any run and a rollback to any batch, the later transactions read serially exactly if
      for every resource they name the batches between the target and the first one with an
      entry, or the committed ones, leave it as it was. */
  lemma RollbackIsSerialExactlyWhen(pr: Program, states: seq<State>, events: seq<Event>, i: nat, target: nat,
                                    q: Program)
    requires IsRun(pr, states, events) && i < |states| && WellFormed(q)
    requires forall r: nat :: q.initial(r) == Restored(pr, states[i], target, r)
    ensures (forall a :: IsAccess(q, a) ==> ReadsAsResumed(pr, target, q, a)) <==>
            forall r :: Accessed(q, r) ==>
              Serial(pr, Source(pr, states[i], target, r), r) == Serial(pr, FirstOf(pr, target), r)
  {
    hide Inv;
    hide IsRun;
    hide Serial;
    hide FirstOf;
    hide ReadsAsResumed;
    hide Accessed;
    hide Restored;
    hide Source;
    RunKeepsInv(pr, states, events, i);
    forall r: nat ensures q.initial(r) == Serial(pr, Source(pr, states[i], target, r), r) {
      RestoredIsSerial(pr, states[i], target, r);
    }
    ResumesSeriallyExactlyWhen(pr, target, q);
  }

  // ---- Diffs submitted in batch order ----

  /** Before an entry of an in-flight batch, every in-flight diff of the resource is submitted. */
  ghost predicate InOrder(pr: Program, s: State, r: nat) {
    forall x, y :: s.committed <= x < y && HasTail(pr, x, r) && HasEntry(s, y, r) ==> (x, r) in s.diffWritten
  }

  /** A batch without an entry leaves the resource as it was, if its diff is submitted. */
  lemma NoEntryNoChange(pr: Program, s: State, x: nat, r: nat)
    requires Inv(pr, s) && !HasEntry(s, x, r) && (HasTail(pr, x, r) ==> (x, r) in s.diffWritten)
    ensures Serial(pr, FirstOf(pr, x), r) == Serial(pr, FirstOf(pr, x + 1), r)
  {
    assert WellFormed(pr);
    hide Inv;
    hide Serial;
    hide FirstOf;
    hide Find;
    hide HasTail;
    if (x, r) in s.diffWritten {
      DiffIsSerial(pr, s, x, r);
    } else {
      FirstAscends(pr, x, x + 1);
      forall t | FirstOf(pr, x) <= t < FirstOf(pr, x + 1) ensures Find(pr, t, r).None? {
        FirstSplits(pr, x, t);
        FirstSplits(pr, x + 1, t);
        AccessHasTail(pr, t, r);
      }
      UntouchedKeepsValue(pr, FirstOf(pr, x), FirstOf(pr, x + 1), r);
    }
  }

  lemma AccessHasTail(pr: Program, t: nat, r: nat)
    requires WellFormed(pr) && t < |pr.txs|
    ensures Find(pr, t, r).Some? ==> HasTail(pr, pr.txs[t].batch, r)
  {
    hide Tail;
    if Find(pr, t, r).Some? {
      var last := TailExists(pr, Find(pr, t, r).value);
    }
  }

  lemma {:induction false} NothingChanges(pr: Program, s: State, b: nat, e: nat, r: nat)
    requires Inv(pr, s) && b <= e && forall x :: b <= x < e ==> !HasEntry(s, x, r)
    requires forall x :: b <= x < e && HasTail(pr, x, r) ==> (x, r) in s.diffWritten
    ensures Serial(pr, FirstOf(pr, b), r) == Serial(pr, FirstOf(pr, e), r)
    decreases e
  {
    hide Inv;
    hide Serial;
    hide FirstOf;
    hide HasTail;
    hide HasEntry;
    if b < e {
      NothingChanges(pr, s, b, e - 1, r);
      NoEntryNoChange(pr, s, e - 1, r);
    }
  }

  lemma CommittedIsSubmitted(pr: Program, s: State, x: nat, r: nat)
    requires Inv(pr, s) && x < s.committed && HasTail(pr, x, r)
    ensures (x, r) in s.diffWritten
  {
    AtBatch(pr, s, x);
    hide Inv;
    hide Tail;
  }

  /** In batch order the pointers lead back to a committed target. */
  lemma InOrderRestores(pr: Program, s: State, target: nat, r: nat)
    requires Inv(pr, s) && target <= s.committed && InOrder(pr, s, r)
    ensures Restored(pr, s, target, r) == Serial(pr, FirstOf(pr, target), r)
  {
    hide Inv;
    hide Serial;
    hide FirstOf;
    hide HasTail;
    hide HasEntry;
    hide Restored;
    var b := FirstEntry(s, target, r);
    var end := if b < Scheduled(s) then b else s.committed;
    forall x | target <= x < end && HasTail(pr, x, r) ensures (x, r) in s.diffWritten {
      if x < s.committed {
        CommittedIsSubmitted(pr, s, x, r);
      }
    }
    CommittedAreScheduled(pr, s);
    NothingChanges(pr, s, target, end, r);
    RestoredIsSerial(pr, s, target, r);
  }

  lemma CommittedAreScheduled(pr: Program, s: State)
    requires Inv(pr, s)
    ensures s.committed <= Scheduled(s)
  {
  }

  /** After any run, rolling back to a committed batch with every diff submitted in batch order
      is serially equivalent to never having scheduled what was rolled back. */
  lemma InOrderRollbackStaysSerial(pr: Program, states: seq<State>, events: seq<Event>, i: nat, target: nat,
                                   q: Program, later: seq<State>, laterEvents: seq<Event>, j: nat)
    requires IsRun(pr, states, events) && i < |states| && target <= states[i].committed
    requires forall r: nat :: InOrder(pr, states[i], r) && q.initial(r) == Restored(pr, states[i], target, r)
    requires IsRun(q, later, laterEvents) && j < |later|
    ensures SerialAcross(pr, target, q, later[j])
  {
    hide Inv;
    hide IsRun;
    hide Serial;
    hide Latest;
    hide FirstOf;
    hide InOrder;
    hide Restored;
    hide SerialAcross;
    var s := states[i];
    RunKeepsInv(pr, states, events, i);
    forall r: nat ensures q.initial(r) == Latest(pr, s, r, target) {
      assert InOrder(pr, s, r);
      InOrderRestores(pr, s, target, r);
      LatestIsSerial(pr, s, r, target);
    }
    RollbackStaysSerial(pr, states, events, i, target, q, later, laterEvents, j);
  }

  // ---- Diffs submitted out of batch order ----

  /** A run that ends in `s`. */
  ghost predicate RunTo(pr: Program, states: seq<State>, events: seq<Event>, s: State) {
    IsRun(pr, states, events) && s == states[|states| - 1]
  }

  lemma Take(pr: Program, states: seq<State>, events: seq<Event>, s: State, e: Event, t: State)
    returns (more: seq<State>, done: seq<Event>)
    requires RunTo(pr, states, events, s) && Next(pr, s, e, t)
    ensures RunTo(pr, more, done, t)
  {
    hide Next;
    LongerRun(pr, states, events, e, t);
    more, done := states + [t], events + [e];
  }

  lemma TakeTask(pr: Program, states: seq<State>, events: seq<Event>, s: State, task: Task, t: State)
    returns (more: seq<State>, done: seq<Event>)
    requires RunTo(pr, states, events, s) && task in s.tasks && IsAccess(pr, task.a) && |s.pending| == |pr.txs|
    requires t == Perform(pr, s, task)
    ensures RunTo(pr, more, done, t)
  {
    hide Perform;
    more, done := Take(pr, states, events, s, Do(task), t);
  }

  lemma TakeExecution(pr: Program, states: seq<State>, events: seq<Event>, s: State, u: nat, t: State)
    returns (more: seq<State>, done: seq<Event>)
    requires RunTo(pr, states, events, s) && u in s.available && u < |pr.txs| == |s.pending|
    requires t == s.(available := s.available - {u}, executed := s.executed + {u}, tasks := s.tasks + Outputs(pr, s, u))
    ensures RunTo(pr, more, done, t)
  {
    more, done := Take(pr, states, events, s, Execute(u), t);
  }

  const X := Id(0, 0)
  const Y := Id(1, 0)
  const V0 := Value(0, "")
  const V1 := Value(1, "x")
  const V2 := Value(2, "x")

  /** Two batches of one transaction each, both writing resource 0. */
  function TwoWriters(): Program {
    Program([Tx(0, [Access(0, true)]), Tx(1, [Access(0, true)])],
            (t: nat, inputs: seq<Value>) => Some([Value(t + 1, "x")]), (r: nat) => V0)
  }

  lemma TwoWritersShape()
    ensures var pr := TwoWriters();
            && WellFormed(pr) && IsAccess(pr, X) && IsAccess(pr, Y) && Prev(pr, X) == None && Prev(pr, Y) == Some(X)
            && AccessesOf(pr, 0) == {X} && AccessesOf(pr, 1) == {Y} && FreeTxs(pr, 0) == {} && FreeTxs(pr, 1) == {}
            && Tail(pr, X) && Tail(pr, Y) && Head(pr, X) && Head(pr, Y)
            && FirstOf(pr, 0) == 0 && FirstOf(pr, 1) == 1
  {
    var pr := TwoWriters();
    assert Find(pr, 0, 0) == Some(X) && Find(pr, 1, 0) == Some(Y);
    assert Last(pr, 1, 0) == Some(X) && Last(pr, 0, 0) == None;
  }

  lemma BothScheduled() returns (states: seq<State>, events: seq<Event>, s: State)
    ensures RunTo(TwoWriters(), states, events, s)
    ensures s == State([{}, {}], 0, map[], map[], map[], [1, 1], {}, {}, map[], map[], {Connect(X), Connect(Y)})
  {
    var pr := TwoWriters();
    TwoWritersShape();
    hide WellFormed;
    hide AccessesOf;
    hide FreeTxs;
    var s0 := Start(pr);
    assert s0.pending == [1, 1];
    var s1 := State([{}], 0, map[], map[], map[], [1, 1], {}, {}, map[], map[], {Connect(X)});
    s := State([{}, {}], 0, map[], map[], map[], [1, 1], {}, {}, map[], map[], {Connect(X), Connect(Y)});
    states, events := [s0], [];
    assert RunTo(pr, states, events, s0);
    assert pr.txs[0].batch >= Scheduled(s0) && pr.txs[1].batch >= Scheduled(s1);
    assert Next(pr, s0, Schedule({}), s1) by {
      assert Apply(pr, s0, Schedule({})).tasks == {Connect(X)};
    }
    states, events := Take(pr, states, events, s0, Schedule({}), s1);
    assert Next(pr, s1, Schedule({}), s) by {
      assert Apply(pr, s1, Schedule({})).tasks == {Connect(X), Connect(Y)};
    }
    states, events := Take(pr, states, events, s1, Schedule({}), s);
  }

  /** The first transaction reads the disk. */
  lemma FirstHasRead() returns (states: seq<State>, events: seq<Event>, s: State)
    ensures RunTo(TwoWriters(), states, events, s)
    ensures s == State([{}, {}], 0, map[], map[X := V0], map[], [1, 1], {}, {}, map[(0, 0) := V0], map[],
                       {Connect(Y), Finish(X)})
  {
    var pr := TwoWriters();
    TwoWritersShape();
    hide WellFormed;
    hide Tail;
    hide AccessesOf;
    hide RunTo;
    hide Next;
    var s0: State;
    states, events, s0 := BothScheduled();
    var s1 := s0.(tasks := {DiskRead(X), Connect(Y)});
    assert DoConnect(pr, s0, X).tasks == s1.tasks;
    states, events := TakeTask(pr, states, events, s0, Connect(X), s1);
    var s2 := s0.(tasks := {SetRead(X, V0, true), Connect(Y)});
    assert DoDiskRead(pr, s1, X).tasks == s2.tasks;
    states, events := TakeTask(pr, states, events, s1, DiskRead(X), s2);
    var s3 := s0.(read := map[X := V0], tasks := {NoteRead(X, V0), Connect(Y)});
    assert DoSetRead(s2, X, V0, true).tasks == s3.tasks;
    states, events := TakeTask(pr, states, events, s2, SetRead(X, V0, true), s3);
    s := s3.(diffRead := map[(0, 0) := V0], tasks := {Connect(Y), Finish(X)});
    assert DoNoteRead(pr, s3, X, V0).tasks == s.tasks;
    states, events := TakeTask(pr, states, events, s3, NoteRead(X, V0), s);
  }

  /** It runs, and sets its written state. */
  lemma FirstHasWritten() returns (states: seq<State>, events: seq<Event>, s: State)
    ensures RunTo(TwoWriters(), states, events, s)
    ensures s == State([{}, {}], 0, map[], map[X := V0], map[X := V1], [0, 1], {}, {0}, map[(0, 0) := V0], map[],
                       {Connect(Y), NoteWritten(X, V1)})
  {
    var pr := TwoWriters();
    TwoWritersShape();
    hide WellFormed;
    hide Tail;
    hide AccessesOf;
    hide RunTo;
    hide Next;
    var s4: State;
    states, events, s4 := FirstHasRead();
    var s5 := s4.(pending := [0, 1], available := {0}, tasks := {Connect(Y)});
    assert DoFinish(s4, X).tasks == s5.tasks;
    states, events := TakeTask(pr, states, events, s4, Finish(X), s5);
    var s6 := s5.(available := {}, executed := {0}, tasks := {Connect(Y), SetWritten(X, V1)});
    assert Outputs(pr, s5, 0) == {SetWritten(X, V1)} by {
      assert Result(pr, X, Inputs(pr, s5, 0)) == V1;
    }
    states, events := TakeExecution(pr, states, events, s5, 0, s6);
    s := s6.(written := map[X := V1], tasks := {Connect(Y), NoteWritten(X, V1)});
    assert DoSetWritten(s6, X, V1).tasks == s.tasks;
    states, events := TakeTask(pr, states, events, s6, SetWritten(X, V1), s);
  }

  /** The second one finds that state. */
  lemma SecondHasRead() returns (states: seq<State>, events: seq<Event>, s: State)
    ensures RunTo(TwoWriters(), states, events, s)
    ensures s == State([{}, {}], 0, map[X := Y], map[X := V0, Y := V1], map[X := V1], [0, 1], {}, {0},
                       map[(0, 0) := V0, (1, 0) := V1], map[], {NoteWritten(X, V1), Finish(Y)})
  {
    var pr := TwoWriters();
    TwoWritersShape();
    hide WellFormed;
    hide Tail;
    hide AccessesOf;
    hide RunTo;
    hide Next;
    var s0: State;
    states, events, s0 := FirstHasWritten();
    var rest := NoteWritten(X, V1);
    var s1 := s0.(next := map[X := Y], tasks := {Check(Y), rest});
    assert DoConnect(pr, s0, Y).tasks == s1.tasks;
    states, events := TakeTask(pr, states, events, s0, Connect(Y), s1);
    var s2 := s1.(tasks := {SetRead(Y, V1, true), rest});
    assert DoCheck(pr, s1, Y).tasks == s2.tasks;
    states, events := TakeTask(pr, states, events, s1, Check(Y), s2);
    var s3 := s2.(read := map[X := V0, Y := V1], tasks := {NoteRead(Y, V1), rest});
    assert DoSetRead(s2, Y, V1, true).tasks == s3.tasks;
    states, events := TakeTask(pr, states, events, s2, SetRead(Y, V1, true), s3);
    s := s3.(diffRead := map[(0, 0) := V0, (1, 0) := V1], tasks := {rest, Finish(Y)});
    assert DoNoteRead(pr, s3, Y, V1).tasks == s.tasks;
    states, events := TakeTask(pr, states, events, s3, NoteRead(Y, V1), s);
  }

  /** It runs, and submits its diff before the first one does. */
  lemma SecondSubmitsFirst() returns (states: seq<State>, events: seq<Event>, s: State)
    ensures RunTo(TwoWriters(), states, events, s)
    ensures (1, 0) in s.diffWritten && (0, 0) !in s.diffWritten && s.committed == 0 && Scheduled(s) == 2
    ensures s.diffRead == map[(0, 0) := V0, (1, 0) := V1] && s.diffWritten[(1, 0)] == V2
  {
    var pr := TwoWriters();
    TwoWritersShape();
    hide WellFormed;
    hide Tail;
    hide AccessesOf;
    hide RunTo;
    hide Next;
    var s4: State;
    states, events, s4 := SecondHasRead();
    var rest := NoteWritten(X, V1);
    var s5 := s4.(pending := [0, 0], available := {1}, tasks := {rest});
    assert DoFinish(s4, Y).tasks == s5.tasks;
    states, events := TakeTask(pr, states, events, s4, Finish(Y), s5);
    var s6 := s5.(available := {}, executed := {0, 1}, tasks := {rest, SetWritten(Y, V2)});
    assert Outputs(pr, s5, 1) == {SetWritten(Y, V2)} by {
      assert Result(pr, Y, Inputs(pr, s5, 1)) == V2;
    }
    states, events := TakeExecution(pr, states, events, s5, 1, s6);
    var s7 := s6.(written := map[X := V1, Y := V2], tasks := {rest, NoteWritten(Y, V2)});
    assert DoSetWritten(s6, Y, V2).tasks == s7.tasks;
    states, events := TakeTask(pr, states, events, s6, SetWritten(Y, V2), s7);
    s := s7.(diffWritten := map[(1, 0) := V2], tasks := {rest, HandOver(Y, V2)});
    assert DoNoteWritten(pr, s7, Y, V2).tasks == s.tasks;
    states, events := TakeTask(pr, states, events, s7, NoteWritten(Y, V2), s);
  }

  /** So the order is not kept, and a later transaction can read what was rolled back: with
      both batches undone, the latest pointer leads to the state the first of them wrote. */
  lemma OutOfOrderDiffIsMissed()
    returns (pr: Program, states: seq<State>, events: seq<Event>, q: Program)
    ensures IsRun(pr, states, events) && states[|states| - 1].committed == 0
    ensures forall r: nat :: q.initial(r) == Restored(pr, states[|states| - 1], 0, r)
    ensures WellFormed(q) && IsAccess(q, Id(0, 0)) && !ReadsAsResumed(pr, 0, q, Id(0, 0))
  {
    hide IsRun;
    var s: State;
    pr := TwoWriters();
    TwoWritersShape();
    states, events, s := SecondSubmitsFirst();
    q := pr.(initial := (r: nat) => Restored(pr, s, 0, r));
    assert FirstEntry(s, 1, 0) == 1 && FirstEntry(s, 0, 0) == 1;
    KeptIsSerial(pr, 0, q, 0, 0);
  }
}
