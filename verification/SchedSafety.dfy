/** What every step of the access chains keeps. */
module SchedSafety {
  import opened Options
  import opened SchedProgram
  import opened SchedMachine

  // ---- The stages of one access ----

  /** The step by which `a` itself looks for its read state. */
  ghost predicate Seeking(pr: Program, s: State, a: Id)
    requires IsAccess(pr, a)
  {
    Connect(a) in s.tasks || Check(a) in s.tasks || DiskRead(a) in s.tasks
    || SetRead(a, SerialRead(pr, a), true) in s.tasks
  }

  /** `a` is registered with its predecessor, which still has to hand over. */
  ghost predicate Promised(pr: Program, s: State, a: Id)
    requires IsAccess(pr, a)
  {
    var p := Link(pr, s, a);
    && p.Some? && p.value in s.next && s.next[p.value] == a
    && (p.value in s.written ==> NoteWritten(p.value, SerialWritten(pr, p.value)) in s.tasks
                                 || HandOver(p.value, SerialWritten(pr, p.value)) in s.tasks)
  }

  /** The read state is set and recorded for the batch. */
  ghost predicate Noted(pr: Program, s: State, a: Id)
    requires IsAccess(pr, a)
  {
    a in s.read && NoteRead(a, SerialRead(pr, a)) !in s.tasks
  }

  /** The access has been counted down. */
  ghost predicate Counted(pr: Program, s: State, a: Id)
    requires IsAccess(pr, a)
  {
    Noted(pr, s, a) && Finish(a) !in s.tasks
  }

  ghost predicate WrittenNoted(pr: Program, s: State, a: Id)
    requires IsAccess(pr, a)
  {
    a in s.written && NoteWritten(a, SerialWritten(pr, a)) !in s.tasks
  }

  /** Reading: the state is the serial one, comes from exactly one place, and while it is
      missing something is on its way. */
  ghost predicate ReadStage(pr: Program, s: State, a: Id)
    requires IsAccess(pr, a)
  {
    var v, p := SerialRead(pr, a), Link(pr, s, a);
    && (a in s.read ==> s.read[a] == v)
    && (a !in s.read ==> Seeking(pr, s, a) || SetRead(a, v, false) in s.tasks || Promised(pr, s, a))
    && (Connect(a) in s.tasks ==>
          && Check(a) !in s.tasks && DiskRead(a) !in s.tasks && SetRead(a, v, true) !in s.tasks
          && SetRead(a, v, false) !in s.tasks && a !in s.read)
    && (p.None? ==> Check(a) !in s.tasks && SetRead(a, v, false) !in s.tasks)
    && (p.None? && DiskRead(a) in s.tasks ==> SetRead(a, v, true) !in s.tasks && a !in s.read)
    && (p.None? && SetRead(a, v, true) in s.tasks ==> a !in s.read)
    && (p.Some? ==> DiskRead(a) !in s.tasks)
    && (p.Some? && Connect(a) !in s.tasks && p.value !in s.written ==> p.value in s.next && s.next[p.value] == a)
    && (p.Some? && (a in s.read || SetRead(a, v, true) in s.tasks || SetRead(a, v, false) in s.tasks) ==>
          p.value in s.written)
  }

  /** From the read state to the count-down and the written state. */
  ghost predicate WriteStage(pr: Program, s: State, a: Id)
    requires IsAccess(pr, a)
  {
    var v, w := SerialRead(pr, a), SerialWritten(pr, a);
    && (NoteRead(a, v) in s.tasks ==> a in s.read && Finish(a) !in s.tasks)
    && (Finish(a) in s.tasks ==> a in s.read)
    && (SetWritten(a, w) in s.tasks || a in s.written ==> Noted(pr, s, a))
    && (a in s.written ==> s.written[a] == w && SetWritten(a, w) !in s.tasks)
    && (NoteWritten(a, w) in s.tasks ==> a in s.written && HandOver(a, w) !in s.tasks)
    && (HandOver(a, w) in s.tasks ==> a in s.written)
    && (!Writes(pr, a) && Noted(pr, s, a) ==> SetWritten(a, w) in s.tasks || a in s.written)
    && (Writes(pr, a) ==> (a.tx in s.executed <==> SetWritten(a, w) in s.tasks || a in s.written))
  }

  /** The diffs of the batch hold the first read and the last written state. */
  ghost predicate DiffStage(pr: Program, s: State, a: Id)
    requires IsAccess(pr, a)
  {
    var d := (BatchOf(pr, a), ResourceOf(pr, a));
    && (Head(pr, a) ==> (d in s.diffRead <==> Noted(pr, s, a)))
    && (Head(pr, a) && d in s.diffRead ==> s.diffRead[d] == SerialRead(pr, a))
    && (Tail(pr, a) ==> (d in s.diffWritten <==> WrittenNoted(pr, s, a)))
    && (Tail(pr, a) && d in s.diffWritten ==> s.diffWritten[d] == SerialWritten(pr, a))
  }

  /** An access of a batch not yet scheduled has left no trace. */
  ghost predicate Unborn(pr: Program, s: State, a: Id)
    requires IsAccess(pr, a)
  {
    a !in s.read && a !in s.written && a !in s.next && a.tx !in s.executed
    && forall task :: task in s.tasks ==> task.a != a
  }

  /** A successor registered with `a` really follows it. */
  ghost predicate NextStage(pr: Program, s: State, a: Id)
    requires IsAccess(pr, a)
  {
    a in s.next ==>
      var n := s.next[a];
      && IsAccess(pr, n) && Link(pr, s, n) == Some(a) && BatchOf(pr, n) < Scheduled(s)
      && Connect(n) !in s.tasks
  }

  /** Evicted predecessors are on disk. */
  ghost predicate EvictStage(pr: Program, s: State, a: Id)
    requires IsAccess(pr, a)
  {
    Link(pr, s, a).None? && Prev(pr, a).Some? ==> BatchOf(pr, Prev(pr, a).value) < s.committed
  }

  ghost predicate AccessInv(pr: Program, s: State, a: Id)
    requires IsAccess(pr, a)
  {
    if BatchOf(pr, a) >= Scheduled(s) then Unborn(pr, s, a)
    else
      && ReadStage(pr, s, a) && WriteStage(pr, s, a) && DiffStage(pr, s, a)
      && NextStage(pr, s, a) && EvictStage(pr, s, a)
  }

  /** Tasks carry serial values. */
  ghost predicate TaskInv(pr: Program, s: State, task: Task) {
    && IsAccess(pr, task.a) && BatchOf(pr, task.a) < Scheduled(s)
    && match task
       case SetRead(a, v, _) => v == SerialRead(pr, a)
       case NoteRead(a, v) => v == SerialRead(pr, a)
       case SetWritten(a, v) => v == SerialWritten(pr, a)
       case NoteWritten(a, v) => v == SerialWritten(pr, a)
       case HandOver(a, v) => v == SerialWritten(pr, a)
       case _ => true
  }

  /** How many of the first `n` accesses of `t` are not counted down. */
  ghost function Open(pr: Program, s: State, t: nat, n: nat): nat
    requires t < |pr.txs| && n <= |pr.txs[t].accesses|
  {
    if n == 0 then 0 else Open(pr, s, t, n - 1) + if Counted(pr, s, Id(t, n - 1)) then 0 else 1
  }

  /** The counter counts, and the transaction is offered exactly when it reaches zero. */
  ghost predicate TxInv(pr: Program, s: State, t: nat)
    requires t < |pr.txs|
  {
    && |s.pending| == |pr.txs|
    && s.pending[t] == Open(pr, s, t, |pr.txs[t].accesses|)
    && (t in s.available || t in s.executed <==> pr.txs[t].batch < Scheduled(s) && s.pending[t] == 0)
    && !(t in s.available && t in s.executed)
  }

  ghost predicate HasTail(pr: Program, b: nat, r: nat) {
    exists a :: IsAccess(pr, a) && Tail(pr, a) && BatchOf(pr, a) == b && ResourceOf(pr, a) == r
  }

  ghost predicate CommitInv(pr: Program, s: State) {
    && s.committed <= Scheduled(s)
    && (forall b :: 0 <= b < s.committed ==> Processed(pr, s, b))
    && (forall b, r :: (b, r) in s.diffRead ==> b < Scheduled(s))
    && (forall b, r :: (b, r) in s.diffWritten ==> b < Scheduled(s) && HasTail(pr, b, r))
  }

  ghost predicate Inv(pr: Program, s: State) {
    && WellFormed(pr) && |s.pending| == |pr.txs| && CommitInv(pr, s)
    && (forall a :: IsAccess(pr, a) ==> AccessInv(pr, s, a))
    && (forall task :: task in s.tasks ==> TaskInv(pr, s, task))
    && (forall t :: 0 <= t < |pr.txs| ==> TxInv(pr, s, t))
    && (forall t :: t in s.available || t in s.executed ==> t < |pr.txs|)
    && (forall a :: a in s.read || a in s.written || a in s.next ==> IsAccess(pr, a))
  }

  lemma StartInv(pr: Program)
    requires WellFormed(pr)
    ensures Inv(pr, Start(pr))
  {
    var s := Start(pr);
    forall t | 0 <= t < |pr.txs| ensures TxInv(pr, s, t) {
      AllOpen(pr, s, t, |pr.txs[t].accesses|);
    }
  }

  lemma {:induction false} AllOpen(pr: Program, s: State, t: nat, n: nat)
    requires t < |pr.txs| && n <= |pr.txs[t].accesses| && forall a :: a in s.read ==> a.tx != t
    ensures Open(pr, s, t, n) == n
  {
    if n > 0 {
      AllOpen(pr, s, t, n - 1);
    }
  }
}
