/** How long the scheduler can keep moving: every hand-off step and every execution uses up some
    of a fixed amount of work, so every run settles. */
module SchedBound {
  import opened Options
  import opened SchedProgram
  import opened SchedMachine
  import opened SchedSafety
  import opened SchedInvariant
  import opened SchedTheorems

  function One(b: bool): nat {
    if b then 1 else 0
  }

  /** A value is on its way from `a` to its successor. */
  ghost predicate Handing(pr: Program, s: State, a: Id) {
    exists y :: IsAccess(pr, y) && Prev(pr, y) == Some(a) && SetRead(y, SerialRead(pr, y), false) in s.tasks
  }

  /** Where an access stands, as far as it costs work: whether it waits to be connected, seeks
      its read state, has to set and note it, to be counted down, to get its written state,
      to set and note that, and to hand it over. */
  datatype Facts = Facts(waiting: nat, check: nat, diskRead: nat, setRead: nat, reading: nat, finish: nat, owed: nat,
                         writing: nat, handOver: nat, handing: nat)

  ghost function FactsOf(pr: Program, s: State, a: Id): Facts
    requires IsAccess(pr, a)
  {
    var v, w := SerialRead(pr, a), SerialWritten(pr, a);
    Facts(One(BatchOf(pr, a) >= Scheduled(s)) + One(Connect(a) in s.tasks), One(Check(a) in s.tasks),
          One(DiskRead(a) in s.tasks), One(SetRead(a, v, true) in s.tasks),
          One(a !in s.read) + One(NoteRead(a, v) in s.tasks), One(Finish(a) in s.tasks),
          One(a.tx !in s.executed) + One(SetWritten(a, w) in s.tasks),
          One(a !in s.written) + One(NoteWritten(a, w) in s.tasks), One(HandOver(a, w) in s.tasks),
          One(Handing(pr, s, a)))
  }

  /** Each stage costs more than what it turns into. */
  function Cost(f: Facts): nat {
    5 * f.waiting + 2 * f.check + 2 * f.diskRead + f.setRead + 3 * f.reading + f.finish + f.owed + 3 * f.writing
    + 2 * f.handOver + f.handing
  }

  ghost function Work(pr: Program, s: State, a: Id): nat
    requires IsAccess(pr, a)
  {
    Cost(FactsOf(pr, s, a))
  }

  /** `g` has nothing that `f` has not. */
  predicate Within(g: Facts, f: Facts) {
    && g.waiting <= f.waiting && g.check <= f.check && g.diskRead <= f.diskRead && g.setRead <= f.setRead
    && g.reading <= f.reading && g.finish <= f.finish && g.owed <= f.owed && g.writing <= f.writing
    && g.handOver <= f.handOver && g.handing <= f.handing
  }

  lemma LessCostsLess(g: Facts, f: Facts)
    requires Within(g, f)
    ensures Cost(g) <= Cost(f)
  {
  }

  /** What the facts of the paying access become in a step. */
  ghost predicate Pays(task: Task, g: Facts, f: Facts) {
    match task
    case Connect(_) => f.waiting > 0 && Within(g, f.(waiting := f.waiting - 1, check := 1, diskRead := 1))
    case Check(_) => f.check == 1 && Within(g, f.(check := 0, setRead := 1))
    case DiskRead(_) => f.diskRead == 1 && Within(g, f.(diskRead := 0, setRead := 1))
    case SetRead(_, _, direct) =>
      if direct then f.setRead == 1 && Within(g, f.(setRead := 0)) else f.handing == 1 && Within(g, f.(handing := 0))
    case NoteRead(_, _) => f.reading > 0 && Within(g, f.(reading := f.reading - 1, finish := 1, owed := f.owed + 1))
    case Finish(_) => f.finish == 1 && Within(g, f.(finish := 0))
    case SetWritten(_, _) => f.owed > 0 && Within(g, f.(owed := f.owed - 1))
    case NoteWritten(_, _) => f.writing > 0 && Within(g, f.(writing := f.writing - 1, handOver := 1))
    case HandOver(_, _) => f.handOver == 1 && Within(g, f.(handOver := 0, handing := 1))
  }

  lemma PayingLowersCost(task: Task, g: Facts, f: Facts)
    requires Pays(task, g, f)
    ensures Cost(g) < Cost(f)
  {
  }

  /** What a step may leave to do. */
  predicate Follows(task: Task, n: Task) {
    match task
    case Connect(a) => n == Check(a) || n == DiskRead(a)
    case Check(a) => n.SetRead? && n.a == a && n.direct
    case DiskRead(a) => n.SetRead? && n.a == a && n.direct
    case SetRead(a, v, _) => n == NoteRead(a, v)
    case NoteRead(a, v) => n == Finish(a) || n == SetWritten(a, v)
    case Finish(_) => false
    case SetWritten(a, v) => n == NoteWritten(a, v)
    case NoteWritten(a, v) => n == HandOver(a, v)
    case HandOver(_, _) => n.SetRead? && !n.direct
  }

  /** What a step changes: its task goes, tasks that follow it come, and a slot is set along
      with a task to note it. */
  ghost predicate Turns(s: State, task: Task, t: State) {
    && s.evictions == t.evictions && s.executed == t.executed && task in s.tasks && task !in t.tasks
    && (forall n :: n in t.tasks && n !in s.tasks ==> Follows(task, n))
    && s.read.Keys <= t.read.Keys && s.written.Keys <= t.written.Keys
    && (forall x, v :: NoteRead(x, v) in t.tasks && NoteRead(x, v) !in s.tasks ==> x !in s.read && x in t.read)
    && (forall x, v :: NoteWritten(x, v) in t.tasks && NoteWritten(x, v) !in s.tasks ==>
          x !in s.written && x in t.written)
  }

  lemma ConnectingTurns(pr: Program, s: State, task: Task)
    requires task in s.tasks && IsAccess(pr, task.a) && |s.pending| == |pr.txs|
    requires task.Connect?
    ensures Turns(s, task, Perform(pr, s, task))
  {
    hide Link;
    hide Latest;
    hide Head;
    hide Tail;
    hide Serial;
  }

  lemma SeekingTurns(pr: Program, s: State, task: Task)
    requires task in s.tasks && IsAccess(pr, task.a) && |s.pending| == |pr.txs|
    requires task.Check? || task.DiskRead?
    ensures Turns(s, task, Perform(pr, s, task))
  {
    hide Link;
    hide Latest;
    hide Head;
    hide Tail;
    hide Serial;
  }

  lemma ReadingTurns(pr: Program, s: State, task: Task)
    requires task in s.tasks && IsAccess(pr, task.a) && |s.pending| == |pr.txs|
    requires task.SetRead? || task.NoteRead? || task.Finish?
    ensures Turns(s, task, Perform(pr, s, task))
  {
    hide Link;
    hide Latest;
    hide Head;
    hide Tail;
    hide Serial;
  }

  lemma WritingTurns(pr: Program, s: State, task: Task)
    requires task in s.tasks && IsAccess(pr, task.a) && |s.pending| == |pr.txs|
    requires task.SetWritten? || task.NoteWritten? || task.HandOver?
    ensures Turns(s, task, Perform(pr, s, task))
  {
    hide Link;
    hide Latest;
    hide Head;
    hide Tail;
    hide Serial;
  }

  lemma PerformTurns(pr: Program, s: State, task: Task)
    requires task in s.tasks && IsAccess(pr, task.a) && |s.pending| == |pr.txs|
    ensures Turns(s, task, Perform(pr, s, task))
  {
    hide Turns;
    hide Perform;
    if task.Connect? {
      ConnectingTurns(pr, s, task);
    } else if task.Check? || task.DiskRead? {
      SeekingTurns(pr, s, task);
    } else if task.SetRead? || task.NoteRead? || task.Finish? {
      ReadingTurns(pr, s, task);
    } else {
      WritingTurns(pr, s, task);
    }
  }

  /** The access whose work step `task` uses up: the last step of a hand-over is paid for by
      the access that handed over. */
  function Payer(pr: Program, task: Task): Id
    requires IsAccess(pr, task.a)
  {
    if task.SetRead? && !task.direct && Prev(pr, task.a).Some? then Prev(pr, task.a).value else task.a
  }

  /** Whether `x` is handing over changes with the steps of its own hand-over only. */
  lemma HandingChanges(pr: Program, s: State, task: Task, x: Id)
    requires Inv(pr, s) && task in s.tasks && IsAccess(pr, task.a) && |s.pending| == |pr.txs| && IsAccess(pr, x)
    ensures Handing(pr, Perform(pr, s, task), x) ==> Handing(pr, s, x) || (task.HandOver? && x == task.a)
    ensures task.SetRead? && !task.direct ==>
              && Prev(pr, task.a).Some? && Prev(pr, task.a).value != task.a
              && (x == Prev(pr, task.a).value ==> Handing(pr, s, x) && !Handing(pr, Perform(pr, s, task), x))
  {
    hide Inv;
    hide Prev;
    hide Serial;
    hide Link;
    hide Perform;
    var t := Perform(pr, s, task);
    PerformTurns(pr, s, task);
    AtTask(pr, s, task);
    if Handing(pr, t, x) {
      HandingIsOld(pr, s, task, x);
    }
    if task.SetRead? && !task.direct {
      HandedByPrev(pr, s, task);
      if x == Prev(pr, task.a).value {
        WasHanding(pr, s, x, task.a);
        NoLongerHanding(pr, t, x, task.a);
      }
    }
  }

  lemma HandingIsOld(pr: Program, s: State, task: Task, x: Id)
    requires Inv(pr, s) && task in s.tasks && IsAccess(pr, task.a) && |s.pending| == |pr.txs|
    requires Handing(pr, Perform(pr, s, task), x)
    ensures Handing(pr, s, x) || (task.HandOver? && x == task.a)
  {
    hide Inv;
    hide Prev;
    hide Serial;
    hide Link;
    hide Perform;
    var t := Perform(pr, s, task);
    PerformTurns(pr, s, task);
    var y :| IsAccess(pr, y) && Prev(pr, y) == Some(x) && SetRead(y, SerialRead(pr, y), false) in t.tasks;
    if SetRead(y, SerialRead(pr, y), false) !in s.tasks {
      HandsToSuccessor(pr, s, task, y);
    }
  }

  lemma HandsToSuccessor(pr: Program, s: State, task: Task, y: Id)
    requires Inv(pr, s) && IsAccess(pr, task.a) && |s.pending| == |pr.txs| && task.HandOver? && IsAccess(pr, y)
    requires exists v :: SetRead(y, v, false) in Perform(pr, s, task).tasks && SetRead(y, v, false) !in s.tasks
    ensures Prev(pr, y) == Some(task.a)
  {
    hide Inv;
    hide Prev;
    assert task.a in s.next && s.next[task.a] == y;
    AtNext(pr, s, task.a);
  }

  lemma HandedByPrev(pr: Program, s: State, task: Task)
    requires Inv(pr, s) && task in s.tasks && IsAccess(pr, task.a) && task.SetRead? && !task.direct
    ensures Prev(pr, task.a).Some? && Prev(pr, task.a).value != task.a && task.v == SerialRead(pr, task.a)
  {
    hide Inv;
    hide Prev;
    hide Serial;
    AtTask(pr, s, task);
  }

  lemma WasHanding(pr: Program, s: State, x: Id, a: Id)
    requires IsAccess(pr, a) && Prev(pr, a) == Some(x) && SetRead(a, SerialRead(pr, a), false) in s.tasks
    ensures Handing(pr, s, x)
  {
  }

  lemma NoLongerHanding(pr: Program, t: State, x: Id, a: Id)
    requires WellFormed(pr) && IsAccess(pr, a) && Prev(pr, a) == Some(x)
    requires SetRead(a, SerialRead(pr, a), false) !in t.tasks
    ensures !Handing(pr, t, x)
  {
    hide Prev;
    hide Serial;
    hide WellFormed;
    if Handing(pr, t, x) {
      var y :| IsAccess(pr, y) && Prev(pr, y) == Some(x) && SetRead(y, SerialRead(pr, y), false) in t.tasks;
      PrevIsInjective(pr, y, a);
    }
  }

  /** What a step does to the facts of its own access. */
  lemma OwnFacts(pr: Program, s: State, task: Task, t: State)
    requires Turns(s, task, t) && IsAccess(pr, task.a) && TaskInv(pr, s, task)
    requires Handing(pr, t, task.a) ==> Handing(pr, s, task.a) || task.HandOver?
    ensures var f, g := FactsOf(pr, s, task.a), FactsOf(pr, t, task.a);
            if task.SetRead? && !task.direct then Within(g, f) else Pays(task, g, f)
  {
    hide Serial;
    hide Handing;
  }

  /** What it does to those of any other. */
  lemma OtherFacts(pr: Program, s: State, task: Task, t: State, x: Id)
    requires Turns(s, task, t) && IsAccess(pr, x) && x != task.a && (Handing(pr, t, x) ==> Handing(pr, s, x))
    ensures Within(FactsOf(pr, t, x), FactsOf(pr, s, x))
  {
    hide Serial;
    hide Handing;
  }

  lemma HandedPays(pr: Program, s: State, t: State, task: Task, x: Id)
    requires IsAccess(pr, x) && Within(FactsOf(pr, t, x), FactsOf(pr, s, x)) && Handing(pr, s, x) && !Handing(pr, t, x)
    requires task.SetRead? && !task.direct
    ensures Pays(task, FactsOf(pr, t, x), FactsOf(pr, s, x))
  {
    hide Serial;
    hide Handing;
  }

  /** Every hand-off step uses up work, and adds none. */
  lemma StepUsesWork(pr: Program, s: State, task: Task, x: Id)
    requires Inv(pr, s) && task in s.tasks && IsAccess(pr, task.a) && |s.pending| == |pr.txs| && IsAccess(pr, x)
    ensures IsAccess(pr, Payer(pr, task))
    ensures Work(pr, Perform(pr, s, task), x) + One(x == Payer(pr, task)) <= Work(pr, s, x)
  {
    hide Inv;
    hide Prev;
    hide Perform;
    hide Handing;
    hide FactsOf;
    hide Turns;
    hide Cost;
    hide Pays;
    hide Within;
    hide TaskInv;
    var t := Perform(pr, s, task);
    var f, g := FactsOf(pr, s, x), FactsOf(pr, t, x);
    AtTask(pr, s, task);
    PerformTurns(pr, s, task);
    HandingChanges(pr, s, task, x);
    if x == task.a {
      OwnFacts(pr, s, task, t);
    } else {
      OtherFacts(pr, s, task, t, x);
      if x == Payer(pr, task) {
        HandedPays(pr, s, t, task, x);
      }
    }
    if x == Payer(pr, task) {
      PayingLowersCost(task, g, f);
    } else {
      LessCostsLess(g, f);
    }
  }

  lemma NothingHanded(pr: Program, s: State, t: State, x: Id)
    requires forall y, v :: SetRead(y, v, false) in t.tasks ==> SetRead(y, v, false) in s.tasks
    ensures Handing(pr, t, x) ==> Handing(pr, s, x)
  {
    if Handing(pr, t, x) {
      var y :| IsAccess(pr, y) && Prev(pr, y) == Some(x) && SetRead(y, SerialRead(pr, y), false) in t.tasks;
    }
  }

  /** An execution turns the promise of its writes into tasks. */
  lemma ExecuteAddsNoWork(pr: Program, s: State, u: nat, x: Id)
    requires u in s.available && u !in s.executed && u < |pr.txs| && IsAccess(pr, x) && |s.pending| == |pr.txs|
    ensures Work(pr, Apply(pr, s, Execute(u)), x) <= Work(pr, s, x)
  {
    hide Serial;
    hide Prev;
    hide Handing;
    hide Inputs;
    hide Result;
    hide Cost;
    NothingHanded(pr, s, Apply(pr, s, Execute(u)), x);
    LessCostsLess(FactsOf(pr, Apply(pr, s, Execute(u)), x), FactsOf(pr, s, x));
  }

  /** Scheduling and committing add no work: an unscheduled access was counted already. */
  lemma OtherEventsAddNoWork(pr: Program, s: State, e: Event, x: Id)
    requires (e.Schedule? || e.Commit?) && IsAccess(pr, x) && |s.pending| == |pr.txs|
    ensures Work(pr, Apply(pr, s, e), x) <= Work(pr, s, x)
  {
    hide Serial;
    hide Prev;
    hide Handing;
    hide Cost;
    NothingHanded(pr, s, Apply(pr, s, e), x);
    LessCostsLess(FactsOf(pr, Apply(pr, s, e), x), FactsOf(pr, s, x));
  }

  // ---- Adding it up ----

  ghost function TxWork(pr: Program, s: State, u: nat, n: nat): nat
    requires u < |pr.txs| && n <= |pr.txs[u].accesses|
  {
    if n == 0 then One(u !in s.executed) else TxWork(pr, s, u, n - 1) + Work(pr, s, Id(u, n - 1))
  }

  /** The work left in all. */
  ghost function Total(pr: Program, s: State, n: nat): nat
    requires n <= |pr.txs|
  {
    if n == 0 then 0 else Total(pr, s, n - 1) + TxWork(pr, s, n - 1, |pr.txs[n - 1].accesses|)
  }

  /** The work a program is worth: twelve units per access and one per transaction. */
  function Worth(pr: Program, n: nat): nat
    requires n <= |pr.txs|
  {
    if n == 0 then 0 else Worth(pr, n - 1) + 1 + 12 * |pr.txs[n - 1].accesses|
  }

  /** No access has more work in `t`, and no transaction is executed in `s` only. */
  ghost predicate Less(pr: Program, s: State, t: State) {
    s.executed <= t.executed && forall x :: IsAccess(pr, x) ==> Work(pr, t, x) <= Work(pr, s, x)
  }

  lemma {:induction false} TxWorkFalls(pr: Program, s: State, t: State, u: nat, n: nat)
    requires Less(pr, s, t) && u < |pr.txs| && n <= |pr.txs[u].accesses|
    ensures TxWork(pr, t, u, n) <= TxWork(pr, s, u, n)
    ensures u !in s.executed && u in t.executed ==> TxWork(pr, t, u, n) < TxWork(pr, s, u, n)
    ensures forall k :: 0 <= k < n && Work(pr, t, Id(u, k)) < Work(pr, s, Id(u, k)) ==>
              TxWork(pr, t, u, n) < TxWork(pr, s, u, n)
  {
    hide Work;
    if n > 0 {
      TxWorkFalls(pr, s, t, u, n - 1);
    }
  }

  lemma {:induction false} TotalFalls(pr: Program, s: State, t: State, u: nat, n: nat)
    requires Less(pr, s, t) && n <= |pr.txs|
    ensures Total(pr, t, n) <= Total(pr, s, n)
    ensures u < n && TxWork(pr, t, u, |pr.txs[u].accesses|) < TxWork(pr, s, u, |pr.txs[u].accesses|) ==>
              Total(pr, t, n) < Total(pr, s, n)
  {
    hide Work;
    hide TxWork;
    if n > 0 {
      TotalFalls(pr, s, t, u, n - 1);
      TxWorkFalls(pr, s, t, n - 1, |pr.txs[n - 1].accesses|);
    }
  }

  /** A step or an execution. */
  predicate Moves(e: Event) {
    e.Do? || e.Execute?
  }

  /** Every step and every execution lowers the work left; no other event raises it. */
  lemma EventsUseWork(pr: Program, s: State, e: Event, t: State)
    requires Inv(pr, s) && Next(pr, s, e, t)
    ensures Total(pr, t, |pr.txs|) + One(Moves(e)) <= Total(pr, s, |pr.txs|)
  {
    hide Inv;
    hide Work;
    hide Total;
    hide TxWork;
    hide Perform;
    hide Evictable;
    hide Processed;
    hide Outputs;
    match e {
      case Do(task) =>
        forall x | IsAccess(pr, x) ensures Work(pr, t, x) + One(x == Payer(pr, task)) <= Work(pr, s, x) {
          StepUsesWork(pr, s, task, x);
        }
        var p := Payer(pr, task);
        StepUsesWork(pr, s, task, task.a);
        KeepsExecuted(pr, s, task);
        TxWorkFalls(pr, s, t, p.tx, |pr.txs[p.tx].accesses|);
        assert Work(pr, t, Id(p.tx, p.k)) < Work(pr, s, Id(p.tx, p.k));
        TotalFalls(pr, s, t, p.tx, |pr.txs|);
      case Execute(u) =>
        AvailableIsNew(pr, s, u);
        forall x | IsAccess(pr, x) ensures Work(pr, t, x) <= Work(pr, s, x) {
          ExecuteAddsNoWork(pr, s, u, x);
        }
        TxWorkFalls(pr, s, t, u, |pr.txs[u].accesses|);
        TotalFalls(pr, s, t, u, |pr.txs|);
      case _ =>
        forall x | IsAccess(pr, x) ensures Work(pr, t, x) <= Work(pr, s, x) {
          OtherEventsAddNoWork(pr, s, e, x);
        }
        TotalFalls(pr, s, t, 0, |pr.txs|);
    }
  }

  lemma KeepsExecuted(pr: Program, s: State, task: Task)
    requires IsAccess(pr, task.a) && |s.pending| == |pr.txs|
    ensures Perform(pr, s, task).executed == s.executed
  {
  }

  lemma AvailableIsNew(pr: Program, s: State, u: nat)
    requires Inv(pr, s) && u in s.available && u < |pr.txs|
    ensures u !in s.executed
  {
    hide Inv;
    hide Open;
    AtTx(pr, s, u);
  }

  // ---- Runs ----

  function Moved(events: seq<Event>): nat {
    if events == [] then 0 else Moved(events[..|events| - 1]) + One(Moves(events[|events| - 1]))
  }

  lemma FactsAtStart(pr: Program, a: Id)
    requires IsAccess(pr, a)
    ensures FactsOf(pr, Start(pr), a) == Facts(1, 0, 0, 0, 1, 0, 1, 1, 0, 0)
  {
    hide Serial;
    hide Prev;
    assert !Handing(pr, Start(pr), a);
  }

  lemma {:induction false} TxWorkAtStart(pr: Program, u: nat, n: nat)
    requires u < |pr.txs| && n <= |pr.txs[u].accesses|
    ensures TxWork(pr, Start(pr), u, n) == 1 + 12 * n
  {
    hide FactsOf;
    if n > 0 {
      TxWorkAtStart(pr, u, n - 1);
      FactsAtStart(pr, Id(u, n - 1));
    }
  }

  lemma {:induction false} TotalAtStart(pr: Program, n: nat)
    requires n <= |pr.txs|
    ensures Total(pr, Start(pr), n) == Worth(pr, n)
  {
    hide TxWork;
    if n > 0 {
      TotalAtStart(pr, n - 1);
      TxWorkAtStart(pr, n - 1, |pr.txs[n - 1].accesses|);
    }
  }

  /** In every run the steps and executions taken and the work left stay within what the
      program is worth. */
  lemma {:induction false} StepsAreBounded(pr: Program, states: seq<State>, events: seq<Event>, i: nat)
    requires IsRun(pr, states, events) && i < |states|
    ensures Moved(events[..i]) + Total(pr, states[i], |pr.txs|) <= Worth(pr, |pr.txs|)
  {
    hide Inv;
    hide Next;
    hide Total;
    hide Worth;
    hide Start;
    if i == 0 {
      TotalAtStart(pr, |pr.txs|);
    } else {
      StepsAreBounded(pr, states, events, i - 1);
      RunKeepsInv(pr, states, events, i - 1);
      assert Next(pr, states[i - 1], events[i - 1], states[i]);
      EventsUseWork(pr, states[i - 1], events[i - 1], states[i]);
      assert events[..i][..i - 1] == events[..i - 1];
    }
  }

  /** Every run can be continued, by steps and executions only, until nothing moves; every
      scheduled transaction has run then. */
  lemma {:induction false} EveryRunSettles(pr: Program, states: seq<State>, events: seq<Event>)
    returns (more: seq<State>, moves: seq<Event>)
    requires IsRun(pr, states, events)
    ensures IsRun(pr, states + more, events + moves) && forall e :: e in moves ==> Moves(e)
    ensures var end := (states + more)[|states + more| - 1];
            && Stuck(end) && Scheduled(end) == Scheduled(states[|states| - 1])
            && forall u :: 0 <= u < |pr.txs| && pr.txs[u].batch < Scheduled(end) ==> u in end.executed
    decreases Total(pr, states[|states| - 1], |pr.txs|)
  {
    hide Inv;
    hide Total;
    hide Serial;
    var s := states[|states| - 1];
    RunKeepsInv(pr, states, events, |states| - 1);
    if Stuck(s) {
      more, moves := [], [];
      assert states + more == states && events + moves == events;
      forall u | 0 <= u < |pr.txs| && pr.txs[u].batch < Scheduled(s) ensures u in s.executed {
        StuckMeansExecuted(pr, s, u);
      }
    } else {
      var e := SomeMove(pr, s);
      var t := Apply(pr, s, e);
      EventsUseWork(pr, s, e, t);
      LongerRun(pr, states, events, e, t);
      MovesKeepSchedule(pr, s, e);
      var rest, tail := EveryRunSettles(pr, states + [t], events + [e]);
      more, moves := [t] + rest, [e] + tail;
      assert states + [t] + rest == states + more && events + [e] + tail == events + moves;
    }
  }

  lemma SomeMove(pr: Program, s: State) returns (e: Event)
    requires Inv(pr, s) && !Stuck(s)
    ensures Moves(e) && Known(pr, s, e) && Enabled(pr, s, e)
  {
    hide Inv;
    if s.tasks != {} {
      var task :| task in s.tasks;
      e := Do(task);
    } else {
      var u :| u in s.available;
      e := Execute(u);
    }
    EnabledIsKnown(pr, s, e);
  }

  lemma LongerRun(pr: Program, states: seq<State>, events: seq<Event>, e: Event, t: State)
    requires IsRun(pr, states, events) && Next(pr, states[|states| - 1], e, t)
    ensures IsRun(pr, states + [t], events + [e])
  {
    hide Next;
    hide Start;
    hide WellFormed;
    var all, done := states + [t], events + [e];
    forall i | 0 <= i < |done| ensures Next(pr, all[i], done[i], all[i + 1]) {
      assert i < |events| ==> Next(pr, states[i], events[i], states[i + 1]);
    }
  }

  lemma MovesKeepSchedule(pr: Program, s: State, e: Event)
    requires Moves(e) && Known(pr, s, e)
    ensures Scheduled(Apply(pr, s, e)) == Scheduled(s)
  {
  }
}
