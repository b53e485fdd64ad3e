/** The access chains as a concurrent machine. Every atomic operation of a hand-off is one
    step, and the steps left to do are tasks that any thread may take up in any order. */
module SchedMachine {
  import opened Numbers
  import opened Options
  import opened SchedProgram

  /** What remains of a hand-off in progress. */
  datatype Task =
    | Connect(a: Id)                          // store `next` in the previous access, or ask the disk
    | Check(a: Id)                            // look whether the previous access has already written
    | DiskRead(a: Id)                         // read the latest committed value
    | SetRead(a: Id, v: Value, direct: bool)  // compare-and-swap the read state
    | NoteRead(a: Id, v: Value)               // won it: record it for the batch if first
    | Finish(a: Id)                           // count down the transaction
    | SetWritten(a: Id, v: Value)             // compare-and-swap the written state
    | NoteWritten(a: Id, v: Value)            // won it: submit the batch's diff if last
    | HandOver(a: Id, v: Value)               // take `next` and set its read state

  datatype State = State(
    evictions: seq<set<nat>>,                 // per scheduled batch, resources dropped from the cache before it
    committed: nat,                           // batches below it are on disk
    next: map<Id, Id>,
    read: map<Id, Value>,
    written: map<Id, Value>,
    pending: seq<nat>,
    available: set<nat>,
    executed: set<nat>,
    diffRead: map<(nat, nat), Value>,         // per batch and resource
    diffWritten: map<(nat, nat), Value>,
    tasks: set<Task>)

  datatype Event = Do(task: Task) | Execute(tx: nat) | Schedule(evicted: set<nat>) | Commit

  function Scheduled(s: State): nat {
    |s.evictions|
  }

  /** The previous access in memory: none for the first access to a resource, and none after
      the resource was evicted, unless an access of the same batch came before. */
  function Link(pr: Program, s: State, a: Id): Option<Id>
    requires IsAccess(pr, a)
  {
    var p := Prev(pr, a);
    var b := BatchOf(pr, a);
    if p.Some? && BatchOf(pr, p.value) != b && b < Scheduled(s) && ResourceOf(pr, a) in s.evictions[b] then None else p
  }

  /** First access to its resource within its batch. */
  predicate Head(pr: Program, a: Id)
    requires IsAccess(pr, a)
  {
    Prev(pr, a).None? || BatchOf(pr, Prev(pr, a).value) != BatchOf(pr, a)
  }

  /** Last access to its resource within its batch. */
  ghost predicate Tail(pr: Program, a: Id)
    requires IsAccess(pr, a)
  {
    forall b :: IsAccess(pr, b) && Prev(pr, b) == Some(a) ==> BatchOf(pr, b) != BatchOf(pr, a)
  }

  /** The latest committed value of `r`, looking back from batch `b`. */
  function Latest(pr: Program, s: State, r: nat, b: nat): Value {
    if b == 0 then pr.initial(r)
    else if (b - 1, r) in s.diffWritten then s.diffWritten[(b - 1, r)]
    else Latest(pr, s, r, b - 1)
  }

  function AccessesOf(pr: Program, b: nat): set<Id> {
    set t, k | 0 <= t < |pr.txs| && 0 <= k < |pr.txs[t].accesses| && pr.txs[t].batch == b :: Id(t, k)
  }

  function FreeTxs(pr: Program, b: nat): set<nat> {
    set t | 0 <= t < |pr.txs| && pr.txs[t].batch == b && pr.txs[t].accesses == []
  }

  /** A resource may be dropped once its last access's batch is committed. */
  ghost predicate Evictable(pr: Program, s: State, r: nat) {
    forall t :: 0 <= t < |pr.txs| && pr.txs[t].batch < Scheduled(s) && Find(pr, t, r).Some? ==>
      pr.txs[t].batch < s.committed
  }

  /** Every transaction of the batch ran and every diff of it was submitted. */
  ghost predicate Processed(pr: Program, s: State, b: nat) {
    && (forall t :: 0 <= t < |pr.txs| && pr.txs[t].batch == b ==> t in s.executed)
    && (forall a :: IsAccess(pr, a) && BatchOf(pr, a) == b && Tail(pr, a) ==> (b, ResourceOf(pr, a)) in s.diffWritten)
  }

  ghost predicate Enabled(pr: Program, s: State, e: Event) {
    match e
    case Do(task) => task in s.tasks
    case Execute(t) => t in s.available
    case Schedule(evicted) =>
      && (exists t :: 0 <= t < |pr.txs| && pr.txs[t].batch >= Scheduled(s))
      && forall r :: r in evicted ==> Evictable(pr, s, r)
    case Commit => s.committed < Scheduled(s) && Processed(pr, s, s.committed)
  }

  function ReadOf(pr: Program, s: State, a: Id): Value
    requires IsAccess(pr, a)
  {
    if a in s.read then s.read[a] else pr.initial(ResourceOf(pr, a))
  }

  /** What transaction `t` finds in its handles. */
  function Inputs(pr: Program, s: State, t: nat): (inputs: seq<Value>)
    requires t < |pr.txs|
    ensures |inputs| == |pr.txs[t].accesses|
    ensures forall k :: 0 <= k < |inputs| ==> inputs[k] == ReadOf(pr, s, Id(t, k))
  {
    seq(|pr.txs[t].accesses|, k requires 0 <= k < |pr.txs[t].accesses| => ReadOf(pr, s, Id(t, k)))
  }

  /** Committing writes the results, rolling back rewrites what was read. */
  function Outputs(pr: Program, s: State, t: nat): set<Task>
    requires t < |pr.txs|
  {
    set k | 0 <= k < |pr.txs[t].accesses| && Writes(pr, Id(t, k)) ::
      SetWritten(Id(t, k), Result(pr, Id(t, k), Inputs(pr, s, t)))
  }

  /** Neither the counters nor the cache changed. */
  predicate SameCounters(s: State, t: State) {
    && s.evictions == t.evictions && s.committed == t.committed
    && s.pending == t.pending && s.available == t.available && s.executed == t.executed
  }

  function Without(s: State, task: Task): State {
    s.(tasks := s.tasks - {task})
  }

  function Spawn(s: State, tasks: set<Task>): State {
    s.(tasks := s.tasks + tasks)
  }

  function DoConnect(pr: Program, s: State, a: Id): (t: State)
    requires IsAccess(pr, a)
    ensures SameCounters(s, t)
  {
    var p, rest := Link(pr, s, a), Without(s, Connect(a));
    if p.Some? then Spawn(rest, {Check(a)}).(next := s.next[p.value := a]) else Spawn(rest, {DiskRead(a)})
  }

  function DoCheck(pr: Program, s: State, a: Id): (t: State)
    requires IsAccess(pr, a)
    ensures SameCounters(s, t)
  {
    var p, rest := Link(pr, s, a), Without(s, Check(a));
    if p.Some? && p.value in s.written then Spawn(rest, {SetRead(a, s.written[p.value], true)}) else rest
  }

  function DoDiskRead(pr: Program, s: State, a: Id): (t: State)
    requires IsAccess(pr, a)
    ensures SameCounters(s, t)
  {
    Spawn(Without(s, DiskRead(a)), {SetRead(a, Latest(pr, s, ResourceOf(pr, a), s.committed), true)})
  }

  function DoSetRead(s: State, a: Id, v: Value, direct: bool): (t: State)
    ensures SameCounters(s, t)
  {
    var rest := Without(s, SetRead(a, v, direct));
    if a in s.read then rest else Spawn(rest, {NoteRead(a, v)}).(read := s.read[a := v])
  }

  function DoNoteRead(pr: Program, s: State, a: Id, v: Value): (t: State)
    requires IsAccess(pr, a)
    ensures SameCounters(s, t)
  {
    var forward := if Writes(pr, a) then {} else {SetWritten(a, v)};
    var diffRead := if Head(pr, a) then s.diffRead[(BatchOf(pr, a), ResourceOf(pr, a)) := v] else s.diffRead;
    Spawn(Without(s, NoteRead(a, v)), {Finish(a)} + forward).(diffRead := diffRead)
  }

  function DoFinish(s: State, a: Id): (t: State)
    requires a.tx < |s.pending|
    ensures t.evictions == s.evictions && t.committed == s.committed && t.executed == s.executed
  {
    var was := s.pending[a.tx];
    var available := if was == 1 then s.available + {a.tx} else s.available;
    Without(s, Finish(a)).(pending := s.pending[a.tx := if was == 0 then U64_MAX else was - 1], available := available)
  }

  function DoSetWritten(s: State, a: Id, v: Value): (t: State)
    ensures SameCounters(s, t)
  {
    var rest := Without(s, SetWritten(a, v));
    if a in s.written then rest else Spawn(rest, {NoteWritten(a, v)}).(written := s.written[a := v])
  }

  ghost function DoNoteWritten(pr: Program, s: State, a: Id, v: Value): (t: State)
    requires IsAccess(pr, a)
    ensures SameCounters(s, t)
  {
    var diffWritten := if Tail(pr, a) then s.diffWritten[(BatchOf(pr, a), ResourceOf(pr, a)) := v] else s.diffWritten;
    Spawn(Without(s, NoteWritten(a, v)), {HandOver(a, v)}).(diffWritten := diffWritten)
  }

  function DoHandOver(s: State, a: Id, v: Value): (t: State)
    ensures SameCounters(s, t)
  {
    var rest := Without(s, HandOver(a, v));
    if a in s.next then Spawn(rest, {SetRead(s.next[a], v, false)}).(next := s.next - {a}) else rest
  }

  ghost function Perform(pr: Program, s: State, task: Task): State
    requires IsAccess(pr, task.a) && |s.pending| == |pr.txs|
  {
    match task
    case Connect(a) => DoConnect(pr, s, a)
    case Check(a) => DoCheck(pr, s, a)
    case DiskRead(a) => DoDiskRead(pr, s, a)
    case SetRead(a, v, direct) => DoSetRead(s, a, v, direct)
    case NoteRead(a, v) => DoNoteRead(pr, s, a, v)
    case Finish(a) => DoFinish(s, a)
    case SetWritten(a, v) => DoSetWritten(s, a, v)
    case NoteWritten(a, v) => DoNoteWritten(pr, s, a, v)
    case HandOver(a, v) => DoHandOver(s, a, v)
  }

  ghost function Apply(pr: Program, s: State, e: Event): State
    requires |s.pending| == |pr.txs|
    requires e.Do? ==> IsAccess(pr, e.task.a)
    requires e.Execute? ==> e.tx < |pr.txs|
  {
    match e
    case Do(task) => Perform(pr, s, task)
    case Execute(t) =>
      s.(available := s.available - {t}, executed := s.executed + {t}, tasks := s.tasks + Outputs(pr, s, t))
    case Schedule(evicted) =>
      var b := Scheduled(s);
      s.(evictions := s.evictions + [evicted], available := s.available + FreeTxs(pr, b),
         tasks := s.tasks + set a | a in AccessesOf(pr, b) :: Connect(a))
    case Commit => s.(committed := s.committed + 1)
  }

  /** Nothing scheduled yet. */
  function Start(pr: Program): State {
    State([], 0, map[], map[], map[], seq(|pr.txs|, t requires 0 <= t < |pr.txs| => |pr.txs[t].accesses|),
          {}, {}, map[], map[], {})
  }

  // ---- One first and one last access per batch and resource ----

  /** Every earlier access is behind the previous one. */
  lemma PrevIsClosest(pr: Program, a: Id, x: Id)
    requires WellFormed(pr) && IsAccess(pr, a) && IsAccess(pr, x) && a.tx < x.tx
    requires ResourceOf(pr, a) == ResourceOf(pr, x)
    ensures Prev(pr, x).Some? && a.tx <= Prev(pr, x).value.tx
    ensures Prev(pr, x) == Some(a) || a.tx < Prev(pr, x).value.tx
  {
    LastIsLast(pr, x.tx, ResourceOf(pr, x));
    FindIsUnique(pr, a);
    if Prev(pr, x).Some? {
      FindIsUnique(pr, Prev(pr, x).value);
    }
  }

  lemma {:induction false} Successor(pr: Program, a: Id, x: Id) returns (y: Id)
    requires WellFormed(pr) && IsAccess(pr, a) && IsAccess(pr, x) && a.tx < x.tx
    requires ResourceOf(pr, a) == ResourceOf(pr, x)
    ensures IsAccess(pr, y) && y.tx <= x.tx && Prev(pr, y) == Some(a)
    decreases x.tx
  {
    PrevIsClosest(pr, a, x);
    if Prev(pr, x) == Some(a) {
      y := x;
    } else {
      y := Successor(pr, a, Prev(pr, x).value);
    }
  }

  lemma HeadIsUnique(pr: Program, a: Id, x: Id)
    requires WellFormed(pr) && IsAccess(pr, a) && IsAccess(pr, x)
    requires BatchOf(pr, a) == BatchOf(pr, x) && ResourceOf(pr, a) == ResourceOf(pr, x)
    requires Head(pr, a) && Head(pr, x)
    ensures a == x
  {
    if a.tx < x.tx {
      PrevIsClosest(pr, a, x);
    } else if x.tx < a.tx {
      PrevIsClosest(pr, x, a);
    } else {
      FindIsUnique(pr, a);
      FindIsUnique(pr, x);
    }
  }

  lemma TailIsUnique(pr: Program, a: Id, x: Id)
    requires WellFormed(pr) && IsAccess(pr, a) && IsAccess(pr, x)
    requires BatchOf(pr, a) == BatchOf(pr, x) && ResourceOf(pr, a) == ResourceOf(pr, x)
    requires Tail(pr, a) && Tail(pr, x)
    ensures a == x
  {
    if a.tx < x.tx {
      var y := Successor(pr, a, x);
    } else if x.tx < a.tx {
      var y := Successor(pr, x, a);
    } else {
      FindIsUnique(pr, a);
      FindIsUnique(pr, x);
    }
  }
}
