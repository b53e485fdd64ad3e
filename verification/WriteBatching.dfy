/** The commands of the write worker and what they mean when each one is committed on its own. */
module WriteCommands {

  datatype Cell =
    | Version(version: nat, resource: nat)
    | Latest(resource: nat)
    | Undo(batch: nat, resource: nat)
    | Metadata(batch: nat)
    | LastCommitted
    | Root
    | Node(position: nat, version: nat)
    | Stale(version: nat, position: nat)
    | Receipt(key: nat)

  type Value = seq<nat>
  type Store = map<Cell, Value>

  datatype Op = Put(cell: Cell, value: Value) | Delete(cell: Cell)

  /** A tree update reaches nodes and their staleness marks, a restoration latest pointers. */
  type TreeOp = op: Op | op.cell.Node? || op.cell.Stale? witness Delete(Node(0, 0))
  type PointerOp = op: Op | op.cell.Latest? witness Delete(Latest(0))

  /** An ordered write batch, committed at once. */
  function Commit(store: Store, ops: seq<Op>): Store
    decreases |ops|
  {
    if ops == [] then store
    else
      var before, op := Commit(store, ops[..|ops| - 1]), ops[|ops| - 1];
      match op
      case Put(cell, value) => before[cell := value]
      case Delete(cell) => before - {cell}
  }

  datatype Snapshot = Snapshot(version: nat, data: Value)

  /** What a batch does to one resource. */
  datatype Diff = Diff(batch: nat, resource: nat, read: Snapshot, written: Snapshot)

  /** The answers of the cancellation flag are part of a command. The tree update is any
      function of the stored nodes, the restoration any function of the whole store. */
  datatype Cmd =
    | StateDiff(diff: Diff, canceled: bool)
    | CommitBatch(batch: nat, canceled: bool, canceledLater: bool, restored: bool, isRoot: bool,
                  diffs: seq<Diff>, metadata: Value, tree: Store -> seq<TreeOp>)
    | Rollback(target: nat, restore: Store -> seq<PointerOp>)
    | StoreReceipt(key: nat, value: Value)
  {
    predicate FlushNow() {
      CommitBatch? || Rollback?
    }
  }

  function DiffWrites(d: Diff, canceled: bool): seq<Op> {
    if !canceled && d.written.version > d.read.version then
      (if d.written.data != [] then [Put(Version(d.written.version, d.resource), d.written.data)] else [])
      + [Put(Undo(d.batch, d.resource), [if d.read.data == [] then 0 else d.read.version])]
    else []
  }

  function PointerWrites(d: Diff): seq<Op> {
    if d.written.version <= d.read.version then []
    else if d.written.data != [] then [Put(Latest(d.resource), [d.written.version])]
    else [Delete(Latest(d.resource))]
  }

  function LatestWrites(diffs: seq<Diff>): seq<Op> {
    if diffs == [] then [] else PointerWrites(diffs[0]) + LatestWrites(diffs[1..])
  }

  /** The stored tree nodes. */
  function Nodes(store: Store): Store {
    store - (set c | c in store && !c.Node?)
  }

  function CommitWrites(c: Cmd, store: Store): seq<Op>
    requires c.CommitBatch?
  {
    if c.canceled then []
    else
      LatestWrites(c.diffs)
      + (if c.restored then [] else [Put(Metadata(c.batch), c.metadata)] + c.tree(Nodes(store)))
      + [Put(LastCommitted, [c.batch])] + (if c.isRoot then [Put(Root, [c.batch])] else [])
  }

  function RollbackWrites(c: Cmd, store: Store, lastCommitted: nat): seq<Op>
    requires c.Rollback?
  {
    c.restore(store)
    + (if c.target < lastCommitted then [Put(LastCommitted, [c.target])] else [])
    + (if c.target == 0 then [Put(Root, [c.target])] else [])
  }

  // ---- Committing after every command ----

  datatype State = State(store: Store, lastCommitted: nat)

  function Eager(s: State, c: Cmd): State {
    match c
    case StateDiff(diff, canceled) => State(Commit(s.store, DiffWrites(diff, canceled)), s.lastCommitted)
    case CommitBatch(batch, _, canceledLater, _, _, _, _, _) =>
      State(Commit(s.store, CommitWrites(c, s.store)), if canceledLater then s.lastCommitted else batch)
    case Rollback(target, _) =>
      State(Commit(s.store, RollbackWrites(c, s.store, s.lastCommitted)),
            if target < s.lastCommitted then target else s.lastCommitted)
    case StoreReceipt(key, value) => State(Commit(s.store, [Put(Receipt(key), value)]), s.lastCommitted)
  }

  function EagerAll(s: State, cmds: seq<Cmd>): State
    decreases |cmds|
  {
    if |cmds| == 0 then s else Eager(EagerAll(s, cmds[..|cmds| - 1]), cmds[|cmds| - 1])
  }

  lemma EagerNext(s: State, cmds: seq<Cmd>, c: Cmd)
    ensures EagerAll(s, cmds + [c]) == Eager(EagerAll(s, cmds), c)
  {
    assert (cmds + [c])[..|cmds|] == cmds;
  }

  // ---- Commands that wait ----

  /** The writes of a command that does not flush. */
  function Waiting(c: Cmd): seq<Op>
    requires !c.FlushNow()
  {
    match c
    case StateDiff(diff, canceled) => DiffWrites(diff, canceled)
    case StoreReceipt(key, value) => [Put(Receipt(key), value)]
  }

  ghost predicate NoneFlushes(cmds: seq<Cmd>) {
    forall i :: 0 <= i < |cmds| ==> !cmds[i].FlushNow()
  }

  function WaitingAll(cmds: seq<Cmd>): seq<Op>
    requires forall i :: 0 <= i < |cmds| ==> !cmds[i].FlushNow()
    decreases |cmds|
  {
    if |cmds| == 0 then [] else WaitingAll(cmds[..|cmds| - 1]) + Waiting(cmds[|cmds| - 1])
  }

  /** Cells that only commits and rollbacks write. */
  predicate Shared(c: Cell) {
    !c.Version? && !c.Undo? && !c.Receipt?
  }

  /** Stores with the same commits and rollbacks in them. */
  ghost predicate Agree(a: Store, b: Store) {
    forall c :: Shared(c) ==> (c in a <==> c in b) && (c in a ==> a[c] == b[c])
  }

  lemma {:induction false} CommitOfTwo(store: Store, a: seq<Op>, b: seq<Op>)
    ensures Commit(store, a + b) == Commit(Commit(store, a), b)
    decreases |b|
  {
    if b == [] {
      assert a + b == a;
    } else {
      CommitOfTwo(store, a, b[..|b| - 1]);
      assert (a + b)[..|a + b| - 1] == a + b[..|b| - 1];
    }
  }

  lemma {:induction false} PrivateOpsAgree(store: Store, ops: seq<Op>)
    requires forall i :: 0 <= i < |ops| ==> !Shared(ops[i].cell)
    ensures Agree(store, Commit(store, ops))
    decreases |ops|
  {
    if ops != [] {
      PrivateOpsAgree(store, ops[..|ops| - 1]);
    }
  }

  lemma {:induction false} WaitingIsPrivate(cmds: seq<Cmd>)
    requires NoneFlushes(cmds)
    ensures forall i :: 0 <= i < |WaitingAll(cmds)| ==> !Shared(WaitingAll(cmds)[i].cell)
    decreases |cmds|
  {
    if |cmds| > 0 {
      WaitingIsPrivate(cmds[..|cmds| - 1]);
    }
  }

  lemma AgreeingNodes(a: Store, b: Store)
    requires Agree(a, b)
    ensures Nodes(a) == Nodes(b)
  {
    forall c: Cell ensures c in Nodes(a) <==> c in Nodes(b) {
      assert c.Node? ==> Shared(c);
    }
    forall c: Cell | c in Nodes(a) ensures Nodes(a)[c] == Nodes(b)[c] {
      assert Shared(c);
    }
  }

  /** Waiting commands amount to one commit of all their writes. */
  lemma {:induction false} WaitingIsEager(s: State, cmds: seq<Cmd>)
    requires NoneFlushes(cmds)
    ensures EagerAll(s, cmds) == State(Commit(s.store, WaitingAll(cmds)), s.lastCommitted)
    decreases |cmds|
  {
    if |cmds| > 0 {
      var init, c := cmds[..|cmds| - 1], cmds[|cmds| - 1];
      WaitingIsEager(s, init);
      CommitOfTwo(s.store, WaitingAll(init), Waiting(c));
    }
  }

  lemma {:induction false} EagerAllOfTwo(s: State, a: seq<Cmd>, b: seq<Cmd>)
    ensures EagerAll(s, a + b) == EagerAll(EagerAll(s, a), b)
    decreases |b|
  {
    hide Eager;
    if |b| == 0 {
      assert a + b == a;
    } else {
      EagerAllOfTwo(s, a, b[..|b| - 1]);
      assert (a + b)[..|a + b| - 1] == a + b[..|b| - 1];
    }
  }

  /** Runs the callbacks of `cmds`: a committed batch becomes the last committed one. */
  function Called(lastCommitted: nat, cmds: seq<Cmd>): nat
    decreases |cmds|
  {
    if |cmds| == 0 then lastCommitted
    else
      var c := cmds[|cmds| - 1];
      if c.CommitBatch? && !c.canceledLater then c.batch else Called(lastCommitted, cmds[..|cmds| - 1])
  }

  lemma {:induction false} WaitingCallsNothing(lastCommitted: nat, cmds: seq<Cmd>)
    requires NoneFlushes(cmds)
    ensures Called(lastCommitted, cmds) == lastCommitted
    decreases |cmds|
  {
    if |cmds| > 0 {
      WaitingCallsNothing(lastCommitted, cmds[..|cmds| - 1]);
    }
  }

  /** A commit behind waiting commands writes what it would write after them. */
  lemma CommitIgnoresWaiting(s: State, cmds: seq<Cmd>, c: Cmd)
    requires NoneFlushes(cmds) && c.CommitBatch?
    ensures Commit(s.store, WaitingAll(cmds) + CommitWrites(c, s.store)) == EagerAll(s, cmds + [c]).store
    ensures Called(s.lastCommitted, cmds + [c]) == EagerAll(s, cmds + [c]).lastCommitted
    ensures Agree(s.store, EagerAll(s, cmds).store)
  {
    hide EagerAll;
    hide Commit;
    hide WaitingAll;
    WaitingIsEager(s, cmds);
    WaitingIsPrivate(cmds);
    PrivateOpsAgree(s.store, WaitingAll(cmds));
    AgreeingNodes(s.store, EagerAll(s, cmds).store);
    EagerNext(s, cmds, c);
    CommitOfTwo(s.store, WaitingAll(cmds), CommitWrites(c, s.store));
    WaitingCallsNothing(s.lastCommitted, cmds);
    assert (cmds + [c])[..|cmds|] == cmds;
  }
}

/** The write worker: it executes commands in order into one write batch and commits it when a
    command asks for it, or when the batch is full or old. */
module WriteBatching {
  import opened Options
  import opened WriteCommands

  /** One turn of the worker's loop: whether the batch is old by now, and what the queue gave. */
  datatype Turn = Turn(aged: bool, popped: Option<Cmd>)

  ghost function Popped(turns: seq<Turn>): seq<Cmd> {
    if |turns| == 0 then []
    else
      var t := turns[|turns| - 1];
      Popped(turns[..|turns| - 1]) + if t.popped.Some? then [t.popped.value] else []
  }

  /** Command `i` ran with all earlier commits and rollbacks in the store; a rollback also
      with all earlier diffs. */
  ghost predicate SawTheCommitted(start: State, processed: seq<Cmd>, seen: seq<Store>, i: nat)
    requires i < |processed| == |seen|
  {
    && (processed[i].CommitBatch? ==> Agree(seen[i], EagerAll(start, processed[..i]).store))
    && (processed[i].Rollback? ==> seen[i] == EagerAll(start, processed[..i]).store)
  }

  /** Callback `i` ran on a store with the first `n` commands committed, its own among them. */
  ghost predicate FiredAfterCommit(start: State, processed: seq<Cmd>, firedOn: seq<Store>, i: nat)
    requires i < |firedOn|
  {
    exists n: nat :: i < n <= |processed| && firedOn[i] == EagerAll(start, processed[..n]).store
  }

  /** Callbacks run once and in order, and what each command saw and each callback followed. */
  ghost predicate Logged(start: State, processed: seq<Cmd>, seen: seq<Store>, fired: seq<Cmd>, firedOn: seq<Store>,
                         waiting: seq<Cmd>) {
    && processed == fired + waiting && |seen| == |processed| && |firedOn| == |fired|
    && (forall i :: 0 <= i < |processed| ==> SawTheCommitted(start, processed, seen, i))
    && (forall i :: 0 <= i < |firedOn| ==> FiredAfterCommit(start, processed, firedOn, i))
  }

  lemma LogGrows(start: State, processed: seq<Cmd>, seen: seq<Store>, fired: seq<Cmd>, firedOn: seq<Store>,
                 waiting: seq<Cmd>, c: Cmd, store: Store)
    requires Logged(start, processed, seen, fired, firedOn, waiting)
    requires c.CommitBatch? ==> Agree(store, EagerAll(start, processed).store)
    requires c.Rollback? ==> store == EagerAll(start, processed).store
    ensures Logged(start, processed + [c], seen + [store], fired, firedOn, waiting + [c])
  {
    hide EagerAll;
    hide Agree;
    var all, stores := processed + [c], seen + [store];
    forall i | 0 <= i < |all| ensures SawTheCommitted(start, all, stores, i) {
      assert all[..i] == processed[..i];
      if i < |processed| {
        assert SawTheCommitted(start, processed, seen, i);
      } else {
        assert processed[..i] == processed;
      }
    }
    forall i | 0 <= i < |firedOn| ensures FiredAfterCommit(start, all, firedOn, i) {
      assert FiredAfterCommit(start, processed, firedOn, i);
      var n: nat :| i < n <= |processed| && firedOn[i] == EagerAll(start, processed[..n]).store;
      assert all[..n] == processed[..n];
    }
  }

  lemma LogFires(start: State, processed: seq<Cmd>, seen: seq<Store>, fired: seq<Cmd>, firedOn: seq<Store>,
                 waiting: seq<Cmd>, store: Store)
    requires Logged(start, processed, seen, fired, firedOn, waiting) && |waiting| > 0
    requires store == EagerAll(start, processed).store
    ensures Logged(start, processed, seen, fired + [waiting[0]], firedOn + [store], waiting[1..])
  {
    hide EagerAll;
    hide SawTheCommitted;
    var stores := firedOn + [store];
    assert processed[..|processed|] == processed;
    forall i | 0 <= i < |stores| ensures FiredAfterCommit(start, processed, stores, i) {
      if i < |firedOn| {
        assert FiredAfterCommit(start, processed, firedOn, i);
        var n: nat :| i < n <= |processed| && firedOn[i] == EagerAll(start, processed[..n]).store;
        assert stores[i] == EagerAll(start, processed[..n]).store;
      } else {
        assert stores[i] == EagerAll(start, processed[..|processed|]).store;
      }
    }
  }

  class WriteWorker {
    const batchSize: nat
    var store: Store
    var lastCommitted: nat
    var writeBatch: seq<Op>
    var batchCmds: seq<Cmd>
    ghost const start: State
    /** Commands taken off the queue, and the store each one ran against. */
    ghost var processed: seq<Cmd>
    ghost var seen: seq<Store>
    /** Commands whose callback has run, and the store at that moment. */
    ghost var fired: seq<Cmd>
    ghost var firedOn: seq<Store>

    /** What has been called back is in the store; the rest waits in the write batch. */
    ghost predicate Valid()
      reads this
    {
      && Logged(start, processed, seen, fired, firedOn, batchCmds)
      && NoneFlushes(batchCmds) && writeBatch == WaitingAll(batchCmds)
      && State(store, lastCommitted) == EagerAll(start, fired)
    }

    /** The write batch and the callbacks complete every processed command. */
    ghost predicate Flushable()
      reads this
    {
      && Logged(start, processed, seen, fired, firedOn, batchCmds)
      && Commit(store, writeBatch) == EagerAll(start, processed).store
      && Called(lastCommitted, batchCmds) == EagerAll(start, processed).lastCommitted
    }

    constructor (batchSize: nat, store: Store, lastCommitted: nat)
      ensures Valid() && processed == [] && start == State(store, lastCommitted) && this.batchSize == batchSize
    {
      this.batchSize, this.store, this.lastCommitted := batchSize, store, lastCommitted;
      writeBatch, batchCmds, start := [], [], State(store, lastCommitted);
      processed, seen, fired, firedOn := [], [], [], [];
    }

    lemma ValidIsFlushable()
      requires Valid()
      ensures Flushable()
      ensures State(Commit(store, writeBatch), lastCommitted) == EagerAll(start, processed)
    {
      hide Commit;
      EagerAllOfTwo(start, fired, batchCmds);
      WaitingIsEager(State(store, lastCommitted), batchCmds);
      WaitingCallsNothing(lastCommitted, batchCmds);
    }

    /** Commits the batch, then runs the callbacks of its commands in order. */
    method Flush()
      requires Flushable()
      modifies this
      ensures Valid() && |batchCmds| == 0 && processed == old(processed) && seen == old(seen)
    {
      hide Logged;
      hide EagerAll;
      hide Commit;
      store := Commit(store, writeBatch);
      var cmds := batchCmds;
      CallNothing(lastCommitted);
      assert batchCmds[0..] == batchCmds;
      for i := 0 to |cmds|
        invariant store == EagerAll(start, processed).store && processed == old(processed) && seen == old(seen)
        invariant batchCmds == cmds[i..] && Logged(start, processed, seen, fired, firedOn, batchCmds)
        invariant lastCommitted == Called(old(lastCommitted), cmds[..i])
      {
        var c := cmds[i];
        LogFires(start, processed, seen, fired, firedOn, batchCmds, store);
        CallNext(old(lastCommitted), cmds, i);
        if c.CommitBatch? && !c.canceledLater {
          lastCommitted := c.batch;
        }
        fired, firedOn := fired + [c], firedOn + [store];
        batchCmds := batchCmds[1..];
      }
      assert cmds[..|cmds|] == cmds;
      LogShape(start, processed, seen, fired, firedOn, batchCmds);
      writeBatch := [];
    }

    /** Executes a command against the write batch. A rollback commits what is pending, then
        its own writes, and starts a new batch. */
    method Execute(c: Cmd)
      requires Valid()
      modifies this
      ensures batchCmds == old(batchCmds) && processed == old(processed) + [c] && fired == old(fired)
      ensures Logged(start, processed, seen, fired, firedOn, batchCmds + [c])
      ensures c.FlushNow() ==>
                && Commit(store, writeBatch) == EagerAll(start, processed).store
                && Called(lastCommitted, batchCmds + [c]) == EagerAll(start, processed).lastCommitted
      ensures !c.FlushNow() ==>
                && writeBatch == WaitingAll(batchCmds + [c])
                && State(store, lastCommitted) == State(old(store), old(lastCommitted))
    {
      hide Logged;
      hide EagerAll;
      hide Commit;
      hide WaitingAll;
      hide Called;
      ValidIsFlushable();
      LogShape(start, processed, seen, fired, firedOn, batchCmds);
      EagerNext(start, processed, c);
      match c {
        case StateDiff(diff, canceled) =>
          LogGrows(start, processed, seen, fired, firedOn, batchCmds, c, store);
          seen := seen + [store];
          writeBatch := writeBatch + DiffWrites(diff, canceled);
          WaitingNext(batchCmds, c);
        case CommitBatch(_, _, _, _, _, _, _, _) =>
          CommitBehindWaiting(start, fired, batchCmds, processed, State(store, lastCommitted), c);
          LogGrows(start, processed, seen, fired, firedOn, batchCmds, c, store);
          seen := seen + [store];
          writeBatch := writeBatch + CommitWrites(c, store);
        case Rollback(target, _) =>
          store := Commit(store, writeBatch);
          LogGrows(start, processed, seen, fired, firedOn, batchCmds, c, store);
          seen := seen + [store];
          var targetCommitted := target < lastCommitted;
          var writes := RollbackWrites(c, store, lastCommitted);
          if targetCommitted {
            lastCommitted := target;
          }
          store := Commit(store, writes);
          writeBatch := [];
          RollbackCallsNothing(lastCommitted, batchCmds, c, store);
        case StoreReceipt(key, value) =>
          LogGrows(start, processed, seen, fired, firedOn, batchCmds, c, store);
          seen := seen + [store];
          writeBatch := writeBatch + [Put(Receipt(key), value)];
          WaitingNext(batchCmds, c);
      }
      processed := processed + [c];
    }

    /** Executes one command in order, and flushes if it asks for that. */
    method Process(c: Cmd)
      requires Valid()
      modifies this
      ensures Valid() && processed == old(processed) + [c]
    {
      hide Logged;
      hide EagerAll;
      hide Commit;
      hide WaitingAll;
      hide Called;
      var flushNow := c.FlushNow();
      Execute(c);
      batchCmds := batchCmds + [c];
      if flushNow {
        Flush();
      }
    }

    /** The worker's loop. Once flushed, the store is the one that committing after each
        command gives, whatever the turns. */
    method Run(turns: seq<Turn>)
      requires Valid()
      modifies this
      ensures Valid() && processed == old(processed) + Popped(turns)
      ensures State(Commit(store, writeBatch), lastCommitted) == EagerAll(start, processed)
    {
      hide *;
      var i := 0;
      PoppedNone(turns);
      while i < |turns|
        invariant i <= |turns| && Valid() && processed == old(processed) + Popped(turns[..i])
      {
        var turn := turns[i];
        PoppedNext(turns, i);
        if |batchCmds| != 0 && (|batchCmds| >= batchSize || turn.aged) {
          ValidIsFlushable();
          Flush();
        }
        if turn.popped.Some? {
          Process(turn.popped.value);
        }
        i := i + 1;
      }
      ValidIsFlushable();
      assert turns[..|turns|] == turns;
    }
  }

  lemma PoppedNone(turns: seq<Turn>)
    ensures Popped(turns[..0]) == []
  {
  }

  lemma PoppedNext(turns: seq<Turn>, i: nat)
    requires i < |turns|
    ensures Popped(turns[..i + 1]) == Popped(turns[..i]) + if turns[i].popped.Some? then [turns[i].popped.value] else []
  {
    assert turns[..i + 1][..i] == turns[..i];
  }

  lemma WaitingNext(cmds: seq<Cmd>, c: Cmd)
    requires NoneFlushes(cmds) && !c.FlushNow()
    ensures NoneFlushes(cmds + [c]) && WaitingAll(cmds + [c]) == WaitingAll(cmds) + Waiting(c)
  {
    assert (cmds + [c])[..|cmds|] == cmds;
  }

  lemma CommitBehindWaiting(start: State, fired: seq<Cmd>, waiting: seq<Cmd>, processed: seq<Cmd>, s: State, c: Cmd)
    requires processed == fired + waiting && NoneFlushes(waiting) && s == EagerAll(start, fired) && c.CommitBatch?
    ensures Commit(s.store, WaitingAll(waiting) + CommitWrites(c, s.store)) == EagerAll(start, processed + [c]).store
    ensures Called(s.lastCommitted, waiting + [c]) == EagerAll(start, processed + [c]).lastCommitted
    ensures Agree(s.store, EagerAll(start, processed).store)
  {
    hide *;
    CommitIgnoresWaiting(s, waiting, c);
    EagerAllOfTwo(start, fired, waiting);
    EagerAllOfTwo(start, fired, waiting + [c]);
    assert fired + waiting + [c] == fired + (waiting + [c]);
  }

  lemma RollbackCallsNothing(lastCommitted: nat, waiting: seq<Cmd>, c: Cmd, store: Store)
    requires NoneFlushes(waiting) && c.Rollback?
    ensures Called(lastCommitted, waiting + [c]) == lastCommitted && Commit(store, []) == store
  {
    WaitingCallsNothing(lastCommitted, waiting);
    assert (waiting + [c])[..|waiting|] == waiting;
  }

  lemma CallNothing(lastCommitted: nat)
    ensures Called(lastCommitted, []) == lastCommitted
  {
  }

  lemma CallNext(lastCommitted: nat, cmds: seq<Cmd>, i: nat)
    requires i < |cmds|
    ensures Called(lastCommitted, cmds[..i + 1])
         == if cmds[i].CommitBatch? && !cmds[i].canceledLater then cmds[i].batch else Called(lastCommitted, cmds[..i])
  {
    assert cmds[..i + 1][..i] == cmds[..i];
  }

  lemma LogShape(start: State, processed: seq<Cmd>, seen: seq<Store>, fired: seq<Cmd>, firedOn: seq<Store>,
                  waiting: seq<Cmd>)
    requires Logged(start, processed, seen, fired, firedOn, waiting)
    ensures processed == fired + waiting && (|waiting| == 0 ==> processed == fired)
  {
  }
}
