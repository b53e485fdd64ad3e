/** The write worker's store refines the columns of the versioned store: on runs of commands it
    holds what diffs, commits and rollbacks make of them. */
module StoreColumns {
  import opened Options
  import opened WriteCommands
  import opened WriteEffects
  import V = VersionedState
  import S = VersionedStore

  /** The cells hold exactly the columns. */
  ghost predicate Mirrors(store: Store, c: V.Columns) {
    && (forall v: nat, r: nat :: Held(store, Version(v, r)) == Entry(c.data, V.Key(v, r)))
    && (forall r: nat :: Held(store, Latest(r)) == if r in c.latest then Some([c.latest[r]]) else None)
    && (forall b: nat, r: nat :: Held(store, Undo(b, r))
                                 == if V.Key(b, r) in c.undo then Some([c.undo[V.Key(b, r)]]) else None)
  }

  function Entry(data: map<V.Key, V.Data>, k: V.Key): Option<Value> {
    if k in data then Some(data[k]) else None
  }

  // ---- Steps of the columns ----

  /** The columns once a diff of batch `d.batch` is written. */
  ghost predicate DiffStep(c: V.Columns, d: Diff, next: V.Columns) {
    var k := V.Key(d.batch, d.resource);
    && next.latest == c.latest
    && next.undo == c.undo[k := if d.read.data == [] then 0 else d.read.version]
    && next.data == if d.written.data != [] then c.data[k := d.written.data] else c.data
  }

  /** The diffs that advance are those of batch `b`. */
  ghost predicate DiffsOf(diffs: seq<Diff>, b: V.Batch) {
    && (forall i :: 0 <= i < |diffs| && Advances(diffs[i]) ==>
          && diffs[i].written.version == b.id && diffs[i].resource in b.changes
          && b.changes[diffs[i].resource] == diffs[i].written.data)
    && (forall r :: r in b.changes ==> exists i :: 0 <= i < |diffs| && Advances(diffs[i]) && diffs[i].resource == r)
  }

  /** The columns once the next batch is committed. */
  ghost predicate CommitStep(c: V.Columns, p: V.Progress, next: V.Columns) {
    && p.committed < |p.history| && next.data == c.data && next.undo == c.undo
    && S.HalfCommitted(next.latest, c.latest, p, {})
  }

  /** The columns once batches `k..` of the history are undone. */
  ghost predicate UndoStep(c: V.Columns, p: V.Progress, k: nat, next: V.Columns) {
    && k <= |p.history| && next.data == c.data && next.undo == c.undo
    && S.Undone(next.latest, c, p.history, k)
  }

  /** `ops` repoint by the entries of batches `k..`, newest batch first: operation `i` applies an
      entry of batch `from[i]`, and every entry is applied. */
  ghost predicate Repoints(ops: seq<Op>, store: Store, h: seq<V.Batch>, k: nat, from: seq<nat>) {
    && |from| == |ops|
    && (forall i, j :: 0 <= i < j < |from| ==> from[j] <= from[i])
    && (forall i :: 0 <= i < |ops| ==> k <= from[i] < |h| && Repoint(ops[i], store, h[from[i]].id))
    && (forall n, r: nat :: k <= n < |h| && Held(store, Undo(h[n].id, r)).Some? ==>
          exists i :: 0 <= i < |ops| && from[i] == n && ops[i].cell == Latest(r))
  }

  ghost predicate Repoint(op: Op, store: Store, id: nat) {
    && op.cell.Latest?
    && exists was: nat :: Held(store, Undo(id, op.cell.resource)) == Some([was])
                          && Outcome(op) == if was == 0 then None else Some([was])
  }

  /** What a command does to the columns. A commit is of the next batch with its diffs, a rollback
      undoes what is above its target. */
  ghost predicate Steps(store: Store, c: V.Columns, p: V.Progress, cmd: Cmd, next: V.Columns) {
    match cmd
    case StateDiff(d, canceled) =>
      if canceled || !Advances(d) then next == c
      else d.written.version == d.batch && DiffStep(c, d, next)
    case CommitBatch(batch, canceled, _, _, _, diffs, _, _) =>
      if canceled then next == c
      else CommitStep(c, p, next) && p.history[p.committed].id == batch > 0 && DiffsOf(diffs, p.history[p.committed])
    case Rollback(target, restore) =>
      var k := S.UpTo(p.history, target);
      UndoStep(c, p, k, next) && exists from :: Repoints(restore(store), store, p.history, k, from)
    case StoreReceipt(_, _) => next == c
  }

  // ---- One command ----

  lemma DiffMirrors(s: State, d: Diff, c: V.Columns, next: V.Columns)
    requires Mirrors(s.store, c) && Advances(d) && d.written.version == d.batch && DiffStep(c, d, next)
    ensures Mirrors(Eager(s, StateDiff(d, false)).store, next)
  {
    hide Eager;
    hide Held;
    DiffStores(s, d, false);
  }

  lemma {:induction false} LastAdvanceExists(diffs: seq<Diff>, r: nat) returns (i: nat)
    requires !NeverAdvanced(diffs, r)
    ensures LastAdvance(diffs, i) && diffs[i].resource == r
  {
    var n := |diffs| - 1;
    if Advances(diffs[n]) && diffs[n].resource == r {
      return n;
    }
    i := LastAdvanceExists(diffs[..n], r);
  }

  lemma CommitPointer(cmd: Cmd, before: Store, after: Store, c: V.Columns, p: V.Progress, latest: map<nat, nat>, r: nat)
    requires cmd.CommitBatch? && Mirrors(before, c) && HoldsCommit(cmd, before, after)
    requires p.committed < |p.history| && S.HalfCommitted(latest, c.latest, p, {})
    requires p.history[p.committed].id > 0 && DiffsOf(cmd.diffs, p.history[p.committed])
    ensures Held(after, Latest(r)) == if r in latest then Some([latest[r]]) else None
  {
    hide Commit;
    hide Held;
    if r in p.history[p.committed].changes {
      assert V.PointsAt(latest, p.history, p.committed + 1, r);
      var i := LastAdvanceExists(cmd.diffs, r);
    } else {
      assert S.SamePointer(latest, c.latest, r) && NeverAdvanced(cmd.diffs, r);
    }
  }

  lemma CommitMirrors(s: State, cmd: Cmd, c: V.Columns, p: V.Progress, next: V.Columns)
    requires Mirrors(s.store, c) && cmd.CommitBatch? && !cmd.canceled && CommitStep(c, p, next)
    requires p.history[p.committed].id > 0 && DiffsOf(cmd.diffs, p.history[p.committed])
    ensures Mirrors(Eager(s, cmd).store, next)
  {
    hide Eager;
    hide Held;
    hide DiffsOf;
    hide S.HalfCommitted;
    CommitStores(s, cmd);
    forall r: nat {
      CommitPointer(cmd, s.store, Eager(s, cmd).store, c, p, next.latest, r);
    }
  }

  /** Applied newest first, the entry of the oldest batch decides. */
  lemma RepointsToTheFirst(store: Store, ops: seq<Op>, h: seq<V.Batch>, k: nat, from: seq<nat>, n: nat, r: nat,
                           was: nat)
    requires Repoints(ops, store, h, k, from) && k <= n < |h| && Held(store, Undo(h[n].id, r)) == Some([was])
    requires forall j :: k <= j < n ==> Held(store, Undo(h[j].id, r)) == None
    ensures Held(Commit(store, ops), Latest(r)) == if was == 0 then None else Some([was])
  {
    hide Commit;
    hide Held;
    assert Held(store, Undo(h[n].id, r)).Some?;
    var i :| 0 <= i < |ops| && from[i] == n && ops[i].cell == Latest(r);
    forall j | i <= j < |ops| && ops[j].cell == Latest(r)
      ensures Outcome(ops[j]) == if was == 0 then None else Some([was])
    {
      assert from[j] == n;
    }
    Touched(store, ops, Latest(r), i);
  }

  lemma RollbackMirrors(s: State, cmd: Cmd, c: V.Columns, p: V.Progress, next: V.Columns, k: nat, from: seq<nat>)
    requires Mirrors(s.store, c) && cmd.Rollback? && UndoStep(c, p, k, next)
    requires Repoints(cmd.restore(s.store), s.store, p.history, k, from)
    ensures Mirrors(Eager(s, cmd).store, next)
  {
    hide Eager;
    hide Held;
    hide Commit;
    hide S.FirstEntry;
    RollbackStores(s, cmd);
    var ops, h := cmd.restore(s.store), p.history;
    forall r: nat
      ensures Held(Commit(s.store, ops), Latest(r)) == if r in next.latest then Some([next.latest[r]]) else None
    {
      var n := S.FirstEntry(c, h, k, r);
      assert S.UndoneAt(next.latest, c, h, k, r);
      if n < |h| {
        RepointsToTheFirst(s.store, ops, h, k, from, n, r, c.undo[V.Key(h[n].id, r)]);
      } else {
        Untouched(s.store, ops, Latest(r));
      }
    }
  }

  lemma StepMirrors(s: State, cmd: Cmd, c: V.Columns, p: V.Progress, next: V.Columns)
    requires Mirrors(s.store, c) && Steps(s.store, c, p, cmd, next)
    ensures Mirrors(Eager(s, cmd).store, next)
  {
    hide Eager;
    hide Mirrors;
    hide Held;
    match cmd
    case StateDiff(d, canceled) =>
      DiffStores(s, d, canceled);
      if !canceled && Advances(d) {
        DiffMirrors(s, d, c, next);
      }
    case CommitBatch(_, canceled, _, _, _, _, _, _) =>
      CommitStores(s, cmd);
      if !canceled {
        CommitMirrors(s, cmd, c, p, next);
      }
    case Rollback(target, restore) =>
      var k := S.UpTo(p.history, target);
      var from :| Repoints(restore(s.store), s.store, p.history, k, from);
      RollbackMirrors(s, cmd, c, p, next, k, from);
    case StoreReceipt(key, value) =>
      ReceiptMirrors(s, key, value, c);
  }

  lemma ReceiptMirrors(s: State, key: nat, value: Value, c: V.Columns)
    requires Mirrors(s.store, c)
    ensures Mirrors(Eager(s, StoreReceipt(key, value)).store, c)
  {
    hide Eager;
    hide Held;
    ReceiptStores(s, key, value);
  }

  // ---- Runs ----

  /** Over every run of commands the store mirrors the columns that the commands' steps lead to. */
  lemma {:induction false} RunMirrors(s: State, cmds: seq<Cmd>, columns: seq<V.Columns>, progress: seq<V.Progress>)
    requires |columns| == |cmds| + 1 && |progress| == |cmds| && Mirrors(s.store, columns[0])
    requires forall i :: 0 <= i < |cmds| ==>
               Steps(EagerAll(s, cmds[..i]).store, columns[i], progress[i], cmds[i], columns[i + 1])
    ensures Mirrors(EagerAll(s, cmds).store, columns[|cmds|])
  {
    hide Mirrors;
    hide Steps;
    hide Eager;
    var n := |cmds| - 1;
    if n >= 0 {
      var init := cmds[..n];
      forall i | 0 <= i < n
        ensures Steps(EagerAll(s, init[..i]).store, columns[i], progress[i], init[i], columns[i + 1])
      {
        assert init[..i] == cmds[..i];
      }
      RunMirrors(s, init, columns[..n + 1], progress[..n]);
      StepMirrors(EagerAll(s, init), cmds[n], columns[n], progress[n], columns[n + 1]);
    }
  }
}
