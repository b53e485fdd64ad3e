/** What each command of the write worker leaves in the store, cell by cell. */
module WriteEffects {
  import opened Options
  import opened WriteCommands

  function Held(store: Store, x: Cell): Option<Value> {
    if x in store then Some(store[x]) else None
  }

  function Outcome(op: Op): Option<Value> {
    match op
    case Put(_, value) => Some(value)
    case Delete(_) => None
  }

  // ---- Write batches ----

  /** What a write batch leaves of a cell depends on no other cell. */
  lemma {:induction false} HeldAfter(a: Store, b: Store, ops: seq<Op>, x: Cell)
    requires Held(a, x) == Held(b, x)
    ensures Held(Commit(a, ops), x) == Held(Commit(b, ops), x)
    decreases |ops|
  {
    if ops != [] {
      HeldAfter(a, b, ops[..|ops| - 1], x);
    }
  }

  lemma {:induction false} Untouched(store: Store, ops: seq<Op>, x: Cell)
    requires forall i :: 0 <= i < |ops| ==> ops[i].cell != x
    ensures Held(Commit(store, ops), x) == Held(store, x)
    decreases |ops|
  {
    if ops != [] {
      Untouched(store, ops[..|ops| - 1], x);
    }
  }

  /** From some write of the cell on all its writes agree: that is what it holds. */
  lemma {:induction false} Touched(store: Store, ops: seq<Op>, x: Cell, i: nat)
    requires i < |ops| && ops[i].cell == x
    requires forall j :: i <= j < |ops| && ops[j].cell == x ==> Outcome(ops[j]) == Outcome(ops[i])
    ensures Held(Commit(store, ops), x) == Outcome(ops[i])
    decreases |ops|
  {
    if ops[|ops| - 1].cell != x {
      Touched(store, ops[..|ops| - 1], x, i);
    }
  }

  // ---- Diffs ----

  /** The diff's version advanced. */
  predicate Advances(d: Diff) {
    d.written.version > d.read.version
  }

  /** A diff that advances stores its data, unless empty, and the version it read, 0 for empty
      data; one that does not, or is canceled, stores nothing. */
  lemma DiffStores(s: State, d: Diff, canceled: bool)
    ensures var t := Eager(s, StateDiff(d, canceled));
            var version, undo := Version(d.written.version, d.resource), Undo(d.batch, d.resource);
            && t.lastCommitted == s.lastCommitted
            && (canceled || !Advances(d) ==> t == s)
            && (!canceled && Advances(d) ==>
                  && Held(t.store, version) == (if d.written.data != [] then Some(d.written.data)
                                                else Held(s.store, version))
                  && Held(t.store, undo) == Some([if d.read.data == [] then 0 else d.read.version])
                  && forall x: Cell :: x != version && x != undo ==> Held(t.store, x) == Held(s.store, x))
  {
    var ops := DiffWrites(d, canceled);
    if !canceled && Advances(d) {
      Touched(s.store, ops, Undo(d.batch, d.resource), |ops| - 1);
      if d.written.data != [] {
        Touched(s.store, ops, Version(d.written.version, d.resource), 0);
      }
      forall x: Cell | forall i :: 0 <= i < |ops| ==> ops[i].cell != x
        ensures Held(Commit(s.store, ops), x) == Held(s.store, x)
      {
        Untouched(s.store, ops, x);
      }
    }
  }

  // ---- Commits ----

  /** Diff `i` is the last one to advance its resource. */
  ghost predicate LastAdvance(diffs: seq<Diff>, i: nat) {
    && i < |diffs| && Advances(diffs[i])
    && forall j :: i < j < |diffs| && Advances(diffs[j]) ==> diffs[j].resource != diffs[i].resource
  }

  ghost predicate NeverAdvanced(diffs: seq<Diff>, r: nat) {
    forall i :: 0 <= i < |diffs| && Advances(diffs[i]) ==> diffs[i].resource != r
  }

  lemma {:induction false} PointerStays(store: Store, diffs: seq<Diff>, x: Cell)
    requires x.Latest? ==> NeverAdvanced(diffs, x.resource)
    ensures Held(Commit(store, LatestWrites(diffs)), x) == Held(store, x)
    decreases |diffs|
  {
    if diffs != [] {
      var first := PointerWrites(diffs[0]);
      Untouched(store, first, x);
      CommitOfTwo(store, first, LatestWrites(diffs[1..]));
      PointerStays(Commit(store, first), diffs[1..], x);
    }
  }

  lemma {:induction false} PointerMoves(store: Store, diffs: seq<Diff>, i: nat)
    requires LastAdvance(diffs, i)
    ensures Held(Commit(store, LatestWrites(diffs)), Latest(diffs[i].resource))
         == if diffs[i].written.data == [] then None else Some([diffs[i].written.version])
    decreases i
  {
    var first := PointerWrites(diffs[0]);
    CommitOfTwo(store, first, LatestWrites(diffs[1..]));
    if i == 0 {
      Touched(store, first, Latest(diffs[0].resource), 0);
      PointerStays(Commit(store, first), diffs[1..], Latest(diffs[0].resource));
    } else {
      PointerMoves(Commit(store, first), diffs[1..], i - 1);
    }
  }

  /** The tree's part of a commit. */
  function TreeWrites(c: Cmd, store: Store): seq<TreeOp>
    requires c.CommitBatch?
  {
    if c.restored then [] else c.tree(Nodes(store))
  }

  /** The store after a commit that is not canceled. */
  ghost predicate HoldsCommit(c: Cmd, before: Store, after: Store)
    requires c.CommitBatch?
  {
    && (forall i: nat :: LastAdvance(c.diffs, i) ==>
          Held(after, Latest(c.diffs[i].resource))
          == if c.diffs[i].written.data == [] then None else Some([c.diffs[i].written.version]))
    && (forall r: nat :: NeverAdvanced(c.diffs, r) ==> Held(after, Latest(r)) == Held(before, Latest(r)))
    && Held(after, LastCommitted) == Some([c.batch])
    && Held(after, Root) == (if c.isRoot then Some([c.batch]) else Held(before, Root))
    && Held(after, Metadata(c.batch)) == (if c.restored then Held(before, Metadata(c.batch)) else Some(c.metadata))
    && (forall x: Cell :: x.Node? || x.Stale? ==> Held(after, x) == Held(Commit(before, TreeWrites(c, before)), x))
    && (forall x: Cell :: x.Version? || x.Undo? || x.Receipt? || (x.Metadata? && x.batch != c.batch) ==>
          Held(after, x) == Held(before, x))
  }

  /** A commit moves the pointer of each advanced resource to the last version written, records
      the batch, its metadata and its tree update, and leaves data and entries alone. */
  lemma CommitStores(s: State, c: Cmd)
    requires c.CommitBatch?
    ensures var t := Eager(s, c);
            && t.lastCommitted == (if c.canceledLater then s.lastCommitted else c.batch)
            && (c.canceled ==> t.store == s.store)
            && (!c.canceled ==> HoldsCommit(c, s.store, t.store))
  {
    if !c.canceled {
      forall i: nat | LastAdvance(c.diffs, i)
        ensures Held(Eager(s, c).store, Latest(c.diffs[i].resource))
             == if c.diffs[i].written.data == [] then None else Some([c.diffs[i].written.version])
      {
        PointerMoves(s.store, c.diffs, i);
        CommitHolds(s, c, Latest(c.diffs[i].resource));
      }
      forall x: Cell | x.Latest? ==> NeverAdvanced(c.diffs, x.resource)
        ensures CellAfter(c, s.store, s.store, Eager(s, c).store, x)
      {
        PointerStays(s.store, c.diffs, x);
        CommitHolds(s, c, x);
        HeldAfter(s.store, Commit(s.store, LatestWrites(c.diffs)), TreeWrites(c, s.store), x);
      }
      AssembleCommit(c, s.store, Eager(s, c).store);
    }
  }

  lemma AssembleCommit(c: Cmd, before: Store, after: Store)
    requires c.CommitBatch?
    requires forall i: nat :: LastAdvance(c.diffs, i) ==>
               Held(after, Latest(c.diffs[i].resource))
               == if c.diffs[i].written.data == [] then None else Some([c.diffs[i].written.version])
    requires forall x: Cell :: (x.Latest? ==> NeverAdvanced(c.diffs, x.resource)) ==>
               CellAfter(c, before, before, after, x)
    ensures HoldsCommit(c, before, after)
  {
    hide Held;
    hide LastAdvance;
    hide NeverAdvanced;
    assert CellAfter(c, before, before, after, LastCommitted) && CellAfter(c, before, before, after, Root);
    forall x: Cell | x.Node? || x.Stale? ensures Held(after, x) == Held(Commit(before, TreeWrites(c, before)), x) {
      assert CellAfter(c, before, before, after, x);
    }
    forall x: Cell | x.Version? || x.Undo? || x.Receipt? || x.Metadata?
      ensures x != Metadata(c.batch) || c.restored ==> Held(after, x) == Held(before, x)
      ensures x == Metadata(c.batch) && !c.restored ==> Held(after, x) == Some(c.metadata)
    {
      assert CellAfter(c, before, before, after, x);
    }
    forall r: nat | NeverAdvanced(c.diffs, r) ensures Held(after, Latest(r)) == Held(before, Latest(r)) {
      assert CellAfter(c, before, before, after, Latest(r));
    }
  }

  /** A cell after a commit whose pointers are already moved in `before`. */
  ghost predicate CellAfter(c: Cmd, store: Store, before: Store, after: Store, x: Cell)
    requires c.CommitBatch?
  {
    Held(after, x) == if x == LastCommitted || (x == Root && c.isRoot) then Some([c.batch])
                      else if x == Metadata(c.batch) && !c.restored then Some(c.metadata)
                      else if x.Node? || x.Stale? then Held(Commit(before, TreeWrites(c, store)), x)
                      else Held(before, x)
  }

  lemma CommitHolds(s: State, c: Cmd, x: Cell)
    requires c.CommitBatch? && !c.canceled
    ensures CellAfter(c, s.store, Commit(s.store, LatestWrites(c.diffs)), Eager(s, c).store, x)
  {
    hide LatestWrites;
    CommitParts(s, c);
    MiddleStores(c, s.store, Commit(s.store, LatestWrites(c.diffs)), x);
  }

  /** Metadata and tree update of a commit. */
  function Middle(c: Cmd, store: Store): seq<Op>
    requires c.CommitBatch?
  {
    if c.restored then [] else [Put(Metadata(c.batch), c.metadata)] + c.tree(Nodes(store))
  }

  lemma CommitParts(s: State, c: Cmd)
    requires c.CommitBatch? && !c.canceled
    ensures var moved := Commit(s.store, LatestWrites(c.diffs));
            var marked := Commit(moved, Middle(c, s.store))[LastCommitted := [c.batch]];
            Eager(s, c).store == if c.isRoot then marked[Root := [c.batch]] else marked
  {
    hide LatestWrites;
    var latest, middle := LatestWrites(c.diffs), Middle(c, s.store);
    var last: seq<Op> := [Put(LastCommitted, [c.batch])];
    var root: seq<Op> := if c.isRoot then [Put(Root, [c.batch])] else [];
    CommitOfTwo(s.store, latest, middle);
    CommitOfTwo(s.store, latest + middle, last);
    CommitOfTwo(s.store, latest + middle + last, root);
    assert last[..0] == [] && (c.isRoot ==> root[..0] == []);
  }

  ghost predicate MiddleHolds(c: Cmd, store: Store, before: Store, after: Store, x: Cell)
    requires c.CommitBatch?
  {
    Held(after, x) == if x == Metadata(c.batch) && !c.restored then Some(c.metadata)
                      else if x.Node? || x.Stale? then Held(Commit(before, TreeWrites(c, store)), x)
                      else Held(before, x)
  }

  lemma MiddleStores(c: Cmd, store: Store, before: Store, x: Cell)
    requires c.CommitBatch?
    ensures MiddleHolds(c, store, before, Commit(before, Middle(c, store)), x)
  {
    if !c.restored {
      var head: seq<Op> := [Put(Metadata(c.batch), c.metadata)];
      var tree: seq<Op> := c.tree(Nodes(store));
      assert head[..0] == [];
      CommitOfTwo(before, head, tree);
      if x.Node? || x.Stale? {
        HeldAfter(before, Commit(before, head), tree, x);
      } else {
        Untouched(Commit(before, head), tree, x);
      }
    }
  }

  // ---- Rollbacks and receipts ----

  /** A rollback records the target, on disk and in memory, only if it was committed, resets the
      root only at genesis, and changes nothing else but latest pointers. */
  lemma RollbackStores(s: State, c: Cmd)
    requires c.Rollback?
    ensures var t := Eager(s, c);
            && t.lastCommitted == (if c.target < s.lastCommitted then c.target else s.lastCommitted)
            && Held(t.store, LastCommitted)
               == (if c.target < s.lastCommitted then Some([c.target]) else Held(s.store, LastCommitted))
            && Held(t.store, Root) == (if c.target == 0 then Some([0]) else Held(s.store, Root))
            && forall x: Cell :: x != LastCommitted && x != Root ==>
                 Held(t.store, x) == Held(if x.Latest? then Commit(s.store, c.restore(s.store)) else s.store, x)
  {
    var ops: seq<Op> := c.restore(s.store);
    var last: seq<Op> := if c.target < s.lastCommitted then [Put(LastCommitted, [c.target])] else [];
    var root: seq<Op> := if c.target == 0 then [Put(Root, [c.target])] else [];
    CommitOfTwo(s.store, ops, last);
    CommitOfTwo(s.store, ops + last, root);
    assert (last != [] ==> last[..0] == []) && (root != [] ==> root[..0] == []);
    forall x: Cell | !x.Latest? ensures Held(Commit(s.store, ops), x) == Held(s.store, x) {
      Untouched(s.store, ops, x);
    }
  }

  lemma ReceiptStores(s: State, key: nat, value: Value)
    ensures var t := Eager(s, StoreReceipt(key, value));
            && t.lastCommitted == s.lastCommitted && Held(t.store, Receipt(key)) == Some(value)
            && forall x: Cell :: x != Receipt(key) ==> Held(t.store, x) == Held(s.store, x)
  {
    var ops := [Put(Receipt(key), value)];
    Touched(s.store, ops, Receipt(key), 0);
    forall x: Cell | x != Receipt(key) ensures Held(Commit(s.store, ops), x) == Held(s.store, x) {
      Untouched(s.store, ops, x);
    }
  }
}
