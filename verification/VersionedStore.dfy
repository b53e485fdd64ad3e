/** The store's operations on its columns: writing diffs, committing batches, rolling back
    and pruning. */
module VersionedStore {
  import opened Numbers
  import opened VersionedState

  /** How many canonical batches have an id of at most `x`. */
  function UpTo(h: seq<Batch>, x: nat): (n: nat)
    ensures n <= |h|
    ensures n > 0 ==> h[n - 1].id <= x
    ensures forall i :: n <= i < |h| ==> h[i].id > x
  {
    if h == [] then 0 else if h[|h| - 1].id <= x then |h| else UpTo(h[..|h| - 1], x)
  }

  ghost predicate IsCanonical(h: seq<Batch>, id: nat) {
    exists i :: 0 <= i < |h| && h[i].id == id
  }

  lemma UpToSplits(h: seq<Batch>, x: nat, i: nat)
    requires Ascending(h) && i < |h|
    ensures i < UpTo(h, x) <==> h[i].id <= x
  {
    var n := UpTo(h, x);
    if n > 0 && i < n - 1 {
      assert h[i].id < h[n - 1].id;
    }
  }

  /** Walking one id down passes exactly the batch of that id, if it is canonical. */
  lemma UpToStep(h: seq<Batch>, x: nat)
    requires Ascending(h) && x > 0
    ensures IsCanonical(h, x) ==> UpTo(h, x) > 0 && h[UpTo(h, x) - 1].id == x && UpTo(h, x - 1) == UpTo(h, x) - 1
    ensures !IsCanonical(h, x) ==> UpTo(h, x - 1) == UpTo(h, x)
  {
    var n, m := UpTo(h, x), UpTo(h, x - 1);
    if m < |h| {
      UpToSplits(h, x, m);
      UpToSplits(h, x - 1, m);
    }
    if n > 0 {
      UpToSplits(h, x - 1, n - 1);
    }
    if m > 0 {
      UpToSplits(h, x, m - 1);
    }
    if IsCanonical(h, x) {
      var i :| 0 <= i < |h| && h[i].id == x;
      UpToSplits(h, x, i);
      UpToSplits(h, x - 1, i);
    }
  }

  lemma UpToAscends(h: seq<Batch>, x: nat, y: nat)
    requires Ascending(h) && x <= y
    ensures UpTo(h, x) <= UpTo(h, y)
  {
    if UpTo(h, x) > 0 {
      UpToSplits(h, y, UpTo(h, x) - 1);
    }
  }

  // ---- Rolling back ----

  /** The first batch from `i` on with an entry for `r`; the number of batches if none has. */
  ghost function FirstEntry(c: Columns, h: seq<Batch>, i: nat, r: nat): (n: nat)
    requires i <= |h|
    ensures i <= n <= |h| && (n < |h| ==> Key(h[n].id, r) in c.undo)
    ensures forall k :: i <= k < n ==> Key(h[k].id, r) !in c.undo
    decreases |h| - i
  {
    if i == |h| || Key(h[i].id, r) in c.undo then i else FirstEntry(c, h, i + 1, r)
  }

  ghost predicate SamePointer(a: map<nat, nat>, b: map<nat, nat>, r: nat) {
    (r in a <==> r in b) && (r in a ==> a[r] == b[r])
  }

  /** `r`'s pointer once batches `i..` are undone: what the first of them with an entry for it
      recorded, or untouched. */
  ghost predicate UndoneAt(latest: map<nat, nat>, c: Columns, h: seq<Batch>, i: nat, r: nat)
    requires i <= |h|
  {
    var n := FirstEntry(c, h, i, r);
    if n < |h| then Names(latest, c.undo[Key(h[n].id, r)], r) else SamePointer(latest, c.latest, r)
  }

  ghost predicate Undone(latest: map<nat, nat>, c: Columns, h: seq<Batch>, i: nat)
    requires i <= |h|
  {
    forall r: nat :: UndoneAt(latest, c, h, i, r)
  }

  /** The pointers while batch `i`'s entries are being applied. */
  ghost predicate UndoneHalfway(latest: map<nat, nat>, c: Columns, h: seq<Batch>, i: nat, todo: set<nat>)
    requires i < |h|
  {
    && (var next := i + 1; forall r: nat :: r in todo ==> UndoneAt(latest, c, h, next, r))
    && (forall r: nat :: r !in todo ==> UndoneAt(latest, c, h, i, r))
  }

  lemma UndoStep(latest: map<nat, nat>, c: Columns, h: seq<Batch>, i: nat, todo: set<nat>, r: nat)
    requires i < |h| && UndoneHalfway(latest, c, h, i, todo) && r in todo && Key(h[i].id, r) in c.undo
    ensures var was := c.undo[Key(h[i].id, r)];
            UndoneHalfway(if was == 0 then latest - {r} else latest[r := was], c, h, i, todo - {r})
  {
    var was, next := c.undo[Key(h[i].id, r)], i + 1;
    var out := if was == 0 then latest - {r} else latest[r := was];
    forall x: nat | x in todo - {r} ensures UndoneAt(out, c, h, next, x) {
      assert UndoneAt(latest, c, h, next, x);
    }
    forall x: nat | x !in todo - {r} ensures UndoneAt(out, c, h, i, x) {
      assert x != r ==> UndoneAt(latest, c, h, i, x);
    }
  }

  lemma HalfwayStarts(latest: map<nat, nat>, c: Columns, h: seq<Batch>, i: nat, todo: set<nat>)
    requires i < |h| && Undone(latest, c, h, i + 1)
    requires forall r :: r in todo <==> Key(h[i].id, r) in c.undo
    ensures UndoneHalfway(latest, c, h, i, todo)
  {
    var next := i + 1;
    forall r: nat ensures UndoneAt(latest, c, h, next, r) {}
    forall r: nat | r !in todo ensures UndoneAt(latest, c, h, i, r) {
      assert UndoneAt(latest, c, h, next, r);
    }
  }

  lemma HalfwayEnds(latest: map<nat, nat>, c: Columns, h: seq<Batch>, i: nat, todo: set<nat>)
    requires i < |h| && UndoneHalfway(latest, c, h, i, todo) && todo == {}
    ensures Undone(latest, c, h, i)
  {
  }

  /** The chain cut after `k` batches. */
  function CutAt(p: Progress, k: nat): Progress
    requires k <= |p.history|
  {
    p.(history := p.history[..k], committed := if p.committed < k then p.committed else k)
  }

  lemma CutState(p: Progress, k: nat, n: nat, r: nat)
    requires n <= k <= |p.history|
    ensures VersionAt(CutAt(p, k).history, n, r) == VersionAt(p.history, n, r)
    ensures DataAt(CutAt(p, k).history, n, r) == DataAt(p.history, n, r)
  {
    assert CutAt(p, k).history[..n] == p.history[..n];
    PrefixState(CutAt(p, k).history, p.history, n, r);
  }

  /** The rolled-back store has its shape, and holds right what it held right. */
  lemma RollbackKeepsShape(c: Columns, p: Progress, latest: map<nat, nat>, k: nat)
    requires Shape(c, p) && p.pruned <= k <= |p.history|
    ensures Shape(c.(latest := latest), CutAt(p, k))
  {
    var d, q := c.(latest := latest), CutAt(p, k);
    forall j, r: nat | q.pruned <= j < |q.history| ensures Recorded(d, q, j, r) {
      assert Recorded(c, p, j, r);
    }
  }

  lemma RollbackKeepsStored(c: Columns, p: Progress, latest: map<nat, nat>, k: nat, r: nat)
    requires Shape(c, p) && p.pruned <= k <= |p.history| && Stored(c, p, r)
    ensures Stored(c.(latest := latest), CutAt(p, k), r)
  {
    hide VersionAt;
    hide DataAt;
    var d, q := c.(latest := latest), CutAt(p, k);
    forall n | q.pruned <= n <= q.committed ensures Readable(d.data, q.history, n, r) {
      assert Readable(c.data, p.history, n, r);
      CutState(p, k, n, r);
    }
    forall j | q.pruned <= j < |q.history| ensures Undoable(d, q, j, r) && InFlight(d, q, j, r) {
      assert Undoable(c, p, j, r) && InFlight(c, p, j, r) && Recorded(c, p, j, r);
      CutState(p, k, j, r);
    }
  }

  // ---- When a rollback shows its target ----

  /** One past the last batch of `[i, n)` that changes `r`; `i` if none does. */
  function LastChange(h: seq<Batch>, i: nat, n: nat, r: nat): (e: nat)
    requires i <= n <= |h|
    ensures i <= e <= n && (e > i ==> r in h[e - 1].changes) && Quiet(h, e, n, r)
  {
    if n == i || r in h[n - 1].changes then n else LastChange(h, i, n - 1, r)
  }

  /** The entry found for `r` leads back to the target: no undone batch before the one with
      the entry changes `r`; or the last that does deletes it, and it did not exist before.
      Without an entry its latest pointer must name the target's version already. */
  ghost predicate Restores(c: Columns, p: Progress, k: nat, r: nat)
    requires k <= |p.history|
  {
    var n := FirstEntry(c, p.history, k, r);
    if n == |p.history| then PointsAt(c.latest, p.history, k, r)
    else
      var e := LastChange(p.history, k, n, r);
      e == k || (p.history[e - 1].changes[r] == [] && DataAt(p.history, k, r) == [])
  }

  /** The data the target shows for `r` is on disk. */
  ghost predicate Landed(p: Progress, k: nat, r: nat)
    requires k <= |p.history|
  {
    var e := LastChange(p.history, 0, k, r);
    e == 0 || e <= p.committed || Written(p, e - 1, r) || p.history[e - 1].changes[r] == []
  }

  lemma StateAtLastChange(h: seq<Batch>, i: nat, n: nat, r: nat)
    requires i <= n <= |h|
    ensures var e := LastChange(h, i, n, r);
            VersionAt(h, n, r) == VersionAt(h, e, r) && DataAt(h, n, r) == DataAt(h, e, r)
  {
    QuietKeepsState(h, LastChange(h, i, n, r), n, r);
  }

  /** A later state names the version of an earlier one exactly if nothing changed in between,
      or the last change deletes what did not exist. */
  lemma SameVersionExactlyWhen(h: seq<Batch>, i: nat, n: nat, r: nat)
    requires Ascending(h) && i <= n <= |h|
    ensures var e := LastChange(h, i, n, r);
            VersionAt(h, n, r) == VersionAt(h, i, r)
            <==> e == i || (h[e - 1].changes[r] == [] && DataAt(h, i, r) == [])
  {
    hide LastChange;
    var e := LastChange(h, i, n, r);
    StateAtLastChange(h, i, n, r);
    VersionIsData(h, i, r);
  }

  /** A latest pointer leads to the target's version exactly if the entry leads back to it. */
  lemma RestoresExactlyWhen(latest: map<nat, nat>, c: Columns, p: Progress, k: nat, r: nat)
    requires Shape(c, p) && Stored(c, p, r) && p.pruned <= k <= |p.history| && UndoneAt(latest, c, p.history, k, r)
    ensures PointsAt(latest, p.history, k, r) <==> Restores(c, p, k, r)
  {
    hide VersionAt;
    hide DataAt;
    hide LastChange;
    var n := FirstEntry(c, p.history, k, r);
    if n < |p.history| {
      assert Undoable(c, p, n, r);
      SameVersionExactlyWhen(p.history, k, n, r);
    }
  }

  /** A state can be read exactly if the data it shows has landed. */
  lemma ReadableExactlyWhen(c: Columns, p: Progress, k: nat, r: nat)
    requires Shape(c, p) && Stored(c, p, r) && p.pruned <= k <= |p.history|
    ensures Readable(c.data, p.history, k, r) <==> Landed(p, k, r)
  {
    var e := LastChange(p.history, 0, k, r);
    StateAtLastChange(p.history, 0, k, r);
    if e > p.committed {
      assert InFlight(c, p, e - 1, r);
    } else if k > p.committed {
      assert Quiet(p.history, e, k, r);
      QuietKeepsState(p.history, p.committed, k, r);
      assert Readable(c.data, p.history, p.committed, r);
    } else {
      assert Readable(c.data, p.history, k, r);
    }
  }

  /** After a rollback a resource shows the target's state exactly when the entry leads back to
      it and the data has landed, as it has for a committed target. */
  lemma ShowsTargetExactlyWhen(latest: map<nat, nat>, c: Columns, p: Progress, k: nat, r: nat)
    requires Shape(c, p) && Stored(c, p, r) && p.pruned <= k <= |p.history| && UndoneAt(latest, c, p.history, k, r)
    ensures Shows(c.(latest := latest), CutAt(p, k), k, r) <==> Restores(c, p, k, r) && Landed(p, k, r)
    ensures k <= p.committed ==> Landed(p, k, r)
  {
    hide VersionAt;
    hide DataAt;
    hide LastChange;
    hide Restores;
    RestoresExactlyWhen(latest, c, p, k, r);
    ReadableExactlyWhen(c, p, k, r);
    CutState(p, k, k, r);
  }

  /** In batch order a rollback leads back to its target, or leaves a pointer where it was
      below it; either way it has followed the diffs. */
  lemma RollbackStaysInStep(latest: map<nat, nat>, c: Columns, p: Progress, k: nat, r: nat)
    requires Shape(c, p) && Stored(c, p, r) && p.pruned <= k <= |p.history| && UndoneAt(latest, c, p.history, k, r)
    requires InStep(c, p, r)
    ensures InStep(c.(latest := latest), CutAt(p, k), r)
    ensures k <= p.committed ==> Shows(c.(latest := latest), CutAt(p, k), k, r)
  {
    hide VersionAt;
    hide DataAt;
    var d, q, n := c.(latest := latest), CutAt(p, k), FirstEntry(c, p.history, k, r);
    var m: nat :| ShowsWritten(c, p, m, r);
    if n < |p.history| {
      EntryLeadsBack(latest, c, p, k, n, r);
    } else {
      PointerStays(latest, c, p, k, m, r);
    }
    CutStaysInOrder(p, k, r);
  }

  lemma CutStaysInOrder(p: Progress, k: nat, r: nat)
    requires k <= |p.history| && InOrder(p, r)
    ensures InOrder(CutAt(p, k), r)
  {
    var q := CutAt(p, k);
    assert forall i :: q.committed <= i < k ==> (Written(q, i, r) <==> Written(p, i, r));
    forall j | q.committed <= j < |q.history| && Written(q, j, r) ensures ComesInOrder(q, j, r) {
      assert ComesInOrder(p, j, r);
    }
  }

  lemma EntryLeadsBack(latest: map<nat, nat>, c: Columns, p: Progress, k: nat, n: nat, r: nat)
    requires Shape(c, p) && Stored(c, p, r) && InOrder(p, r) && p.pruned <= k <= n < |p.history|
    requires n == FirstEntry(c, p.history, k, r) && UndoneAt(latest, c, p.history, k, r)
    ensures ShowsWritten(c.(latest := latest), CutAt(p, k), k, r)
  {
    hide VersionAt;
    hide DataAt;
    assert Recorded(c, p, n, r);
    forall i | 0 <= i < n && r in p.history[i].changes ensures Written(p, i, r) && i < k {
      if k <= i {
        assert Recorded(c, p, i, r);
      }
    }
    assert LastChange(p.history, k, n, r) == k;
    ShowsTargetExactlyWhen(latest, c, p, k, r);
  }

  lemma PointerStays(latest: map<nat, nat>, c: Columns, p: Progress, k: nat, m: nat, r: nat)
    requires Shape(c, p) && Stored(c, p, r) && p.pruned <= k <= |p.history| && ShowsWritten(c, p, m, r)
    requires FirstEntry(c, p.history, k, r) == |p.history| && SamePointer(latest, c.latest, r)
    ensures ShowsWritten(c.(latest := latest), CutAt(p, k), Min(m, k), r)
  {
    hide VersionAt;
    hide DataAt;
    var n := Min(m, k);
    assert Quiet(p.history, n, m, r) by {
      forall i | n <= i < m ensures r !in p.history[i].changes {
        assert Recorded(c, p, i, r);
      }
    }
    hide Shape;
    hide Stored;
    hide Quiet;
    QuietKeepsState(p.history, n, m, r);
    CutState(p, k, n, r);
    assert forall i :: 0 <= i < k && Written(p, i, r) ==> Written(CutAt(p, k), i, r);
  }

  class VersionedStore {
    var data: map<Key, Data>
    var latest: map<nat, nat>
    var undo: map<Key, nat>
    /** The canonical batches the columns stand for. */
    ghost var progress: Progress

    ghost function Content(): Columns
      reads this
    {
      Columns(data, latest, undo)
    }

    ghost predicate Valid()
      reads this
    {
      Shape(Content(), progress)
    }

    /** The columns hold `r` right. */
    ghost predicate Holds(r: nat)
      requires Valid()
      reads this
    {
      Stored(Content(), progress, r)
    }

    /** The latest pointer shows a state of `r` between the last committed batch and the tip. */
    ghost predicate UpToDate(r: nat)
      reads this
    {
      Current(Content(), progress, r)
    }

    /** The diffs of `r` have come in batch order, and its pointer has followed them. */
    ghost predicate Follows(r: nat)
      reads this
      ensures Follows(r) ==> UpToDate(r)
    {
      InStep(Content(), progress, r)
    }

    constructor ()
      ensures Valid() && progress == Progress([], 0, 0, {}, 0) && Content() == Columns(map[], map[], map[])
      ensures forall r: nat :: Holds(r) && Follows(r)
    {
      data, latest, undo := map[], map[], map[];
      progress := Progress([], 0, 0, {}, 0);
      new;
      forall r: nat ensures Follows(r) {
        assert ShowsWritten(Content(), progress, 0, r);
      }
    }

    /** The resource's latest version and data. If the resource is up to date they are those of
        some point of the canonical chain between its last committed batch and its tip. */
    method FromLatestData(r: nat) returns (version: nat, value: Data)
      requires Valid()
      ensures version == LatestVersion(latest, r)
      ensures value == if r in latest && Key(version, r) in data then data[Key(version, r)] else []
      ensures UpToDate(r) ==>
                exists n :: progress.committed <= n <= |progress.history|
                            && version == VersionAt(progress.history, n, r) && value == DataAt(progress.history, n, r)
      ensures UpToDate(r) && progress.committed == |progress.history| ==>
                && version == VersionAt(progress.history, |progress.history|, r)
                && value == DataAt(progress.history, |progress.history|, r)
    {
      if UpToDate(r) {
        ghost var n: nat :| Shows(Content(), progress, n, r);
        VersionIsData(progress.history, n, r);
      }
      if r !in latest {
        return 0, [];
      }
      version := latest[r];
      value := if Key(version, r) in data then data[Key(version, r)] else [];
    }

    /** A batch joins the canonical chain under a fresh id. */
    ghost method Begin(b: Batch)
      requires Valid() && b.id > progress.issued
      modifies this`progress
      ensures Valid() && progress == old(progress).(history := old(progress.history) + [b], issued := b.id)
      ensures forall r: nat :: (old(Holds(r)) ==> Holds(r)) && (old(UpToDate(r)) ==> UpToDate(r))
      ensures forall r: nat :: old(Follows(r)) ==> Follows(r)
    {
      hide Stored;
      hide Current;
      hide InStep;
      BeginKeepsShape(Content(), progress, b);
      forall r: nat {
        BeginKeeps(Content(), progress, b, r);
      }
      progress := progress.(history := progress.history + [b], issued := b.id);
    }

    /** Persists one resource's diff of an in-flight batch, whatever else has been written: the
        new version and, for undoing it, the version that was read. The columns go on holding
        the resource right exactly if what was read is what the batch replaces. */
    method WriteDiff(id: nat, r: nat, written: Data, readVersion: nat, readData: Data, ghost j: nat)
      requires Valid() && progress.committed <= j < |progress.history| && progress.history[j].id == id
      requires r in progress.history[j].changes && progress.history[j].changes[r] == written
      modifies this
      ensures Valid() && latest == old(latest)
      ensures undo == old(undo)[Key(id, r) := if readData == [] then 0 else readVersion]
      ensures data == if written != [] then old(data)[Key(id, r) := written] else old(data)
      ensures progress == old(progress).(diffs := old(progress.diffs) + {Key(id, r)})
      ensures old(Holds(r)) ==> (Holds(r) <==> undo[Key(id, r)] == VersionAt(progress.history, j, r))
      ensures forall x: nat :: x != r && old(Holds(x)) ==> Holds(x)
      ensures forall x: nat :: old(UpToDate(x)) ==> UpToDate(x)
      ensures forall x: nat :: old(Follows(x)) ==> (Follows(x) <==> x != r || ComesInOrder(old(progress), j, r))
    {
      hide Stored;
      hide Current;
      hide InStep;
      hide Shape;
      hide VersionAt;
      ghost var was := if readData == [] then 0 else readVersion;
      WriteDiffKeepsShape(Content(), progress, j, r, was);
      forall x: nat {
        WriteDiffKeeps(Content(), progress, j, r, was, x);
      }
      if written != [] {
        data := data[Key(id, r) := written];
      }
      undo := undo[Key(id, r) := if readData == [] then 0 else readVersion];
      progress := progress.(diffs := progress.diffs + {Key(id, r)});
    }

    /** Commits the next batch, all of whose diffs are written: its latest pointers move. */
    method CommitBatch(id: nat, changes: map<nat, Data>)
      requires Valid() && progress.committed < |progress.history| && id == progress.history[progress.committed].id
      requires changes == progress.history[progress.committed].changes
      requires forall r :: r in changes ==> Written(progress, progress.committed, r)
      modifies this
      ensures Valid() && data == old(data) && undo == old(undo)
      ensures progress == old(progress).(committed := old(progress.committed) + 1)
      ensures HalfCommitted(latest, old(latest), old(progress), {})
      ensures forall r: nat :: old(Holds(r)) ==> Holds(r)
      ensures forall r: nat :: (if r in changes then old(Holds(r)) else old(UpToDate(r))) ==> UpToDate(r)
      ensures forall r: nat :: old(Holds(r)) && old(Follows(r)) ==> Follows(r)
    {
      hide Stored;
      hide Current;
      hide InStep;
      ghost var c, p := Content(), progress;
      CommitStarts(c, p);
      var pointers: map<nat, nat> := latest;
      var todo := changes.Keys;
      while todo != {}
        modifies {}
        invariant todo <= changes.Keys
        invariant HalfCommitted(pointers, c.latest, p, todo)
        decreases todo
      {
        var r :| r in todo;
        CommitStep(pointers, c.latest, p, todo, r);
        pointers := if changes[r] != [] then pointers[r := id] else pointers - {r};
        todo := todo - {r};
      }
      CommitKeepsShape(c, p, pointers);
      forall r: nat {
        CommitKeeps(c, p, pointers, r);
      }
      latest := pointers;
      progress := p.(committed := p.committed + 1);
    }

    /** Drops batches `lower..=upper`: of a canonical one the versions it replaced, of an
        orphaned one its own, and of both the entries. `canonical` tells them apart. */
    method Prune(lower: nat, upper: nat, canonical: set<nat>)
      requires Valid() && 0 < lower <= upper
      requires UpTo(progress.history, lower - 1) == progress.pruned
      requires UpTo(progress.history, upper) <= progress.committed
      requires forall id :: lower <= id <= upper ==> (id in canonical <==> IsCanonical(progress.history, id))
      modifies this
      ensures Valid() && latest == old(latest)
      ensures progress == old(progress).(pruned := UpTo(old(progress.history), upper))
      ensures forall k :: k in data <==>
                k in old(data) && !Dropped(old(Content()), old(progress.history), lower, upper + 1, k)
      ensures forall k :: k in data ==> data[k] == old(data)[k]
      ensures forall k :: k in undo <==> k in old(undo) && !(lower <= k.version <= upper)
      ensures forall k :: k in undo ==> undo[k] == old(undo)[k]
      ensures forall j, r: nat :: old(progress.pruned) <= j < progress.pruned && old(Holds(r))
                                  && r in old(progress.history)[j].changes
                                  && VersionAt(old(progress.history), j, r) != 0 ==>
                Key(VersionAt(old(progress.history), j, r), r) !in data
      ensures forall k :: (k in old(undo) && lower <= k.version <= upper
                           && !IsCanonical(old(progress.history), k.version)) ==> k !in data
      ensures forall r: nat :: old(Holds(r)) ==> Holds(r) && (old(UpToDate(r)) ==> UpToDate(r))
      ensures forall r: nat :: old(Holds(r)) && old(Follows(r)) ==> Follows(r)
    {
      hide Shape;
      hide Stored;
      hide Current;
      hide InStep;
      hide UpTo;
      hide IsCanonical;
      hide Pruning;
      ghost var c, p := Content(), progress;
      ShapeAscends(c, p);
      PruneStarts(c, p, lower);
      var kept, entries := data, undo;
      for index := lower to upper + 1
        modifies {}
        invariant Pruning(c, p, kept, entries, lower, index)
      {
        kept, entries := PruneBatch(index, index in canonical, kept, entries, lower);
      }
      PruneKeepsShape(c, p, kept, entries, lower, upper);
      forall r: nat | Stored(c, p, r) {
        PruneKeepsStored(c, p, kept, entries, lower, upper, r);
      }
      PrunedIsExact(c, p, kept, entries, lower, upper);
      data, undo := kept, entries;
      progress := p.(pruned := UpTo(p.history, upper));
    }

    /** The deletions of one batch, decided by the entries on disk. */
    method PruneBatch(index: nat, isCanonical: bool, data0: map<Key, Data>, undo0: map<Key, nat>, ghost lower: nat)
      returns (kept: map<Key, Data>, entries: map<Key, nat>)
      requires Valid() && 0 < lower <= index && (isCanonical <==> IsCanonical(progress.history, index))
      requires UpTo(progress.history, lower - 1) == progress.pruned
      requires Pruning(Content(), progress, data0, undo0, lower, index)
      ensures Pruning(Content(), progress, kept, entries, lower, index + 1)
    {
      hide Shape;
      hide UpTo;
      hide IsCanonical;
      hide PruningHalfway;
      hide Pruning;
      ShapeAscends(Content(), progress);
      kept, entries := data0, undo0;
      var todo := set k | k in undo && k.version == index :: k.resource;
      PruneHalfwayStarts(Content(), progress, kept, entries, lower, index, todo);
      while todo != {}
        invariant forall r :: r in todo ==> Key(index, r) in undo
        invariant PruningHalfway(Content(), progress, kept, entries, lower, index, todo)
        decreases todo
      {
        var r :| r in todo;
        PruneStep(Content(), progress, kept, entries, lower, index, todo, r);
        if !isCanonical {
          kept := kept - {Key(index, r)};
        } else if undo[Key(index, r)] != 0 {
          kept := kept - {Key(undo[Key(index, r)], r)};
        }
        entries := entries - {Key(index, r)};
        todo := todo - {r};
      }
      PruneHalfwayEnds(Content(), progress, kept, entries, lower, index, todo);
    }

    /** Undoes every canonical batch above `target`, newest first. `canonical` is the chain
        as it was before the rollback, and `upperBound` is at least its tip. A resource shows
        the target's state exactly if the entry found for it leads there and its data has
        landed; with diffs in batch order it does so for every committed target. */
    method Rollback(target: nat, upperBound: nat, canonical: set<nat>)
      requires Valid() && target <= upperBound
      requires target == 0 || IsCanonical(progress.history, target)
      requires progress.pruned <= UpTo(progress.history, target)
      requires UpTo(progress.history, upperBound) == |progress.history|
      requires forall id :: target < id <= upperBound ==> (id in canonical <==> IsCanonical(progress.history, id))
      modifies this
      ensures Valid() && data == old(data) && undo == old(undo)
      ensures progress == CutAt(old(progress), UpTo(old(progress.history), target))
      ensures Undone(latest, old(Content()), old(progress.history), UpTo(old(progress.history), target))
      ensures forall r: nat :: old(Holds(r)) ==> Holds(r)
      ensures var k := UpTo(old(progress.history), target);
              forall r: nat :: old(Holds(r)) ==>
                (Shows(Content(), progress, k, r)
                 <==> Restores(old(Content()), old(progress), k, r) && Landed(old(progress), k, r))
      ensures forall r: nat :: old(Holds(r)) && old(Follows(r)) ==>
                Follows(r) && (|progress.history| <= old(progress.committed) ==>
                                 Shows(Content(), progress, |progress.history|, r))
    {
      hide InStep;
      hide Shape;
      hide Stored;
      hide Undone;
      hide UpTo;
      hide IsCanonical;
      hide Shows;
      hide Restores;
      hide Landed;
      var restored := UndoBatches(target, upperBound, canonical);
      RollbackHolds(Content(), progress, restored, UpTo(progress.history, target));
      latest := restored;
      progress := CutAt(progress, UpTo(progress.history, target));
    }

    /** The pointers with every canonical batch above `target` undone, newest first. */
    method UndoBatches(target: nat, upperBound: nat, canonical: set<nat>) returns (restored: map<nat, nat>)
      requires Valid() && target <= upperBound
      requires UpTo(progress.history, upperBound) == |progress.history|
      requires forall id :: target < id <= upperBound ==> (id in canonical <==> IsCanonical(progress.history, id))
      ensures Undone(restored, Content(), progress.history, UpTo(progress.history, target))
    {
      hide Shape;
      hide Undone;
      hide UpTo;
      hide IsCanonical;
      hide Ascending;
      ShapeAscends(Content(), progress);
      RollbackStarts(Content(), progress);
      restored := latest;
      for index := upperBound + 1 downto target + 1
        invariant Undone(restored, Content(), progress.history, UpTo(progress.history, index - 1))
      {
        UpToStep(progress.history, index);
        if index in canonical {
          restored := UndoBatch(index, restored);
        }
      }
    }

    /** Applies the entries of one batch to the pointers. */
    method UndoBatch(index: nat, pointers: map<nat, nat>) returns (restored: map<nat, nat>)
      requires Valid() && IsCanonical(progress.history, index) && index > 0
      requires Undone(pointers, Content(), progress.history, UpTo(progress.history, index))
      ensures Undone(restored, Content(), progress.history, UpTo(progress.history, index - 1))
    {
      hide Shape;
      hide Undone;
      hide UndoneHalfway;
      hide UpTo;
      hide IsCanonical;
      hide Ascending;
      ghost var c, h, i := Content(), progress.history, UpTo(progress.history, index - 1);
      ShapeAscends(c, progress);
      UpToStep(h, index);
      restored := pointers;
      var todo := set k | k in undo && k.version == index :: k.resource;
      HalfwayStarts(restored, c, h, i, todo);
      while todo != {}
        invariant forall r :: r in todo ==> Key(index, r) in undo
        invariant UndoneHalfway(restored, c, h, i, todo)
        decreases todo
      {
        var r :| r in todo;
        var was := undo[Key(index, r)];
        UndoStep(restored, c, h, i, todo, r);
        restored := if was == 0 then restored - {r} else restored[r := was];
        todo := todo - {r};
      }
      HalfwayEnds(restored, c, h, i, todo);
    }
  }

  /** The version a resource's pointer names; 0 without one. */
  function LatestVersion(latest: map<nat, nat>, r: nat): nat {
    if r in latest then latest[r] else 0
  }

  lemma ShapeAscends(c: Columns, p: Progress)
    requires Shape(c, p)
    ensures Ascending(p.history) && p.pruned <= p.committed <= |p.history|
  {
  }

  lemma RollbackStarts(c: Columns, p: Progress)
    ensures Undone(c.latest, c, p.history, |p.history|)
  {
  }

  lemma RollbackHolds(c: Columns, p: Progress, latest: map<nat, nat>, k: nat)
    requires Shape(c, p) && p.pruned <= k <= |p.history| && Undone(latest, c, p.history, k)
    ensures Shape(c.(latest := latest), CutAt(p, k))
    ensures forall r: nat :: Stored(c, p, r) ==>
              && Stored(c.(latest := latest), CutAt(p, k), r)
              && (Shows(c.(latest := latest), CutAt(p, k), k, r) <==> Restores(c, p, k, r) && Landed(p, k, r))
              && (InStep(c, p, r) ==>
                    && InStep(c.(latest := latest), CutAt(p, k), r)
                    && (k <= p.committed ==> Shows(c.(latest := latest), CutAt(p, k), k, r)))
  {
    hide InStep;
    hide Stored;
    hide Shows;
    hide Restores;
    hide Landed;
    hide UndoneAt;
    RollbackKeepsShape(c, p, latest, k);
    forall r: nat | Stored(c, p, r)
      ensures Stored(c.(latest := latest), CutAt(p, k), r)
      ensures Shows(c.(latest := latest), CutAt(p, k), k, r) <==> Restores(c, p, k, r) && Landed(p, k, r)
      ensures InStep(c, p, r) ==>
                && InStep(c.(latest := latest), CutAt(p, k), r)
                && (k <= p.committed ==> Shows(c.(latest := latest), CutAt(p, k), k, r))
    {
      assert UndoneAt(latest, c, p.history, k, r);
      RollbackKeepsStored(c, p, latest, k, r);
      ShowsTargetExactlyWhen(latest, c, p, k, r);
      if InStep(c, p, r) {
        RollbackStaysInStep(latest, c, p, k, r);
      }
    }
  }

  // ---- Batches that begin, and their diffs ----

  lemma BeginState(p: Progress, b: Batch, n: nat, r: nat)
    requires n <= |p.history|
    ensures VersionAt(p.history + [b], n, r) == VersionAt(p.history, n, r)
    ensures DataAt(p.history + [b], n, r) == DataAt(p.history, n, r)
  {
    assert (p.history + [b])[..n] == p.history[..n];
    PrefixState(p.history + [b], p.history, n, r);
  }

  lemma BeginKeepsShape(c: Columns, p: Progress, b: Batch)
    requires Shape(c, p) && b.id > p.issued
    ensures Shape(c, p.(history := p.history + [b], issued := b.id))
  {
    var q := p.(history := p.history + [b], issued := b.id);
    forall j, r: nat | q.pruned <= j < |q.history| ensures Recorded(c, q, j, r) {
      if j < |p.history| {
        assert Recorded(c, p, j, r);
      }
    }
  }

  lemma BeginKeeps(c: Columns, p: Progress, b: Batch, r: nat)
    requires Shape(c, p) && b.id > p.issued
    ensures var q := p.(history := p.history + [b], issued := b.id);
            && (Stored(c, p, r) ==> Stored(c, q, r)) && (Current(c, p, r) ==> Current(c, q, r))
            && (InStep(c, p, r) ==> InStep(c, q, r))
  {
    hide VersionAt;
    hide DataAt;
    var q := p.(history := p.history + [b], issued := b.id);
    forall n: nat | n <= |p.history|
      ensures VersionAt(q.history, n, r) == VersionAt(p.history, n, r)
      ensures DataAt(q.history, n, r) == DataAt(p.history, n, r)
    {
      BeginState(p, b, n, r);
    }
    if Current(c, p, r) {
      var n: nat :| Shows(c, p, n, r);
      assert Shows(c, q, n, r);
    }
    if InStep(c, p, r) {
      var n: nat :| ShowsWritten(c, p, n, r);
      assert forall i :: 0 <= i < |p.history| ==> (Written(q, i, r) <==> Written(p, i, r));
      assert ShowsWritten(c, q, n, r) && InOrder(q, r);
    }
    if Stored(c, p, r) {
      forall n | q.pruned <= n <= q.committed ensures Readable(c.data, q.history, n, r) {
        assert Readable(c.data, p.history, n, r);
      }
      forall j | q.pruned <= j < |q.history| ensures Undoable(c, q, j, r) && InFlight(c, q, j, r) {
        if j < |p.history| {
          assert Undoable(c, p, j, r) && InFlight(c, p, j, r);
        }
      }
    }
  }

  /** The columns with batch `j`'s diff for `r` written, having read version `was`. */
  ghost function WithDiff(c: Columns, p: Progress, j: nat, r: nat, was: nat): Columns
    requires j < |p.history| && r in p.history[j].changes
  {
    var k, d := Key(p.history[j].id, r), p.history[j].changes[r];
    Columns(if d != [] then c.data[k := d] else c.data, c.latest, c.undo[k := was])
  }

  ghost function WithKey(p: Progress, j: nat, r: nat): Progress
    requires j < |p.history|
  {
    p.(diffs := p.diffs + {Key(p.history[j].id, r)})
  }

  lemma WriteDiffKeepsShape(c: Columns, p: Progress, j: nat, r: nat, was: nat)
    requires Shape(c, p) && p.committed <= j < |p.history| && r in p.history[j].changes
    ensures Shape(WithDiff(c, p, j, r, was), WithKey(p, j, r))
  {
    var b, q := WithDiff(c, p, j, r, was), WithKey(p, j, r);
    forall i, x: nat | q.pruned <= i < |q.history| ensures Recorded(b, q, i, x) {
      assert Recorded(c, p, i, x);
      assert i != j ==> p.history[i].id != p.history[j].id;
    }
  }

  lemma WriteDiffKeeps(c: Columns, p: Progress, j: nat, r: nat, was: nat, x: nat)
    requires Shape(c, p) && p.committed <= j < |p.history| && r in p.history[j].changes
    ensures var b, q := WithDiff(c, p, j, r, was), WithKey(p, j, r);
            && (Stored(c, p, x) ==> (Stored(b, q, x) <==> x != r || was == VersionAt(p.history, j, r)))
            && (Current(c, p, x) ==> Current(b, q, x))
            && (InStep(c, p, x) ==> (InStep(b, q, x) <==> x != r || ComesInOrder(p, j, r)))
  {
    hide VersionAt;
    hide DataAt;
    hide WithDiff;
    hide Readable;
    hide Stored;
    hide Shape;
    hide InStep;
    hide ComesInOrder;
    if InStep(c, p, x) {
      WriteDiffInStep(c, p, j, r, was, x);
    }
    if Current(c, p, x) {
      var n: nat :| Shows(c, p, n, x);
      WriteDiffKeepsData(c, p, j, r, was, n, x);
      assert Shows(WithDiff(c, p, j, r, was), WithKey(p, j, r), n, x);
    }
    if Stored(c, p, x) {
      WriteDiffKeepsStored(c, p, j, r, was, x);
    }
  }

  lemma WriteDiffKeepsStored(c: Columns, p: Progress, j: nat, r: nat, was: nat, x: nat)
    requires Shape(c, p) && p.committed <= j < |p.history| && r in p.history[j].changes && Stored(c, p, x)
    ensures Stored(WithDiff(c, p, j, r, was), WithKey(p, j, r), x) <==> x != r || was == VersionAt(p.history, j, r)
  {
    hide VersionAt;
    hide DataAt;
    hide WithDiff;
    hide Readable;
    hide Undoable;
    hide InFlight;
    ShapeAscends(c, p);
    hide Shape;
    var b, q := WithDiff(c, p, j, r, was), WithKey(p, j, r);
    forall n | q.pruned <= n <= q.committed ensures Readable(b.data, q.history, n, x) {
      assert Readable(c.data, p.history, n, x);
      WriteDiffKeepsData(c, p, j, r, was, n, x);
    }
    forall i | q.pruned <= i < |q.history|
      ensures Undoable(b, q, i, x) <==> x != r || i != j || was == VersionAt(p.history, j, r)
      ensures InFlight(b, q, i, x)
    {
      assert Undoable(c, p, i, x) && InFlight(c, p, i, x);
      WriteDiffKeepsEntry(c, p, j, r, was, i, x);
    }
    assert Stored(b, q, x) ==> Undoable(b, q, j, x);
  }

  /** A diff stays in step exactly if it comes in batch order. */
  lemma WriteDiffInStep(c: Columns, p: Progress, j: nat, r: nat, was: nat, x: nat)
    requires Shape(c, p) && p.committed <= j < |p.history| && r in p.history[j].changes && InStep(c, p, x)
    ensures InStep(WithDiff(c, p, j, r, was), WithKey(p, j, r), x) <==> x != r || ComesInOrder(p, j, r)
  {
    hide VersionAt;
    hide DataAt;
    hide WithDiff;
    hide Readable;
    var b, q := WithDiff(c, p, j, r, was), WithKey(p, j, r);
    var n: nat :| ShowsWritten(c, p, n, x);
    WriteDiffKeepsData(c, p, j, r, was, n, x);
    forall i | 0 <= i < |p.history| ensures Written(q, i, x) <==> Written(p, i, x) || (i == j && x == r) {
      assert i != j ==> p.history[i].id != p.history[j].id;
    }
    assert ShowsWritten(b, q, n, x);
    if InStep(b, q, x) && x == r {
      forall i | p.committed <= i < j && r in p.history[i].changes ensures Written(p, i, r) {
        assert Written(q, j, r) && Written(q, i, r);
      }
    }
  }

  /** What is written is what the chain says, so no state it shows is disturbed. */
  lemma WriteDiffKeepsData(c: Columns, p: Progress, j: nat, r: nat, was: nat, n: nat, x: nat)
    requires Shape(c, p) && j < |p.history| && r in p.history[j].changes && n <= |p.history|
    requires Readable(c.data, p.history, n, x)
    ensures Readable(WithDiff(c, p, j, r, was).data, p.history, n, x)
    ensures WithDiff(c, p, j, r, was).latest == c.latest
  {
    hide VersionAt;
    hide DataAt;
    VersionIsData(p.history, n, x);
  }

  lemma WriteDiffKeepsEntry(c: Columns, p: Progress, j: nat, r: nat, was: nat, i: nat, x: nat)
    requires Shape(c, p) && p.committed <= j < |p.history| && r in p.history[j].changes && p.pruned <= i < |p.history|
    requires Undoable(c, p, i, x) && InFlight(c, p, i, x)
    ensures var b, q := WithDiff(c, p, j, r, was), WithKey(p, j, r);
            && (Undoable(b, q, i, x) <==> x != r || i != j || was == VersionAt(p.history, j, r))
            && InFlight(b, q, i, x)
  {
    hide VersionAt;
    assert i != j ==> p.history[i].id != p.history[j].id;
  }

  // ---- Committing ----

  /** Of the batch being committed, the pointers of `todo` are left to move. */
  ghost predicate HalfCommitted(latest: map<nat, nat>, before: map<nat, nat>, p: Progress, todo: set<nat>)
    requires p.committed < |p.history|
  {
    var changes, next := p.history[p.committed].changes, p.committed + 1;
    && (forall r: nat :: r in todo || r !in changes ==> SamePointer(latest, before, r))
    && (forall r: nat :: r in changes && r !in todo ==> PointsAt(latest, p.history, next, r))
  }

  lemma CommitStep(latest: map<nat, nat>, before: map<nat, nat>, p: Progress, todo: set<nat>, r: nat)
    requires p.committed < |p.history| && p.history[p.committed].id > 0
    requires todo <= p.history[p.committed].changes.Keys && HalfCommitted(latest, before, p, todo) && r in todo
    ensures var b := p.history[p.committed];
            HalfCommitted(if b.changes[r] != [] then latest[r := b.id] else latest - {r}, before, p, todo - {r})
  {
  }

  lemma CommitStarts(c: Columns, p: Progress)
    requires Shape(c, p) && p.committed < |p.history|
    ensures HalfCommitted(c.latest, c.latest, p, p.history[p.committed].changes.Keys) && Ascending(p.history)
  {
  }

  lemma CommitKeepsShape(c: Columns, p: Progress, latest: map<nat, nat>)
    requires Shape(c, p) && p.committed < |p.history|
    requires forall r :: r in p.history[p.committed].changes ==> Written(p, p.committed, r)
    ensures Shape(c.(latest := latest), p.(committed := p.committed + 1))
  {
    var d, q := c.(latest := latest), p.(committed := p.committed + 1);
    forall j, r: nat | q.pruned <= j < |q.history| ensures Recorded(d, q, j, r) {
      assert Recorded(c, p, j, r);
    }
  }

  lemma CommitKeeps(c: Columns, p: Progress, latest: map<nat, nat>, r: nat)
    requires Shape(c, p) && p.committed < |p.history| && HalfCommitted(latest, c.latest, p, {})
    requires forall r :: r in p.history[p.committed].changes ==> Written(p, p.committed, r)
    ensures var d, q := c.(latest := latest), p.(committed := p.committed + 1);
            && (Stored(c, p, r) ==> Stored(d, q, r))
            && ((if r in p.history[p.committed].changes then Stored(c, p, r) else Current(c, p, r)) ==>
                  Current(d, q, r))
            && (Stored(c, p, r) && InStep(c, p, r) ==> InStep(d, q, r))
  {
    hide VersionAt;
    hide DataAt;
    hide Shows;
    hide Stored;
    hide Shape;
    hide HalfCommitted;
    if Stored(c, p, r) {
      CommitKeepsStored(c, p, latest, r);
      if r in p.history[p.committed].changes {
        CommittedIsShown(c, p, latest, r);
      }
    }
    if r !in p.history[p.committed].changes && Current(c, p, r) {
      var m: nat :| Shows(c, p, m, r);
      UncommittedIsShown(c, p, latest, m, r);
      if InStep(c, p, r) {
        var k: nat :| ShowsWritten(c, p, k, r);
        UncommittedIsShown(c, p, latest, k, r);
      }
    }
    CommitStaysInOrder(p, r);
  }

  lemma CommitStaysInOrder(p: Progress, r: nat)
    requires p.committed < |p.history|
    ensures InOrder(p, r) ==> InOrder(p.(committed := p.committed + 1), r)
  {
    var q := p.(committed := p.committed + 1);
    assert forall i :: q.committed <= i < |p.history| ==> (Written(q, i, r) <==> Written(p, i, r));
    if InOrder(p, r) {
      forall j | q.committed <= j < |q.history| && Written(q, j, r) ensures ComesInOrder(q, j, r) {
        assert ComesInOrder(p, j, r);
      }
    }
  }

  /** A pointer the commit has moved. */
  lemma CommittedIsShown(c: Columns, p: Progress, latest: map<nat, nat>, r: nat)
    requires Shape(c, p) && Stored(c, p, r) && p.committed < |p.history| && HalfCommitted(latest, c.latest, p, {})
    requires r in p.history[p.committed].changes && Written(p, p.committed, r)
    ensures ShowsWritten(c.(latest := latest), p.(committed := p.committed + 1), p.committed + 1, r)
  {
    assert InFlight(c, p, p.committed, r);
  }

  /** A pointer the commit has left alone. */
  lemma UncommittedIsShown(c: Columns, p: Progress, latest: map<nat, nat>, m: nat, r: nat)
    requires Shape(c, p) && p.committed < |p.history| && HalfCommitted(latest, c.latest, p, {})
    requires r !in p.history[p.committed].changes && Shows(c, p, m, r)
    ensures var d, q, n := c.(latest := latest), p.(committed := p.committed + 1), Max(m, p.committed + 1);
            Shows(d, q, n, r) && (ShowsWritten(c, p, m, r) ==> ShowsWritten(d, q, n, r))
  {
    assert SamePointer(latest, c.latest, r);
    var q, n := p.(committed := p.committed + 1), Max(m, p.committed + 1);
    assert forall i :: q.committed <= i < |p.history| ==> (Written(q, i, r) <==> Written(p, i, r));
  }

  lemma CommitKeepsStored(c: Columns, p: Progress, latest: map<nat, nat>, r: nat)
    requires Shape(c, p) && p.committed < |p.history| && Stored(c, p, r)
    requires r in p.history[p.committed].changes ==> Written(p, p.committed, r)
    ensures Stored(c.(latest := latest), p.(committed := p.committed + 1), r)
  {
    var d, q, n := c.(latest := latest), p.(committed := p.committed + 1), p.committed;
    var next := n + 1;
    assert Readable(d.data, q.history, next, r) by {
      assert Readable(c.data, p.history, n, r) && InFlight(c, p, n, r);
    }
    forall i | q.pruned <= i <= n ensures Readable(d.data, q.history, i, r) {
      assert Readable(c.data, p.history, i, r);
    }
    forall j | q.pruned <= j < |q.history| ensures Undoable(d, q, j, r) && InFlight(d, q, j, r) {
      assert Undoable(c, p, j, r) && InFlight(c, p, j, r);
    }
  }

  // ---- Pruning ----

  /** A version no state from batch `n` on can show: an orphan's, or one replaced before. */
  ghost predicate Dead(p: Progress, n: nat, k: Key) {
    || !IsCanonical(p.history, k.version)
    || exists j :: p.pruned <= j < n && j < |p.history| && k.resource in p.history[j].changes
                   && VersionAt(p.history, j, k.resource) == k.version
  }

  /** The entry of batch `id` for `r` makes `k` go: of a canonical batch the version it replaced,
      of an orphaned one its own. */
  ghost predicate Drops(c: Columns, h: seq<Batch>, id: nat, r: nat, k: Key) {
    && Key(id, r) in c.undo
    && if IsCanonical(h, id) then c.undo[Key(id, r)] != 0 && k == Key(c.undo[Key(id, r)], r) else k == Key(id, r)
  }

  ghost predicate Dropped(c: Columns, h: seq<Batch>, lower: nat, end: nat, k: Key) {
    exists id: nat, r: nat :: lower <= id < end && Drops(c, h, id, r, k)
  }

  /** Batches `lower..index` are pruned: of the data exactly what their entries name is gone, and
      of the entries exactly theirs. */
  ghost predicate Pruning(c: Columns, p: Progress, kept: map<Key, Data>, entries: map<Key, nat>, lower: nat,
                          index: nat) {
    && 0 < lower <= index
    && (forall k :: k in kept <==> k in c.data && !Dropped(c, p.history, lower, index, k))
    && (forall k :: k in kept ==> kept[k] == c.data[k])
    && (forall k :: k in entries <==> k in c.undo && !(lower <= k.version < index))
    && (forall k :: k in entries ==> entries[k] == c.undo[k])
  }

  /** Of batch `index`, the entries of `todo` are left to prune. */
  ghost predicate PruningHalfway(c: Columns, p: Progress, kept: map<Key, Data>, entries: map<Key, nat>,
                                 lower: nat, index: nat, todo: set<nat>) {
    && 0 < lower <= index
    && (forall k :: k in kept <==> k in c.data && !Dropped(c, p.history, lower, index, k)
                                   && forall r: nat :: Drops(c, p.history, index, r, k) ==> r in todo)
    && (forall k :: k in kept ==> kept[k] == c.data[k])
    && (forall k :: k in entries <==>
          k in c.undo && !(lower <= k.version < index) && !(k.version == index && k.resource !in todo))
    && (forall k :: k in entries ==> entries[k] == c.undo[k])
  }

  lemma PruneStarts(c: Columns, p: Progress, lower: nat)
    requires lower > 0
    ensures Pruning(c, p, c.data, c.undo, lower, lower)
  {
  }

  lemma DeadStays(p: Progress, n: nat, m: nat, k: Key)
    requires n <= m && Dead(p, n, k)
    ensures Dead(p, m, k)
  {
    hide IsCanonical;
    hide VersionAt;
  }

  lemma PruneHalfwayStarts(c: Columns, p: Progress, kept: map<Key, Data>, entries: map<Key, nat>,
                           lower: nat, index: nat, todo: set<nat>)
    requires Pruning(c, p, kept, entries, lower, index)
    requires forall r :: r in todo <==> Key(index, r) in c.undo
    ensures PruningHalfway(c, p, kept, entries, lower, index, todo)
  {
    hide IsCanonical;
    hide Dropped;
    forall k | k in c.undo && k.version == index ensures k.resource in todo {
      assert k == Key(index, k.resource);
    }
  }

  lemma PruneStep(c: Columns, p: Progress, kept: map<Key, Data>, entries: map<Key, nat>,
                  lower: nat, index: nat, todo: set<nat>, r: nat)
    requires PruningHalfway(c, p, kept, entries, lower, index, todo) && r in todo && Key(index, r) in c.undo
    ensures var was := c.undo[Key(index, r)];
            PruningHalfway(c, p,
              if !IsCanonical(p.history, index) then kept - {Key(index, r)}
              else if was != 0 then kept - {Key(was, r)} else kept,
              entries - {Key(index, r)}, lower, index, todo - {r})
  {
    hide IsCanonical;
    hide Dropped;
    var was, canonical := c.undo[Key(index, r)], IsCanonical(p.history, index);
    var left := if !canonical then kept - {Key(index, r)} else if was != 0 then kept - {Key(was, r)} else kept;
    forall k
      ensures k in left <==> k in c.data && !Dropped(c, p.history, lower, index, k)
                             && forall x: nat :: Drops(c, p.history, index, x, k) ==> x in todo - {r}
    {
      assert k in left <==> k in kept && !Drops(c, p.history, index, r, k);
    }
    forall k | k in entries ensures k in entries - {Key(index, r)} <==> !(k.version == index && k.resource == r) {
    }
  }

  /** The version a canonical batch replaced is dead from that batch on. */
  lemma ReplacedIsDead(c: Columns, p: Progress, lower: nat, index: nat, r: nat)
    requires Shape(c, p) && Stored(c, p, r) && 0 < lower <= index
    requires IsCanonical(p.history, index) && Key(index, r) in c.undo
    requires UpTo(p.history, lower - 1) == p.pruned
    ensures Dead(p, UpTo(p.history, index), Key(c.undo[Key(index, r)], r))
  {
    hide UpTo;
    hide VersionAt;
    ShapeAscends(c, p);
    UpToStep(p.history, index);
    UpToAscends(p.history, lower - 1, index - 1);
    var j := UpTo(p.history, index) - 1;
    assert Undoable(c, p, j, r) && Recorded(c, p, j, r);
    assert VersionAt(p.history, j, r) == c.undo[Key(index, r)];
  }

  lemma PruneHalfwayEnds(c: Columns, p: Progress, kept: map<Key, Data>, entries: map<Key, nat>,
                         lower: nat, index: nat, todo: set<nat>)
    requires PruningHalfway(c, p, kept, entries, lower, index, todo) && todo == {}
    ensures Pruning(c, p, kept, entries, lower, index + 1)
  {
    hide Drops;
    forall k
      ensures Dropped(c, p.history, lower, index + 1, k) <==>
              Dropped(c, p.history, lower, index, k) || exists r: nat :: Drops(c, p.history, index, r, k)
    {
    }
  }

  /** What goes of a resource held right is dead from the end of the range on. */
  lemma DroppedIsDead(c: Columns, p: Progress, lower: nat, upper: nat, k: Key)
    requires Shape(c, p) && Stored(c, p, k.resource) && 0 < lower && UpTo(p.history, lower - 1) == p.pruned
    requires Dropped(c, p.history, lower, upper + 1, k)
    ensures Dead(p, UpTo(p.history, upper), k)
  {
    hide Shape;
    hide Stored;
    hide UpTo;
    hide VersionAt;
    ShapeAscends(c, p);
    var id: nat, r: nat :| lower <= id < upper + 1 && Drops(c, p.history, id, r, k);
    if IsCanonical(p.history, id) {
      ReplacedIsDead(c, p, lower, id, r);
      UpToAscends(p.history, id, upper);
      DeadStays(p, UpTo(p.history, id), UpTo(p.history, upper), k);
    }
  }

  /** The own versions of the range's orphans go. */
  lemma OrphanIsDropped(c: Columns, p: Progress, lower: nat, upper: nat, k: Key)
    requires k in c.undo && lower <= k.version <= upper && !IsCanonical(p.history, k.version)
    ensures Dropped(c, p.history, lower, upper + 1, k)
  {
    assert k == Key(k.version, k.resource);
    assert Drops(c, p.history, k.version, k.resource, k);
  }

  /** The versions that canonical batches of the range replaced go. */
  lemma ReplacedIsDropped(c: Columns, p: Progress, lower: nat, upper: nat, j: nat, r: nat)
    requires Shape(c, p) && Stored(c, p, r) && p.pruned <= j < p.committed && lower <= p.history[j].id <= upper
    requires r in p.history[j].changes && VersionAt(p.history, j, r) != 0
    ensures Dropped(c, p.history, lower, upper + 1, Key(VersionAt(p.history, j, r), r))
  {
    hide VersionAt;
    assert Recorded(c, p, j, r) && Undoable(c, p, j, r);
    assert Drops(c, p.history, p.history[j].id, r, Key(VersionAt(p.history, j, r), r));
  }

  lemma PrunedIsExact(c: Columns, p: Progress, kept: map<Key, Data>, entries: map<Key, nat>, lower: nat, upper: nat)
    requires Shape(c, p) && Pruning(c, p, kept, entries, lower, upper + 1)
    requires UpTo(p.history, lower - 1) == p.pruned && UpTo(p.history, upper) <= p.committed
    ensures forall k :: k in kept <==> k in c.data && !Dropped(c, p.history, lower, upper + 1, k)
    ensures forall k :: k in kept ==> kept[k] == c.data[k]
    ensures forall k :: k in entries <==> k in c.undo && !(lower <= k.version <= upper)
    ensures forall k :: k in entries ==> entries[k] == c.undo[k]
    ensures forall j, r: nat :: p.pruned <= j < UpTo(p.history, upper) && Stored(c, p, r)
                                && r in p.history[j].changes && VersionAt(p.history, j, r) != 0 ==>
              Key(VersionAt(p.history, j, r), r) !in kept
    ensures forall k :: k in c.undo && lower <= k.version <= upper && !IsCanonical(p.history, k.version) ==>
              k !in kept
  {
    hide Dropped;
    hide VersionAt;
    hide Stored;
    hide UpTo;
    forall j, r: nat | p.pruned <= j < UpTo(p.history, upper) && Stored(c, p, r)
                       && r in p.history[j].changes && VersionAt(p.history, j, r) != 0
      ensures Key(VersionAt(p.history, j, r), r) !in kept
    {
      UpToSplits(p.history, upper, j);
      UpToSplits(p.history, lower - 1, j);
      ReplacedIsDropped(c, p, lower, upper, j, r);
    }
    forall k | k in c.undo && lower <= k.version <= upper && !IsCanonical(p.history, k.version) ensures k !in kept {
      OrphanIsDropped(c, p, lower, upper, k);
    }
  }

  lemma PruneKeepsShape(c: Columns, p: Progress, kept: map<Key, Data>, entries: map<Key, nat>, lower: nat, upper: nat)
    requires Shape(c, p) && Pruning(c, p, kept, entries, lower, upper + 1)
    requires UpTo(p.history, lower - 1) == p.pruned && UpTo(p.history, upper) <= p.committed && lower <= upper
    ensures Shape(Columns(kept, c.latest, entries), p.(pruned := UpTo(p.history, upper)))
    ensures p.pruned <= UpTo(p.history, upper)
  {
    hide UpTo;
    hide Ascending;
    hide Dropped;
    var d, q := Columns(kept, c.latest, entries), p.(pruned := UpTo(p.history, upper));
    UpToAscends(p.history, lower - 1, upper);
    forall j, r: nat | q.pruned <= j < |q.history| ensures Recorded(d, q, j, r) {
      assert Recorded(c, p, j, r);
      UpToSplits(p.history, upper, j);
    }
  }

  /** What is left of a resource held right still shows and restores every state from the first
      kept batch on. */
  lemma PruneKeepsStored(c: Columns, p: Progress, kept: map<Key, Data>, entries: map<Key, nat>, lower: nat, upper: nat,
                         r: nat)
    requires Shape(c, p) && Pruning(c, p, kept, entries, lower, upper + 1) && Stored(c, p, r)
    requires UpTo(p.history, lower - 1) == p.pruned <= UpTo(p.history, upper) <= p.committed
    ensures var d, q := Columns(kept, c.latest, entries), p.(pruned := UpTo(p.history, upper));
            && Stored(d, q, r) && (Current(c, p, r) ==> Current(d, q, r))
            && (InStep(c, p, r) ==> InStep(d, q, r))
  {
    hide Readable;
    hide Undoable;
    hide InFlight;
    hide UpTo;
    hide Dead;
    hide Ascending;
    hide Shape;
    var d, q := Columns(kept, c.latest, entries), p.(pruned := UpTo(p.history, upper));
    ShapeAscends(c, p);
    forall n | q.pruned <= n <= |q.history| && Readable(c.data, p.history, n, r)
      ensures Readable(d.data, q.history, n, r)
    {
      PruneKeepsReadable(c, p, kept, entries, lower, upper, n, r);
    }
    forall n | q.pruned <= n <= q.committed ensures Readable(d.data, q.history, n, r) {
      assert Readable(c.data, p.history, n, r);
    }
    forall j | q.pruned <= j < |q.history| ensures Undoable(d, q, j, r) && InFlight(d, q, j, r) {
      assert Undoable(c, p, j, r) && InFlight(c, p, j, r);
      PruneKeepsEntry(c, p, kept, entries, lower, upper, j, r);
    }
    if Current(c, p, r) {
      var n: nat :| Shows(c, p, n, r);
      assert Shows(d, q, n, r);
    }
    if InStep(c, p, r) {
      var n: nat :| ShowsWritten(c, p, n, r);
      assert forall i :: 0 <= i < |p.history| ==> (Written(q, i, r) <==> Written(p, i, r));
      assert ShowsWritten(d, q, n, r) && InOrder(q, r);
    }
  }

  lemma PruneKeepsReadable(c: Columns, p: Progress, kept: map<Key, Data>, entries: map<Key, nat>,
                           lower: nat, upper: nat, n: nat, r: nat)
    requires Shape(c, p) && Pruning(c, p, kept, entries, lower, upper + 1) && Stored(c, p, r)
    requires UpTo(p.history, lower - 1) == p.pruned && UpTo(p.history, upper) <= n <= |p.history|
    requires Readable(c.data, p.history, n, r)
    ensures Readable(kept, p.history, n, r)
  {
    hide Stored;
    hide Dropped;
    hide Dead;
    hide UpTo;
    var v := VersionAt(p.history, n, r);
    if v != 0 {
      ShownIsLive(p, UpTo(p.history, upper), n, r);
      if Dropped(c, p.history, lower, upper + 1, Key(v, r)) {
        DroppedIsDead(c, p, lower, upper, Key(v, r));
      }
    }
  }

  lemma ShownIsLive(p: Progress, m: nat, n: nat, r: nat)
    requires Ascending(p.history) && m <= n <= |p.history| && VersionAt(p.history, n, r) != 0
    ensures !Dead(p, m, Key(VersionAt(p.history, n, r), r))
  {
    VersionIsData(p.history, n, r);
    forall j | p.pruned <= j < m && r in p.history[j].changes
      ensures VersionAt(p.history, j, r) != VersionAt(p.history, n, r)
    {
      if VersionAt(p.history, j, r) != 0 {
        ChangeHides(p.history, j, n, r);
      }
    }
  }

  lemma PruneKeepsEntry(c: Columns, p: Progress, kept: map<Key, Data>, entries: map<Key, nat>,
                        lower: nat, upper: nat, j: nat, r: nat)
    requires Shape(c, p) && Pruning(c, p, kept, entries, lower, upper + 1) && Stored(c, p, r)
    requires UpTo(p.history, upper) <= j < |p.history|
    requires UpTo(p.history, lower - 1) == p.pruned <= UpTo(p.history, upper) <= p.committed
    requires Undoable(c, p, j, r) && InFlight(c, p, j, r)
    ensures var d, q := Columns(kept, c.latest, entries), p.(pruned := UpTo(p.history, upper));
            Undoable(d, q, j, r) && InFlight(d, q, j, r)
  {
    hide Shape;
    hide Stored;
    hide UpTo;
    hide Dropped;
    hide Dead;
    ShapeAscends(c, p);
    UpToSplits(p.history, upper, j);
    InFlightIsLive(p, UpTo(p.history, upper), j, r);
    if Dropped(c, p.history, lower, upper + 1, Key(p.history[j].id, r)) {
      DroppedIsDead(c, p, lower, upper, Key(p.history[j].id, r));
    }
  }

  lemma InFlightIsLive(p: Progress, m: nat, j: nat, r: nat)
    requires Ascending(p.history) && m <= j < |p.history|
    ensures !Dead(p, m, Key(p.history[j].id, r))
  {
    forall i | p.pruned <= i < m && r in p.history[i].changes ensures VersionAt(p.history, i, r) != p.history[j].id {
      VersionIsData(p.history, i, r);
    }
  }

  // ---- Rollbacks that miss their target ----

  /** A committed target can be missed: of two later batches that change the resource, only the
      second one's diff is written when both are rolled back. Its entry leads to the first
      one's version, which was never written; the resource reads as empty. */
  method OutOfOrderDiffBreaksTheRollback() returns (version: nat, value: Data)
    ensures version == 2 && value == []
    ensures var target := [Batch(1, map[0 := [1]])]; VersionAt(target, 1, 0) == 1 && DataAt(target, 1, 0) == [1]
  {
    hide Shape;
    hide Undone;
    hide Stored;
    hide Current;
    hide Restores;
    hide Landed;
    hide Shows;
    hide HalfCommitted;
    hide UpTo;
    hide IsCanonical;
    hide InStep;
    hide ComesInOrder;
    var store := new VersionedStore();
    ghost var one, two, three := Batch(1, map[0 := [1]]), Batch(2, map[0 := [2]]), Batch(3, map[0 := [3]]);
    store.Begin(one);
    store.WriteDiff(1, 0, [1], 0, [], 0);
    store.CommitBatch(1, map[0 := [1]]);
    store.Begin(two);
    store.Begin(three);
    assert store.progress.history == [one, two, three];
    store.WriteDiff(3, 0, [3], 2, [2], 2);
    ghost var c := store.Content();
    ThreeBatches([one, two, three]);
    store.Rollback(1, 3, {1, 2, 3});
    SkippedPointer(store.latest, c, [one, two, three]);
    version, value := store.FromLatestData(0);
  }

  lemma ThreeBatches(h: seq<Batch>)
    requires |h| == 3 && h[0].id == 1 && h[1].id == 2 && h[2].id == 3
    ensures IsCanonical(h, 1) && IsCanonical(h, 2) && IsCanonical(h, 3) && UpTo(h, 1) == 1 && UpTo(h, 3) == 3
  {
    assert h[0].id == 1 && h[1].id == 2 && h[2].id == 3;
    assert h[..2][..1] == h[..1];
  }

  lemma SkippedPointer(latest: map<nat, nat>, c: Columns, h: seq<Batch>)
    requires |h| == 3 && h[0].id == 1 && h[1].id == 2 && h[2].id == 3
    requires Key(2, 0) !in c.undo && Key(3, 0) in c.undo && c.undo[Key(3, 0)] == 2 && Undone(latest, c, h, 1)
    ensures 0 in latest && latest[0] == 2
  {
    assert UndoneAt(latest, c, h, 1, 0);
    assert FirstEntry(c, h, 2, 0) == 2 && FirstEntry(c, h, 1, 0) == 2;
  }

  /** And in order, with the target's diffs written but not yet committed, one resource can show
      its state and another the one before. */
  method InFlightTargetCanShowMixedState() returns (first: nat, second: nat)
    ensures first == 1 && second == 0
    ensures var target := [Batch(1, map[0 := [1], 1 := [2]])];
            VersionAt(target, 1, 0) == 1 && VersionAt(target, 1, 1) == 1
  {
    hide Shape;
    hide Undone;
    hide Stored;
    hide Current;
    hide Restores;
    hide Landed;
    hide Shows;
    hide HalfCommitted;
    hide UpTo;
    hide IsCanonical;
    hide InStep;
    hide ComesInOrder;
    var store := new VersionedStore();
    ghost var one, two := Batch(1, map[0 := [1], 1 := [2]]), Batch(2, map[0 := [3]]);
    store.Begin(one);
    store.Begin(two);
    assert store.progress.history == [one, two];
    store.WriteDiff(1, 0, [1], 0, [], 0);
    store.WriteDiff(1, 1, [2], 0, [], 0);
    store.WriteDiff(2, 0, [3], 1, [1], 1);
    ghost var c := store.Content();
    OnlyThoseTwo([one, two]);
    store.Rollback(1, 2, {1, 2});
    MixedPointers(store.latest, c, [one, two]);
    first, second := LatestVersion(store.latest, 0), LatestVersion(store.latest, 1);
  }

  lemma OnlyThoseTwo(h: seq<Batch>)
    requires |h| == 2 && h[0].id == 1 && h[1].id == 2
    ensures IsCanonical(h, 1) && IsCanonical(h, 2) && UpTo(h, 1) == 1 && UpTo(h, 2) == 2
  {
    assert h[0].id == 1 && h[1].id == 2;
    assert h[..1][0] == h[0];
  }

  lemma MixedPointers(latest: map<nat, nat>, c: Columns, h: seq<Batch>)
    requires h == [Batch(1, map[0 := [1], 1 := [2]]), Batch(2, map[0 := [3]])]
    requires c.latest == map[] && c.undo == map[Key(1, 0) := 0, Key(1, 1) := 0, Key(2, 0) := 1]
    requires Undone(latest, c, h, 1)
    ensures 0 in latest && latest[0] == 1 && 1 !in latest
  {
    assert UndoneAt(latest, c, h, 1, 0) && UndoneAt(latest, c, h, 1, 1);
    assert FirstEntry(c, h, 1, 0) == 1 && FirstEntry(c, h, 1, 1) == 2;
  }
}
