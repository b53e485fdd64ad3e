/** The multi-version resource store: versions keyed by batch id, a latest pointer per
    resource, and per batch the versions it replaced. */
module VersionedState {

  /** Serialized resource data; empty data is a deleted resource. */
  type Data = seq<nat>

  /** A committed or in-flight batch with the data it gives each resource it changes. */
  datatype Batch = Batch(id: nat, changes: map<nat, Data>)

  datatype Key = Key(version: nat, resource: nat)

  // ---- The state after a number of batches ----

  /** The batch that holds `r`'s data after the first `n` batches; 0 if `r` does not exist. */
  function VersionAt(h: seq<Batch>, n: nat, r: nat): nat
    requires n <= |h|
  {
    if n == 0 then 0
    else if r in h[n - 1].changes then (if h[n - 1].changes[r] == [] then 0 else h[n - 1].id)
    else VersionAt(h, n - 1, r)
  }

  function DataAt(h: seq<Batch>, n: nat, r: nat): Data
    requires n <= |h|
  {
    if n == 0 then []
    else if r in h[n - 1].changes then h[n - 1].changes[r]
    else DataAt(h, n - 1, r)
  }

  /** Ids are positive and ascend along the canonical chain. */
  ghost predicate Ascending(h: seq<Batch>) {
    && (forall i :: 0 <= i < |h| ==> h[i].id > 0)
    && (forall i, j :: 0 <= i < j < |h| ==> h[i].id < h[j].id)
  }

  lemma {:induction false} VersionIsData(h: seq<Batch>, n: nat, r: nat)
    requires Ascending(h) && n <= |h|
    ensures VersionAt(h, n, r) == 0 <==> DataAt(h, n, r) == []
    ensures VersionAt(h, n, r) != 0 ==> exists j :: 0 <= j < n && h[j].id == VersionAt(h, n, r) && r in h[j].changes
                                                    && h[j].changes[r] == DataAt(h, n, r)
  {
    if n > 0 && r !in h[n - 1].changes {
      VersionIsData(h, n - 1, r);
    }
  }

  /** No batch of `[i, j)` changes `r`. */
  ghost predicate Quiet(h: seq<Batch>, i: nat, j: nat, r: nat) {
    j <= |h| && forall k :: i <= k < j ==> r !in h[k].changes
  }

  lemma {:induction false} QuietKeepsState(h: seq<Batch>, i: nat, j: nat, r: nat)
    requires i <= j && Quiet(h, i, j, r)
    ensures VersionAt(h, i, r) == VersionAt(h, j, r) && DataAt(h, i, r) == DataAt(h, j, r)
  {
    if i < j {
      QuietKeepsState(h, i, j - 1, r);
    }
  }

  /** A change hides every earlier version for good. */
  lemma {:induction false} ChangeHides(h: seq<Batch>, j: nat, n: nat, r: nat)
    requires Ascending(h) && j < n <= |h| && r in h[j].changes && VersionAt(h, j, r) != 0
    ensures VersionAt(h, n, r) != VersionAt(h, j, r)
  {
    VersionIsData(h, j, r);
    if j + 1 < n && r !in h[n - 1].changes {
      ChangeHides(h, j, n - 1, r);
    }
  }

  lemma {:induction false} PrefixState(h: seq<Batch>, g: seq<Batch>, n: nat, r: nat)
    requires n <= |h| && n <= |g| && h[..n] == g[..n]
    ensures VersionAt(h, n, r) == VersionAt(g, n, r) && DataAt(h, n, r) == DataAt(g, n, r)
  {
    if n > 0 {
      assert h[n - 1] == h[..n][n - 1] && g[n - 1] == g[..n][n - 1];
      assert h[..n - 1] == h[..n][..n - 1] && g[..n - 1] == g[..n][..n - 1];
      PrefixState(h, g, n - 1, r);
    }
  }

  // ---- What the columns hold ----

  datatype Columns = Columns(data: map<Key, Data>, latest: map<nat, nat>, undo: map<Key, nat>)

  /** The canonical batches and how far they have got. */
  datatype Progress = Progress(
    history: seq<Batch>,
    committed: nat,               // the first ones are committed
    pruned: nat,                  // the first ones are pruned
    diffs: set<Key>,              // diffs of in-flight batches already written
    issued: nat)                  // the highest id ever given to a batch

  /** `r`'s pointer names version `v`; none for version 0. */
  ghost predicate Names(latest: map<nat, nat>, v: nat, r: nat) {
    (r in latest <==> v != 0) && (r in latest ==> latest[r] == v)
  }

  /** `r`'s pointer names its version after `n` batches. */
  ghost predicate PointsAt(latest: map<nat, nat>, h: seq<Batch>, n: nat, r: nat)
    requires n <= |h|
  {
    Names(latest, VersionAt(h, n, r), r)
  }

  /** The state after `n` batches can be read. */
  ghost predicate Readable(data: map<Key, Data>, h: seq<Batch>, n: nat, r: nat)
    requires n <= |h|
  {
    var v := VersionAt(h, n, r);
    v != 0 ==> Key(v, r) in data && data[Key(v, r)] == DataAt(h, n, r)
  }

  /** Batch `j`'s diff for `r` is on disk. */
  ghost predicate Written(p: Progress, j: nat, r: nat)
    requires j < |p.history|
  {
    r in p.history[j].changes && (j < p.committed || Key(p.history[j].id, r) in p.diffs)
  }

  /** Batch `j` has an entry for `r` exactly when its diff is written. */
  ghost predicate Recorded(c: Columns, p: Progress, j: nat, r: nat)
    requires j < |p.history|
  {
    Key(p.history[j].id, r) in c.undo <==> Written(p, j, r)
  }

  ghost predicate Shape(c: Columns, p: Progress) {
    && Ascending(p.history) && p.pruned <= p.committed <= |p.history|
    && (p.history != [] ==> p.history[|p.history| - 1].id <= p.issued)
    && (forall k :: k in c.data || k in c.undo || k in p.diffs ==> k.version <= p.issued)
    && (forall j, r: nat :: p.pruned <= j < |p.history| ==> Recorded(c, p, j, r))
  }

  /** An entry of batch `j` names the version the batch replaced. */
  ghost predicate Undoable(c: Columns, p: Progress, j: nat, r: nat)
    requires j < |p.history|
  {
    var k := Key(p.history[j].id, r);
    k in c.undo ==> c.undo[k] == VersionAt(p.history, j, r)
  }

  /** An in-flight batch has data for `r` exactly if its diff is written and not a deletion. */
  ghost predicate InFlight(c: Columns, p: Progress, j: nat, r: nat)
    requires j < |p.history|
  {
    var k := Key(p.history[j].id, r);
    j >= p.committed ==>
      && (k in c.data ==> Written(p, j, r))
      && (Written(p, j, r) && p.history[j].changes[r] != [] ==> k in c.data && c.data[k] == p.history[j].changes[r])
  }

  /** The columns hold `r` right: every committed state not pruned can be read, and what is
      in flight can be undone and committed. Nothing is said of the order in which diffs of
      different batches reach the disk, nor of the latest pointer. */
  ghost predicate Stored(c: Columns, p: Progress, r: nat)
    requires p.committed <= |p.history|
  {
    && (forall n :: p.pruned <= n <= p.committed ==> Readable(c.data, p.history, n, r))
    && (forall j :: p.pruned <= j < |p.history| ==> Undoable(c, p, j, r))
    && (forall j :: p.pruned <= j < |p.history| ==> InFlight(c, p, j, r))
  }

  /** Pointer and data of `r` show its state after `n` batches, at least the committed ones. */
  ghost predicate Shows(c: Columns, p: Progress, n: nat, r: nat) {
    && p.committed <= n <= |p.history|
    && PointsAt(c.latest, p.history, n, r) && Readable(c.data, p.history, n, r)
  }

  ghost predicate Current(c: Columns, p: Progress, r: nat) {
    exists n: nat :: Shows(c, p, n, r)
  }

  /** The in-flight diffs of `r` have reached the disk in batch order. */
  ghost predicate InOrder(p: Progress, r: nat) {
    forall j :: p.committed <= j < |p.history| && Written(p, j, r) ==> ComesInOrder(p, j, r)
  }

  /** The diffs of `r` of the in-flight batches before `j` are on disk. */
  ghost predicate ComesInOrder(p: Progress, j: nat, r: nat)
    requires j <= |p.history|
  {
    forall i :: p.committed <= i < j && r in p.history[i].changes ==> Written(p, i, r)
  }

  /** `r` is shown at a point up to which its changes are on disk. */
  ghost predicate ShowsWritten(c: Columns, p: Progress, n: nat, r: nat) {
    Shows(c, p, n, r) && ComesInOrder(p, n, r)
  }

  /** Diffs in batch order, and a pointer that has followed them. */
  ghost predicate InStep(c: Columns, p: Progress, r: nat) {
    InOrder(p, r) && exists n: nat :: ShowsWritten(c, p, n, r)
  }
}
