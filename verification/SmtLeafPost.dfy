/** The post-state of one witness leaf is the canonical subtree of its updated entries. */
module SmtLeafPost {
  import opened SmtKeys
  import opened SmtTree
  import opened Options
  import opened SmtUpdate
  import opened SmtUpdateProofs
  import opened SmtProof
  import opened SmtRoots

  // ---- Sorting entries ----

  ghost predicate DistinctKeys(es: seq<Commitment>) {
    forall i, j :: 0 <= i < j < |es| ==> es[i].key != es[j].key
  }

  /** In a slice, everything is at most its last entry. */
  lemma BelowLast(es: seq<Commitment>, p: Position, k: ResourceId)
    requires SliceAt(es, p) && es != [] && Less(es[|es| - 1].key, k)
    ensures forall i :: 0 <= i < |es| ==> Less(es[i].key, k)
  {
    forall i | 0 <= i < |es| - 1 ensures Less(es[i].key, k) {
      assert Less(KeysOf(es)[i], KeysOf(es)[|es| - 1]);
      LessIsTransitive(es[i].key, es[|es| - 1].key, k);
    }
  }

  lemma {:induction false} InsertByKeyMembers(es: seq<Commitment>, e: Commitment, x: Commitment)
    ensures x in InsertByKey(es, e) <==> x in es || x == e
  {
    if es != [] && Less(e.key, es[|es| - 1].key) {
      InsertByKeyMembers(es[..|es| - 1], e, x);
      assert es == es[..|es| - 1] + [es[|es| - 1]];
    }
  }

  lemma {:induction false} InsertByKeySorts(es: seq<Commitment>, e: Commitment, p: Position)
    requires SliceAt(es, p) && p <= e.key && forall i :: 0 <= i < |es| ==> es[i].key != e.key
    ensures SliceAt(InsertByKey(es, e), p)
  {
    if es == [] {
      AppendLarger(es, e, p);
    } else {
      PrefixIsASlice(es, p);
      var init, last := es[..|es| - 1], es[|es| - 1];
      if Less(e.key, last.key) {
        InsertByKeySorts(init, e, p);
        SmallerThanLast(init, last, e);
        AppendLarger(InsertByKey(init, e), last, p);
      } else {
        assert es[|es| - 1].key != e.key;
        LessIsTotal(last.key, e.key);
        BelowLast(es, p, e.key);
        AppendLarger(es, e, p);
      }
    }
  }

  lemma PrefixIsASlice(es: seq<Commitment>, p: Position)
    requires SliceAt(es, p) && es != []
    ensures SliceAt(es[..|es| - 1], p) && p <= es[|es| - 1].key
    ensures forall x :: x in es[..|es| - 1] ==> Less(x.key, es[|es| - 1].key)
  {
    assert KeysOf(es[..|es| - 1]) == KeysOf(es)[..|es| - 1];
    assert p <= KeysOf(es)[|es| - 1];
    forall i | 0 <= i < |es| - 1 ensures Less(es[i].key, es[|es| - 1].key) {
      assert Less(KeysOf(es)[i], KeysOf(es)[|es| - 1]);
    }
  }

  lemma SmallerThanLast(es: seq<Commitment>, last: Commitment, e: Commitment)
    requires Less(e.key, last.key) && forall x :: x in es ==> Less(x.key, last.key)
    ensures forall i :: 0 <= i < |InsertByKey(es, e)| ==> Less(InsertByKey(es, e)[i].key, last.key)
  {
    var out := InsertByKey(es, e);
    forall i | 0 <= i < |out| ensures Less(out[i].key, last.key) {
      InsertByKeyMembers(es, e, out[i]);
    }
  }

  lemma {:induction false} InsertByKeyWrites(es: seq<Commitment>, e: Commitment)
    requires forall i :: 0 <= i < |es| ==> es[i].key != e.key
    ensures LastWrites(InsertByKey(es, e)) == LastWrites(es)[e.key := e.value]
  {
    if es != [] && Less(e.key, es[|es| - 1].key) {
      var init, last := es[..|es| - 1], es[|es| - 1];
      InsertByKeyWrites(init, e);
      LastWritesAppend(InsertByKey(init, e), last);
      PutsCommute(LastWrites(init), e, last);
    } else {
      LastWritesAppend(es, e);
    }
  }

  lemma PutsCommute(w: map<ResourceId, Digest>, a: Commitment, b: Commitment)
    requires a.key != b.key
    ensures w[a.key := a.value][b.key := b.value] == w[b.key := b.value][a.key := a.value]
  {
  }

  lemma {:induction false} SortedEntriesMembers(es: seq<Commitment>, x: Commitment)
    ensures x in SortedEntries(es) <==> x in es
  {
    if es != [] {
      SortedEntriesMembers(es[..|es| - 1], x);
      InsertByKeyMembers(SortedEntries(es[..|es| - 1]), es[|es| - 1], x);
      assert es == es[..|es| - 1] + [es[|es| - 1]];
    }
  }

  lemma {:induction false} SortedEntriesAreASlice(es: seq<Commitment>, p: Position)
    requires DistinctKeys(es) && forall i :: 0 <= i < |es| ==> p <= es[i].key
    ensures SliceAt(SortedEntries(es), p) && LastWrites(SortedEntries(es)) == LastWrites(es)
  {
    if es != [] {
      var init, last := es[..|es| - 1], es[|es| - 1];
      var sorted := SortedEntries(init);
      SortedEntriesAreASlice(init, p);
      forall i | 0 <= i < |sorted| ensures sorted[i].key != last.key {
        SortedEntriesMembers(init, sorted[i]);
      }
      InsertByKeySorts(sorted, last, p);
      InsertByKeyWrites(sorted, last);
    }
  }

  // ---- Hashing a sorted slice ----

  ghost function StateOf(es: seq<Commitment>): StateMap {
    ApplyWrites(map[], LastWrites(es))
  }

  /** The canonical summary at `p` of the entries of `es`. */
  ghost function SliceSummary(es: seq<Commitment>, p: Position): HashedNode {
    Summary(Canon(StateOf(es), p))
  }

  ghost predicate LiveSlice(es: seq<Commitment>, p: Position) {
    SliceAt(es, p) && forall i :: 0 <= i < |es| ==> es[i].value != Zero
  }

  lemma {:induction false} SubtreeHashIsCanonical(es: seq<Commitment>, p: Position)
    requires LiveSlice(es, p)
    ensures SubtreeHash(es, |p|) == Some(SliceSummary(es, p))
    decreases DEPTH - |p|
  {
    hide *;
    if |es| <= 1 {
      SmallSubtreeHash(es, p);
    } else {
      var a, b := LiveHalves(es, p);
      SubtreeHashIsCanonical(a, p + [false]);
      SubtreeHashIsCanonical(b, p + [true]);
      HashOfHalves(es, p, a, b);
    }
  }

  lemma LiveHalves(es: seq<Commitment>, p: Position) returns (a: seq<Commitment>, b: seq<Commitment>)
    requires LiveSlice(es, p) && |es| >= 2
    ensures |p| < DEPTH && a + b == es && |a| == SplitPoint(KeysOf(es), |p|)
    ensures LiveSlice(a, p + [false]) && LiveSlice(b, p + [true])
  {
    TwoEntriesAreAboveTheBottom(es, p, 0, 1);
    HalvesAreSlices(es, p);
    var mid := SplitPoint(KeysOf(es), |p|);
    a, b := es[..mid], es[mid..];
  }

  lemma HashOfHalves(es: seq<Commitment>, p: Position, a: seq<Commitment>, b: seq<Commitment>)
    requires |es| >= 2 && |p| < DEPTH && a + b == es && |a| == SplitPoint(KeysOf(es), |p|)
    requires LiveSlice(a, p + [false]) && LiveSlice(b, p + [true])
    requires SubtreeHash(a, |p| + 1) == Some(SliceSummary(a, p + [false]))
    requires SubtreeHash(b, |p| + 1) == Some(SliceSummary(b, p + [true]))
    ensures SubtreeHash(es, |p|) == Some(SliceSummary(es, p))
  {
    hide *;
    SplitSummary(a, b, p);
    assert es[..|a|] == a && es[|a|..] == b;
    SubtreeHashUnfolds(es, |p|, |a|, SliceSummary(a, p + [false]), SliceSummary(b, p + [true]));
  }

  lemma SplitSummary(a: seq<Commitment>, b: seq<Commitment>, p: Position)
    requires |p| < DEPTH && LiveSlice(a, p + [false]) && LiveSlice(b, p + [true])
    ensures SliceSummary(a + b, p) == Combine(SliceSummary(a, p + [false]), SliceSummary(b, p + [true]))
  {
    var m := StateOf(a + b);
    HalvesAgree(map[], a, b, p);
    CanonIsLocal(StateOf(a), m, p + [false]);
    CanonIsLocal(StateOf(b), m, p + [true]);
    CombineIsCanonical(m, p);
  }

  lemma SubtreeHashUnfolds(es: seq<Commitment>, level: nat, mid: nat, left: HashedNode, right: HashedNode)
    requires |es| >= 2 && level < DEPTH && mid == SplitPoint(KeysOf(es), level)
    requires SubtreeHash(es[..mid], level + 1) == Some(left) && SubtreeHash(es[mid..], level + 1) == Some(right)
    ensures SubtreeHash(es, level) == Some(Combine(left, right))
  {
  }

  lemma SmallSubtreeHash(es: seq<Commitment>, p: Position)
    requires LiveSlice(es, p) && |es| <= 1
    ensures SubtreeHash(es, |p|) == Some(SliceSummary(es, p))
  {
    assert NextLive(es, 0) == 0;
    FewLive(es, p);
  }

  // ---- Scanning members ----

  /** The writes of the members `idxs[..n]`. */
  function MemberWrites(pf: Proof, idxs: seq<nat>, values: seq<Digest>, n: nat): map<ResourceId, Digest>
    requires n <= |idxs|
    requires forall i :: 0 <= i < |idxs| ==> idxs[i] < |pf.keys| && idxs[i] < |values|
  {
    if n == 0 then map[] else MemberWrites(pf, idxs, values, n - 1)[pf.keys[idxs[n - 1]] := values[idxs[n - 1]]]
  }

  /** The members of one leaf: known, with distinct keys below `p`, present exactly when
      they name the leaf's own key. */
  ghost predicate MembersOf(pf: Proof, idxs: seq<nat>, values: seq<Digest>, leafKey: ResourceId, p: Position) {
    && (forall i :: 0 <= i < |idxs| ==> idxs[i] < |pf.memberships| && idxs[i] < |pf.keys| && idxs[i] < |values|)
    && (forall i, j :: 0 <= i < j < |idxs| ==> pf.keys[idxs[i]] != pf.keys[idxs[j]])
    && (forall i :: 0 <= i < |idxs| ==> p <= pf.keys[idxs[i]])
    && (forall i :: 0 <= i < |idxs| ==> (pf.memberships[idxs[i]].Present? <==> pf.keys[idxs[i]] == leafKey))
  }

  lemma {:induction false} MemberWritesKeys(pf: Proof, idxs: seq<nat>, values: seq<Digest>, n: nat, k: ResourceId)
    requires n <= |idxs|
    requires forall i :: 0 <= i < |idxs| ==> idxs[i] < |pf.keys| && idxs[i] < |values|
    ensures k in MemberWrites(pf, idxs, values, n) <==> exists i :: 0 <= i < n && pf.keys[idxs[i]] == k
  {
    if n > 0 {
      MemberWritesKeys(pf, idxs, values, n - 1, k);
    }
  }

  /** Writes that leave an entry. */
  function LiveOf(w: map<ResourceId, Digest>): map<ResourceId, Digest> {
    w - (set k | k in w && w[k] == Zero)
  }

  lemma LiveOfPut(w: map<ResourceId, Digest>, k: ResourceId, v: Digest)
    requires k !in w
    ensures LiveOf(w[k := v]) == if v != Zero then LiveOf(w)[k := v] else LiveOf(w)
  {
  }

  /** What a scan records, said in terms of the writes it has seen. */
  ghost predicate Records(s: Scan, w: map<ResourceId, Digest>, leafKey: ResourceId, leafValue: Digest) {
    && s.present == (if leafKey in w then Some(w[leafKey]) else None)
    && (s.synthesis <==> exists k :: k in w && k != leafKey && w[k] != Zero)
    && (s.changed <==> s.synthesis || (leafKey in w && w[leafKey] != leafValue))
    && DistinctKeys(s.entries)
    && LastWrites(s.entries) == LiveOf(w)
  }

  lemma {:induction false} ScanRecordsItsWrites(pf: Proof, idxs: seq<nat>, values: seq<Digest>,
                                                leafKey: ResourceId, leafValue: Digest, p: Position, n: nat)
    requires MembersOf(pf, idxs, values, leafKey, p) && n <= |idxs|
    ensures Records(ScanMembers(pf, leafValue, idxs, values, n), MemberWrites(pf, idxs, values, n), leafKey, leafValue)
  {
    if n > 0 {
      hide LastWrites;
      hide Records;
      hide ScanStep;
      ScanRecordsItsWrites(pf, idxs, values, leafKey, leafValue, p, n - 1);
      var s, w := ScanMembers(pf, leafValue, idxs, values, n - 1), MemberWrites(pf, idxs, values, n - 1);
      var k, v := pf.keys[idxs[n - 1]], values[idxs[n - 1]];
      MemberWritesKeys(pf, idxs, values, n - 1, k);
      ScanStepRecords(s, w, leafKey, leafValue, k, v);
    }
  }

  lemma ScanStepRecords(s: Scan, w: map<ResourceId, Digest>, leafKey: ResourceId, leafValue: Digest,
                        k: ResourceId, v: Digest)
    requires Records(s, w, leafKey, leafValue) && k !in w
    ensures Records(ScanStep(s, k == leafKey, leafValue, if v != Zero then Some(k) else None, v), w[k := v],
                    leafKey, leafValue)
  {
    hide LastWrites;
    hide LiveOf;
    EntryAppended(s.entries, w, k, v);
    RecordsStep(s, w, leafKey, leafValue, k, v);
  }

  lemma EntryAppended(es: seq<Commitment>, w: map<ResourceId, Digest>, k: ResourceId, v: Digest)
    requires DistinctKeys(es) && LastWrites(es) == LiveOf(w) && k !in w
    ensures var out := if v != Zero then es + [Commitment(k, v)] else es;
            DistinctKeys(out) && LastWrites(out) == LiveOf(w[k := v])
  {
    LiveOfPut(w, k, v);
    LastWritesKeys(es, k);
    assert (es + [Commitment(k, v)])[..|es|] == es;
  }

  lemma RecordsStep(s: Scan, w: map<ResourceId, Digest>, leafKey: ResourceId, leafValue: Digest, k: ResourceId,
                    v: Digest)
    requires Records(s, w, leafKey, leafValue) && k !in w
    ensures var w' := w[k := v];
            && ((exists x :: x in w' && x != leafKey && w'[x] != Zero)
                <==> s.synthesis || (k != leafKey && v != Zero))
            && (k == leafKey ==> !s.present.Some?)
            && (leafKey in w' <==> leafKey in w || k == leafKey)
  {
    var w' := w[k := v];
    if s.synthesis {
      var x :| x in w && x != leafKey && w[x] != Zero;
      assert x in w' && w'[x] == w[x];
    }
    if k != leafKey && v != Zero {
      assert k in w' && w'[k] == v;
    }
  }

  // ---- The post-state summary ----

  /** The entries a leaf stands for before the update. */
  function LeafState(leafKey: ResourceId, leafValue: Digest): StateMap {
    if leafValue == Zero then map[] else map[leafKey := leafValue]
  }

  lemma LoneSummary(m: StateMap, p: Position, k: ResourceId, v: Digest)
    requires p <= k && m == LeafState(k, v)
    ensures Summary(Canon(m, p)) == LeafSummary(k, v)
  {
    if v != Zero {
      assert k in m && !Vacant(m, p);
      assert !Many(m, p);
    }
  }

  lemma PostIsCanonical(leafKey: ResourceId, leaf: ProofLeaf, s: Scan, w: map<ResourceId, Digest>, p: Position)
    requires Records(s, w, leafKey, leaf.value) && leaf.depth == |p| && p <= leafKey
    requires forall k :: k in w ==> p <= k
    ensures PostOf(leafKey, leaf, s) == Some(Summary(Canon(ApplyWrites(LeafState(leafKey, leaf.value), w), p)))
  {
    if s.synthesis {
      SynthesisIsCanonical(leafKey, leaf, s, w, p);
    } else {
      var v := if s.changed && s.present.Some? then s.present.value else leaf.value;
      UnsplitState(leafKey, leaf.value, w, v);
      LoneSummary(LeafState(leafKey, v), p, leafKey, v);
    }
  }

  /** Without a live write beside the leaf's own key, one entry at most remains. */
  lemma UnsplitState(leafKey: ResourceId, leafValue: Digest, w: map<ResourceId, Digest>, v: Digest)
    requires forall k :: k in w && k != leafKey ==> w[k] == Zero
    requires v == if leafKey in w then w[leafKey] else leafValue
    ensures ApplyWrites(LeafState(leafKey, leafValue), w) == LeafState(leafKey, v)
  {
  }

  lemma SynthesisIsCanonical(leafKey: ResourceId, leaf: ProofLeaf, s: Scan, w: map<ResourceId, Digest>, p: Position)
    requires Records(s, w, leafKey, leaf.value) && leaf.depth == |p| && p <= leafKey
    requires s.changed && s.synthesis && forall k :: k in w ==> p <= k
    ensures PostOf(leafKey, leaf, s) == Some(Summary(Canon(ApplyWrites(LeafState(leafKey, leaf.value), w), p)))
  {
    var carried := s.present.None? && leaf.value != Zero;
    var all := if carried then s.entries + [Commitment(leafKey, leaf.value)] else s.entries;
    hide LastWrites;
    hide Canon;
    hide SubtreeHash;
    hide SortedEntries;
    SynthesisEntries(leafKey, leaf.value, s.entries, w, carried);
    SynthesisState(leafKey, leaf.value, w, carried);
    EntriesAreLive(all, LastWrites(all), p);
    SortedEntriesAreASlice(all, p);
    var sorted := SortedEntries(all);
    SlicesAreDistinct(sorted, p);
    EntriesAreLive(sorted, LastWrites(all), p);
    SubtreeHashIsCanonical(sorted, p);
  }

  lemma SlicesAreDistinct(es: seq<Commitment>, p: Position)
    requires SliceAt(es, p)
    ensures DistinctKeys(es)
  {
    forall i, j | 0 <= i < j < |es| ensures es[i].key != es[j].key {
      TwoEntriesAreAboveTheBottom(es, p, i, j);
    }
  }

  lemma SynthesisEntries(leafKey: ResourceId, leafValue: Digest, es: seq<Commitment>,
                         w: map<ResourceId, Digest>, carried: bool)
    requires DistinctKeys(es) && LastWrites(es) == LiveOf(w) && (carried ==> leafKey !in w)
    ensures var all := if carried then es + [Commitment(leafKey, leafValue)] else es;
            DistinctKeys(all) && LastWrites(all) == if carried then LiveOf(w)[leafKey := leafValue] else LiveOf(w)
  {
    LastWritesKeys(es, leafKey);
    assert (es + [Commitment(leafKey, leafValue)])[..|es|] == es;
  }

  lemma SynthesisState(leafKey: ResourceId, leafValue: Digest, w: map<ResourceId, Digest>, carried: bool)
    requires carried <==> leafKey !in w && leafValue != Zero
    ensures ApplyWrites(map[], if carried then LiveOf(w)[leafKey := leafValue] else LiveOf(w))
            == ApplyWrites(LeafState(leafKey, leafValue), w)
  {
  }

  lemma EntriesAreLive(es: seq<Commitment>, live: map<ResourceId, Digest>, p: Position)
    requires DistinctKeys(es) && LastWrites(es) == live
    requires forall k :: k in live ==> p <= k && live[k] != Zero
    ensures forall i :: 0 <= i < |es| ==> p <= es[i].key && es[i].value != Zero
  {
    forall i | 0 <= i < |es| ensures p <= es[i].key && es[i].value != Zero {
      LastWritesKeys(es, es[i].key);
      var j :| 0 <= j < |es| && es[j] == Commitment(es[i].key, live[es[i].key]);
    }
  }
}
