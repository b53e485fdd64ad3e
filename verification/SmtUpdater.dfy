/** The updater as it runs: sort and dedup the commitments, then recurse, writing nodes
    into the write batch on the way back up. */
module SmtUpdater {
  import opened SmtKeys
  import opened SmtTree
  import opened Options
  import opened SmtUpdate
  import opened SmtUpdateProofs
  import opened SmtHistory

  /** Ascending, with equal keys adjacent. */
  ghost predicate SortedByKey(cs: seq<Commitment>) {
    forall i, j :: 0 <= i < j < |cs| ==> !Less(cs[j].key, cs[i].key)
  }

  /** Stable sort by key: what each key is last given does not change. */
  method SortByKey(cs: seq<Commitment>) returns (sorted: seq<Commitment>)
    ensures SortedByKey(sorted) && multiset(sorted) == multiset(cs)
    ensures LastWrites(sorted) == LastWrites(cs)
  {
    hide LastWrites;
    hide SortedByKey;
    sorted := [];
    Nothing();
    for n := 0 to |cs|
      invariant SortedByKey(sorted) && LastWrites(sorted) == LastWrites(cs[..n])
      invariant multiset(sorted) == multiset(cs[..n])
    {
      var pos := |sorted|;
      while pos > 0 && Less(cs[n].key, sorted[pos - 1].key)
        invariant 0 <= pos <= |sorted|
        invariant forall i :: pos <= i < |sorted| ==> Less(cs[n].key, sorted[i].key)
      {
        pos := pos - 1;
      }
      InsertKeepsOrder(sorted, pos, cs[n]);
      InsertIsLastWrite(sorted, pos, cs[n]);
      InsertAdds(sorted, pos, cs[n]);
      OneMore(cs, n);
      sorted := sorted[..pos] + [cs[n]] + sorted[pos..];
    }
    assert cs[..|cs|] == cs;
  }

  lemma Nothing()
    ensures SortedByKey([]) && LastWrites([]) == map[]
  {
  }

  lemma OneMore(cs: seq<Commitment>, n: nat)
    requires n < |cs|
    ensures LastWrites(cs[..n + 1]) == LastWrites(cs[..n])[cs[n].key := cs[n].value]
    ensures multiset(cs[..n + 1]) == multiset(cs[..n]) + multiset{cs[n]}
  {
    assert cs[..n + 1] == cs[..n] + [cs[n]];
  }

  lemma InsertAdds(s: seq<Commitment>, pos: nat, c: Commitment)
    requires pos <= |s|
    ensures multiset(s[..pos] + [c] + s[pos..]) == multiset(s) + multiset{c}
  {
    assert s == s[..pos] + s[pos..];
  }

  lemma InsertKeepsOrder(s: seq<Commitment>, pos: nat, c: Commitment)
    requires SortedByKey(s) && pos <= |s|
    requires pos > 0 ==> !Less(c.key, s[pos - 1].key)
    requires forall i :: pos <= i < |s| ==> Less(c.key, s[i].key)
    ensures SortedByKey(s[..pos] + [c] + s[pos..])
  {
    var out := s[..pos] + [c] + s[pos..];
    forall i, j | 0 <= i < j < |out| ensures !Less(out[j].key, out[i].key) {
      if j == pos {
        if i < pos - 1 && Less(c.key, s[i].key) {
          LessIsTotal(s[i].key, s[pos - 1].key);
          if Less(s[i].key, s[pos - 1].key) {
            LessIsTransitive(c.key, s[i].key, s[pos - 1].key);
          }
        }
      } else if i == pos {
        LessIsStrict(c.key, s[j - 1].key);
      }
    }
  }

  lemma InsertIsLastWrite(s: seq<Commitment>, pos: nat, c: Commitment)
    requires pos <= |s| && forall i :: pos <= i < |s| ==> Less(c.key, s[i].key)
    ensures LastWrites(s[..pos] + [c] + s[pos..]) == LastWrites(s)[c.key := c.value]
  {
    forall i | pos <= i < |s| ensures s[i].key != c.key {
      LessIsStrict(c.key, s[i].key);
    }
    LastWritesKeys(s[pos..], c.key);
    assert s == s[..pos] + s[pos..] && [c][..0] == [];
    LastWritesConcat(s[..pos], s[pos..]);
    LastWritesConcat(s[..pos], [c]);
    LastWritesConcat(s[..pos] + [c], s[pos..]);
    PutBeforeOthers(LastWrites(s[..pos]), LastWrites(s[pos..]), c.key, c.value);
  }

  lemma PutBeforeOthers(a: map<ResourceId, Digest>, b: map<ResourceId, Digest>, k: ResourceId, v: Digest)
    requires k !in b
    ensures a + map[k := v] + b == (a + b)[k := v]
  {
  }

  /** `out` holds the last write of each key of `cs[..n]`, in order. */
  ghost predicate Deduped(out: seq<Commitment>, cs: seq<Commitment>, n: nat) {
    && n <= |cs|
    && SliceAt(out, []) && LastWrites(out) == LastWrites(cs[..n])
    && (forall i :: 0 <= i < |out| ==> exists j :: 0 <= j < n && out[i].key == cs[j].key)
    && (out == [] ==> n == 0)
  }

  /** Collapses runs of one key to its last value. */
  method DedupByKey(cs: seq<Commitment>) returns (out: seq<Commitment>)
    requires SortedByKey(cs)
    ensures SliceAt(out, []) && LastWrites(out) == LastWrites(cs)
  {
    out := [];
    for n := 0 to |cs|
      invariant Deduped(out, cs, n)
    {
      if out != [] && out[|out| - 1].key == cs[n].key {
        DedupReplaces(out, cs, n);
        out := out[..|out| - 1] + [cs[n]];
      } else {
        DedupPushes(out, cs, n);
        out := out + [cs[n]];
      }
    }
    assert cs[..|cs|] == cs;
  }

  lemma DedupReplaces(out: seq<Commitment>, cs: seq<Commitment>, n: nat)
    requires Deduped(out, cs, n) && n < |cs| && out != [] && out[|out| - 1].key == cs[n].key
    ensures Deduped(out[..|out| - 1] + [cs[n]], cs, n + 1)
  {
    hide LastWrites;
    var init, next := out[..|out| - 1], cs[n];
    assert out == init + [out[|out| - 1]];
    assert cs[..n + 1] == cs[..n] + [next];
    DedupWrites(init, out[|out| - 1], next, cs[..n]);
    assert KeysOf(init + [next]) == KeysOf(out);
    forall i | 0 <= i < |out| ensures exists j :: 0 <= j < n + 1 && (init + [next])[i].key == cs[j].key {
      assert (init + [next])[i].key == out[i].key;
      var j :| 0 <= j < n && out[i].key == cs[j].key;
    }
  }

  lemma DedupWrites(init: seq<Commitment>, last: Commitment, next: Commitment, before: seq<Commitment>)
    requires LastWrites(init + [last]) == LastWrites(before) && last.key == next.key
    ensures LastWrites(init + [next]) == LastWrites(before + [next])
  {
    hide *;
    LastWritesAppend(init, last);
    LastWritesAppend(init, next);
    LastWritesAppend(before, next);
    PutTwice(LastWrites(init), next.key, last.value, next.value);
  }

  lemma PutTwice(a: map<ResourceId, Digest>, k: ResourceId, x: Digest, v: Digest)
    ensures a[k := x][k := v] == a[k := v]
  {
  }

  lemma DedupPushes(out: seq<Commitment>, cs: seq<Commitment>, n: nat)
    requires SortedByKey(cs) && Deduped(out, cs, n) && n < |cs|
    requires out == [] || out[|out| - 1].key != cs[n].key
    ensures Deduped(out + [cs[n]], cs, n + 1)
  {
    hide LastWrites;
    forall i | 0 <= i < |out| ensures Less(out[i].key, cs[n].key) {
      DedupPushAscends(out, cs, n, i);
    }
    AppendLarger(out, cs[n], []);
    LastWritesAppend(out, cs[n]);
    LastWritesAppend(cs[..n], cs[n]);
    assert cs[..n + 1] == cs[..n] + [cs[n]];
  }

  lemma DedupPushAscends(out: seq<Commitment>, cs: seq<Commitment>, n: nat, i: nat)
    requires SortedByKey(cs) && n < |cs| && Ascending(KeysOf(out)) && i < |out|
    requires out[|out| - 1].key != cs[n].key
    requires exists j :: 0 <= j < n && out[|out| - 1].key == cs[j].key
    ensures Less(out[i].key, cs[n].key)
  {
    var last := out[|out| - 1].key;
    LessIsTotal(last, cs[n].key);
    if i < |out| - 1 {
      assert Less(KeysOf(out)[i], KeysOf(out)[|out| - 1]);
      LessIsTransitive(out[i].key, last, cs[n].key);
    }
  }

  /** The root and writes take a clean view of `m` to `newMap`; the view stays clean
      exactly when no shared prefix drops below two live keys. */
  ghost predicate Reaches(view: View, root: Digest, writes: View, m: StateMap, newMap: StateMap) {
    && root == CanonRoot(newMap)
    && Represents(view + writes, newMap)
    && (Clean(view + writes) <==> KeepsForks(m, newMap))
  }

  lemma ApplyReaches(view: View, cs: seq<Commitment>)
    requires WellPlaced(view) && SliceAt(cs, [])
    ensures var a := ApplySorted(view, cs);
            && WellPlaced(view + a.writes)
            && forall m: StateMap :: Represents(view, m) && Clean(view) ==>
                 Reaches(view, a.root, a.writes, m, ApplyWrites(m, LastWrites(cs)))
  {
    var a := ApplySorted(view, cs);
    forall m: StateMap | Represents(view, m) && Clean(view)
      ensures Reaches(view, a.root, a.writes, m, ApplyWrites(m, LastWrites(cs)))
    {
      UpdateFromCleanView(view, m, cs);
      StaysCleanExactlyWhenForksAreKept(view, m, cs);
    }
  }

  lemma PlusAssociates(o: View, a: View, b: View)
    ensures o + a + b == o + (a + b)
  {
  }

  lemma LayersAssociate(o: View, a: View, b: View, c: View, d: View)
    ensures o + a + b == o + (a + b)
    ensures o + a + b + c + d == o + (a + b + c + d)
  {
    PlusAssociates(o, a, b);
    PlusAssociates(o, a + b, c);
    PlusAssociates(o, a + b + c, d);
  }

  /** One update in progress. */
  class Updater {
    /** The nodes readable before this update. */
    const view: View
    /** Nodes written so far, for atomic commit. */
    var writes: View

    constructor (view: View)
      ensures this.view == view && writes == map[]
    {
      this.view := view;
      this.writes := map[];
    }

    /** Applies the commitments and returns the new root hash. From a clean view of any map
        the root is the canonical one of the updated map, and committing the writes makes
        exactly its canonical tree readable from the root. */
    method Apply(commitments: seq<Commitment>) returns (root: Digest)
      requires WellPlaced(view) && writes == map[]
      modifies this
      ensures WellPlaced(view + writes)
      ensures forall m: StateMap :: Represents(view, m) && Clean(view) ==>
                Reaches(view, root, writes, m, ApplyWrites(m, LastWrites(commitments)))
    {
      var sorted := SortByKey(commitments);
      var cs := DedupByKey(sorted);
      ghost var done := ApplySorted(view, cs);
      ApplyReaches(view, cs);
      var node := UpdateSubtree([], cs);
      assert writes == SmtUpdate.UpdateSubtree(view, [], cs).writes;
      match node
      case None =>
        writes := writes[[] := EmptyNode];
        root := Zero;
      case Some(n) =>
        writes := writes[[] := n];
        root := NodeHash(n);
      assert root == done.root && writes == done.writes;
    }

    method UpdateSubtree(p: Position, cs: seq<Commitment>) returns (node: Option<Node>)
      requires WellPlaced(view) && SliceAt(cs, p)
      modifies this`writes
      ensures node == SmtUpdate.UpdateSubtree(view, p, cs).node
      ensures writes == old(writes) + SmtUpdate.UpdateSubtree(view, p, cs).writes
      decreases DEPTH - |p|, 3
    {
      if cs == [] {
        node := Read(view, p);
      } else if p !in view {
        node := ResolveLeaves(p, cs);
      } else {
        match view[p]
        case EmptyNode => node := ResolveLeaves(p, cs);
        case Leaf(key, value, _) => node := UpdateAtLeaf(p, cs, key, value);
        case Internal(_) => node := SplitAndRecurse(p, cs);
      }
    }

    method ResolveLeaves(p: Position, cs: seq<Commitment>) returns (node: Option<Node>)
      requires WellPlaced(view) && SliceAt(cs, p)
      modifies this`writes
      ensures node == SmtUpdate.ResolveLeaves(view, p, cs).node
      ensures writes == old(writes) + SmtUpdate.ResolveLeaves(view, p, cs).writes
      decreases DEPTH - |p|, 1
    {
      var first := NextLive(cs, 0);
      if first == |cs| {
        return None;
      }
      if NextLive(cs, first + 1) == |cs| {
        return Some(LeafNode(cs[first].key, cs[first].value));
      }
      TwoEntriesAreAboveTheBottom(cs, p, first, NextLive(cs, first + 1));
      node := SplitAndRecurse(p, cs);
    }

    method UpdateAtLeaf(p: Position, cs: seq<Commitment>, key: ResourceId, value: Digest) returns (node: Option<Node>)
      requires WellPlaced(view) && SliceAt(cs, p) && cs != [] && p <= key
      modifies this`writes
      ensures node == SmtUpdate.UpdateAtLeaf(view, p, cs, key, value).node
      ensures writes == old(writes) + SmtUpdate.UpdateAtLeaf(view, p, cs, key, value).writes
      decreases DEPTH - |p|, 2
    {
      if |cs| == 1 && cs[0].key == key {
        return if cs[0].value == Zero then None else Some(LeafNode(key, cs[0].value));
      }
      var pos := InsertPoint(cs, key);
      if pos < |cs| && cs[pos].key == key {
        node := ResolveLeaves(p, cs);
      } else {
        MentionsIsExact(cs, key);
        MergedIsASlice(cs, p, key, value);
        node := ResolveLeaves(p, cs[..pos] + [Commitment(key, value)] + cs[pos..]);
      }
    }

    method SplitAndRecurse(p: Position, cs: seq<Commitment>) returns (node: Option<Node>)
      requires WellPlaced(view) && SliceAt(cs, p) && |p| < DEPTH
      modifies this`writes
      ensures node == SmtUpdate.SplitAndRecurse(view, p, cs).node
      ensures writes == old(writes) + SmtUpdate.SplitAndRecurse(view, p, cs).writes
      decreases DEPTH - |p|, 0
    {
      var mid := SplitPoint(KeysOf(cs), |p|);
      HalvesAreSlices(cs, p);
      ghost var l := SmtUpdate.UpdateSubtree(view, p + [false], cs[..mid]);
      ghost var r := SmtUpdate.UpdateSubtree(view, p + [true], cs[mid..]);
      assert SmtUpdate.SplitAndRecurse(view, p, cs) == Joined(view, p, l, r);
      LayersAssociate(writes, l.writes, r.writes,
                      ChildWrites(view, p + [false], l.node), ChildWrites(view, p + [true], r.node));
      var left := UpdateSubtree(p + [false], cs[..mid]);
      var right := UpdateSubtree(p + [true], cs[mid..]);
      if left.None? && right.None? {
        return None;
      }
      if right.None? && left.value.Leaf? {
        return left;
      }
      if left.None? && right.value.Leaf? {
        return right;
      }
      var leftSummary := WriteChild(left, p + [false]);
      var rightSummary := WriteChild(right, p + [true]);
      node := Some(InternalNode(leftSummary, rightSummary));
    }

    /** Writes a child, or a tombstone over a node that has disappeared. */
    method WriteChild(child: Option<Node>, p: Position) returns (summary: HashedNode)
      requires child.Some? ==> PlacedAt(p, child.value)
      modifies this`writes
      ensures summary == ChildSummary(child)
      ensures writes == old(writes) + ChildWrites(view, p, child)
    {
      match child
      case None =>
        if Read(view, p).Some? {
          writes := writes[p := EmptyNode];
        }
        summary := EMPTY_NODE;
      case Some(n) =>
        writes := writes[p := n];
        summary := NodeSummary(n);
    }
  }
}
