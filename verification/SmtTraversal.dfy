/** The verifier as it runs: the membership table inverted in place, and the traversal
    whose cursor advances through siblings and topology bits. */
module SmtTraversal {
  import opened SmtKeys
  import opened SmtTree
  import opened Options
  import opened SmtUpdate
  import opened SmtProof
  import opened SmtRoots

  // ---- Members grouped by leaf ----

  function CountAt(ms: seq<Membership>, leaf: nat, n: nat): nat
    requires n <= |ms|
  {
    |MembersAt(ms, leaf, n)|
  }

  /** Where leaf `leaf`'s members start once all members are grouped by leaf. */
  function StartOf(ms: seq<Membership>, leaf: nat): nat {
    if leaf == 0 then 0 else StartOf(ms, leaf - 1) + CountAt(ms, leaf - 1, |ms|)
  }

  lemma {:induction false} StartsAscend(ms: seq<Membership>, a: nat, b: nat)
    requires a < b
    ensures StartOf(ms, a) + CountAt(ms, a, |ms|) <= StartOf(ms, b)
  {
    if a + 1 < b {
      StartsAscend(ms, a, b - 1);
    }
  }

  lemma {:induction false} CountGrows(ms: seq<Membership>, leaf: nat, n: nat)
    requires n <= |ms|
    ensures CountAt(ms, leaf, n) <= CountAt(ms, leaf, |ms|)
    decreases |ms| - n
  {
    if n < |ms| {
      CountGrows(ms, leaf, n + 1);
    }
  }

  /** `offs[l + 1]` counts the members of leaf `l` among the first `n`. */
  ghost predicate Counts(ms: seq<Membership>, offs: seq<nat>, n: nat)
    requires n <= |ms|
  {
    |offs| > 0 && offs[0] == 0 && forall j :: 1 <= j < |offs| ==> offs[j] == CountAt(ms, j - 1, n)
  }

  ghost predicate Starts(ms: seq<Membership>, offs: seq<nat>) {
    |offs| > 0 && forall j :: 0 <= j < |offs| ==> offs[j] == StartOf(ms, j)
  }

  /** `offs[l]` is where the next member of leaf `l` goes once the first `n` are placed. */
  ghost predicate Cursors(ms: seq<Membership>, offs: seq<nat>, n: nat)
    requires n <= |ms|
  {
    |offs| > 0 && forall j :: 0 <= j < |offs| - 1 ==> offs[j] == StartOf(ms, j) + CountAt(ms, j, n)
  }

  lemma CountsStep(ms: seq<Membership>, a: seq<nat>, n: nat)
    requires n < |ms| && Counts(ms, a, n)
    ensures var l := ms[n].leaf;
            Counts(ms, if l + 1 < |a| then a[l + 1 := a[l + 1] + 1] else a, n + 1)
  {
  }

  lemma CursorsStep(ms: seq<Membership>, a: seq<nat>, n: nat)
    requires n < |ms| && Cursors(ms, a, n)
    ensures var l := ms[n].leaf;
            Cursors(ms, if l + 1 < |a| then a[l := a[l] + 1] else a, n + 1)
  {
  }

  /** Pass 1: members per leaf, one place to the right. */
  method CountMembers(ms: seq<Membership>, offs: array<nat>)
    requires Counts(ms, offs[..], 0)
    modifies offs
    ensures Counts(ms, offs[..], |ms|)
  {
    hide *;
    for i := 0 to |ms|
      invariant Counts(ms, offs[..], i)
    {
      CountsStep(ms, offs[..], i);
      ghost var before := offs[..];
      var leafPos := ms[i].leaf;
      if leafPos < offs.Length - 1 {
        offs[leafPos + 1] := offs[leafPos + 1] + 1;
        assert offs[..] == before[leafPos + 1 := before[leafPos + 1] + 1];
      }
    }
  }

  /** Counts become starts. */
  method SumPrefixes(ms: seq<Membership>, offs: array<nat>)
    requires Counts(ms, offs[..], |ms|)
    modifies offs
    ensures Starts(ms, offs[..])
  {
    assert StartOf(ms, 0) == 0;
    hide StartOf;
    hide CountAt;
    for i := 1 to offs.Length
      invariant forall j :: 0 <= j < i ==> offs[j] == StartOf(ms, j)
      invariant forall j :: i <= j < offs.Length ==> offs[j] == CountAt(ms, j - 1, |ms|)
    {
      StartStep(ms, i);
      offs[i] := offs[i] + offs[i - 1];
    }
  }

  lemma StartStep(ms: seq<Membership>, leaf: nat)
    requires leaf > 0
    ensures StartOf(ms, leaf) == StartOf(ms, leaf - 1) + CountAt(ms, leaf - 1, |ms|)
  {
  }

  ghost predicate AllGrouped(ms: seq<Membership>, leaves: nat, n: nat, idxs: seq<nat>)
    requires n <= |ms|
  {
    |idxs| == StartOf(ms, leaves) && forall l: nat :: l < leaves ==> Grouped(ms, l, n, idxs)
  }

  /** Pass 2: each index goes to its leaf's cursor, which then moves on. */
  method FillIndices(ms: seq<Membership>, offs: array<nat>, idxs: array<nat>)
    requires Starts(ms, offs[..]) && offs != idxs && idxs.Length == StartOf(ms, offs.Length - 1)
    modifies offs, idxs
    ensures Cursors(ms, offs[..], |ms|) && AllGrouped(ms, offs.Length - 1, |ms|, idxs[..])
  {
    hide *;
    NothingPlaced(ms, offs[..], idxs[..]);
    for i := 0 to |ms|
      invariant Cursors(ms, offs[..], i) && AllGrouped(ms, offs.Length - 1, i, idxs[..])
    {
      ghost var before, cursors := idxs[..], offs[..];
      CursorsStep(ms, cursors, i);
      PlaceStep(ms, cursors, i, before);
      var leafPos := ms[i].leaf;
      if leafPos < offs.Length - 1 {
        Place(offs, idxs, leafPos, i);
      }
    }
  }

  method Place(offs: array<nat>, idxs: array<nat>, leafPos: nat, i: nat)
    requires leafPos < offs.Length && offs[leafPos] < idxs.Length && offs != idxs
    modifies offs, idxs
    ensures offs[..] == old(offs[..])[leafPos := old(offs[leafPos]) + 1]
    ensures idxs[..] == old(idxs[..])[old(offs[leafPos]) := i]
  {
    idxs[offs[leafPos]] := i;
    offs[leafPos] := offs[leafPos] + 1;
  }

  lemma NothingPlaced(ms: seq<Membership>, offs: seq<nat>, idxs: seq<nat>)
    requires Starts(ms, offs) && |idxs| == StartOf(ms, |offs| - 1)
    ensures Cursors(ms, offs, 0) && AllGrouped(ms, |offs| - 1, 0, idxs)
  {
    forall l: nat | l < |offs| - 1 ensures Grouped(ms, l, 0, idxs) {
      StartsAscend(ms, l, |offs| - 1);
    }
  }

  lemma PlaceStep(ms: seq<Membership>, offs: seq<nat>, n: nat, idxs: seq<nat>)
    requires n < |ms| && Cursors(ms, offs, n) && AllGrouped(ms, |offs| - 1, n, idxs)
    ensures ms[n].leaf + 1 < |offs| ==> offs[ms[n].leaf] < |idxs|
    ensures AllGrouped(ms, |offs| - 1, n + 1, if ms[n].leaf + 1 < |offs| then idxs[offs[ms[n].leaf] := n] else idxs)
  {
    var l, leaves := ms[n].leaf, |offs| - 1;
    if l < leaves {
      SlotIsFree(ms, l, n, leaves);
    }
    var out := if l < leaves then idxs[offs[l] := n] else idxs;
    hide CountAt;
    hide StartOf;
    hide Grouped;
    var next := n + 1;
    forall j: nat | j < leaves ensures Grouped(ms, j, next, out) {
      GroupedStep(ms, j, n, leaves, idxs, out);
    }
  }

  /** Entries from `i` on are starts, entries before it still cursors. */
  ghost predicate Shifting(ms: seq<Membership>, offs: seq<nat>, i: nat) {
    && |offs| > 0
    && (forall j :: 0 <= j < |offs| - 1 && j < i ==> offs[j] == StartOf(ms, j) + CountAt(ms, j, |ms|))
    && (forall j :: i <= j < |offs| ==> offs[j] == StartOf(ms, j))
  }

  lemma ShiftStep(ms: seq<Membership>, offs: seq<nat>, i: nat)
    requires 0 < i < |offs| && Shifting(ms, offs, i + 1)
    ensures Shifting(ms, offs[i := offs[i - 1]], i)
  {
    StartStep(ms, i);
    hide StartOf;
    hide CountAt;
  }

  lemma ShiftDone(ms: seq<Membership>, offs: seq<nat>)
    requires Shifting(ms, offs, 1)
    ensures Starts(ms, offs[0 := 0])
  {
    assert StartOf(ms, 0) == 0;
  }

  /** Cursors become starts again. */
  method ShiftCursors(ms: seq<Membership>, offs: array<nat>)
    requires Cursors(ms, offs[..], |ms|)
    modifies offs
    ensures Starts(ms, offs[..])
  {
    assert Shifting(ms, offs[..], offs.Length);
    hide *;
    for i := offs.Length downto 1
      invariant Shifting(ms, offs[..], i)
    {
      ghost var before := offs[..];
      ShiftStep(ms, before, i);
      offs[i] := offs[i - 1];
      assert offs[..] == before[i := before[i - 1]];
    }
    ghost var before := offs[..];
    ShiftDone(ms, before);
    offs[0] := 0;
    assert offs[..] == before[0 := 0];
  }

  /** The range of `leaf` holds exactly `members`. */
  ghost predicate Holds(offs: seq<nat>, idxs: seq<nat>, leaf: nat, members: seq<nat>) {
    && leaf + 1 < |offs| && offs[leaf] <= offs[leaf + 1] <= |idxs|
    && idxs[offs[leaf]..offs[leaf + 1]] == members
  }

  /** Membership indices grouped by leaf, with half-open ranges into them. */
  class MembersByLeaf {
    const offsets: array<nat>
    const indices: array<nat>

    ghost predicate Inverts(ms: seq<Membership>)
      reads offsets, indices
    {
      forall leaf: nat :: leaf + 1 < offsets.Length ==>
        Holds(offsets[..], indices[..], leaf, MembersAt(ms, leaf, |ms|))
    }

    /** Groups the members of every leaf; a member naming no leaf is skipped. */
    constructor (ms: seq<Membership>, leaves: nat)
      ensures fresh(offsets) && fresh(indices) && offsets.Length == leaves + 1
      ensures Inverts(ms)
    {
      var offs := new nat[leaves + 1](_ => 0);
      CountMembers(ms, offs);
      SumPrefixes(ms, offs);
      var idxs := new nat[offs[leaves]](_ => 0);
      FillIndices(ms, offs, idxs);
      ShiftCursors(ms, offs);
      offsets, indices := offs, idxs;
      new;
      forall leaf: nat | leaf < leaves ensures Holds(offs[..], idxs[..], leaf, MembersAt(ms, leaf, |ms|)) {
        assert Grouped(ms, leaf, |ms|, idxs[..]);
        GroupIsSlice(ms, leaf, leaves, idxs[..]);
      }
    }

    /** The members of one leaf. */
    method At(ghost ms: seq<Membership>, leafPos: nat) returns (members: seq<nat>)
      requires Inverts(ms) && leafPos + 1 < offsets.Length
      ensures members == MembersAt(ms, leafPos, |ms|)
    {
      assert Holds(offsets[..], indices[..], leafPos, MembersAt(ms, leafPos, |ms|));
      members := indices[offsets[leafPos]..offsets[leafPos + 1]];
    }
  }

  /** The first `n` members have been written at leaf `l`'s range. */
  ghost predicate Grouped(ms: seq<Membership>, l: nat, n: nat, idxs: seq<nat>)
    requires n <= |ms|
  {
    && StartOf(ms, l) + CountAt(ms, l, n) <= |idxs|
    && forall k :: 0 <= k < CountAt(ms, l, n) ==> idxs[StartOf(ms, l) + k] == MembersAt(ms, l, n)[k]
  }

  lemma SlotIsFree(ms: seq<Membership>, l: nat, i: nat, leaves: nat)
    requires i < |ms| && ms[i].leaf == l < leaves
    ensures StartOf(ms, l) + CountAt(ms, l, i) < StartOf(ms, leaves)
  {
    CountGrows(ms, l, i + 1);
    StartsAscend(ms, l, leaves);
  }

  lemma GroupedStep(ms: seq<Membership>, l: nat, i: nat, leaves: nat, a: seq<nat>, b: seq<nat>)
    requires i < |ms| && l < leaves && Grouped(ms, l, i, a) && |a| == |b| == StartOf(ms, leaves)
    requires ms[i].leaf < leaves ==>
               var at := StartOf(ms, ms[i].leaf) + CountAt(ms, ms[i].leaf, i);
               at < |a| && b == a[at := i]
    requires ms[i].leaf >= leaves ==> b == a
    ensures Grouped(ms, l, i + 1, b)
  {
    var at := ms[i].leaf;
    CountGrows(ms, l, i + 1);
    if at < leaves {
      CountGrows(ms, at, i + 1);
      if at < l {
        StartsAscend(ms, at, l);
      } else if l < at {
        StartsAscend(ms, l, at);
      }
    }
    StartsAscend(ms, l, leaves);
  }

  lemma GroupIsSlice(ms: seq<Membership>, leaf: nat, leaves: nat, idxs: seq<nat>)
    requires leaf < leaves && Grouped(ms, leaf, |ms|, idxs) && |idxs| == StartOf(ms, leaves)
    ensures StartOf(ms, leaf) <= StartOf(ms, leaf + 1) <= |idxs|
    ensures idxs[StartOf(ms, leaf)..StartOf(ms, leaf + 1)] == MembersAt(ms, leaf, |ms|)
  {
    var s, e := StartOf(ms, leaf), StartOf(ms, leaf + 1);
    assert e == s + CountAt(ms, leaf, |ms|);
    assert forall k :: 0 <= k < e - s ==> idxs[s..e][k] == idxs[s + k];
  }

  // ---- The post-state of a leaf ----

  datatype LeafUpdate = Unchanged | Single(value: Digest) | Multiple

  /** One pass over the members of a leaf; `buffer` is sorted for synthesis when several
      entries may remain. None when a live member has no key. */
  method ClassifyLeafUpdate(pf: Proof, leafKey: ResourceId, leaf: ProofLeaf, idxs: seq<nat>, values: seq<Digest>)
    returns (r: Option<LeafUpdate>, buffer: seq<Commitment>)
    requires forall i :: 0 <= i < |idxs| ==> idxs[i] < |pf.memberships| && idxs[i] < |values|
    ensures r.Some? <==> forall i :: 0 <= i < |idxs| ==> MemberKnown(pf, idxs[i], values)
    ensures r.Some? ==>
              PostOf(leafKey, leaf, ScanMembers(pf, leaf.value, idxs, values, |idxs|))
              == match r.value
                 case Unchanged => Some(LeafSummary(leafKey, leaf.value))
                 case Single(v) => Some(LeafSummary(leafKey, v))
                 case Multiple => SubtreeHash(buffer, leaf.depth)
  {
    buffer := [];
    var witnessValue, synthesis, changed := None, false, false;
    for n := 0 to |idxs|
      invariant forall i :: 0 <= i < n ==> MemberKnown(pf, idxs[i], values)
      invariant Scan(witnessValue, synthesis, changed, buffer)
             == ScanMembers(pf, leaf.value, idxs[..n], values, n)
    {
      var i := idxs[n];
      var v := values[i];
      assert idxs[..n + 1][..n] == idxs[..n];
      if v != Zero && i >= |pf.keys| {
        assert !MemberKnown(pf, idxs[n], values);
        return None, buffer;
      }
      ScanPrefix(pf, leaf.value, idxs[..n], idxs[..n + 1], values, n);
      match pf.memberships[i] {
        case Present(_) =>
          witnessValue := Some(v);
          if v != leaf.value {
            changed := true;
          }
        case Absent(_) =>
          if v != Zero {
            synthesis, changed := true, true;
          }
      }
      if v != Zero {
        buffer := buffer + [Commitment(pf.keys[i], v)];
      }
    }
    assert idxs[..|idxs|] == idxs;
    if !changed {
      return Some(Unchanged), buffer;
    }
    if synthesis {
      if witnessValue.None? && leaf.value != Zero {
        buffer := buffer + [Commitment(leafKey, leaf.value)];
      }
      buffer := SortedEntries(buffer);
      return Some(Multiple), buffer;
    }
    r := Some(Single(if witnessValue.Some? then witnessValue.value else leaf.value));
  }

  lemma {:induction false} ScanPrefix(pf: Proof, leafValue: Digest, a: seq<nat>, b: seq<nat>, values: seq<Digest>,
                                      n: nat)
    requires n <= |a| && a <= b
    requires forall i :: 0 <= i < |b| ==> b[i] < |pf.memberships| && MemberKnown(pf, b[i], values)
    ensures ScanMembers(pf, leafValue, a, values, n) == ScanMembers(pf, leafValue, b, values, n)
  {
    if n > 0 {
      ScanPrefix(pf, leafValue, a, b, values, n - 1);
    }
  }

  // ---- The walk ----

  class Traversal {
    const proof: Proof
    const values: seq<Digest>
    const members: MembersByLeaf
    var siblingIdx: nat
    var topoBit: nat

    ghost function At(): Cursor
      reads this
    {
      Cursor(siblingIdx, topoBit)
    }

    ghost predicate Ready()
      reads members, members.offsets, members.indices
    {
      members.Inverts(proof.memberships) && members.offsets.Length == |proof.leaves| + 1
    }

    constructor (proof: Proof, values: seq<Digest>)
      ensures this.proof == proof && this.values == values && At() == Cursor(0, 0)
      ensures fresh(members) && fresh(members.offsets) && fresh(members.indices) && Ready()
    {
      this.proof, this.values, this.siblingIdx, this.topoBit := proof, values, 0, 0;
      this.members := new MembersByLeaf(proof.memberships, |proof.leaves|);
    }

    /** Consumes the next topology bit. */
    method NextTopologyBit() returns (bit: bool)
      modifies this
      ensures bit == proof.TopologyBit(old(topoBit))
      ensures siblingIdx == old(siblingIdx) && topoBit == old(topoBit) + 1
    {
      topoBit := topoBit + 1;
      bit := proof.TopologyBit(topoBit - 1);
    }

    /** Consumes the next sibling; none when the proof has run out of them. */
    method NextSibling() returns (s: Option<HashedNode>)
      modifies this
      ensures s.Some? <==> old(siblingIdx) < |proof.siblings|
      ensures s.Some? ==> s.value == proof.siblings[old(siblingIdx)] && siblingIdx == old(siblingIdx) + 1
      ensures topoBit == old(topoBit)
    {
      if siblingIdx >= |proof.siblings| {
        return None;
      }
      s := Some(proof.siblings[siblingIdx]);
      siblingIdx := siblingIdx + 1;
    }

    /** Pre-state summary of leaves `start..end` at `level`. */
    method Walk(start: nat, end: nat, level: nat) returns (r: Option<HashedNode>)
      requires start <= end <= |proof.leaves| && level <= DEPTH
      modifies this
      ensures var w := SmtProof.Walk(proof, start, end, level, old(At()));
              r.Some? == w.Some? && (w.Some? ==> r.value == w.value.value && At() == w.value.cursor)
      decreases DEPTH - level
    {
      match TerminalAt(proof, start, end, level) {
        case Malformed => return None;
        case EmptyRange => return Some(EMPTY_NODE);
        case AtLeaf => return LeafHash(proof, start);
        case Continue =>
      }
      if !KeysInRange(proof, start, end) {
        return None;
      }
      var both := NextTopologyBit();
      if both {
        var mid := start + SplitPoint(RangeKeys(proof, start, end), level);
        var left := Walk(start, mid, level + 1);
        if left.None? {
          return None;
        }
        var right := Walk(mid, end, level + 1);
        if right.None? {
          return None;
        }
        r := Some(Combine(left.value, right.value));
      } else {
        var sibling := NextSibling();
        if sibling.None? {
          return None;
        }
        var child := Walk(start, end, level + 1);
        if child.None? {
          return None;
        }
        r := Some(CombineOrdered(child.value, sibling.value, GoesLeft(proof, start, level)));
      }
    }

    /** Pre- and post-state summaries of leaf `leafPos`. */
    method LeafPair(leafPos: nat) returns (r: Option<(HashedNode, HashedNode)>)
      requires Ready() && leafPos < |proof.leaves| && |values| >= |proof.memberships|
      ensures r == SmtRoots.LeafPair(proof, leafPos, values)
    {
      var key := proof.LeafKey(leafPos);
      if key.None? {
        return None;
      }
      var leaf := proof.leaves[leafPos];
      var idxs := members.At(proof.memberships, leafPos);
      var update, buffer := ClassifyLeafUpdate(proof, key.value, leaf, idxs, values);
      if update.None? {
        return None;
      }
      var prev := LeafSummary(key.value, leaf.value);
      match update.value {
        case Unchanged => return Some((prev, prev));
        case Single(v) => return Some((prev, LeafSummary(key.value, v)));
        case Multiple =>
          var post := SubtreeHash(buffer, leaf.depth);
          return if post.Some? then Some((prev, post.value)) else None;
      }
    }

    /** Both summaries of leaves `start..end` at `level`. */
    method WalkPair(start: nat, end: nat, level: nat) returns (r: Option<(HashedNode, HashedNode)>)
      requires Ready() && |values| >= |proof.memberships| && start <= end <= |proof.leaves| && level <= DEPTH
      modifies this
      ensures Ready()
      ensures var w := SmtRoots.WalkPair(proof, values, start, end, level, old(At()));
              r.Some? == w.Some? && (w.Some? ==> r.value == w.value.value && At() == w.value.cursor)
      decreases DEPTH - level
    {
      match TerminalAt(proof, start, end, level) {
        case Malformed => return None;
        case EmptyRange => return Some((EMPTY_NODE, EMPTY_NODE));
        case AtLeaf =>
          r := LeafPair(start);
          return;
        case Continue =>
      }
      if !KeysInRange(proof, start, end) {
        return None;
      }
      var both := NextTopologyBit();
      if both {
        var mid := start + SplitPoint(RangeKeys(proof, start, end), level);
        var left := WalkPair(start, mid, level + 1);
        if left.None? {
          return None;
        }
        var right := WalkPair(mid, end, level + 1);
        if right.None? {
          return None;
        }
        r := Some(JoinPairs(left.value, right.value));
      } else {
        var sibling := NextSibling();
        if sibling.None? {
          return None;
        }
        var child := WalkPair(start, end, level + 1);
        if child.None? {
          return None;
        }
        r := Some(PairBeside(child.value, sibling.value, GoesLeft(proof, start, level)));
      }
    }
  }

  /** Both roots of a proof in one traversal. */
  method RunRoots(proof: Proof, values: seq<Digest>) returns (r: Option<(Digest, Digest)>)
    requires |values| >= |proof.memberships|
    ensures r == ComputeRoots(proof, values)
  {
    var t := new Traversal(proof, values);
    var pair := t.WalkPair(0, |proof.leaves|, 0);
    r := if pair.Some? then Some((pair.value.0.hash, pair.value.1.hash)) else None;
  }
}
