/** Both roots of a multi-proof in one walk: each witness leaf is re-evaluated from the
    members it answers for, unchanged subtrees keep their pre-state summary. */
module SmtRoots {
  import opened SmtKeys
  import opened SmtTree
  import opened Options
  import opened SmtUpdate
  import opened SmtProof

  /** Membership indices below `n` that name `leaf`, ascending. */
  function MembersAt(ms: seq<Membership>, leaf: nat, n: nat): (idxs: seq<nat>)
    requires n <= |ms|
    ensures forall i :: 0 <= i < |idxs| ==> idxs[i] < n
  {
    if n == 0 then []
    else if ms[n - 1].leaf == leaf then MembersAt(ms, leaf, n - 1) + [n - 1]
    else MembersAt(ms, leaf, n - 1)
  }

  /** What one pass over a leaf's members finds out. */
  datatype Scan = Scan(present: Option<Digest>, synthesis: bool, changed: bool, entries: seq<Commitment>)

  /** The member has a new value, and a key if that value is live. */
  predicate MemberKnown(pf: Proof, i: nat, values: seq<Digest>) {
    i < |values| && (values[i] != Zero ==> i < |pf.keys|)
  }

  /** The members `idxs[..n]` folded in order. */
  function ScanMembers(pf: Proof, leafValue: Digest, idxs: seq<nat>, values: seq<Digest>, n: nat): Scan
    requires n <= |idxs|
    requires forall i :: 0 <= i < |idxs| ==> idxs[i] < |pf.memberships| && MemberKnown(pf, idxs[i], values)
  {
    if n == 0 then Scan(None, false, false, [])
    else
      var i := idxs[n - 1];
      ScanStep(ScanMembers(pf, leafValue, idxs, values, n - 1), pf.memberships[i].Present?, leafValue,
               if values[i] != Zero then Some(pf.keys[i]) else None, values[i])
  }

  /** One member; only a live value needs the member's key. */
  function ScanStep(s: Scan, present: bool, leafValue: Digest, k: Option<ResourceId>, v: Digest): Scan {
    var entries := if k.Some? then s.entries + [Commitment(k.value, v)] else s.entries;
    if present then
      Scan(Some(v), s.synthesis, s.changed || v != leafValue, entries)
    else
      Scan(s.present, s.synthesis || v != Zero, s.changed || v != Zero, entries)
  }

  /** Stable insertion by key. */
  function InsertByKey(es: seq<Commitment>, e: Commitment): seq<Commitment> {
    if es == [] || !Less(e.key, es[|es| - 1].key) then es + [e]
    else InsertByKey(es[..|es| - 1], e) + [es[|es| - 1]]
  }

  function SortedEntries(es: seq<Commitment>): seq<Commitment> {
    if es == [] then [] else InsertByKey(SortedEntries(es[..|es| - 1]), es[|es| - 1])
  }

  /** Summary of the subtree at `level` holding sorted entries. Several entries that no
      bit separates would recurse past the last level. */
  function SubtreeHash(es: seq<Commitment>, level: nat): Option<HashedNode>
    decreases if level < DEPTH then DEPTH - level else 0, es
  {
    if |es| == 0 then Some(EMPTY_NODE)
    else if |es| == 1 then Some(LeafSummary(es[0].key, es[0].value))
    else if level >= DEPTH then None
    else
      var mid := SplitPoint(KeysOf(es), level);
      var left, right := SubtreeHash(es[..mid], level + 1), SubtreeHash(es[mid..], level + 1);
      if left.Some? && right.Some? then Some(Combine(left.value, right.value)) else None
  }

  /** Post-state of a leaf after its members are scanned. */
  function PostOf(leafKey: ResourceId, leaf: ProofLeaf, s: Scan): Option<HashedNode> {
    if !s.changed then Some(LeafSummary(leafKey, leaf.value))
    else if s.synthesis then
      var all := if s.present.None? && leaf.value != Zero then s.entries + [Commitment(leafKey, leaf.value)]
                 else s.entries;
      SubtreeHash(SortedEntries(all), leaf.depth)
    else Some(LeafSummary(leafKey, if s.present.Some? then s.present.value else leaf.value))
  }

  predicate MembersKnown(pf: Proof, i: nat, values: seq<Digest>) {
    var idxs := MembersAt(pf.memberships, i, |pf.memberships|);
    forall j :: 0 <= j < |idxs| ==> MemberKnown(pf, idxs[j], values)
  }

  /** Pre and post summaries at leaf `i`. */
  function LeafPair(pf: Proof, i: nat, values: seq<Digest>): Option<(HashedNode, HashedNode)> {
    var idxs := MembersAt(pf.memberships, i, |pf.memberships|);
    if pf.LeafKey(i).None? || !MembersKnown(pf, i, values) then None
    else
      var key, leaf := pf.LeafKey(i).value, pf.leaves[i];
      var post := PostOf(key, leaf, ScanMembers(pf, leaf.value, idxs, values, |idxs|));
      if post.None? then None else Some((LeafSummary(key, leaf.value), post.value))
  }

  function WalkPair(pf: Proof, values: seq<Digest>, start: nat, end: nat, level: nat, cur: Cursor)
    : Option<Walked<(HashedNode, HashedNode)>>
    requires start <= end <= |pf.leaves| && level <= DEPTH
    decreases DEPTH - level, 1, pf
  {
    match TerminalAt(pf, start, end, level)
    case Malformed => None
    case EmptyRange => Some(Walked((EMPTY_NODE, EMPTY_NODE), cur, []))
    case AtLeaf =>
      var pair := LeafPair(pf, start, values);
      if pair.Some? then Some(Walked(pair.value, cur, [start])) else None
    case Continue =>
      if !KeysInRange(pf, start, end) then None
      else if pf.TopologyBit(cur.topo) then WalkPairBoth(pf, values, start, end, level, cur)
      else WalkPairBeside(pf, values, start, end, level, cur)
  }

  function WalkPairBoth(pf: Proof, values: seq<Digest>, start: nat, end: nat, level: nat, cur: Cursor)
    : Option<Walked<(HashedNode, HashedNode)>>
    requires start < end <= |pf.leaves| && level < DEPTH && KeysInRange(pf, start, end)
    decreases DEPTH - level, 0, pf
  {
    var mid := start + SplitPoint(RangeKeys(pf, start, end), level);
    var left := WalkPair(pf, values, start, mid, level + 1, cur.(topo := cur.topo + 1));
    if left.None? then None else
    var right := WalkPair(pf, values, mid, end, level + 1, left.value.cursor);
    if right.None? then None else
    Some(Walked(JoinPairs(left.value.value, right.value.value), right.value.cursor,
                left.value.visited + right.value.visited))
  }

  function WalkPairBeside(pf: Proof, values: seq<Digest>, start: nat, end: nat, level: nat, cur: Cursor)
    : Option<Walked<(HashedNode, HashedNode)>>
    requires start < end <= |pf.leaves| && level < DEPTH && KeysInRange(pf, start, end)
    decreases DEPTH - level, 0, pf
  {
    if cur.sibling >= |pf.siblings| then None
    else
      var child := WalkPair(pf, values, start, end, level + 1, Cursor(cur.sibling + 1, cur.topo + 1));
      if child.None? then None else
      Some(Walked(PairBeside(child.value.value, pf.siblings[cur.sibling], GoesLeft(pf, start, level)),
                  child.value.cursor, child.value.visited))
  }

  /** Two children's pairs combined, reusing the pre-state summary when neither changed. */
  function JoinPairs(l: (HashedNode, HashedNode), r: (HashedNode, HashedNode)): (HashedNode, HashedNode) {
    var prev := Combine(l.0, r.0);
    (prev, if l.0 == l.1 && r.0 == r.1 then prev else Combine(l.1, r.1))
  }

  function PairBeside(child: (HashedNode, HashedNode), sibling: HashedNode, goesLeft: bool): (HashedNode, HashedNode) {
    var prev := CombineOrdered(child.0, sibling, goesLeft);
    (prev, if child.0 == child.1 then prev else CombineOrdered(child.1, sibling, goesLeft))
  }

  /** Both roots, with `values[i]` the new value of member `i`. */
  function ComputeRoots(pf: Proof, values: seq<Digest>): Option<(Digest, Digest)> {
    var w := WalkPair(pf, values, 0, |pf.leaves|, 0, Cursor(0, 0));
    if w.Some? then Some((w.value.value.0.hash, w.value.value.1.hash)) else None
  }

  // ---- The pre-state half is the plain walk ----

  lemma {:induction false} PairWalkStartsWithTheWalk(pf: Proof, values: seq<Digest>,
                                                      start: nat, end: nat, level: nat, cur: Cursor)
    requires start <= end <= |pf.leaves| && level <= DEPTH
    requires WalkPair(pf, values, start, end, level, cur).Some?
    ensures var w := WalkPair(pf, values, start, end, level, cur).value;
            Walk(pf, start, end, level, cur) == Some(Walked(w.value.0, w.cursor, w.visited))
    decreases DEPTH - level, 1
  {
    if TerminalAt(pf, start, end, level).Continue? {
      if pf.TopologyBit(cur.topo) {
        PairWalkBothStartsWithTheWalk(pf, values, start, end, level, cur);
      } else {
        PairWalkStartsWithTheWalk(pf, values, start, end, level + 1, Cursor(cur.sibling + 1, cur.topo + 1));
      }
    }
  }

  lemma {:induction false} PairWalkBothStartsWithTheWalk(pf: Proof, values: seq<Digest>,
                                                          start: nat, end: nat, level: nat, cur: Cursor)
    requires start < end <= |pf.leaves| && level < DEPTH && KeysInRange(pf, start, end)
    requires WalkPairBoth(pf, values, start, end, level, cur).Some?
    ensures var w := WalkPairBoth(pf, values, start, end, level, cur).value;
            WalkBoth(pf, start, end, level, cur) == Some(Walked(w.value.0, w.cursor, w.visited))
    decreases DEPTH - level, 0
  {
    var mid := start + SplitPoint(RangeKeys(pf, start, end), level);
    var next := cur.(topo := cur.topo + 1);
    PairWalkStartsWithTheWalk(pf, values, start, mid, level + 1, next);
    var left := WalkPair(pf, values, start, mid, level + 1, next).value;
    PairWalkStartsWithTheWalk(pf, values, mid, end, level + 1, left.cursor);
  }

  /** Inclusion soundness of the first of the two roots, for a proof of any origin. */
  lemma PrevRootIsSound(pf: Proof, values: seq<Digest>, m: StateMap, i: nat, k: ResourceId, v: Digest)
    requires ComputeRoots(pf, values).Some? && ComputeRoots(pf, values).value.0 == CanonRoot(m)
    requires Claims(pf, i, k, v)
    ensures Root(pf) == Some(CanonRoot(m))
    ensures k in m && m[k] == v
  {
    PairWalkStartsWithTheWalk(pf, values, 0, |pf.leaves|, 0, Cursor(0, 0));
    InclusionIsSound(pf, m, i, k, v);
  }

  /** A live value resolved for a member of a proof of any origin is the map's value for the key
      it was queried for. */
  lemma MembersAreSound(pf: Proof, values: seq<Digest>, m: StateMap, i: nat, v: Digest)
    requires ComputeRoots(pf, values).Some? && ComputeRoots(pf, values).value.0 == CanonRoot(m)
    requires MemberValue(pf, i) == Some(v) && v != Zero
    ensures i < |pf.keys| && pf.keys[i] in m && m[pf.keys[i]] == v
  {
    hide ComputeRoots;
    hide CanonRoot;
    PrevRootIsSound(pf, values, m, pf.memberships[i].leaf, pf.keys[i], v);
  }
}
