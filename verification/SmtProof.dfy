/** Multi-proofs as decoded from the wire, and the verifier's cursor-driven walk over them.
    Every function is total: a decode error, an out-of-range index or an exhausted
    recursion is `None`. */
module SmtProof {
  import opened SmtKeys
  import opened SmtTree
  import opened Options

  /** A witness leaf at its shortcut depth; its key is an index into the keys table. */
  datatype ProofLeaf = ProofLeaf(depth: nat, keyIdx: nat, value: Digest)

  /** One queried key's claim and the leaf that backs it. */
  datatype Membership = Present(leaf: nat) | Absent(leaf: nat)

  datatype Proof = Proof(
    keys: seq<ResourceId>,
    leaves: seq<ProofLeaf>,
    siblings: seq<HashedNode>,
    topology: seq<bool>,
    memberships: seq<Membership>)
  {
    /** The key of leaf `i`. */
    function LeafKey(i: nat): Option<ResourceId> {
      if i < |leaves| && leaves[i].keyIdx < |keys| then Some(keys[leaves[i].keyIdx]) else None
    }

    /** Topology bits past the end read as false. */
    function TopologyBit(i: nat): bool {
      i < |topology| && topology[i]
    }
  }

  /** Next sibling and next topology bit to consume. */
  datatype Cursor = Cursor(sibling: nat, topo: nat)

  /** A successful walk: its value, the cursor after it, and the leaves it asked for, in order. */
  datatype Walked<T> = Walked(value: T, cursor: Cursor, visited: seq<nat>)

  datatype Terminal = Malformed | EmptyRange | AtLeaf | Continue

  /** How the recursion over leaves `start..end` proceeds at `level`. */
  function TerminalAt(pf: Proof, start: nat, end: nat, level: nat): Terminal
    requires start <= end <= |pf.leaves|
  {
    if start == end then EmptyRange
    else if end - start == 1 && level > pf.leaves[start].depth then Malformed
    else if end - start == 1 && level == pf.leaves[start].depth then AtLeaf
    else if level >= DEPTH then Malformed
    else Continue
  }

  /** Whether every leaf of the range has a key in the table, as indexing it demands. */
  predicate KeysInRange(pf: Proof, start: nat, end: nat)
    requires start <= end <= |pf.leaves|
  {
    forall i :: start <= i < end ==> pf.leaves[i].keyIdx < |pf.keys|
  }

  function RangeKeys(pf: Proof, start: nat, end: nat): (keys: seq<ResourceId>)
    requires start <= end <= |pf.leaves| && KeysInRange(pf, start, end)
    ensures |keys| == end - start
    ensures forall i :: 0 <= i < |keys| ==> keys[i] == pf.keys[pf.leaves[start + i].keyIdx]
  {
    seq(end - start, i requires 0 <= i < end - start => pf.keys[pf.leaves[start + i].keyIdx])
  }

  /** Pre-state summary of leaf `i`. */
  function LeafHash(pf: Proof, i: nat): Option<HashedNode> {
    if pf.LeafKey(i).Some? then Some(LeafSummary(pf.LeafKey(i).value, pf.leaves[i].value)) else None
  }

  function CombineOrdered(child: HashedNode, sibling: HashedNode, childGoesLeft: bool): HashedNode {
    if childGoesLeft then Combine(child, sibling) else Combine(sibling, child)
  }

  /** The pre-state walk over leaves `start..end` at `level`. */
  function Walk(pf: Proof, start: nat, end: nat, level: nat, cur: Cursor): Option<Walked<HashedNode>>
    requires start <= end <= |pf.leaves| && level <= DEPTH
    decreases DEPTH - level, 1, pf
  {
    match TerminalAt(pf, start, end, level)
    case Malformed => None
    case EmptyRange => Some(Walked(EMPTY_NODE, cur, []))
    case AtLeaf =>
      if LeafHash(pf, start).Some? then Some(Walked(LeafHash(pf, start).value, cur, [start])) else None
    case Continue =>
      if !KeysInRange(pf, start, end) then None
      else if pf.TopologyBit(cur.topo) then WalkBoth(pf, start, end, level, cur)
      else WalkBeside(pf, start, end, level, cur)
  }

  /** Both children hold proof leaves: split the range on the next key bit. */
  function WalkBoth(pf: Proof, start: nat, end: nat, level: nat, cur: Cursor): Option<Walked<HashedNode>>
    requires start < end <= |pf.leaves| && level < DEPTH && KeysInRange(pf, start, end)
    decreases DEPTH - level, 0, pf
  {
    var mid := start + SplitPoint(RangeKeys(pf, start, end), level);
    var left := Walk(pf, start, mid, level + 1, cur.(topo := cur.topo + 1));
    if left.None? then None else
    var right := Walk(pf, mid, end, level + 1, left.value.cursor);
    if right.None? then None else
    Some(Walked(Combine(left.value.value, right.value.value), right.value.cursor,
                left.value.visited + right.value.visited))
  }

  /** One child holds all proof leaves, the other is the next sibling. */
  function WalkBeside(pf: Proof, start: nat, end: nat, level: nat, cur: Cursor): Option<Walked<HashedNode>>
    requires start < end <= |pf.leaves| && level < DEPTH && KeysInRange(pf, start, end)
    decreases DEPTH - level, 0, pf
  {
    if cur.sibling >= |pf.siblings| then None
    else
      var child := Walk(pf, start, end, level + 1, Cursor(cur.sibling + 1, cur.topo + 1));
      if child.None? then None else
      Some(Walked(CombineOrdered(child.value.value, pf.siblings[cur.sibling], GoesLeft(pf, start, level)),
                  child.value.cursor, child.value.visited))
  }

  /** Which side leaf `i` takes at `level`. */
  predicate GoesLeft(pf: Proof, i: nat, level: nat)
    requires i < |pf.leaves| && pf.leaves[i].keyIdx < |pf.keys| && level < DEPTH
  {
    !pf.keys[pf.leaves[i].keyIdx][level]
  }

  function RootWalk(pf: Proof): Option<Walked<HashedNode>> {
    Walk(pf, 0, |pf.leaves|, 0, Cursor(0, 0))
  }

  /** Pre-state root from the proof's own leaves. */
  function Root(pf: Proof): Option<Digest> {
    if RootWalk(pf).Some? then Some(RootWalk(pf).value.value.hash) else None
  }

  /** The two ids agree on their first `bits` bits. */
  predicate SharesPrefix(a: ResourceId, b: ResourceId, bits: nat) {
    bits <= DEPTH && a[..bits] == b[..bits]
  }

  /** Pre-state value hash of queried key `i`, if its claim stands. */
  function MemberValue(pf: Proof, i: nat): Option<Digest> {
    if i >= |pf.memberships| || i >= |pf.keys| then None
    else
      var leaf := pf.memberships[i].leaf;
      var leafKey := pf.LeafKey(leaf);
      if leafKey.None? then None
      else if pf.memberships[i].Present? then
        if leafKey.value == pf.keys[i] then Some(pf.leaves[leaf].value) else None
      else if leafKey.value != pf.keys[i] && SharesPrefix(pf.keys[i], leafKey.value, pf.leaves[leaf].depth) then
        Some(Zero)
      else None
  }

  // ---- Soundness for arbitrary proofs ----

  ghost predicate CountsUp(v: seq<nat>, start: nat, end: nat) {
    start <= end && |v| == end - start && forall i :: 0 <= i < |v| ==> v[i] == start + i
  }

  /** A walk that succeeds asks for every leaf of its range exactly once, in order. */
  lemma {:induction false} WalkVisitsEveryLeafOnce(pf: Proof, start: nat, end: nat, level: nat, cur: Cursor)
    requires start <= end <= |pf.leaves| && level <= DEPTH && Walk(pf, start, end, level, cur).Some?
    ensures CountsUp(Walk(pf, start, end, level, cur).value.visited, start, end)
    decreases DEPTH - level, 1
  {
    if TerminalAt(pf, start, end, level).Continue? {
      if pf.TopologyBit(cur.topo) {
        WalkBothVisitsEveryLeafOnce(pf, start, end, level, cur);
      } else {
        WalkVisitsEveryLeafOnce(pf, start, end, level + 1, Cursor(cur.sibling + 1, cur.topo + 1));
      }
    }
  }

  lemma {:induction false} WalkBothVisitsEveryLeafOnce(pf: Proof, start: nat, end: nat, level: nat, cur: Cursor)
    requires start < end <= |pf.leaves| && level < DEPTH && KeysInRange(pf, start, end)
    requires WalkBoth(pf, start, end, level, cur).Some?
    ensures CountsUp(WalkBoth(pf, start, end, level, cur).value.visited, start, end)
    decreases DEPTH - level, 0
  {
    var mid := start + SplitPoint(RangeKeys(pf, start, end), level);
    var next := cur.(topo := cur.topo + 1);
    WalkVisitsEveryLeafOnce(pf, start, mid, level + 1, next);
    WalkVisitsEveryLeafOnce(pf, mid, end, level + 1, Walk(pf, start, mid, level + 1, next).value.cursor);
  }

  /** Leaf `i` claims a live entry. */
  predicate Claims(pf: Proof, i: nat, k: ResourceId, v: Digest) {
    i < |pf.leaves| && v != Zero && pf.LeafKey(i) == Some(k) && pf.leaves[i].value == v
  }

  ghost predicate LiveCommits(node: HashedNode, k: ResourceId, v: Digest) {
    Commits(node.hash, k, v) && (node.kind == LEAF || node.kind == INTERNAL)
  }

  /** Whatever the siblings, the topology and the key placement: a successful walk commits
      every live leaf of its range, and is empty only if there is none. */
  lemma {:induction false} WalkCommitsItsLeaves(pf: Proof, start: nat, end: nat, level: nat, cur: Cursor,
                                                i: nat, k: ResourceId, v: Digest)
    requires start <= i < end <= |pf.leaves| && level <= DEPTH && Claims(pf, i, k, v)
    requires Walk(pf, start, end, level, cur).Some?
    ensures LiveCommits(Walk(pf, start, end, level, cur).value.value, k, v)
    decreases DEPTH - level, 1
  {
    if TerminalAt(pf, start, end, level).Continue? {
      if pf.TopologyBit(cur.topo) {
        WalkBothCommitsItsLeaves(pf, start, end, level, cur, i, k, v);
      } else {
        WalkCommitsItsLeaves(pf, start, end, level + 1, Cursor(cur.sibling + 1, cur.topo + 1), i, k, v);
      }
    }
  }

  lemma {:induction false} WalkBothCommitsItsLeaves(pf: Proof, start: nat, end: nat, level: nat, cur: Cursor,
                                                    i: nat, k: ResourceId, v: Digest)
    requires start <= i < end <= |pf.leaves| && level < DEPTH && Claims(pf, i, k, v)
    requires KeysInRange(pf, start, end) && WalkBoth(pf, start, end, level, cur).Some?
    ensures LiveCommits(WalkBoth(pf, start, end, level, cur).value.value, k, v)
    decreases DEPTH - level, 0
  {
    var mid := start + SplitPoint(RangeKeys(pf, start, end), level);
    var next := cur.(topo := cur.topo + 1);
    if i < mid {
      WalkCommitsItsLeaves(pf, start, mid, level + 1, next, i, k, v);
    } else {
      WalkCommitsItsLeaves(pf, mid, end, level + 1, Walk(pf, start, mid, level + 1, next).value.cursor, i, k, v);
    }
  }

  /** Inclusion soundness: a proof of any origin whose root is the canonical root of a map
      visits every leaf once and only claims entries of that map. */
  lemma InclusionIsSound(pf: Proof, m: StateMap, i: nat, k: ResourceId, v: Digest)
    requires Root(pf) == Some(CanonRoot(m)) && Claims(pf, i, k, v)
    ensures CountsUp(RootWalk(pf).value.visited, 0, |pf.leaves|)
    ensures k in m && m[k] == v
  {
    WalkVisitsEveryLeafOnce(pf, 0, |pf.leaves|, 0, Cursor(0, 0));
    WalkCommitsItsLeaves(pf, 0, |pf.leaves|, 0, Cursor(0, 0), i, k, v);
    CanonCommitsExactlyItsEntries(m, [], k, v);
  }
}
