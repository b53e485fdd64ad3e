/** Ideal hashing, kinded summaries with shortcut promotion, and the canonical
    shortcut tree of a state map. */
module SmtTree {
  import opened SmtKeys

  /** Discriminant byte of a summary. Wire-supplied summaries may carry any byte. */
  type Kind = k: int | 0 <= k < 256

  const EMPTY: Kind := 0
  const LEAF: Kind := 1
  const INTERNAL: Kind := 2

  /** Domain-separated hashing as a free term algebra; `Zero` is the empty hash. */
  datatype Digest =
    | Zero
    | DataDigest(content: seq<int>)
    | LeafDigest(key: ResourceId, value: Digest)
    | NodeDigest(leftKind: Kind, rightKind: Kind, left: Digest, right: Digest)

  datatype HashedNode = HashedNode(kind: Kind, hash: Digest)

  const EMPTY_NODE: HashedNode := HashedNode(EMPTY, Zero)

  function LeafSummary(key: ResourceId, value: Digest): HashedNode {
    if value == Zero then EMPTY_NODE else HashedNode(LEAF, LeafDigest(key, value))
  }

  /** Parent summary committing both child kinds; two empty children compress. */
  function InternalSummary(left: HashedNode, right: HashedNode): HashedNode {
    if left.kind == EMPTY && right.kind == EMPTY then EMPTY_NODE
    else HashedNode(INTERNAL, NodeDigest(left.kind, right.kind, left.hash, right.hash))
  }

  /** Parent summary with shortcut promotion: a leaf beside an empty subtree moves up. */
  function Combine(left: HashedNode, right: HashedNode): HashedNode {
    if left.kind == LEAF && right.kind == EMPTY then left
    else if left.kind == EMPTY && right.kind == LEAF then right
    else InternalSummary(left, right)
  }

  /** Live entries of the state: no key maps to the empty hash. */
  type StateMap = m: map<ResourceId, Digest> | forall k :: k in m ==> m[k] != Zero

  /** The canonical shortcut tree. */
  datatype Tree = Nil | Tip(key: ResourceId, value: Digest) | Fork(left: Tree, right: Tree)

  function Summary(t: Tree): HashedNode {
    match t
    case Nil => EMPTY_NODE
    case Tip(k, v) => LeafSummary(k, v)
    case Fork(l, r) => InternalSummary(Summary(l), Summary(r))
  }

  ghost predicate Vacant(m: StateMap, p: Position) {
    forall k :: k in m ==> !(p <= k)
  }

  /** At least two live keys share the prefix `p`. */
  ghost predicate Many(m: StateMap, p: Position) {
    exists j, k :: j in m && k in m && j != k && p <= j && p <= k
  }

  /** The canonical tree of the entries of `m` below `p`. */
  ghost function Canon(m: StateMap, p: Position): Tree
    decreases DEPTH - |p|, m
  {
    if Vacant(m, p) then Nil
    else if Many(m, p) then
      assert |p| < DEPTH by {
        var j, k :| j in m && k in m && j != k && p <= j && p <= k;
        DistinctKeysAreAboveTheBottom(j, k, p);
      }
      Fork(Canon(m, p + [false]), Canon(m, p + [true]))
    else
      var k :| k in m && p <= k;
      Tip(k, m[k])
  }

  ghost function CanonRoot(m: StateMap): Digest {
    Summary(Canon(m, [])).hash
  }

  /** The two maps have the same entries below `p`. */
  ghost predicate AgreeUnder(m: StateMap, n: StateMap, p: Position) {
    forall k: ResourceId :: p <= k ==> (k in m <==> k in n) && (k in m ==> m[k] == n[k])
  }

  lemma ManyIsAboveTheBottom(m: StateMap, p: Position)
    requires Many(m, p)
    ensures |p| < DEPTH
  {
    var j, k :| j in m && k in m && j != k && p <= j && p <= k;
    DistinctKeysAreAboveTheBottom(j, k, p);
  }

  lemma {:induction false} CanonIsLocal(m: StateMap, n: StateMap, p: Position)
    requires AgreeUnder(m, n, p)
    ensures Canon(m, p) == Canon(n, p)
    decreases DEPTH - |p|
  {
    assert Many(m, p) <==> Many(n, p);
    if Many(m, p) {
      ManyIsAboveTheBottom(m, p);
      forall b: bool ensures Canon(m, p + [b]) == Canon(n, p + [b]) {
        CanonIsLocal(m, n, p + [b]);
      }
      assert !Vacant(m, p) && !Vacant(n, p);
    }
  }

  /** A key below a child is below its parent. */
  lemma BelowParent(p: Position, b: bool, k: ResourceId)
    requires |p| < DEPTH && p + [b] <= k
    ensures p <= k && k[|p|] == b
  {
    assert p == (p + [b])[..|p|];
  }

  /** Emptiness of a position is emptiness of both its children. */
  lemma VacantChildren(m: StateMap, p: Position)
    requires |p| < DEPTH
    ensures Vacant(m, p) <==> Vacant(m, p + [false]) && Vacant(m, p + [true])
  {
    forall k | k in m ensures p <= k <==> p + [false] <= k || p + [true] <= k {
      UnderSomeChild(p, k);
    }
  }

  /** A fork never has a lone leaf beside an empty child, and never two empty ones. */
  lemma ForkChildren(m: StateMap, p: Position)
    requires Many(m, p) && |p| < DEPTH
    ensures var l, r := Canon(m, p + [false]), Canon(m, p + [true]);
            !(l.Nil? && r.Nil?) && !(l.Nil? && r.Tip?) && !(l.Tip? && r.Nil?)
    ensures Canon(m, p) == Fork(Canon(m, p + [false]), Canon(m, p + [true]))
  {
    var j, k :| j in m && k in m && j != k && p <= j && p <= k;
    ChildOf(j, p);
    ChildOf(k, p);
    assert !Vacant(m, p + [j[|p|]]) && !Vacant(m, p + [k[|p|]]);
    if j[|p|] == k[|p|] {
      assert Many(m, p + [j[|p|]]);
    }
  }

  /** A lone entry is the shortcut leaf of its position and of the child it falls under. */
  lemma LoneEntry(m: StateMap, p: Position, k: ResourceId)
    requires |p| < DEPTH && !Many(m, p) && k in m && p <= k
    ensures Canon(m, p) == Tip(k, m[k])
    ensures Canon(m, p + [k[|p|]]) == Tip(k, m[k])
    ensures Canon(m, p + [!k[|p|]]) == Nil
  {
    ChildOf(k, p);
    forall j: ResourceId, b: bool | p + [b] <= j ensures p <= j && j[|p|] == b {
      BelowParent(p, b, j);
    }
    assert !Vacant(m, p) && !Vacant(m, p + [k[|p|]]);
    assert !Many(m, p + [k[|p|]]);
    assert Vacant(m, p + [!k[|p|]]);
  }

  /** Promotion algebra: combining the children's canonical summaries gives the
      parent's, whatever the number of entries below it; at a fork no promotion happens. */
  lemma CombineIsCanonical(m: StateMap, p: Position)
    requires |p| < DEPTH
    ensures Summary(Canon(m, p)) ==
            Combine(Summary(Canon(m, p + [false])), Summary(Canon(m, p + [true])))
    ensures Many(m, p) ==>
              Summary(Canon(m, p)) ==
              InternalSummary(Summary(Canon(m, p + [false])), Summary(Canon(m, p + [true])))
  {
    if Many(m, p) {
      ForkChildren(m, p);
      KindOfCanon(m, p + [false]);
      KindOfCanon(m, p + [true]);
    } else if Vacant(m, p) {
      VacantChildren(m, p);
    } else {
      var k :| k in m && p <= k;
      LoneEntry(m, p, k);
    }
  }

  /** The kind of a canonical summary tells the shape of the tree below. */
  lemma KindOfCanon(m: StateMap, p: Position)
    ensures var t := Canon(m, p);
            Summary(t).kind == (if t.Nil? then EMPTY else if t.Tip? then LEAF else INTERNAL)
  {
    if Many(m, p) {
      ManyIsAboveTheBottom(m, p);
      ForkChildren(m, p);
      KindOfCanonChild(m, p + [false]);
      KindOfCanonChild(m, p + [true]);
    }
  }

  lemma {:induction false} KindOfCanonChild(m: StateMap, p: Position)
    ensures Summary(Canon(m, p)).kind == EMPTY ==> Canon(m, p).Nil?
    decreases DEPTH - |p|
  {
    if Many(m, p) {
      ManyIsAboveTheBottom(m, p);
      ForkChildren(m, p);
      KindOfCanonChild(m, p + [false]);
      KindOfCanonChild(m, p + [true]);
    }
  }

  /** The entry `(k, v)` is committed by `d` through node digests. */
  predicate Commits(d: Digest, k: ResourceId, v: Digest) {
    match d
    case LeafDigest(key, value) => key == k && value == v
    case NodeDigest(_, _, l, r) => Commits(l, k, v) || Commits(r, k, v)
    case _ => false
  }

  /** A canonical hash commits exactly the entries below its position. */
  lemma {:induction false} CanonCommitsExactlyItsEntries(m: StateMap, p: Position, k: ResourceId, v: Digest)
    ensures Commits(Summary(Canon(m, p)).hash, k, v) <==> p <= k && k in m && m[k] == v
    decreases DEPTH - |p|
  {
    if Many(m, p) {
      ManyIsAboveTheBottom(m, p);
      ForkChildren(m, p);
      KindOfCanon(m, p + [false]);
      KindOfCanon(m, p + [true]);
      CanonCommitsExactlyItsEntries(m, p + [false], k, v);
      CanonCommitsExactlyItsEntries(m, p + [true], k, v);
      var l, r := Summary(Canon(m, p + [false])), Summary(Canon(m, p + [true]));
      assert Summary(Canon(m, p)).hash == NodeDigest(l.kind, r.kind, l.hash, r.hash);
      UnderSomeChild(p, k);
    } else if !Vacant(m, p) {
      var j :| j in m && p <= j;
      assert Canon(m, p) == Tip(j, m[j]);
    }
  }

  lemma UnderSomeChild(p: Position, k: ResourceId)
    requires |p| < DEPTH
    ensures p <= k <==> p + [false] <= k || p + [true] <= k
  {
    forall b: bool | p + [b] <= k ensures p <= k {
      BelowParent(p, b, k);
    }
    if p <= k {
      ChildOf(k, p);
      assert p + [k[|p|]] == if k[|p|] then p + [true] else p + [false];
    }
  }

  // ---- Which way the bits lead ----

  /** The digest found under `d` by taking the left child on bit 0 and the right one on bit 1. */
  function DigestAt(d: Digest, path: Position): (e: Digest)
    decreases |path|
  {
    if path == [] || !d.NodeDigest? then d
    else DigestAt(if path[0] then d.right else d.left, path[1..])
  }

  /** Whether none, one or several live keys lie below `p`. */
  ghost function KindBelow(m: StateMap, p: Position): Kind {
    if Vacant(m, p) then EMPTY else if Many(m, p) then INTERNAL else LEAF
  }

  /** The canonical digest of a position, said without the tree: nothing, the one entry, or a
      node that tells how many keys lie below either child. */
  ghost predicate StandsFor(d: Digest, m: StateMap, p: Position) {
    && (Vacant(m, p) ==> d == Zero)
    && (forall k :: k in m && p <= k && !Many(m, p) ==> d == LeafDigest(k, m[k]))
    && (Many(m, p) ==> |p| < DEPTH && d.NodeDigest? && d.leftKind == KindBelow(m, p + [false])
                       && d.rightKind == KindBelow(m, p + [true]))
  }

  lemma SummaryStandsFor(m: StateMap, p: Position)
    ensures StandsFor(Summary(Canon(m, p)).hash, m, p)
    ensures Many(m, p) ==>
              |p| < DEPTH && forall b: bool ::
                (if b then Summary(Canon(m, p)).hash.right else Summary(Canon(m, p)).hash.left)
                == Summary(Canon(m, p + [b])).hash
  {
    if Many(m, p) {
      ManyIsAboveTheBottom(m, p);
      ForkChildren(m, p);
      KindOfCanon(m, p + [false]);
      KindOfCanon(m, p + [true]);
    }
  }

  /** Below `p` the bits of `path` lead from canonical digest to canonical digest. */
  lemma {:induction false} PathFollowsTheBits(m: StateMap, p: Position, path: Position)
    requires |p + path| <= DEPTH
    requires forall n :: 0 <= n < |path| ==> Many(m, p + path[..n])
    ensures DigestAt(Summary(Canon(m, p)).hash, path) == Summary(Canon(m, p + path)).hash
    decreases |path|
  {
    hide Summary;
    hide Canon;
    hide Many;
    hide KindBelow;
    hide Vacant;
    if path == [] {
      assert p + path == p;
    } else {
      assert p + path[..0] == p;
      SummaryStandsFor(m, p);
      var next, rest := p + [path[0]], path[1..];
      forall n | 0 <= n < |rest| ensures Many(m, next + rest[..n]) {
        assert path[..n + 1] == [path[0]] + rest[..n];
        assert next + rest[..n] == p + path[..n + 1];
      }
      PathFollowsTheBits(m, next, rest);
      assert path == [path[0]] + rest;
      assert next + rest == p + path;
    }
  }

  /** At every position all of whose ancestors hold several keys, the root has, in the direction
      of the position's bits, what stands for the position. */
  lemma RootFollowsTheBits(m: StateMap, p: Position)
    requires forall n :: 0 <= n < |p| ==> Many(m, p[..n])
    ensures StandsFor(DigestAt(CanonRoot(m), p), m, p)
  {
    forall n | 0 <= n < |p| ensures Many(m, [] + p[..n]) {
      assert [] + p[..n] == p[..n];
    }
    assert [] + p == p;
    PathFollowsTheBits(m, [], p);
    SummaryStandsFor(m, p);
  }

  /** The bits of a key lead to its entry exactly if the map has it. */
  lemma {:induction false} KeyLeadsToItsEntry(m: StateMap, p: Position, k: ResourceId, v: Digest)
    requires p <= k
    ensures DigestAt(Summary(Canon(m, p)).hash, k[|p|..]) == LeafDigest(k, v) <==> k in m && m[k] == v
    decreases DEPTH - |p|
  {
    SummaryStandsFor(m, p);
    if Many(m, p) {
      ChildOf(k, p);
      var next := p + [k[|p|]];
      KeyLeadsToItsEntry(m, next, k, v);
      assert k[|p|..][1..] == k[|next|..];
    } else if !Vacant(m, p) {
      var j :| j in m && p <= j;
      assert Summary(Canon(m, p)).hash == LeafDigest(j, m[j]);
    }
  }

  lemma RootLeadsToEveryEntry(m: StateMap, k: ResourceId, v: Digest)
    ensures DigestAt(CanonRoot(m), k) == LeafDigest(k, v) <==> k in m && m[k] == v
  {
    KeyLeadsToItsEntry(m, [], k, v);
    assert k[0..] == k;
  }

  /** The root determines the map. */
  lemma CanonRootIsInjective(m: StateMap, n: StateMap)
    requires CanonRoot(m) == CanonRoot(n)
    ensures m == n
  {
    forall k | k in m ensures k in n && n[k] == m[k] {
      CanonCommitsExactlyItsEntries(m, [], k, m[k]);
      CanonCommitsExactlyItsEntries(n, [], k, m[k]);
    }
    forall k | k in n ensures k in m {
      CanonCommitsExactlyItsEntries(m, [], k, n[k]);
      CanonCommitsExactlyItsEntries(n, [], k, n[k]);
    }
  }

  /** Only the empty map has the empty root. */
  lemma EmptyRootMeansEmptyMap(m: StateMap)
    ensures CanonRoot(m) == Zero <==> m == map[]
  {
    assert Canon(map[], []) == Nil;
    if CanonRoot(m) == Zero {
      CanonRootIsInjective(m, map[]);
    }
  }
}
