/** The reference tree of the streaming Merkle builder: a full binary tree over the leaves
    followed by empty ones. Hashes are free terms. */
module MerkleTree {
  datatype Digest = Leaf(payload: seq<nat>) | Branch(left: Digest, right: Digest) | Empty

  function Pow2(n: nat): (r: nat)
    ensures r >= 1
  {
    if n == 0 then 1 else 2 * Pow2(n - 1)
  }

  /** The root of the full binary tree of depth `d` over `leaves`. */
  function Tree(leaves: seq<Digest>, d: nat): Digest
    requires |leaves| == Pow2(d)
    decreases d
  {
    if d == 0 then leaves[0]
    else Branch(Tree(leaves[..Pow2(d - 1)], d - 1), Tree(leaves[Pow2(d - 1)..], d - 1))
  }

  function Empties(n: nat): (s: seq<Digest>)
    ensures |s| == n
  {
    seq(n, _ => Empty)
  }

  /** The root of the tree of depth `d` over `leaves` and as many empty leaves as it takes. */
  function Padded(leaves: seq<Digest>, d: nat): Digest
    requires |leaves| <= Pow2(d)
  {
    Tree(leaves + Empties(Pow2(d) - |leaves|), d)
  }

  /** What is found `d` levels below a digest by taking the left child for the lower half of the
      indices and the right one for the upper half. */
  function LeafUnder(root: Digest, d: nat, i: nat): Digest {
    if d == 0 || !root.Branch? then root
    else if i < Pow2(d - 1) then LeafUnder(root.left, d - 1, i)
    else LeafUnder(root.right, d - 1, i - Pow2(d - 1))
  }

  lemma {:induction false} TreeLeadsToItsLeaves(leaves: seq<Digest>, d: nat, i: nat)
    requires |leaves| == Pow2(d) && i < |leaves|
    ensures LeafUnder(Tree(leaves, d), d, i) == leaves[i]
  {
    if d > 0 {
      var half := Pow2(d - 1);
      if i < half {
        TreeLeadsToItsLeaves(leaves[..half], d - 1, i);
      } else {
        TreeLeadsToItsLeaves(leaves[half..], d - 1, i - half);
      }
    }
  }

  /** The root leads, in index order from left to right, to the leaves and then to empty ones. */
  lemma RootLeadsToItsLeaves(leaves: seq<Digest>, d: nat, i: nat)
    requires |leaves| <= Pow2(d) && i < Pow2(d)
    ensures LeafUnder(Padded(leaves, d), d, i) == if i < |leaves| then leaves[i] else Empty
  {
    TreeLeadsToItsLeaves(leaves + Empties(Pow2(d) - |leaves|), d, i);
  }

  /** The root of an all-empty tree, as the recurrence of the empty-hash table gives it. */
  function EmptyAt(level: nat): Digest {
    if level == 0 then Empty else Branch(EmptyAt(level - 1), EmptyAt(level - 1))
  }

  lemma {:induction false} EmptyAtIsEmptyTree(level: nat)
    ensures EmptyAt(level) == Tree(Empties(Pow2(level)), level)
  {
    if level > 0 {
      EmptyAtIsEmptyTree(level - 1);
      var half := Pow2(level - 1);
      assert Empties(2 * half)[..half] == Empties(half) && Empties(2 * half)[half..] == Empties(half);
    }
  }

  lemma TreeOfHalves(a: seq<Digest>, b: seq<Digest>, d: nat)
    requires |a| == |b| == Pow2(d)
    ensures Tree(a + b, d + 1) == Branch(Tree(a, d), Tree(b, d))
  {
    assert (a + b)[..Pow2(d)] == a && (a + b)[Pow2(d)..] == b;
  }

  /** One level of padding. */
  lemma PaddedLifts(leaves: seq<Digest>, d: nat)
    requires |leaves| <= Pow2(d)
    ensures |leaves| <= Pow2(d + 1) && Padded(leaves, d + 1) == Branch(Padded(leaves, d), EmptyAt(d))
  {
    var full, half := leaves + Empties(Pow2(d) - |leaves|), Pow2(d);
    EmptyAtIsEmptyTree(d);
    TreeOfHalves(full, Empties(half), d);
    assert leaves + Empties(2 * half - |leaves|) == full + Empties(half);
  }

  /** A full left half in front of a padded right one. */
  lemma PaddedJoins(a: seq<Digest>, b: seq<Digest>, d: nat)
    requires |a| == Pow2(d) && |b| <= Pow2(d)
    ensures Padded(a + b, d + 1) == Branch(Tree(a, d), Padded(b, d))
  {
    hide Tree;
    var right, half := b + Empties(Pow2(d) - |b|), Pow2(d);
    TreeOfHalves(a, right, d);
    assert a + b + Empties(2 * half - |a + b|) == a + right;
  }

  lemma PaddedOfFull(a: seq<Digest>, d: nat)
    requires |a| == Pow2(d)
    ensures Padded(a, d) == Tree(a, d)
  {
    assert a + Empties(0) == a;
  }

  lemma {:induction false} Pow2Grows(a: nat, b: nat)
    requires a <= b
    ensures Pow2(a) <= Pow2(b) && (a < b ==> 2 * Pow2(a) <= Pow2(b))
    decreases b
  {
    if a < b {
      Pow2Grows(a, b - 1);
    }
  }

  // ---- Binary numbers ----

  function BitLength(n: nat): nat {
    if n == 0 then 0 else 1 + BitLength(n / 2)
  }

  /** The positions of the one-bits of `n * 2^base`, highest first. */
  function OneBits(n: nat, base: nat): seq<nat>
    decreases n
  {
    if n == 0 then []
    else OneBits(n / 2, base + 1) + if n % 2 == 1 then [base] else []
  }

  /** The depth of the smallest tree with room for two or more leaves. */
  lemma {:induction false} BitLengthIsLeastDepth(m: nat, d: nat)
    requires Pow2(d) <= 2 * m < 2 * Pow2(d)
    ensures BitLength(m) == d
    decreases m
  {
    if d > 1 {
      BitLengthIsLeastDepth(m / 2, d - 1);
    }
  }
}

/** The streaming Merkle builder: a stack of full subtrees, one per one-bit of the leaf count. */
module StreamingMerkle {
  import opened MerkleTree

  datatype Entry = Entry(level: nat, hash: Digest)

  /** The last entry is a full subtree over the end of `leaves`, smaller than the one before. */
  ghost predicate Ends(stack: seq<Entry>, leaves: seq<Digest>)
    requires stack != []
  {
    var n := |stack| - 1;
    && Pow2(stack[n].level) <= |leaves|
    && stack[n].hash == Tree(leaves[|leaves| - Pow2(stack[n].level)..], stack[n].level)
    && (n > 0 ==> stack[n - 1].level > stack[n].level)
  }

  /** The leaves in front of the last entry. */
  ghost function Front(stack: seq<Entry>, leaves: seq<Digest>): seq<Digest>
    requires stack != [] && Ends(stack, leaves)
  {
    leaves[..|leaves| - Pow2(stack[|stack| - 1].level)]
  }

  /** The entries are full subtrees that tile `leaves` from left to right, ever smaller. */
  ghost predicate Tiles(stack: seq<Entry>, leaves: seq<Digest>)
    decreases |stack|
  {
    if stack == [] then leaves == []
    else Ends(stack, leaves) && Tiles(stack[..|stack| - 1], Front(stack, leaves))
  }

  ghost function Levels(stack: seq<Entry>): (ls: seq<nat>)
    ensures |ls| == |stack|
  {
    seq(|stack|, i requires 0 <= i < |stack| => stack[i].level)
  }

  /** What a list of levels adds up to, in units of `2^base`. */
  function Value(levels: seq<nat>, base: nat): nat
    requires forall i :: 0 <= i < |levels| ==> levels[i] >= base
  {
    if levels == [] then 0
    else Value(levels[..|levels| - 1], base) + Pow2(levels[|levels| - 1] - base)
  }

  ghost predicate Descending(levels: seq<nat>) {
    forall i, j :: 0 <= i < j < |levels| ==> levels[i] > levels[j]
  }

  lemma {:induction false} ValueDoubles(levels: seq<nat>, base: nat)
    requires forall i :: 0 <= i < |levels| ==> levels[i] > base
    ensures Value(levels, base) == 2 * Value(levels, base + 1)
  {
    if levels != [] {
      ValueDoubles(levels[..|levels| - 1], base);
    }
  }

  /** A descending list of levels is the binary representation of its value. */
  lemma {:induction false} DescendingIsBinary(levels: seq<nat>, base: nat)
    requires Descending(levels) && forall i :: 0 <= i < |levels| ==> levels[i] >= base
    ensures levels == OneBits(Value(levels, base), base)
    decreases if levels == [] then 0 else levels[0] + 1 - base
  {
    hide Value;
    hide OneBits;
    if levels == [] {
      NoBits(base);
    } else if levels[|levels| - 1] == base {
      var init := levels[..|levels| - 1];
      DescendingIsBinary(init, base + 1);
      OddValue(levels, base);
    } else {
      DescendingIsBinary(levels, base + 1);
      EvenValue(levels, base);
    }
  }

  lemma NoBits(base: nat)
    ensures [] == OneBits(Value([], base), base)
  {
  }

  lemma OddValue(levels: seq<nat>, base: nat)
    requires levels != [] && levels[|levels| - 1] == base && (forall i :: 0 <= i < |levels| ==> levels[i] >= base)
    requires forall i :: 0 <= i < |levels| - 1 ==> levels[i] > base
    ensures var init := levels[..|levels| - 1];
            OneBits(Value(levels, base), base) == OneBits(Value(init, base + 1), base + 1) + [base]
  {
    var init := levels[..|levels| - 1];
    ValueDoubles(init, base);
    var half := Value(init, base + 1);
    assert Value(levels, base) == 2 * half + 1;
    assert (2 * half + 1) / 2 == half && (2 * half + 1) % 2 == 1;
  }

  lemma EvenValue(levels: seq<nat>, base: nat)
    requires levels != [] && forall i :: 0 <= i < |levels| ==> levels[i] > base
    ensures OneBits(Value(levels, base), base) == OneBits(Value(levels, base + 1), base + 1)
  {
    ValueDoubles(levels, base);
    var half := Value(levels, base + 1);
    assert half > 0;
    assert (2 * half) / 2 == half && (2 * half) % 2 == 0;
  }

  lemma {:induction false} TilesAddUp(stack: seq<Entry>, leaves: seq<Digest>)
    requires Tiles(stack, leaves)
    ensures Descending(Levels(stack)) && Value(Levels(stack), 0) == |leaves|
    decreases |stack|
  {
    if stack != [] {
      var n := |stack| - 1;
      TilesAddUp(stack[..n], leaves[..|leaves| - Pow2(stack[n].level)]);
      assert Levels(stack)[..n] == Levels(stack[..n]);
      forall i, j | 0 <= i < j < |stack| ensures stack[i].level > stack[j].level {
        var init := Levels(stack[..n]);
        assert i < n && init[i] == stack[i].level && init[n - 1] == stack[n - 1].level;
        assert j < n ==> init[j] == stack[j].level;
      }
    }
  }

  /** The stack is the leaf count in binary. */
  lemma StackIsBinaryCount(stack: seq<Entry>, leaves: seq<Digest>)
    requires Tiles(stack, leaves)
    ensures Levels(stack) == OneBits(|leaves|, 0)
  {
    TilesAddUp(stack, leaves);
    DescendingIsBinary(Levels(stack), 0);
  }

  /** The largest subtree bounds the height of the stack. */
  lemma {:induction false} StackHeight(stack: seq<Entry>, leaves: seq<Digest>)
    requires Tiles(stack, leaves) && stack != []
    ensures |stack| + stack[|stack| - 1].level <= stack[0].level + 1 && Pow2(stack[0].level) <= |leaves|
    ensures |stack| > 1 ==> Pow2(stack[0].level) + Pow2(stack[|stack| - 1].level) <= |leaves|
    decreases |stack|
  {
    var n := |stack| - 1;
    if n > 0 {
      StackHeight(stack[..n], leaves[..|leaves| - Pow2(stack[n].level)]);
    }
  }

  /** There is room for one more entry above the remaining ones. */
  lemma RoomForOne(stack: seq<Entry>, leaves: seq<Digest>, level: nat, maxDepth: nat)
    requires Tiles(stack, leaves) && (stack != [] ==> stack[|stack| - 1].level > level)
    requires |leaves| < Pow2(maxDepth) && maxDepth >= 1
    ensures |stack| < maxDepth
  {
    if stack != [] {
      StackHeight(stack, leaves);
      if stack[0].level >= maxDepth {
        Pow2Grows(maxDepth, stack[0].level);
      }
    }
  }

  /** Two neighbouring subtrees of one level become one of the next. */
  lemma Merges(stack: seq<Entry>, leaves: seq<Digest>, tail: seq<Digest>, level: nat)
    requires Tiles(stack, leaves) && stack != [] && stack[|stack| - 1].level == level && |tail| == Pow2(level)
    ensures var n := |stack| - 1; var cut := |leaves| - Pow2(level);
            && 0 <= cut && Tiles(stack[..n], leaves[..cut]) && (n > 0 ==> stack[n - 1].level > level)
            && |leaves[cut..] + tail| == Pow2(level + 1)
            && Tree(leaves[cut..] + tail, level + 1) == Branch(stack[n].hash, Tree(tail, level))
            && leaves[..cut] + (leaves[cut..] + tail) == leaves + tail
  {
    var cut := |leaves| - Pow2(level);
    TreeOfHalves(leaves[cut..], tail, level);
  }

  lemma Pushes(stack: seq<Entry>, leaves: seq<Digest>, tail: seq<Digest>, level: nat)
    requires Tiles(stack, leaves) && |tail| == Pow2(level) && (stack != [] ==> stack[|stack| - 1].level > level)
    ensures Tiles(stack + [Entry(level, Tree(tail, level))], leaves + tail)
  {
    var next, all := stack + [Entry(level, Tree(tail, level))], leaves + tail;
    assert next[..|stack|] == stack && all[..|leaves|] == leaves && all[|leaves|..] == tail;
  }

  ghost predicate EmptyTable(table: seq<Digest>) {
    forall l :: 0 <= l < |table| ==> table[l] == Tree(Empties(Pow2(l)), l)
  }

  /** `depth` is the least depth with room for `n` leaves. */
  ghost predicate LeastDepth(n: nat, depth: nat) {
    0 < n <= Pow2(depth) && (depth > 0 ==> Pow2(depth - 1) < n)
  }

  class StreamingBuilder {
    const maxDepth: nat
    const stack: array<Entry>
    var stackLen: nat
    var leafCount: nat
    ghost var leaves: seq<Digest>

    ghost predicate Valid()
      reads this, stack
    {
      && stack.Length == maxDepth && stackLen <= maxDepth && leafCount == |leaves|
      && Tiles(stack[..stackLen], leaves)
    }

    constructor (maxDepth: nat)
      ensures Valid() && this.maxDepth == maxDepth && leaves == [] && fresh(stack)
    {
      this.maxDepth := maxDepth;
      stack := new Entry[maxDepth](_ => Entry(0, Empty));
      stackLen, leafCount, leaves := 0, 0, [];
    }

    /** `ceil(log2(count))`, at least 1 and at most the depth the builder is sized for. */
    function RequiredDepth(count: nat): (d: nat)
      ensures count <= 1 ==> d == 1
    {
      if count <= 1 then 1
      else if BitLength(count - 1) <= maxDepth then BitLength(count - 1) else maxDepth
    }

    /** The empty-subtree hashes by the recurrence, as far as the builder needs them. */
    method ComputeEmptyHashes() returns (table: array<Digest>)
      ensures fresh(table) && table.Length == maxDepth
      ensures EmptyTable(table[..])
    {
      hide *;
      table := new Digest[maxDepth];
      TableOfEmptyHashes(table[..]);
      if maxDepth == 0 {
        return;
      }
      table[0] := Empty;
      EmptyAtStep(0);
      for level := 1 to maxDepth
        invariant forall l :: 0 <= l < level ==> table[l] == EmptyAt(l)
      {
        var prev := table[level - 1];
        EmptyAtStep(level);
        table[level] := Branch(prev, prev);
      }
      TableOfEmptyHashes(table[..]);
    }

    /** Appends a leaf. The stack never overflows while the tree has room. */
    method AddLeafHash(hash: Digest)
      requires Valid() && maxDepth >= 1 && leafCount < Pow2(maxDepth) && leafCount < 0xFFFF_FFFF
      modifies this, stack
      ensures Valid() && leaves == old(leaves) + [hash] && leafCount == old(leafCount) + 1
      ensures Levels(stack[..stackLen]) == OneBits(leafCount, 0)
    {
      hide Tiles;
      hide Tree;
      hide Pow2;
      hide Levels;
      hide OneBits;
      var level, current, before, tail := MergeRight(hash);
      RoomForOne(stack[..stackLen], before, level, maxDepth);
      Pushes(stack[..stackLen], before, tail, level);
      ghost var rest := stack[..stackLen];
      stack[stackLen] := Entry(level, current);
      stackLen := stackLen + 1;
      assert stack[..stackLen] == rest + [Entry(level, current)];
      leafCount := leafCount + 1;
      leaves := leaves + [hash];
      StackIsBinaryCount(stack[..stackLen], leaves);
    }

    /** Takes the subtrees off the stack that a new leaf completes to larger ones. */
    method MergeRight(hash: Digest)
      returns (level: nat, current: Digest, ghost before: seq<Digest>, ghost tail: seq<Digest>)
      requires Valid()
      modifies this`stackLen
      ensures stackLen <= old(stackLen) && Tiles(stack[..stackLen], before) && before + tail == leaves + [hash]
      ensures |tail| == Pow2(level) && current == Tree(tail, level) && |tail| >= 1
      ensures stackLen > 0 ==> stack[stackLen - 1].level > level
    {
      hide Tiles;
      hide Tree;
      hide Pow2;
      FirstTail(hash);
      level, current, before, tail := 0, hash, leaves, [hash];
      while stackLen > 0
        invariant stackLen <= old(stackLen) && Tiles(stack[..stackLen], before) && before + tail == leaves + [hash]
        invariant |tail| == Pow2(level) && current == Tree(tail, level)
        invariant stackLen > 0 ==> stack[stackLen - 1].level >= level
        decreases stackLen
      {
        var top := stack[stackLen - 1];
        if top.level != level {
          break;
        }
        Merges(stack[..stackLen], before, tail, level);
        assert stack[..stackLen][..stackLen - 1] == stack[..stackLen - 1];
        stackLen := stackLen - 1;
        current := Branch(top.hash, current);
        ghost var cut := |before| - Pow2(level);
        before, tail := before[..cut], before[cut..] + tail;
        level := level + 1;
      }
    }

    /** Lifts a padded subtree through empty siblings up to `target`. */
    method Lift(hash: Digest, level: nat, target: nat, table: array<Digest>, ghost part: seq<Digest>)
      returns (lifted: Digest)
      requires level <= target <= table.Length && |part| <= Pow2(level) && hash == Padded(part, level)
      requires EmptyTable(table[..])
      ensures |part| <= Pow2(target) && lifted == Padded(part, target)
    {
      hide *;
      lifted := hash;
      var l := level;
      while l < target
        invariant level <= l <= target && |part| <= Pow2(l) && lifted == Padded(part, l)
      {
        PaddedLifts(part, l);
        TableEntry(table[..], l);
        lifted := Branch(lifted, table[l]);
        l := l + 1;
      }
    }

    /** The root: of the padded tree at the required depth, unless there are no leaves. */
    method Finalize(table: array<Digest>) returns (root: Digest)
      requires Valid() && maxDepth >= 1 && leafCount <= Pow2(maxDepth) && table.Length == maxDepth
      requires EmptyTable(table[..])
      ensures |leaves| <= Pow2(RequiredDepth(leafCount))
      ensures root == Padded(leaves, RequiredDepth(leafCount)) <==> leafCount > 0
      ensures leafCount == 0 ==> root == Empty
    {
      hide Tiles;
      hide Tree;
      hide Pow2;
      hide Padded;
      hide EmptyTable;
      hide BitLength;
      hide LeastDepth;
      FirstEmpty(table[..]);
      if leafCount == 0 {
        return table[0];
      }
      if leafCount == 1 {
        SingleLeaf(stack[..stackLen], leaves);
        return Branch(stack[0].hash, table[0]);
      }
      var depth;
      root, depth := Combine(table);
      DepthOf(leafCount, depth, maxDepth);
    }

    /** Combines the stack entries right to left. */
    method Combine(table: array<Digest>) returns (root: Digest, depth: nat)
      requires Valid() && maxDepth >= 1 && 1 < leafCount <= Pow2(maxDepth) && table.Length == maxDepth
      requires EmptyTable(table[..])
      ensures LeastDepth(leafCount, depth) && root == Padded(leaves, depth)
    {
      hide Tiles;
      hide Tree;
      hide Pow2;
      hide Padded;
      hide Levels;
      hide OneBits;
      hide EmptyTable;
      TilesLast(stack[..stackLen], leaves);
      var i := stackLen - 1;
      root, depth := stack[i].hash, stack[i].level;
      ghost var cut := |leaves| - Pow2(depth);
      FullDepth(depth);
      PaddedOfFull(leaves[cut..], depth);
      assert stack[..stackLen][..i] == stack[..i];
      LevelFits(stack[..stackLen], leaves, maxDepth);
      while i > 0
        invariant 0 <= i < stackLen && 0 <= cut <= |leaves|
        invariant Tiles(stack[..i], leaves[..cut])
        invariant LeastDepth(|leaves| - cut, depth) && root == Padded(leaves[cut..], depth)
        invariant i > 0 ==> depth <= stack[i - 1].level < maxDepth
      {
        var next := stack[i - 1];
        assert stack[..i][i - 1] == next && stack[..i][..i - 1] == stack[..i - 1];
        TilesLast(stack[..i], leaves[..cut]);
        root := Lift(root, depth, next.level, table, leaves[cut..]);
        ghost var start := cut - Pow2(next.level);
        DepthGrows(|leaves| - cut, depth, next.level);
        PaddedJoins(leaves[start..cut], leaves[cut..], next.level);
        assert leaves[..cut][start..] == leaves[start..cut] && leaves[..cut][..start] == leaves[..start];
        assert leaves[start..cut] + leaves[cut..] == leaves[start..];
        root, depth := Branch(next.hash, root), next.level + 1;
        i, cut := i - 1, start;
      }
      TilesNothing(leaves[..cut]);
      assert stack[..0] == [];
      assert leaves[0..] == leaves;
    }
  }

  lemma TilesLast(stack: seq<Entry>, leaves: seq<Digest>)
    requires Tiles(stack, leaves) && (stack != [] || leaves != [])
    ensures |stack| > 0 && Ends(stack, leaves) && Tiles(stack[..|stack| - 1], Front(stack, leaves))
  {
    hide Ends;
    hide Front;
  }

  lemma TilesNothing(leaves: seq<Digest>)
    ensures Tiles([], leaves) ==> leaves == []
  {
  }

  lemma FullDepth(depth: nat)
    ensures LeastDepth(Pow2(depth), depth)
  {
  }

  lemma DepthGrows(n: nat, depth: nat, level: nat)
    requires LeastDepth(n, depth) && depth <= level
    ensures LeastDepth(n + Pow2(level), level + 1) && n <= Pow2(level)
  {
    Pow2Grows(depth, level);
  }

  lemma FirstEmpty(table: seq<Digest>)
    requires EmptyTable(table) && table != []
    ensures table[0] == Empty && Pow2(1) == 2 && Padded([], 1) != Empty
  {
    assert Empties(1)[0] == Empty;
  }

  lemma TableOfEmptyHashes(table: seq<Digest>)
    ensures (forall l :: 0 <= l < |table| ==> table[l] == EmptyAt(l)) ==> EmptyTable(table)
  {
    hide Tree;
    hide Pow2;
    hide EmptyAt;
    forall l | 0 <= l < |table| ensures EmptyAt(l) == Tree(Empties(Pow2(l)), l) {
      EmptyAtIsEmptyTree(l);
    }
  }

  lemma TableEntry(table: seq<Digest>, l: nat)
    requires EmptyTable(table) && l < |table|
    ensures table[l] == EmptyAt(l)
  {
    EmptyAtIsEmptyTree(l);
  }

  lemma EmptyAtStep(l: nat)
    ensures EmptyAt(l) == if l == 0 then Empty else Branch(EmptyAt(l - 1), EmptyAt(l - 1))
  {
  }

  lemma FirstTail(hash: Digest)
    ensures |[hash]| == Pow2(0) && hash == Tree([hash], 0)
  {
  }

  lemma LevelFits(stack: seq<Entry>, leaves: seq<Digest>, maxDepth: nat)
    requires Tiles(stack, leaves) && |leaves| <= Pow2(maxDepth)
    ensures |stack| > 1 ==> forall i :: 0 <= i < |stack| ==> stack[i].level < maxDepth
  {
    if |stack| > 1 {
      StackHeight(stack, leaves);
      TilesAddUp(stack, leaves);
      if stack[0].level >= maxDepth {
        Pow2Grows(maxDepth, stack[0].level);
      }
      forall i | 0 <= i < |stack| ensures stack[i].level < maxDepth {
        assert Levels(stack)[i] <= Levels(stack)[0];
      }
    }
  }

  lemma SingleLeaf(stack: seq<Entry>, leaves: seq<Digest>)
    requires Tiles(stack, leaves) && |leaves| == 1
    ensures |stack| == 1 && Branch(stack[0].hash, Empty) == Padded(leaves, 1)
  {
    var n := |stack| - 1;
    Pow2Grows(0, stack[n].level);
    assert leaves[0..] == leaves;
    if n > 0 {
      StackHeight(stack, leaves);
    }
    PaddedLifts(leaves, 0);
    PaddedOfFull(leaves, 0);
  }

  /** The least depth is the one the builder reports. */
  lemma DepthOf(n: nat, depth: nat, maxDepth: nat)
    requires LeastDepth(n, depth) && 1 < n <= Pow2(maxDepth)
    ensures BitLength(n - 1) == depth <= maxDepth && n <= Pow2(depth)
  {
    BitLengthIsLeastDepth(n - 1, depth);
    if depth > maxDepth {
      Pow2Grows(maxDepth, depth - 1);
    }
  }
}
