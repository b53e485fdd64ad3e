/** Resource ids as 256-bit strings, tree positions as bit prefixes, and the
    sorted-slice splitting that every SMT recursion relies on. */
module SmtKeys {

  /** Number of levels in the tree. */
  const DEPTH: nat := 256

  /** A resource id, most significant bit first. */
  type ResourceId = k: seq<bool> | |k| == DEPTH witness seq(DEPTH, i => false)

  /** A tree position: the bits on the path from the root. */
  type Position = p: seq<bool> | |p| <= DEPTH witness []

  /** Bytewise order of ids, which is bitwise order most significant bit first. */
  predicate Less(a: ResourceId, b: ResourceId) {
    LessFrom(a, b, 0)
  }

  /** The order decided by the bits from `i` on. */
  predicate LessFrom(a: ResourceId, b: ResourceId, i: nat)
    requires i <= DEPTH
    decreases |a| - i
  {
    i < DEPTH && (if a[i] == b[i] then LessFrom(a, b, i + 1) else b[i])
  }

  /** `a` and `b` agree before bit `i`, where `a` has 0 and `b` has 1. */
  ghost predicate DivergesAt(a: ResourceId, b: ResourceId, i: int) {
    0 <= i < DEPTH && a[..i] == b[..i] && !a[i] && b[i]
  }

  ghost predicate Ascending(keys: seq<ResourceId>) {
    forall i, j :: 0 <= i < j < |keys| ==> Less(keys[i], keys[j])
  }

  /** Every key lies in the subtree at `p`. */
  ghost predicate AllUnder(keys: seq<ResourceId>, p: Position) {
    forall i :: 0 <= i < |keys| ==> p <= keys[i]
  }

  lemma {:induction false} LessFromDiverges(a: ResourceId, b: ResourceId, i: nat) returns (d: nat)
    requires i <= DEPTH && a[..i] == b[..i] && LessFrom(a, b, i)
    ensures DivergesAt(a, b, d)
    decreases DEPTH - i
  {
    if a[i] == b[i] {
      assert a[..i + 1] == a[..i] + [a[i]] && b[..i + 1] == b[..i] + [b[i]];
      d := LessFromDiverges(a, b, i + 1);
    } else {
      d := i;
    }
  }

  lemma {:induction false} DivergenceDecides(a: ResourceId, b: ResourceId, i: nat, d: nat)
    requires DivergesAt(a, b, d) && i <= d
    ensures LessFrom(a, b, i) && !LessFrom(b, a, i)
    decreases d - i
  {
    if i < d {
      assert a[..d][i] == b[..d][i];
      DivergenceDecides(a, b, i + 1, d);
    }
  }

  lemma LessIsStrict(a: ResourceId, b: ResourceId)
    requires Less(a, b)
    ensures a != b && !Less(b, a)
  {
    var d := LessFromDiverges(a, b, 0);
    DivergenceDecides(a, b, 0, d);
  }

  lemma LessIsTransitive(a: ResourceId, b: ResourceId, c: ResourceId)
    requires Less(a, b) && Less(b, c)
    ensures Less(a, c)
  {
    var i := LessFromDiverges(a, b, 0);
    var j := LessFromDiverges(b, c, 0);
    var n := if i < j then i else j;
    assert a[..n] == a[..i][..n] && b[..n] == b[..i][..n] == b[..j][..n] && c[..n] == c[..j][..n];
    if i < j {
      assert b[..j][i] == c[..j][i];
    } else if j < i {
      assert a[..i][j] == b[..i][j];
    }
    assert DivergesAt(a, c, n);
    DivergenceDecides(a, c, 0, n);
  }

  lemma LessIsTotal(a: ResourceId, b: ResourceId)
    ensures a == b || Less(a, b) || Less(b, a)
  {
    if a != b {
      var i := FirstDifference(a, b, 0);
      if b[i] {
        DivergenceDecides(a, b, 0, i);
      } else {
        DivergenceDecides(b, a, 0, i);
      }
    }
  }

  /** The first bit at or after `from` where two ids that agree before `from` differ. */
  function FirstDifference(a: ResourceId, b: ResourceId, from: nat): (i: nat)
    requires from <= DEPTH && a[..from] == b[..from] && a != b
    ensures i < DEPTH && a[..i] == b[..i] && a[i] != b[i]
    decreases DEPTH - from
  {
    assert a[..DEPTH] == a && b[..DEPTH] == b;
    if a[from] != b[from] then from
    else
      assert a[..from + 1] == a[..from] + [a[from]];
      assert b[..from + 1] == b[..from] + [b[from]];
      FirstDifference(a, b, from + 1)
  }

  /** Binary search for the first index whose flag is false, as a slice's `partition_point`.
      On an unpartitioned slice it still returns some index of the slice. */
  function PartitionPoint(flags: seq<bool>, lo: nat, hi: nat): (mid: nat)
    requires lo <= hi <= |flags|
    ensures lo <= mid <= hi
    decreases hi - lo
  {
    if lo == hi then lo
    else
      var mid := (lo + hi) / 2;
      if flags[mid] then PartitionPoint(flags, mid + 1, hi) else PartitionPoint(flags, lo, mid)
  }

  /** On a partitioned slice the result is the boundary. */
  lemma {:induction false} PartitionPointIsExact(flags: seq<bool>, lo: nat, hi: nat)
    requires lo <= hi <= |flags|
    requires forall i, j :: lo <= i < j < hi && flags[j] ==> flags[i]
    ensures forall i :: lo <= i < hi ==> (flags[i] <==> i < PartitionPoint(flags, lo, hi))
    decreases hi - lo
  {
    if lo < hi {
      var mid := (lo + hi) / 2;
      if flags[mid] {
        PartitionPointIsExact(flags, mid + 1, hi);
      } else {
        PartitionPointIsExact(flags, lo, mid);
      }
    }
  }

  /** Where `keys` switch from bit 0 to bit 1 at `level`. */
  function SplitPoint(keys: seq<ResourceId>, level: nat): (mid: nat)
    requires level < DEPTH
    ensures mid <= |keys|
  {
    PartitionPoint(seq(|keys|, i requires 0 <= i < |keys| => !keys[i][level]), 0, |keys|)
  }

  /** Among ids sharing a prefix, a smaller one never has the larger next bit. */
  lemma NextBitAscends(a: ResourceId, b: ResourceId, p: Position)
    requires Less(a, b) && p <= a && p <= b && |p| < DEPTH
    ensures a[|p|] ==> b[|p|]
  {
    var d := LessFromDiverges(a, b, 0);
    assert forall i :: 0 <= i < |p| ==> p[i] == a[i] && p[i] == b[i];
    assert |p| < d ==> a[..d][|p|] == a[|p|] && b[..d][|p|] == b[|p|];
  }

  /** Ascending ids under one position split monotonically on the next bit. */
  lemma SplitIsExact(keys: seq<ResourceId>, p: Position)
    requires Ascending(keys) && AllUnder(keys, p) && |p| < DEPTH
    ensures var mid := SplitPoint(keys, |p|);
            && Ascending(keys[..mid]) && AllUnder(keys[..mid], p + [false])
            && Ascending(keys[mid..]) && AllUnder(keys[mid..], p + [true])
  {
    var flags := seq(|keys|, i requires 0 <= i < |keys| => !keys[i][|p|]);
    forall i, j | 0 <= i < j < |keys| && flags[j] ensures flags[i] {
      NextBitAscends(keys[i], keys[j], p);
    }
    var mid := PartitionPoint(flags, 0, |keys|);
    PartitionPointIsExact(flags, 0, |keys|);
    forall i | 0 <= i < |keys| ensures p + [mid <= i] <= keys[i] {
      ChildOf(keys[i], p);
      assert flags[i] <==> i < mid;
    }
  }

  /** Below a position, an id continues with its next bit. */
  lemma ChildOf(k: ResourceId, p: Position)
    requires p <= k && |p| < DEPTH
    ensures p + [k[|p|]] <= k
  {
    assert k[..|p| + 1] == k[..|p|] + [k[|p|]];
  }

  /** Two distinct ids can only share a position above the last level. */
  lemma DistinctKeysAreAboveTheBottom(j: ResourceId, k: ResourceId, p: Position)
    requires p <= j && p <= k && j != k
    ensures |p| < DEPTH
  {
    assert j[..DEPTH] == j && k[..DEPTH] == k;
    assert p == j[..|p|] && p == k[..|p|];
  }
}
