/** The canonical-chain oracle. Reference-counted buckets and rings are cells of a store, so
    sharing between snapshots is explicit: a snapshot names cells, and an in-place write to
    a cell is seen by every snapshot that names it. */
module CanonicalChain {
  import opened Numbers
  import opened Options
  import opened AtomicRing

  /** Ids a bucket holds, one bit each. */
  const CAPACITY := 128

  function BucketOf(id: nat): nat
    requires id > 0
  {
    (id - 1) / CAPACITY
  }

  function BitOf(id: nat): nat
    requires id > 0
  {
    (id - 1) % CAPACITY
  }

  /** The id of a bit of a bucket. */
  function IdAt(bucket: nat, bit: nat): nat {
    bucket * CAPACITY + bit + 1
  }

  lemma LocateIsExact(id: nat)
    requires id > 0
    ensures BitOf(id) < CAPACITY && IdAt(BucketOf(id), BitOf(id)) == id
  {
  }

  lemma IdIsLocated(bucket: nat, bit: nat)
    requires bit < CAPACITY
    ensures BucketOf(IdAt(bucket, bit)) == bucket && BitOf(IdAt(bucket, bit)) == bit
  {
  }

  lemma BucketsAscend(a: nat, b: nat)
    requires 0 < a <= b
    ensures BucketOf(a) <= BucketOf(b)
  {
  }

  type Bits = set<nat>

  /** All bucket and ring cells ever allocated. */
  datatype Store = Store(buckets: seq<Bits>, rings: seq<Ring<nat>>)

  /** The two copy-on-write buckets on top. */
  datatype HotZone = HotZone(tailBucket: nat, tail: nat, lastSealed: nat)

  datatype Snapshot = Snapshot(tip: nat, hot: HotZone, body: nat)

  /** The cell of bucket `b` as a snapshot sees it; none when it was pruned away. */
  function CellOf(st: Store, s: Snapshot, b: nat): Option<nat>
    requires s.body < |st.rings|
  {
    if b == s.hot.tailBucket then Some(s.hot.tail)
    else if s.hot.tailBucket >= 1 && b == s.hot.tailBucket - 1 then Some(s.hot.lastSealed)
    else st.rings[s.body].Get(b)
  }

  predicate RefsKnown(st: Store, s: Snapshot) {
    && s.hot.tail < |st.buckets| && s.hot.lastSealed < |st.buckets| && s.body < |st.rings|
    && forall k :: 0 <= k < |st.rings[s.body].contents| ==> st.rings[s.body].contents[k] < |st.buckets|
  }

  /** What bucket `b` holds as a snapshot sees it; none when it was pruned away. */
  function BitsOf(st: Store, s: Snapshot, b: nat): Option<Bits>
    requires RefsKnown(st, s)
  {
    var cell := CellOf(st, s, b);
    if cell.None? then None else Some(st.buckets[cell.value])
  }

  /** What the body ring holds for bucket `b`, whatever lies above it. */
  function RingBits(st: Store, s: Snapshot, b: nat): Option<Bits>
    requires RefsKnown(st, s)
  {
    var cell := st.rings[s.body].Get(b);
    if cell.None? then None else Some(st.buckets[cell.value])
  }

  /** The stored bit of `id`; an absent bucket reads as canonical. */
  predicate BitSet(st: Store, s: Snapshot, id: nat)
    requires RefsKnown(st, s) && id > 0
  {
    var bits := BitsOf(st, s, BucketOf(id));
    bits.None? || BitOf(id) in bits.value
  }

  /** Whether `id` is canonical in the snapshot. */
  predicate IsCanonical(st: Store, s: Snapshot, id: nat)
    requires RefsKnown(st, s)
  {
    id != 0 && id <= s.tip && BitSet(st, s, id)
  }

  /** The ids the snapshot answers for. */
  function Answered(st: Store, s: Snapshot): set<nat>
    requires RefsKnown(st, s)
  {
    set id | 0 < id <= s.tip && IsCanonical(st, s, id)
  }

  // ---- What the store guarantees ----

  /** A snapshot and the plain set of canonical ids when it was published. */
  datatype Published = Published(snap: Snapshot, canonical: set<nat>)

  /** The snapshot's buckets are all reachable, and ids up to its tip are in them. */
  ghost predicate WellFormed(st: Store, s: Snapshot) {
    && RefsKnown(st, s)
    && (s.tip > 0 ==> BucketOf(s.tip) <= s.hot.tailBucket)
    && s.hot.tailBucket <= st.rings[s.body].Tip() + 1
  }

  /** Nothing at or above the floor has been pruned. */
  ghost predicate FloorKept(st: Store, floor: nat) {
    floor > 0 && forall r :: 0 <= r < |st.rings| ==> st.rings[r].base * CAPACITY < floor
  }

  /** From the floor up, the snapshot answers as the plain set. */
  ghost predicate Answers(st: Store, p: Published, floor: nat) {
    && WellFormed(st, p.snap)
    && (forall id :: id in p.canonical ==> 0 < id <= p.snap.tip)
    && forall id: nat :: id >= floor ==> (IsCanonical(st, p.snap, id) <==> id in p.canonical)
  }

  /** From the floor up to `last`, the stored bits are those of the set. */
  ghost predicate Stands(st: Store, s: Snapshot, canonical: set<nat>, floor: nat, last: nat)
    requires RefsKnown(st, s)
  {
    forall id: nat :: floor <= id <= last && id > 0 ==> (BitSet(st, s, id) <==> id in canonical)
  }

  /** The last id of the tail bucket. */
  function Top(s: Snapshot): nat {
    (s.hot.tailBucket + 1) * CAPACITY
  }

  /** The body ring ends below the hot zone, or right below the tail; in the second case
      nothing of the bucket both hold is canonical or set. */
  ghost predicate RingMeetsTail(st: Store, s: Snapshot, canonical: set<nat>, floor: nat)
    requires RefsKnown(st, s)
  {
    var tip := st.rings[s.body].Tip();
    && tip <= s.hot.tailBucket
    && (tip == s.hot.tailBucket ==> forall id: nat :: id >= floor && id > 0 && BucketOf(id) + 1 == tip ==>
          && id !in canonical
          && RingBits(st, s, BucketOf(id)).Some? && BitOf(id) !in RingBits(st, s, BucketOf(id)).value)
  }

  /** The writer's snapshot stores exactly the plain set, also above its tip: bits of
      rolled-back ids are cleared, so the next append can raise the tip over them. And the
      ring takes over the hot buckets where the next append leaves them. */
  ghost predicate Exact(st: Store, s: Snapshot, canonical: set<nat>, floor: nat) {
    && WellFormed(st, s)
    && (forall id :: id in canonical ==> 0 < id <= s.tip)
    && Stands(st, s, canonical, floor, Top(s))
    && RingMeetsTail(st, s, canonical, floor)
  }

  /** Nobody but the writer can observe a bit set in the tail above the tip. */
  ghost predicate TailIsOwn(s: Snapshot, p: Snapshot) {
    && p.hot.lastSealed != s.hot.tail
    && (p.hot.tail == s.hot.tail ==>
          && p.hot.tailBucket == s.hot.tailBucket
          && (p.tip <= s.tip || p.tip <= s.hot.tailBucket * CAPACITY))
  }

  ghost predicate TailIsFree(st: Store, s: Snapshot) {
    forall r, k :: 0 <= r < |st.rings| && 0 <= k < |st.rings[r].contents| ==> st.rings[r].contents[k] != s.hot.tail
  }

  ghost predicate RingsKnown(st: Store) {
    forall r, k :: 0 <= r < |st.rings| && 0 <= k < |st.rings[r].contents| ==> st.rings[r].contents[k] < |st.buckets|
  }

  /** The writer's snapshot, with a tail no ring or other bucket of it shares. */
  ghost predicate Owned(st: Store, s: Snapshot) {
    RingsKnown(st) && WellFormed(st, s) && TailIsFree(st, s) && s.hot.lastSealed != s.hot.tail
  }

  /** The writer works on `s` while readers hold `published`. */
  ghost predicate Working(st: Store, published: seq<Published>, floor: nat, s: Snapshot) {
    && Owned(st, s) && FloorKept(st, floor)
    && (forall i :: 0 <= i < |published| ==> Answers(st, published[i], floor))
    && (forall i :: 0 <= i < |published| ==> TailIsOwn(s, published[i].snap))
  }

  ghost predicate Consistent(st: Store, published: seq<Published>, floor: nat) {
    published != [] && Working(st, published, floor, published[|published| - 1].snap)
  }

  /** Bucket cells are only added, and ring `r` is only extended. */
  ghost predicate Grows(a: Store, b: Store, r: nat) {
    && a.buckets <= b.buckets && r < |a.rings| <= |b.rings|
    && a.rings[r].base == b.rings[r].base && a.rings[r].contents <= b.rings[r].contents
  }

  lemma FloorIsInBody(st: Store, r: nat, id: nat, floor: nat)
    requires FloorKept(st, floor) && r < |st.rings| && id >= floor
    ensures BucketOf(id) >= st.rings[r].base
  {
    LocateIsExact(id);
  }

  /** An id within the buckets of the snapshot. */
  lemma TopIsInTail(s: Snapshot, id: nat)
    requires id > 0
    ensures id <= Top(s) <==> BucketOf(id) <= s.hot.tailBucket
  {
    LocateIsExact(id);
  }

  /** Extending the store changes no answer of an existing snapshot. */
  lemma ExtensionKeepsAnswers(a: Store, b: Store, p: Published, floor: nat)
    requires Grows(a, b, p.snap.body) && Answers(a, p, floor)
    requires RingsKnown(b)
    ensures Answers(b, p, floor)
  {
    var s := p.snap;
    forall id: nat | 0 < id <= s.tip ensures BitSet(a, s, id) == BitSet(b, s, id) {
      BucketsAscend(id, s.tip);
    }
  }

  // ---- Moving the hot zone ----

  /** What the hot zone holds for bucket `b`; nothing beyond it. */
  function HotBits(st: Store, hot: HotZone, b: nat): Bits
    requires hot.tail < |st.buckets| && hot.lastSealed < |st.buckets|
  {
    if b == hot.tailBucket then st.buckets[hot.tail]
    else if hot.tailBucket >= 1 && b == hot.tailBucket - 1 then st.buckets[hot.lastSealed]
    else {}
  }

  /** Ring `body` of `b` continues that of `a` with the hot zone's buckets. */
  ghost predicate Sealed(a: Store, b: Store, hot: HotZone, body: nat) {
    && hot.tail < |a.buckets| && hot.lastSealed < |a.buckets| && body < |a.rings|
    && Grows(a, b, body) && RingsKnown(b) && |b.rings| == |a.rings|
    && (forall r :: 0 <= r < |a.rings| && r != body ==> b.rings[r] == a.rings[r])
    && forall i: nat :: a.rings[body].Tip() <= i < b.rings[body].Tip() ==>
         b.buckets[b.rings[body].contents[i - b.rings[body].base]] == HotBits(a, hot, i)
  }

  /** The hot zone has moved up to `target`: a fresh empty tail over the old buckets. */
  ghost predicate Rolled(a: Store, b: Store, hot: HotZone, next: HotZone, body: nat, target: nat) {
    && Sealed(a, b, hot, body) && hot.tailBucket < target == next.tailBucket
    && b.rings[body].Tip() == Max(a.rings[body].Tip(), target - 1)
    && |a.buckets| <= next.tail < |b.buckets| && b.buckets[next.tail] == {}
    && next.lastSealed < |b.buckets| && next.lastSealed != next.tail
    && b.buckets[next.lastSealed] == HotBits(a, hot, target - 1)
    && forall r, k :: 0 <= r < |b.rings| && 0 <= k < |b.rings[r].contents| ==> b.rings[r].contents[k] != next.tail
  }

  /** Moved down, the hot zone is two fresh buckets. */
  ghost predicate Moved(a: Store, b: Store, hot: HotZone, next: HotZone, body: nat, target: nat) {
    if target == hot.tailBucket then b == a && next == hot
    else if target > hot.tailBucket then Rolled(a, b, hot, next, body, target)
    else
      && b == a.(buckets := a.buckets + [{}, {}])
      && next == HotZone(target, |a.buckets| + 1, |a.buckets|)
  }

  lemma MovedIsOwned(a: Store, b: Store, s: Snapshot, next: HotZone, target: nat)
    requires Owned(a, s) && Moved(a, b, s.hot, next, s.body, target)
    requires s.tip > 0 ==> BucketOf(s.tip) <= target
    ensures Owned(b, s.(hot := next))
    ensures forall r :: 0 <= r < |a.rings| ==> Grows(a, b, r)
  {
    hide BucketOf;
  }

  lemma MovedIsWorking(a: Store, b: Store, published: seq<Published>, floor: nat, s: Snapshot, next: HotZone,
                       target: nat)
    requires Working(a, published, floor, s) && Moved(a, b, s.hot, next, s.body, target)
    requires s.tip > 0 ==> BucketOf(s.tip) <= target
    ensures Working(b, published, floor, s.(hot := next))
  {
    MovedIsOwned(a, b, s, next, target);
    MovedKeepsFloor(a, b, s, next, target, floor);
    forall i | 0 <= i < |published|
      ensures Answers(b, published[i], floor) && TailIsOwn(s.(hot := next), published[i].snap)
    {
      assert Answers(a, published[i], floor) && TailIsOwn(s, published[i].snap);
      MovedKeepsHeld(a, b, s, next, target, floor, published[i]);
    }
  }

  lemma MovedKeepsFloor(a: Store, b: Store, s: Snapshot, next: HotZone, target: nat, floor: nat)
    requires FloorKept(a, floor) && Moved(a, b, s.hot, next, s.body, target)
    ensures FloorKept(b, floor)
  {
  }

  lemma MovedKeepsHeld(a: Store, b: Store, s: Snapshot, next: HotZone, target: nat, floor: nat, p: Published)
    requires Owned(a, s) && Moved(a, b, s.hot, next, s.body, target)
    requires Owned(b, s.(hot := next)) && Grows(a, b, p.snap.body)
    requires Answers(a, p, floor) && TailIsOwn(s, p.snap)
    ensures Answers(b, p, floor) && TailIsOwn(s.(hot := next), p.snap)
  {
    ExtensionKeepsAnswers(a, b, p, floor);
    hide Answers;
    AnswersAreKnown(a, p, floor);
  }

  /** What bucket `b` holds once the hot zone has moved to `target`: what the ring already
      has stays, what is sealed or kept hot comes from the old hot zone. */
  ghost function MovedBits(st: Store, s: Snapshot, target: nat, b: nat): Option<Bits>
    requires RefsKnown(st, s)
  {
    if target == s.hot.tailBucket then BitsOf(st, s, b)
    else if b == target then Some({})
    else if b + 1 == target || b >= st.rings[s.body].Tip() then Some(HotBits(st, s.hot, b))
    else RingBits(st, s, b)
  }

  lemma MoveGivesBits(a: Store, m: Store, s: Snapshot, next: HotZone, target: nat, b: nat)
    requires Owned(a, s) && Moved(a, m, s.hot, next, s.body, target) && b <= target
    requires RefsKnown(m, s.(hot := next))
    ensures BitsOf(m, s.(hot := next), b) == MovedBits(a, s, target, b)
    ensures b < a.rings[s.body].Tip() ==> RingBits(m, s.(hot := next), b) == RingBits(a, s, b)
  {
    var was, now := a.rings[s.body], m.rings[s.body];
    if target > s.hot.tailBucket && was.Tip() <= b < now.Tip() {
      assert m.buckets[now.contents[b - now.base]] == HotBits(a, s.hot, b);
    }
  }

  // ---- Setting a bit in the tail ----

  function WithBit(st: Store, cell: nat, bit: nat): Store
    requires cell < |st.buckets|
  {
    st.(buckets := st.buckets[cell := st.buckets[cell] + {bit}])
  }

  /** Other snapshots cannot see the bit. */
  lemma AppendKeepsAnswers(st: Store, s: Snapshot, floor: nat, id: nat, p: Published)
    requires Owned(st, s) && id > s.tip && BucketOf(id) == s.hot.tailBucket
    requires Answers(st, p, floor) && TailIsOwn(s, p.snap)
    ensures Answers(WithBit(st, s.hot.tail, BitOf(id)), p, floor)
  {
    var next := WithBit(st, s.hot.tail, BitOf(id));
    forall i: nat | 0 < i <= p.snap.tip ensures BitSet(next, p.snap, i) == BitSet(st, p.snap, i) {
      LocateIsExact(id);
      LocateIsExact(i);
    }
  }

  lemma AppendIsWorking(st: Store, published: seq<Published>, floor: nat, s: Snapshot, id: nat)
    requires Working(st, published, floor, s) && id > s.tip && BucketOf(id) == s.hot.tailBucket
    ensures Working(WithBit(st, s.hot.tail, BitOf(id)), published, floor, s.(tip := id))
  {
    var next := WithBit(st, s.hot.tail, BitOf(id));
    assert Owned(next, s.(tip := id)) && FloorKept(next, floor);
    hide WithBit;
    hide Answers;
    hide Owned;
    hide FloorKept;
    forall i | 0 <= i < |published|
      ensures Answers(next, published[i], floor) && TailIsOwn(s.(tip := id), published[i].snap)
    {
      assert Answers(st, published[i], floor) && TailIsOwn(s, published[i].snap);
      AppendKeepsAnswers(st, s, floor, id, published[i]);
    }
  }

  // ---- What an append does to the answers ----

  /** The buckets of the new snapshot after `id` was appended to the old one. */
  ghost predicate Appends(a: Store, s: Snapshot, b: Store, t: Snapshot, id: nat) {
    && id > 0 && RefsKnown(a, s) && RefsKnown(b, t)
    && t.tip == id && t.hot.tailBucket == BucketOf(id)
    && b.rings[t.body].base == a.rings[s.body].base
    && b.rings[t.body].Tip() == Max(a.rings[s.body].Tip(), if BucketOf(id) == 0 then 0 else BucketOf(id) - 1)
    && (forall c: nat :: c < BucketOf(id) ==> BitsOf(b, t, c) == MovedBits(a, s, BucketOf(id), c))
    && MovedBits(a, s, BucketOf(id), BucketOf(id)).Some?
    && BitsOf(b, t, BucketOf(id)) == Some(MovedBits(a, s, BucketOf(id), BucketOf(id)).value + {BitOf(id)})
    && forall c: nat :: c < a.rings[s.body].Tip() ==> RingBits(b, t, c) == RingBits(a, s, c)
  }

  lemma MoveThenSetAppends(a: Store, m: Store, s: Snapshot, next: HotZone, id: nat)
    requires Owned(a, s) && id > 0 && Moved(a, m, s.hot, next, s.body, BucketOf(id)) && Owned(m, s.(hot := next))
    ensures Appends(a, s, WithBit(m, next.tail, BitOf(id)), Snapshot(id, next, s.body), id)
  {
    var target := BucketOf(id);
    var mid, b, t := s.(hot := next), WithBit(m, next.tail, BitOf(id)), Snapshot(id, next, s.body);
    assert RefsKnown(b, t) && RefsKnown(a, s) && RefsKnown(m, mid);
    RingTipMoves(a, m, s, next, target);
    forall c: nat
      ensures c < target ==> BitsOf(b, t, c) == MovedBits(a, s, target, c)
      ensures c < a.rings[s.body].Tip() ==> RingBits(b, t, c) == RingBits(a, s, c)
    {
      BitIsOnlyInTail(m, mid, id, c);
      if c <= target {
        MoveGivesBits(a, m, s, next, target, c);
      } else {
        RingStays(a, m, s, next, target, c);
      }
    }
    BitIsOnlyInTail(m, mid, id, target);
    MoveGivesBits(a, m, s, next, target, target);
  }

  lemma RingTipMoves(a: Store, m: Store, s: Snapshot, next: HotZone, target: nat)
    requires Owned(a, s) && Moved(a, m, s.hot, next, s.body, target)
    ensures m.rings[s.body].base == a.rings[s.body].base && next.tailBucket == target
    ensures m.rings[s.body].Tip() == Max(a.rings[s.body].Tip(), if target == 0 then 0 else target - 1)
  {
  }

  lemma RingStays(a: Store, m: Store, s: Snapshot, next: HotZone, target: nat, c: nat)
    requires Owned(a, s) && Moved(a, m, s.hot, next, s.body, target) && RefsKnown(m, s.(hot := next))
    ensures c < a.rings[s.body].Tip() ==> RingBits(m, s.(hot := next), c) == RingBits(a, s, c)
  {
  }

  lemma BitIsOnlyInTail(m: Store, s: Snapshot, id: nat, c: nat)
    requires Owned(m, s) && id > 0 && BucketOf(id) == s.hot.tailBucket
    ensures var b, t := WithBit(m, s.hot.tail, BitOf(id)), s.(tip := id);
            && RefsKnown(b, t) && RingBits(b, t, c) == RingBits(m, s, c)
            && (c != s.hot.tailBucket ==> BitsOf(b, t, c) == BitsOf(m, s, c))
            && (c == s.hot.tailBucket ==>
                  BitsOf(m, s, c).Some? && BitsOf(b, t, c) == Some(BitsOf(m, s, c).value + {BitOf(id)}))
  {
  }

  /** The append of `id` fits: in or above the tail bucket; or in the bucket below it, if the
      ring ends there and neither that bucket nor the one before holds a canonical id. */
  ghost predicate Fits(st: Store, s: Snapshot, canonical: set<nat>, floor: nat, id: nat)
    requires id > 0 && s.body < |st.rings|
  {
    || BucketOf(id) >= s.hot.tailBucket
    || (&& st.rings[s.body].Tip() <= BucketOf(id)
        && forall x :: x in canonical && x >= floor && x > 0 ==> BucketOf(x) + 1 < BucketOf(id))
  }

  /** The chain goes on as the plain set with `id` exactly if the append fits. */
  lemma GoesOnExactlyWhen(a: Store, s: Snapshot, b: Store, t: Snapshot, canonical: set<nat>, floor: nat, id: nat)
    requires FloorKept(a, floor) && Exact(a, s, canonical, floor) && id > s.tip && Appends(a, s, b, t, id)
    ensures Exact(b, t, canonical + {id}, floor) <==> Fits(a, s, canonical, floor, id)
  {
    hide Stands;
    hide RingMeetsTail;
    hide Appends;
    if Fits(a, s, canonical, floor, id) {
      FittingIsExact(a, s, b, t, canonical, floor, id);
    }
    if Exact(b, t, canonical + {id}, floor) {
      ExactFits(a, s, b, t, canonical, floor, id);
    }
  }

  lemma FittingIsExact(a: Store, s: Snapshot, b: Store, t: Snapshot, canonical: set<nat>, floor: nat, id: nat)
    requires FloorKept(a, floor) && Exact(a, s, canonical, floor) && id > s.tip && Appends(a, s, b, t, id)
    requires Fits(a, s, canonical, floor, id)
    ensures Exact(b, t, canonical + {id}, floor)
  {
    forall x: nat | floor <= x <= Top(t) && x > 0 ensures BitSet(b, t, x) <==> x in canonical + {id} {
      TopIsInTail(t, x);
      FittingBit(a, s, b, t, canonical, floor, id, x);
    }
    FittingRing(a, s, b, t, canonical, floor, id);
  }

  lemma FittingBit(a: Store, s: Snapshot, b: Store, t: Snapshot, canonical: set<nat>, floor: nat, id: nat, x: nat)
    requires FloorKept(a, floor) && Exact(a, s, canonical, floor) && id > s.tip && Appends(a, s, b, t, id)
    requires Fits(a, s, canonical, floor, id) && x >= floor && x > 0 && BucketOf(x) <= BucketOf(id)
    ensures BitSet(b, t, x) <==> x in canonical + {id}
  {
    var c, target := BucketOf(x), BucketOf(id);
    LocateIsExact(x);
    LocateIsExact(id);
    TopIsInTail(s, x);
    FloorIsInBody(a, s.body, x, floor);
    if x in canonical {
      BucketsAscend(x, s.tip);
    }
    if c <= s.hot.tailBucket {
      assert BitSet(a, s, x) <==> x in canonical;
    }
  }

  lemma FittingRing(a: Store, s: Snapshot, b: Store, t: Snapshot, canonical: set<nat>, floor: nat, id: nat)
    requires FloorKept(a, floor) && Exact(a, s, canonical, floor) && id > s.tip && Appends(a, s, b, t, id)
    requires Fits(a, s, canonical, floor, id)
    ensures RingMeetsTail(b, t, canonical + {id}, floor)
  {
    var target := BucketOf(id);
    if b.rings[t.body].Tip() == target {
      forall x: nat | x >= floor && x > 0 && BucketOf(x) + 1 == target
        ensures && x !in canonical + {id}
                && RingBits(b, t, BucketOf(x)).Some? && BitOf(x) !in RingBits(b, t, BucketOf(x)).value
      {
        TopIsInTail(s, x);
        FloorIsInBody(a, s.body, x, floor);
        assert RingBits(b, t, BucketOf(x)) == RingBits(a, s, BucketOf(x));
        assert BitSet(a, s, x) <==> x in canonical;
      }
    }
  }

  lemma ExactFits(a: Store, s: Snapshot, b: Store, t: Snapshot, canonical: set<nat>, floor: nat, id: nat)
    requires Exact(a, s, canonical, floor) && id > s.tip && Appends(a, s, b, t, id)
    requires Exact(b, t, canonical + {id}, floor)
    ensures Fits(a, s, canonical, floor, id)
  {
    var target := BucketOf(id);
    if target < s.hot.tailBucket {
      forall x | x in canonical && x >= floor && x > 0 ensures BucketOf(x) + 1 < target {
        LocateIsExact(x);
        LocateIsExact(id);
        BucketsAscend(x, id);
        TopIsInTail(t, x);
        assert BitSet(b, t, x);
      }
    }
  }

  // ---- Ids below the tail bucket ----

  /** What is left with `id` on top of a hot zone moved back to its bucket. */
  ghost function WithReturning(canonical: set<nat>, id: nat): set<nat>
    requires id > 0
  {
    {id} + set x | x in canonical && x > 0 && BucketOf(x) + 1 < BucketOf(id)
  }

  /** In the snapshot itself the set is kept exactly if no canonical id shares the bucket of
      `id` or the one before; for the appends to come see `GoesOnExactlyWhen`. */
  lemma ReturningKeepsTheSetExactlyWhen(canonical: set<nat>, id: nat, floor: nat)
    requires id > 0 && floor > 0 && forall x :: x in canonical ==> 0 < x < id
    ensures (forall x: nat :: x >= floor ==> (x in WithReturning(canonical, id) <==> x in canonical + {id}))
        <==> forall x :: x in canonical && x >= floor ==> BucketOf(x) + 1 < BucketOf(id)
  {
    if forall x: nat :: x >= floor ==> (x in WithReturning(canonical, id) <==> x in canonical + {id}) {
      forall x | x in canonical && x >= floor ensures BucketOf(x) + 1 < BucketOf(id) {
        assert x in WithReturning(canonical, id) <==> x in canonical + {id};
      }
    }
  }

  /** The answers of the snapshot an append below the tail bucket publishes. */
  lemma ReturnedAnswers(a: Store, s: Snapshot, b: Store, t: Snapshot, canonical: set<nat>, floor: nat, id: nat)
    requires FloorKept(a, floor) && Exact(a, s, canonical, floor) && id > s.tip && Appends(a, s, b, t, id)
    requires BucketOf(id) < s.hot.tailBucket
    ensures forall x: nat :: x >= floor ==> (IsCanonical(b, t, x) <==> x in WithReturning(canonical, id))
  {
    forall x: nat | x >= floor ensures IsCanonical(b, t, x) <==> x in WithReturning(canonical, id) {
      ReturnedBit(a, s, b, t, canonical, floor, id, x);
    }
  }

  lemma ReturnedBit(a: Store, s: Snapshot, b: Store, t: Snapshot, canonical: set<nat>, floor: nat, id: nat, x: nat)
    requires FloorKept(a, floor) && Exact(a, s, canonical, floor) && id > s.tip && Appends(a, s, b, t, id)
    requires BucketOf(id) < s.hot.tailBucket && x >= floor
    ensures IsCanonical(b, t, x) <==> x in WithReturning(canonical, id)
  {
    var c, target := BucketOf(x), BucketOf(id);
    LocateIsExact(x);
    LocateIsExact(id);
    TopIsInTail(s, x);
    FloorIsInBody(a, s.body, x, floor);
    if c <= target {
      assert BitSet(a, s, x) <==> x in canonical;
    }
  }

  /** A returned id the ring already passed is lost to the first append two buckets on: its
      bucket is then read from the ring, which never got it. */
  lemma PassedIdIsLost(a: Store, s: Snapshot, b: Store, t: Snapshot, c: Store, u: Snapshot,
                       canonical: set<nat>, floor: nat, id: nat, later: nat)
    requires FloorKept(a, floor) && Exact(a, s, canonical, floor) && id > s.tip && id >= floor
    requires BucketOf(id) < s.hot.tailBucket && BucketOf(id) < a.rings[s.body].Tip()
    requires Appends(a, s, b, t, id) && Appends(b, t, c, u, later) && BucketOf(id) + 2 <= BucketOf(later)
    ensures IsCanonical(b, t, id) && !IsCanonical(c, u, id)
  {
    var bucket := BucketOf(id);
    LocateIsExact(id);
    PassedIdIsNotInTheRing(a, s, canonical, floor, id);
    assert RingBits(b, t, bucket) == RingBits(a, s, bucket);
    assert BitsOf(c, u, bucket) == MovedBits(b, t, BucketOf(later), bucket) == RingBits(b, t, bucket);
  }

  lemma PassedIdIsNotInTheRing(a: Store, s: Snapshot, canonical: set<nat>, floor: nat, id: nat)
    requires FloorKept(a, floor) && Exact(a, s, canonical, floor) && id > s.tip && id >= floor
    requires BucketOf(id) < s.hot.tailBucket && BucketOf(id) < a.rings[s.body].Tip()
    ensures RingBits(a, s, BucketOf(id)).Some? && BitOf(id) !in RingBits(a, s, BucketOf(id)).value
  {
    FloorIsInBody(a, s.body, id, floor);
    TopIsInTail(s, id);
    assert BitSet(a, s, id) <==> id in canonical;
  }

  lemma AnswersAreKnown(st: Store, p: Published, floor: nat)
    requires Answers(st, p, floor)
    ensures RefsKnown(st, p.snap)
  {
  }

  // ---- Clearing the bits of one bucket ----

  /** Bucket `b` of the snapshot rewritten without `cleared`, in a fresh cell. */
  function Edited(st: Store, s: Snapshot, b: nat, cleared: Bits): (Store, Snapshot)
    requires RefsKnown(st, s)
  {
    var cell := CellOf(st, s, b);
    if cell.None? then (st, s)
    else
      var copy := |st.buckets|;
      var next := st.(buckets := st.buckets + [st.buckets[cell.value] - cleared]);
      if b == s.hot.tailBucket then (next, s.(hot := s.hot.(tail := copy)))
      else if s.hot.tailBucket >= 1 && b == s.hot.tailBucket - 1 then (next, s.(hot := s.hot.(lastSealed := copy)))
      else (next.(rings := next.rings[s.body := next.rings[s.body].Replace(b, copy)]), s)
  }

  /** The set without the ids of `b` whose bits are cleared. */
  function Without(canonical: set<nat>, b: nat, cleared: Bits): set<nat>
    requires forall id :: id in canonical ==> id > 0
  {
    set id | id in canonical && !(BucketOf(id) == b && BitOf(id) in cleared)
  }

  lemma EditedKeepsShape(st: Store, s: Snapshot, floor: nat, b: nat, cleared: Bits)
    requires Owned(st, s) && FloorKept(st, floor)
    ensures var (next, t) := Edited(st, s, b, cleared);
            && Owned(next, t) && FloorKept(next, floor)
            && next.rings[t.body].Tip() == st.rings[s.body].Tip()
            && t.tip == s.tip && t.body == s.body && t.hot.tailBucket == s.hot.tailBucket
  {
    hide BucketOf;
  }

  lemma EditedBit(st: Store, s: Snapshot, floor: nat, b: nat, cleared: Bits, id: nat)
    requires Owned(st, s) && FloorKept(st, floor)
    requires id >= floor && id > 0 && BucketOf(id) <= s.hot.tailBucket
    requires var (next, t) := Edited(st, s, b, cleared); RefsKnown(next, t)
    ensures var (next, t) := Edited(st, s, b, cleared);
            BitSet(next, t, id) <==> BitSet(st, s, id) && !(BucketOf(id) == b && BitOf(id) in cleared)
  {
    FloorIsInBody(st, s.body, id, floor);
    var (next, t) := Edited(st, s, b, cleared);
    var was, now := CellOf(st, s, BucketOf(id)), CellOf(next, t, BucketOf(id));
    assert was.Some?;
    if BucketOf(id) == b {
      assert next.buckets[now.value] == st.buckets[was.value] - cleared;
    } else {
      assert now == was && next.buckets[now.value] == st.buckets[was.value];
    }
  }

  /** Clearing bits takes their ids out of the set the snapshot stands for. */
  lemma EditedStands(st: Store, s: Snapshot, canonical: set<nat>, floor: nat, last: nat, b: nat, cleared: Bits)
    requires Owned(st, s) && FloorKept(st, floor) && last <= Top(s)
    requires Stands(st, s, canonical, floor, last) && forall id :: id in canonical ==> id > 0
    ensures var (next, t) := Edited(st, s, b, cleared);
            RefsKnown(next, t) && Stands(next, t, Without(canonical, b, cleared), floor, last)
  {
    var (next, t) := Edited(st, s, b, cleared);
    EditedKeepsShape(st, s, floor, b, cleared);
    hide Edited;
    hide BitSet;
    forall id: nat | floor <= id <= last && id > 0
      ensures BitSet(next, t, id) <==> id in Without(canonical, b, cleared)
    {
      TopIsInTail(s, id);
      EditedBit(st, s, floor, b, cleared, id);
    }
  }

  /** A bucket the ring and the hot zone both hold is edited in the hot zone only. */
  lemma EditedKeepsRing(st: Store, s: Snapshot, canonical: set<nat>, floor: nat, b: nat, cleared: Bits)
    requires Owned(st, s) && FloorKept(st, floor) && RingMeetsTail(st, s, canonical, floor)
    ensures var (next, t) := Edited(st, s, b, cleared);
            RefsKnown(next, t) && RingMeetsTail(next, t, canonical, floor)
  {
    EditedKeepsShape(st, s, floor, b, cleared);
    var (next, t) := Edited(st, s, b, cleared);
    var tip := st.rings[s.body].Tip();
    forall id: nat | tip == s.hot.tailBucket && id >= floor && id > 0 && BucketOf(id) + 1 == tip
      ensures RingBits(next, t, BucketOf(id)) == RingBits(st, s, BucketOf(id))
    {
    }
  }

  /** Copies never disturb a snapshot that does not use the edited ring. */
  lemma EditKeepsAnswers(st: Store, s: Snapshot, floor: nat, b: nat, cleared: Bits, p: Published)
    requires Owned(st, s) && FloorKept(st, floor) && Answers(st, p, floor)
    requires p.snap.body != s.body || b <= s.hot.tailBucket <= b + 1
    ensures Answers(Edited(st, s, b, cleared).0, p, floor)
  {
    var (next, t) := Edited(st, s, b, cleared);
    EditedKeepsShape(st, s, floor, b, cleared);
    assert Grows(st, next, p.snap.body);
    assert RingsKnown(next);
    hide *;
    ExtensionKeepsAnswers(st, next, p, floor);
  }

  // ---- Rolling back ----

  /** What is left once the buckets below `b` are rewritten for a rollback to `newTip`. */
  function Remaining(canonical: set<nat>, newTip: nat, b: nat): set<nat>
    requires forall id :: id in canonical ==> id > 0
  {
    set id | id in canonical && !(id > newTip && BucketOf(id) < b)
  }

  function UpTo(canonical: set<nat>, newTip: nat): set<nat> {
    set id | id in canonical && id <= newTip
  }

  predicate Listed(edits: map<nat, Bits>, b: nat, bit: nat) {
    b in edits && bit in edits[b]
  }

  /** `edits` lists, bucket by bucket, exactly the bits of the ids in `(newTip, end)`. */
  ghost predicate Lists(edits: map<nat, Bits>, newTip: nat, end: nat) {
    && (forall b :: b in edits ==> edits[b] != {} && forall bit :: bit in edits[b] ==> bit < CAPACITY)
    && forall b: nat, bit: nat :: bit < CAPACITY ==>
         (Listed(edits, b, bit) <==> newTip < IdAt(b, bit) < end)
  }

  lemma ListsStep(edits: map<nat, Bits>, newTip: nat, id: nat)
    requires newTip < id && Lists(edits, newTip, id)
    ensures var b := BucketOf(id);
            Lists(edits[b := (if b in edits then edits[b] else {}) + {BitOf(id)}], newTip, id + 1)
  {
    var c := BucketOf(id);
    var next := edits[c := (if c in edits then edits[c] else {}) + {BitOf(id)}];
    LocateIsExact(id);
    forall b: nat, bit: nat | bit < CAPACITY
      ensures Listed(next, b, bit) <==> newTip < IdAt(b, bit) < id + 1
    {
      IdIsLocated(b, bit);
      assert Listed(edits, b, bit) <==> newTip < IdAt(b, bit) < id;
    }
  }

  /** Clearing a listed bucket is one step of the rollback. */
  lemma RemainingStep(canonical: set<nat>, newTip: nat, tip: nat, edits: map<nat, Bits>, b: nat)
    requires (forall id :: id in canonical ==> 0 < id <= tip) && Lists(edits, newTip, tip + 1)
    ensures b in edits ==> Without(Remaining(canonical, newTip, b), b, edits[b]) == Remaining(canonical, newTip, b + 1)
    ensures b !in edits ==> Remaining(canonical, newTip, b) == Remaining(canonical, newTip, b + 1)
  {
    forall id | id in canonical && BucketOf(id) == b
      ensures b in edits && BitOf(id) in edits[b] <==> id > newTip
    {
      LocateIsExact(id);
      assert Listed(edits, b, BitOf(id)) <==> newTip < IdAt(b, BitOf(id)) < tip + 1;
    }
  }

  /** With every bucket rewritten, the buckets stand for what is up to the new tip. */
  lemma RewrittenStands(st: Store, s: Snapshot, canonical: set<nat>, floor: nat, last: nat, newTip: nat)
    requires WellFormed(st, s) && forall id :: id in canonical ==> 0 < id <= s.tip
    requires Stands(st, s, Remaining(canonical, newTip, s.hot.tailBucket + 1), floor, last)
    ensures Stands(st, s.(tip := newTip), UpTo(canonical, newTip), floor, last)
  {
    forall id | id in canonical ensures BucketOf(id) <= s.hot.tailBucket {
      BucketsAscend(id, s.tip);
    }
    assert Remaining(canonical, newTip, s.hot.tailBucket + 1) == UpTo(canonical, newTip);
    forall id: nat | id > 0 ensures BitSet(st, s, id) == BitSet(st, s.(tip := newTip), id) {
    }
  }

  /** What the buckets stand for up to the tip is what a reader is answered. */
  lemma StandingAnswers(st: Store, s: Snapshot, canonical: set<nat>, floor: nat, last: nat)
    requires WellFormed(st, s) && s.tip <= last && Stands(st, s, canonical, floor, last)
    requires forall id :: id in canonical ==> 0 < id <= s.tip
    ensures Answers(st, Published(s, canonical), floor)
  {
  }

  lemma ExactAnswers(st: Store, s: Snapshot, canonical: set<nat>, floor: nat)
    requires Exact(st, s, canonical, floor)
    ensures s.tip <= Top(s) && Answers(st, Published(s, canonical), floor)
  {
    if s.tip > 0 {
      TopIsInTail(s, s.tip);
    }
    StandingAnswers(st, s, canonical, floor, Top(s));
  }

  lemma FewerMeetTail(st: Store, s: Snapshot, t: Snapshot, canonical: set<nat>, fewer: set<nat>, floor: nat)
    requires RefsKnown(st, s) && RingMeetsTail(st, s, canonical, floor) && fewer <= canonical
    requires t.hot == s.hot && t.body == s.body
    ensures RingMeetsTail(st, t, fewer, floor)
  {
  }

  /** The bits of the ids above `newTip` up to `tip`, grouped by bucket. */
  method GroupEdits(newTip: nat, tip: nat) returns (edits: map<nat, Bits>)
    requires newTip <= tip
    ensures Lists(edits, newTip, tip + 1)
  {
    edits := map[];
    for id := newTip + 1 to tip + 1
      invariant Lists(edits, newTip, id)
    {
      ListsStep(edits, newTip, id);
      var b := BucketOf(id);
      edits := edits[b := (if b in edits then edits[b] else {}) + {BitOf(id)}];
    }
  }


  class CanonicalChain {
    var buckets: seq<Bits>
    var rings: seq<Ring<nat>>
    var current: Snapshot
    /** Every snapshot ever published with the set it answers; the last is current. */
    ghost var published: seq<Published>
    /** The highest id finalization was asked for. */
    ghost var floor: nat

    ghost function Cells(): Store
      reads this
    {
      Store(buckets, rings)
    }

    ghost predicate Valid()
      reads this
    {
      Consistent(Cells(), published, floor) && current == published[|published| - 1].snap
    }

    /** What the current snapshot answers, from the floor up. */
    ghost function Canonical(): set<nat>
      requires Valid()
      reads this
    {
      published[|published| - 1].canonical
    }

    /** The chain stands for `canonical` and goes on as that set. */
    ghost predicate Refines(canonical: set<nat>)
      reads this
    {
      Exact(Cells(), current, canonical, floor)
    }

    /** Where the body ring ends. */
    ghost function RingTip(): nat
      requires Valid()
      reads this
    {
      rings[current.body].Tip()
    }

    constructor ()
      ensures Valid() && floor == 1 && published == [Published(current, {})] && Refines({})
      ensures current.tip == 0 && current.hot.tailBucket == 0 && RingTip() == 0
    {
      buckets, rings := [{}, {}], [Ring(0, [])];
      current := Snapshot(0, HotZone(0, 0, 1), 0);
      published, floor := [Published(current, {})], 1;
    }

    /** Every published snapshot, held or current, answers as the plain set it stands for. */
    lemma AnswersThePlainSet(i: nat, id: nat)
      requires Valid() && i < |published| && id >= floor
      ensures RefsKnown(Cells(), published[i].snap)
      ensures IsCanonical(Cells(), published[i].snap, id) <==> id in published[i].canonical
    {
      assert Answers(Cells(), published[i], floor);
    }

    /** Whether `id` is canonical in a held snapshot. */
    method Query(s: Snapshot, id: nat) returns (r: bool)
      requires RefsKnown(Cells(), s)
      ensures r == IsCanonical(Cells(), s, id)
    {
      if id == 0 || id > s.tip {
        return false;
      }
      var bucket, bit := BucketOf(id), BitOf(id);
      if bucket == s.hot.tailBucket {
        return bit in buckets[s.hot.tail];
      }
      if s.hot.tailBucket >= 1 && bucket == s.hot.tailBucket - 1 {
        return bit in buckets[s.hot.lastSealed];
      }
      var cell := rings[s.body].Get(bucket);
      r := cell.None? || bit in buckets[cell.value];
    }

    /** The cell of bucket `idx` in the hot zone, or a fresh empty one beyond it. */
    method BucketAt(hot: HotZone, idx: nat) returns (cell: nat)
      requires hot.tail < |buckets| && hot.lastSealed < |buckets|
      modifies this`buckets
      ensures old(buckets) <= buckets && cell < |buckets|
      ensures buckets[cell] == HotBits(old(Cells()), hot, idx)
      ensures idx > hot.tailBucket || idx + 1 < hot.tailBucket ==>
              cell == |old(buckets)| && buckets == old(buckets) + [{}]
    {
      if idx == hot.tailBucket {
        cell := hot.tail;
      } else if hot.tailBucket >= 1 && idx == hot.tailBucket - 1 {
        cell := hot.lastSealed;
      } else {
        cell := |buckets|;
        buckets := buckets + [{}];
      }
    }

    /** Moves the hot zone to `target`, sealing the buckets left behind into `body`. Moving
        backwards is refused by a debug assertion only; it puts two empty buckets on top. */
    method RollForward(hot: HotZone, target: nat, body: nat) returns (next: HotZone)
      requires hot.tail < |buckets| && hot.lastSealed < |buckets| && body < |rings| && RingsKnown(Cells())
      requires hot.tailBucket <= rings[body].Tip() + 1
      modifies this`buckets, this`rings
      ensures Moved(old(Cells()), Cells(), hot, next, body, target)
    {
      if target == hot.tailBucket {
        return hot;
      }
      ghost var before := Cells();
      while rings[body].Tip() + 1 < target
        invariant target < hot.tailBucket ==> Cells() == before
        invariant target > hot.tailBucket ==> Sealed(before, Cells(), hot, body)
        invariant target > hot.tailBucket ==>
                    rings[body].Tip() <= Max(before.rings[body].Tip(), target - 1)
        decreases target - rings[body].Tip()
      {
        ghost var at := Cells();
        var idx := rings[body].Tip();
        var cell := BucketAt(hot, idx);
        rings := rings[body := rings[body].Push(cell)];
        SealedStep(before, at, Cells(), hot, body, cell);
      }
      ghost var sealed := Cells();
      var lastSealed;
      if target == 0 {
        // `target - 1` wraps around to an index no bucket has.
        lastSealed := |buckets|;
        buckets := buckets + [{}];
      } else {
        lastSealed := BucketAt(hot, target - 1);
      }
      next := HotZone(target, |buckets|, lastSealed);
      buckets := buckets + [{}];
      if target > hot.tailBucket {
        RolledFinish(before, sealed, Cells(), hot, next, body, target);
      }
    }

    /** Marks `id` canonical as the new tip. A chain that stands for a plain set goes on as that
        set with `id` exactly if the append fits; below the tail bucket it takes every other
        id of its bucket and of the one before out of the answers. */
    method Append(id: nat)
      requires Valid() && id > current.tip
      modifies this
      ensures Valid() && floor == old(floor) && Stable(old(Cells()), Cells(), old(published), floor)
      ensures old(published) <= published && |published| == |old(published)| + 1
      ensures Appends(old(Cells()), old(current), Cells(), current, id)
      ensures old(Refines(Canonical())) ==>
                && (Refines(old(Canonical()) + {id}) <==> Fits(old(Cells()), old(current), old(Canonical()), floor, id))
                && (Refines(old(Canonical()) + {id}) ==> Canonical() == old(Canonical()) + {id})
      ensures old(Refines(Canonical())) && BucketOf(id) < old(current.hot.tailBucket) ==>
                forall x: nat :: x >= floor ==> (x in Canonical() <==> x in WithReturning(old(Canonical()), id))
    {
      hide Consistent;
      hide Stable;
      hide BucketOf;
      hide RingsKnown;
      hide Moved;
      hide Exact;
      hide Appends;
      hide Fits;
      hide WithReturning;
      ghost var before, s, canonical := Cells(), current, Canonical();
      ConsistentIsKnown(before, published, floor);
      var hot := RollForward(current.hot, BucketOf(id), current.body);
      ghost var moved := Cells();
      AppendIsConsistent(before, moved, published, floor, hot, id);
      buckets := buckets[hot.tail := buckets[hot.tail] + {BitOf(id)}];
      current := Snapshot(id, hot, current.body);
      ghost var next := NextSet(before, s, Cells(), current, canonical, floor, id);
      published := published + [Published(current, next)];
      ConsistentIsStable(before, Cells(), old(published), published, floor, floor);
      if Exact(before, s, canonical, floor) {
        NextSetIsExact(before, s, Cells(), current, canonical, floor, id);
      }
    }

    /** Rolls back to `newTip`: every id above it is cleared. */
    method Rollback(newTip: nat)
      requires Valid() && newTip <= current.tip
      modifies this
      ensures Valid() && current.tip == newTip && floor == old(floor)
      ensures current.hot.tailBucket == old(current.hot.tailBucket) && RingTip() == old(RingTip())
      ensures published == old(published) + [Published(current, UpTo(old(Canonical()), newTip))]
      ensures Stable(old(Cells()), Cells(), old(published), floor)
      ensures old(Refines(Canonical())) ==> Refines(Canonical())
    {
      hide Consistent;
      hide Working;
      hide UpTo;
      hide RingsKnown;
      hide RefsKnown;
      hide Lists;
      hide Remaining;
      hide Stable;
      hide BucketOf;
      hide Exact;
      hide Stands;
      hide RingMeetsTail;
      hide Moved;
      ConsistentIsKnown(Cells(), published, floor);
      ghost var before, canonical := Cells(), Canonical();
      ghost var last := if Refines(canonical) then Top(current) else current.tip;
      CurrentStands(before, published, floor, last);
      var s := current;
      if BucketOf(newTip + 1) + 2 <= s.hot.tailBucket {
        ForkIsWorking(before, published, floor, s, canonical, last);
        s := s.(body := |rings|);
        rings := rings + [rings[current.body]];
        WorkingIsKnown(Cells(), published, floor, s);
      }
      ghost var forked := Cells();
      var hot := RollForward(s.hot, s.hot.tailBucket, s.body);
      StaysPut(forked, Cells(), s.hot, hot, s.body);
      var edits := GroupEdits(newTip, current.tip);
      s := RewriteBuckets(s, newTip, edits, canonical, last);
      RollbackIsConsistent(before, Cells(), published, floor, s, canonical, newTip, edits, last);
      current := s.(tip := newTip);
      published := published + [Published(current, UpTo(canonical, newTip))];
      ConsistentIsStable(before, Cells(), old(published), published, floor, floor);
    }

    /** Rewrites every listed bucket of the writer's snapshot. */
    method RewriteBuckets(s: Snapshot, newTip: nat, edits: map<nat, Bits>, ghost canonical: set<nat>, ghost last: nat)
      returns (t: Snapshot)
      requires Working(Cells(), published, floor, s) && Lists(edits, newTip, s.tip + 1)
      requires last <= Top(s) && RefsKnown(Cells(), s) && Stands(Cells(), s, canonical, floor, last)
      requires forall id :: id in canonical ==> 0 < id <= s.tip
      requires BucketOf(newTip + 1) + 2 <= s.hot.tailBucket ==>
                 forall i :: 0 <= i < |published| ==> published[i].snap.body != s.body
      modifies this`buckets, this`rings
      ensures Working(Cells(), published, floor, t) && RefsKnown(Cells(), t)
      ensures Stands(Cells(), t, Remaining(canonical, newTip, t.hot.tailBucket + 1), floor, last)
      ensures RingMeetsTail(old(Cells()), s, canonical, floor) ==> RingMeetsTail(Cells(), t, canonical, floor)
      ensures t.tip == s.tip && t.body == s.body && t.hot.tailBucket == s.hot.tailBucket
      ensures s.body < |old(rings)| && t.body < |rings| && rings[t.body].Tip() == old(rings)[s.body].Tip()
      ensures t.hot.tail == s.hot.tail || t.hot.tail >= |old(buckets)|
      ensures t.hot.tailBucket in edits ==> t.hot.tail >= |old(buckets)|
    {
      WorkingIsKnown(Cells(), published, floor, s);
      NothingCleared(canonical, newTip);
      ghost var meets := RingMeetsTail(Cells(), s, canonical, floor);
      hide *;
      t := s;
      for b := 0 to s.hot.tailBucket + 1
        invariant Working(Cells(), published, floor, t) && RefsKnown(Cells(), t)
        invariant Stands(Cells(), t, Remaining(canonical, newTip, b), floor, last)
        invariant meets ==> RingMeetsTail(Cells(), t, canonical, floor)
        invariant t.tip == s.tip && t.body == s.body && t.hot.tailBucket == s.hot.tailBucket
        invariant t.body < |Cells().rings| && Cells().rings[t.body].Tip() == old(rings)[s.body].Tip()
        invariant |old(buckets)| <= |Cells().buckets|
        invariant t.hot.tail == s.hot.tail || t.hot.tail >= |old(buckets)|
        invariant b > t.hot.tailBucket && t.hot.tailBucket in edits ==> t.hot.tail >= |old(buckets)|
      {
        RemainingStep(canonical, newTip, s.tip, edits, b);
        if b in edits {
          OnlyDeepEditsReachTheBody(edits, newTip, s.tip, b);
          EditIsWorking(Cells(), published, floor, t, Remaining(canonical, newTip, b), last, b, edits[b]);
          EditMeetsTail(Cells(), published, floor, t, canonical, b, edits[b]);
          EditedShape(Cells(), t, b, edits[b]);
          t := ClearBits(t, b, edits[b]);
        }
      }
    }

    /** Rewrites one bucket: hot buckets by copy, body buckets by replacement in the ring,
        pruned buckets not at all. */
    method ClearBits(s: Snapshot, b: nat, cleared: Bits) returns (t: Snapshot)
      requires RefsKnown(Cells(), s)
      modifies this`buckets, this`rings
      ensures (Cells(), t) == Edited(old(Cells()), s, b, cleared)
    {
      if b == s.hot.tailBucket {
        t := s.(hot := s.hot.(tail := |buckets|));
        buckets := buckets + [buckets[s.hot.tail] - cleared];
      } else if s.hot.tailBucket >= 1 && b == s.hot.tailBucket - 1 {
        t := s.(hot := s.hot.(lastSealed := |buckets|));
        buckets := buckets + [buckets[s.hot.lastSealed] - cleared];
      } else {
        t := s;
        var cell := rings[s.body].Get(b);
        if cell.Some? {
          rings := rings[s.body := rings[s.body].Replace(b, |buckets|)];
          buckets := buckets + [buckets[cell.value] - cleared];
        }
      }
    }

    /** Prunes the buckets below that of `below`; they read as canonical from now on. */
    method Finalize(below: nat)
      requires Valid()
      modifies this
      ensures Valid() && current == old(current) && published == old(published) && RingTip() == old(RingTip())
      ensures floor == if below > old(floor) then below else old(floor)
      ensures |rings| == |old(rings)| && current.body < |rings|
      ensures forall k :: 0 <= k < |rings| && (k != current.body || below <= 1) ==> rings[k] == old(rings)[k]
      ensures below > 1 ==>
                forall b: nat :: rings[current.body].Get(b)
                                 == if b < BucketOf(below) then None else old(rings)[current.body].Get(b)
      ensures Stable(old(Cells()), Cells(), published, floor)
      ensures old(Refines(Canonical())) ==> Refines(Canonical())
    {
      hide Consistent;
      hide Stable;
      hide BucketOf;
      hide Exact;
      ConsistentIsKnown(Cells(), published, floor);
      ghost var before, was := Cells(), floor;
      if below > 1 {
        PruneIsConsistent(before, published, floor, below);
        rings := rings[current.body := rings[current.body].Prune(BucketOf(below))];
        floor := if below > floor then below else floor;
      }
      ConsistentIsStable(before, Cells(), published, published, was, floor);
    }
  }

  // ---- Append ----

  /** The set the snapshot published by an append answers. */
  ghost function NextSet(a: Store, s: Snapshot, b: Store, t: Snapshot, canonical: set<nat>, floor: nat, id: nat)
    : set<nat>
    requires id > 0 && RefsKnown(a, s) && RefsKnown(b, t)
  {
    if Exact(a, s, canonical, floor) && Fits(a, s, canonical, floor, id) then canonical + {id} else Answered(b, t)
  }

  lemma AppendIsConsistent(a: Store, m: Store, published: seq<Published>, floor: nat, next: HotZone, id: nat)
    requires Consistent(a, published, floor)
    requires var cur := published[|published| - 1].snap;
             id > cur.tip && Moved(a, m, cur.hot, next, cur.body, BucketOf(id))
    ensures var cur := published[|published| - 1];
            && next.tail < |m.buckets| && FloorKept(a, floor)
            && var b, t := WithBit(m, next.tail, BitOf(id)), Snapshot(id, next, cur.snap.body);
               && Appends(a, cur.snap, b, t, id) && RefsKnown(a, cur.snap) && WellFormed(b, t)
               && Consistent(b, published + [Published(t, NextSet(a, cur.snap, b, t, cur.canonical, floor, id))], floor)
  {
    var cur, target := published[|published| - 1], BucketOf(id);
    var s := cur.snap;
    if s.tip > 0 {
      BucketsAscend(s.tip, id);
    }
    hide BucketOf;
    MovedIsWorking(a, m, published, floor, s, next, target);
    MovedTailBucket(a, m, s, next, target);
    MoveThenSetAppends(a, m, s, next, id);
    AppendIsWorking(m, published, floor, s.(hot := next), id);
    var b, t := WithBit(m, next.tail, BitOf(id)), Snapshot(id, next, s.body);
    assert t == s.(hot := next).(tip := id);
    NextSetAnswers(a, s, b, t, cur.canonical, floor, id);
    PublishIsConsistent(b, published, floor, t, NextSet(a, s, b, t, cur.canonical, floor, id));
  }

  lemma MovedTailBucket(a: Store, m: Store, s: Snapshot, next: HotZone, target: nat)
    requires Owned(a, s) && Moved(a, m, s.hot, next, s.body, target)
    ensures next.tailBucket == target && next.tail < |m.buckets|
  {
  }

  lemma NextSetAnswers(a: Store, s: Snapshot, b: Store, t: Snapshot, canonical: set<nat>, floor: nat, id: nat)
    requires FloorKept(a, floor) && id > s.tip && Appends(a, s, b, t, id) && WellFormed(b, t)
    ensures Answers(b, Published(t, NextSet(a, s, b, t, canonical, floor, id)), floor)
  {
    hide Appends;
    hide Fits;
    hide Stands;
    hide RingMeetsTail;
    if Exact(a, s, canonical, floor) && Fits(a, s, canonical, floor, id) {
      GoesOnExactlyWhen(a, s, b, t, canonical, floor, id);
      ExactAnswers(b, t, canonical + {id}, floor);
    }
  }

  /** The chain goes on as the plain set with `id` exactly if the append fits, and what it
      answers otherwise. */
  lemma NextSetIsExact(a: Store, s: Snapshot, b: Store, t: Snapshot, canonical: set<nat>, floor: nat, id: nat)
    requires FloorKept(a, floor) && id > s.tip && RefsKnown(a, s) && WellFormed(b, t) && Appends(a, s, b, t, id)
    requires Exact(a, s, canonical, floor)
    ensures Exact(b, t, canonical + {id}, floor) <==> Fits(a, s, canonical, floor, id)
    ensures Fits(a, s, canonical, floor, id) ==> NextSet(a, s, b, t, canonical, floor, id) == canonical + {id}
    ensures BucketOf(id) < s.hot.tailBucket ==>
              forall x: nat :: x >= floor ==>
                (x in NextSet(a, s, b, t, canonical, floor, id) <==> x in WithReturning(canonical, id))
  {
    hide Exact;
    hide Fits;
    hide IsCanonical;
    hide WithReturning;
    GoesOnExactlyWhen(a, s, b, t, canonical, floor, id);
    if BucketOf(id) < s.hot.tailBucket {
      ReturnedAnswers(a, s, b, t, canonical, floor, id);
      NextSetAnswers(a, s, b, t, canonical, floor, id);
    }
  }

  lemma PublishIsConsistent(st: Store, published: seq<Published>, floor: nat, s: Snapshot, canonical: set<nat>)
    requires Working(st, published, floor, s) && Answers(st, Published(s, canonical), floor)
    ensures Consistent(st, published + [Published(s, canonical)], floor)
  {
    hide Answers;
  }

  lemma ConsistentIsKnown(st: Store, published: seq<Published>, floor: nat)
    requires Consistent(st, published, floor)
    ensures published != [] && floor > 0 && FloorKept(st, floor)
    ensures var s := published[|published| - 1].snap;
            && Working(st, published, floor, s) && RingsKnown(st) && RefsKnown(st, s)
            && s.hot.tail < |st.buckets| && s.hot.lastSealed < |st.buckets| && s.body < |st.rings|
            && s.hot.tailBucket <= st.rings[s.body].Tip() + 1
  {
  }

  lemma WorkingIsKnown(st: Store, published: seq<Published>, floor: nat, s: Snapshot)
    requires Working(st, published, floor, s)
    ensures RingsKnown(st) && RefsKnown(st, s)
    ensures s.hot.tail < |st.buckets| && s.hot.lastSealed < |st.buckets| && s.body < |st.rings|
    ensures s.hot.tailBucket <= st.rings[s.body].Tip() + 1
  {
  }

  // ---- Rollback ----

  lemma CurrentStands(st: Store, published: seq<Published>, floor: nat, last: nat)
    requires Consistent(st, published, floor)
    requires var cur := published[|published| - 1];
             last == if Exact(st, cur.snap, cur.canonical, floor) then Top(cur.snap) else cur.snap.tip
    ensures var cur := published[|published| - 1];
            && RefsKnown(st, cur.snap) && cur.snap.tip <= last <= Top(cur.snap)
            && Stands(st, cur.snap, cur.canonical, floor, last)
            && (Exact(st, cur.snap, cur.canonical, floor) ==> RingMeetsTail(st, cur.snap, cur.canonical, floor))
            && forall id :: id in cur.canonical ==> 0 < id <= cur.snap.tip
  {
    var cur := published[|published| - 1];
    assert Answers(st, cur, floor);
    if cur.snap.tip > 0 {
      TopIsInTail(cur.snap, cur.snap.tip);
    }
  }

  /** A forked body ring is the writer's alone. */
  lemma ForkIsWorking(st: Store, published: seq<Published>, floor: nat, s: Snapshot, canonical: set<nat>, last: nat)
    requires Working(st, published, floor, s) && RefsKnown(st, s) && Stands(st, s, canonical, floor, last)
    ensures var next, t := st.(rings := st.rings + [st.rings[s.body]]), s.(body := |st.rings|);
            && Working(next, published, floor, t) && RefsKnown(next, t) && Stands(next, t, canonical, floor, last)
            && (RingMeetsTail(st, s, canonical, floor) ==> RingMeetsTail(next, t, canonical, floor))
    ensures forall i :: 0 <= i < |published| ==> published[i].snap.body != |st.rings|
  {
    var next, t := st.(rings := st.rings + [st.rings[s.body]]), s.(body := |st.rings|);
    assert RingsKnown(next) && FloorKept(next, floor) && TailIsFree(next, t);
    forall id: nat | id > 0 ensures BitSet(st, s, id) == BitSet(next, t, id) {}
    forall b: nat ensures RingBits(st, s, b) == RingBits(next, t, b) {}
    forall i | 0 <= i < |published| ensures Answers(next, published[i], floor) && TailIsOwn(t, published[i].snap) {
      assert Answers(st, published[i], floor) && TailIsOwn(s, published[i].snap);
      ExtensionKeepsAnswers(st, next, published[i], floor);
    }
  }

  lemma StaysPut(a: Store, b: Store, hot: HotZone, next: HotZone, body: nat)
    requires Moved(a, b, hot, next, body, hot.tailBucket)
    ensures a == b && next == hot
  {
  }

  /** Rewriting a bucket keeps the shape of the writer's snapshot. */
  lemma EditedShape(st: Store, s: Snapshot, b: nat, cleared: Bits)
    requires RefsKnown(st, s)
    ensures var (next, t) := Edited(st, s, b, cleared);
            && t.tip == s.tip && t.body == s.body && t.hot.tailBucket == s.hot.tailBucket
            && |st.buckets| <= |next.buckets| && |next.rings| == |st.rings|
            && next.rings[t.body].Tip() == st.rings[s.body].Tip()
            && (t.hot.tail == s.hot.tail || t.hot.tail == |st.buckets|)
            && (b == s.hot.tailBucket ==> t.hot.tail == |st.buckets|)
  {
  }

  lemma EditIsWorking(st: Store, published: seq<Published>, floor: nat, s: Snapshot, canonical: set<nat>, last: nat,
                      b: nat, cleared: Bits)
    requires Working(st, published, floor, s) && b <= s.hot.tailBucket
    requires b + 1 >= s.hot.tailBucket || forall i :: 0 <= i < |published| ==> published[i].snap.body != s.body
    requires RefsKnown(st, s) && last <= Top(s) && Stands(st, s, canonical, floor, last)
    requires forall id :: id in canonical ==> id > 0
    ensures var (next, t) := Edited(st, s, b, cleared);
            && Working(next, published, floor, t) && RefsKnown(next, t)
            && Stands(next, t, Without(canonical, b, cleared), floor, last)
  {
    var (next, t) := Edited(st, s, b, cleared);
    EditedKeepsShape(st, s, floor, b, cleared);
    EditedStands(st, s, canonical, floor, last, b, cleared);
    forall i | 0 <= i < |published| ensures Answers(next, published[i], floor) {
      assert Answers(st, published[i], floor);
      EditKeepsAnswers(st, s, floor, b, cleared, published[i]);
    }
    hide Owned;
    hide RefsKnown;
    hide Stands;
    forall i | 0 <= i < |published| ensures TailIsOwn(t, published[i].snap) {
      assert Answers(st, published[i], floor) && TailIsOwn(s, published[i].snap);
      RefsAreOld(st, published[i].snap);
    }
  }

  lemma EditMeetsTail(st: Store, published: seq<Published>, floor: nat, s: Snapshot, canonical: set<nat>,
                      b: nat, cleared: Bits)
    requires Working(st, published, floor, s) && RefsKnown(st, s)
    ensures var (next, t) := Edited(st, s, b, cleared);
            && RefsKnown(next, t)
            && (RingMeetsTail(st, s, canonical, floor) ==> RingMeetsTail(next, t, canonical, floor))
  {
    EditedKeepsShape(st, s, floor, b, cleared);
    if RingMeetsTail(st, s, canonical, floor) {
      EditedKeepsRing(st, s, canonical, floor, b, cleared);
    }
  }

  lemma RefsAreOld(st: Store, s: Snapshot)
    requires RefsKnown(st, s)
    ensures s.hot.tail < |st.buckets| && s.hot.lastSealed < |st.buckets| && s.body < |st.rings|
  {
  }

  lemma NothingCleared(canonical: set<nat>, newTip: nat)
    requires forall id :: id in canonical ==> id > 0
    ensures Remaining(canonical, newTip, 0) == canonical
  {
  }

  /** A sealed bucket is only edited by a rollback deep enough to have forked the body. */
  lemma OnlyDeepEditsReachTheBody(edits: map<nat, Bits>, newTip: nat, tip: nat, b: nat)
    requires Lists(edits, newTip, tip + 1) && b in edits
    ensures BucketOf(newTip + 1) <= b
  {
    var bit :| bit in edits[b];
    IdIsLocated(b, bit);
    assert Listed(edits, b, bit);
    assert newTip < IdAt(b, bit) < tip + 1;
    BucketsAscend(newTip + 1, IdAt(b, bit));
  }

  lemma RollbackIsConsistent(before: Store, st: Store, published: seq<Published>, floor: nat, s: Snapshot,
                             canonical: set<nat>, newTip: nat, edits: map<nat, Bits>, last: nat)
    requires Consistent(before, published, floor) && published[|published| - 1].canonical == canonical
    requires var cur := published[|published| - 1].snap;
             && newTip <= cur.tip == s.tip <= last && s.hot.tailBucket == cur.hot.tailBucket
             && Lists(edits, newTip, cur.tip + 1) && (forall id :: id in canonical ==> 0 < id <= s.tip)
             && (s.hot.tail == cur.hot.tail || s.hot.tail >= |before.buckets|)
             && (s.hot.tailBucket in edits ==> s.hot.tail >= |before.buckets|)
    requires Working(st, published, floor, s) && RefsKnown(st, s)
    requires Stands(st, s, Remaining(canonical, newTip, s.hot.tailBucket + 1), floor, last)
    ensures var t, left := s.(tip := newTip), UpTo(canonical, newTip);
            && Consistent(st, published + [Published(t, left)], floor)
            && (last == Top(s) && RingMeetsTail(st, s, canonical, floor) ==> Exact(st, t, left, floor))
  {
    var t, left := s.(tip := newTip), UpTo(canonical, newTip);
    LoweredIsWorking(before, st, published, floor, s, newTip, edits);
    RewrittenStands(st, s, canonical, floor, last, newTip);
    hide Stands;
    hide Remaining;
    StandingAnswers(st, t, left, floor, last);
    PublishIsConsistent(st, published, floor, t, left);
    if last == Top(s) && RingMeetsTail(st, s, canonical, floor) {
      FewerMeetTail(st, s, t, canonical, left, floor);
    }
  }

  lemma LoweredIsWorking(before: Store, st: Store, published: seq<Published>, floor: nat, s: Snapshot,
                         newTip: nat, edits: map<nat, Bits>)
    requires Consistent(before, published, floor)
    requires var cur := published[|published| - 1].snap;
             && newTip <= cur.tip == s.tip && s.hot.tailBucket == cur.hot.tailBucket
             && Lists(edits, newTip, cur.tip + 1)
             && (s.hot.tail == cur.hot.tail || s.hot.tail >= |before.buckets|)
             && (s.hot.tailBucket in edits ==> s.hot.tail >= |before.buckets|)
    requires Working(st, published, floor, s)
    ensures Working(st, published, floor, s.(tip := newTip))
  {
    var t, cur := s.(tip := newTip), published[|published| - 1].snap;
    assert Owned(st, t) by {
      if newTip > 0 {
        BucketsAscend(newTip, s.tip);
      }
    }
    assert Answers(before, published[|published| - 1], floor);
    if s.hot.tailBucket !in edits {
      UneditedTail(edits, newTip, cur.tip, s.hot.tailBucket);
    }
    forall i | 0 <= i < |published| ensures TailIsOwn(t, published[i].snap) {
      assert Answers(before, published[i], floor) && TailIsOwn(cur, published[i].snap) &&
             TailIsOwn(s, published[i].snap);
      assert published[i].snap.hot.tail < |before.buckets|;
    }
  }

  /** If the tail bucket needs no edit, nothing in it is above the new tip. */
  lemma UneditedTail(edits: map<nat, Bits>, newTip: nat, tip: nat, b: nat)
    requires Lists(edits, newTip, tip + 1) && newTip <= tip && b !in edits
    requires tip > 0 ==> BucketOf(tip) <= b
    ensures newTip == tip || tip <= b * CAPACITY
  {
    if tip > 0 {
      LocateIsExact(tip);
      assert Listed(edits, b, BitOf(tip)) <==> newTip < IdAt(b, BitOf(tip)) < tip + 1;
    }
  }

  // ---- Finalize ----

  /** The store with ring `r` pruned below the bucket of `below`. */
  ghost function PrunedAt(st: Store, r: nat, below: nat): Store
    requires r < |st.rings| && below > 0
  {
    st.(rings := st.rings[r := st.rings[r].Prune(BucketOf(below))])
  }

  lemma PruneIsConsistent(st: Store, published: seq<Published>, floor: nat, below: nat)
    requires Consistent(st, published, floor) && below > 1
    ensures var cur, now := published[|published| - 1], if below > floor then below else floor;
            && cur.snap.body < |st.rings|
            && var next := PrunedAt(st, cur.snap.body, below);
               && Consistent(next, published, now)
               && next.rings[cur.snap.body].Tip() == st.rings[cur.snap.body].Tip()
               && (Exact(st, cur.snap, cur.canonical, floor) ==> Exact(next, cur.snap, cur.canonical, now))
  {
    var cur := published[|published| - 1];
    var body := cur.snap.body;
    var next, now := PrunedAt(st, body, below), if below > floor then below else floor;
    PrunedRings(st, cur.snap, body, below);
    PrunedFloor(st, body, floor, below);
    forall i | 0 <= i < |published|
      ensures Answers(next, published[i], now) && TailIsOwn(cur.snap, published[i].snap)
    {
      assert Answers(st, published[i], floor) && TailIsOwn(cur.snap, published[i].snap);
      PrunedAnswers(st, body, floor, below, published[i]);
    }
    if Exact(st, cur.snap, cur.canonical, floor) {
      PrunedExact(st, cur.snap, cur.canonical, floor, below);
    }
  }

  /** Ids from `below` up keep their buckets. */
  lemma PrunedBit(st: Store, r: nat, below: nat, s: Snapshot, id: nat)
    requires RingsKnown(st) && r < |st.rings| && 1 < below <= id && RefsKnown(st, s)
    ensures var next := PrunedAt(st, r, below);
            && RefsKnown(next, s) && BitSet(st, s, id) == BitSet(next, s, id)
            && RingBits(st, s, BucketOf(id)) == RingBits(next, s, BucketOf(id))
  {
    BucketsAscend(below, id);
  }

  lemma PrunedAnswers(st: Store, r: nat, floor: nat, below: nat, p: Published)
    requires RingsKnown(st) && r < |st.rings| && below > 1 && Answers(st, p, floor)
    ensures Answers(PrunedAt(st, r, below), p, if below > floor then below else floor)
  {
    var next := PrunedAt(st, r, below);
    PrunedBit(st, r, below, p.snap, below);
    forall id: nat | id >= below && id >= floor
      ensures IsCanonical(next, p.snap, id) == IsCanonical(st, p.snap, id)
    {
      PrunedBit(st, r, below, p.snap, id);
    }
    hide BitSet;
  }

  lemma PrunedRings(st: Store, s: Snapshot, r: nat, below: nat)
    requires RingsKnown(st) && TailIsFree(st, s) && r < |st.rings| && below > 0
    ensures RingsKnown(PrunedAt(st, r, below)) && TailIsFree(PrunedAt(st, r, below), s)
  {
    hide BucketOf;
  }

  lemma PrunedFloor(st: Store, r: nat, floor: nat, below: nat)
    requires FloorKept(st, floor) && r < |st.rings| && below > 0
    ensures FloorKept(PrunedAt(st, r, below), if below > floor then below else floor)
  {
    LocateIsExact(below);
  }

  lemma PrunedExact(st: Store, s: Snapshot, canonical: set<nat>, floor: nat, below: nat)
    requires Exact(st, s, canonical, floor) && RingsKnown(st) && below > 1
    ensures Exact(PrunedAt(st, s.body, below), s, canonical, if below > floor then below else floor)
  {
    hide BitSet;
    hide BucketOf;
    hide RingsKnown;
    hide RingBits;
    var next := PrunedAt(st, s.body, below);
    PrunedBit(st, s.body, below, s, below);
    forall id: nat | id >= below && id >= floor
      ensures BitSet(next, s, id) == BitSet(st, s, id)
      ensures RingBits(next, s, BucketOf(id)) == RingBits(st, s, BucketOf(id))
    {
      PrunedBit(st, s.body, below, s, id);
    }
  }

  // ---- Held snapshots ----

  /** A held snapshot's answers from the floor up have not changed. */
  ghost predicate Stable(a: Store, b: Store, held: seq<Published>, floor: nat) {
    forall i, id: nat :: 0 <= i < |held| && id >= floor ==>
      && RefsKnown(a, held[i].snap) && RefsKnown(b, held[i].snap)
      && IsCanonical(a, held[i].snap, id) == IsCanonical(b, held[i].snap, id)
  }

  lemma AnswersAreStable(a: Store, b: Store, held: seq<Published>, was: nat, floor: nat)
    requires was <= floor && forall i :: 0 <= i < |held| ==> Answers(a, held[i], was) && Answers(b, held[i], floor)
    ensures Stable(a, b, held, floor)
  {
    forall i, id: nat | 0 <= i < |held| && id >= floor
      ensures RefsKnown(a, held[i].snap) && RefsKnown(b, held[i].snap)
              && IsCanonical(a, held[i].snap, id) == IsCanonical(b, held[i].snap, id)
    {
      assert Answers(a, held[i], was) && Answers(b, held[i], floor);
    }
  }

  lemma ConsistentIsStable(a: Store, b: Store, held: seq<Published>, published: seq<Published>, was: nat, floor: nat)
    requires Consistent(a, held, was) && Consistent(b, published, floor) && held <= published && was <= floor
    ensures Stable(a, b, held, floor)
  {
    hide Answers;
    hide Stable;
    forall i | 0 <= i < |held| ensures Answers(a, held[i], was) && Answers(b, held[i], floor) {
      assert held[i] == published[i];
    }
    AnswersAreStable(a, b, held, was, floor);
  }

  // ---- Sealing ----

  lemma SealedStep(a: Store, b: Store, c: Store, hot: HotZone, body: nat, cell: nat)
    requires Sealed(a, b, hot, body) && b.buckets <= c.buckets && cell < |c.buckets|
    requires c.buckets[cell] == HotBits(b, hot, b.rings[body].Tip())
    requires c.rings == b.rings[body := b.rings[body].Push(cell)]
    ensures Sealed(a, c, hot, body)
  {
  }

  lemma RolledFinish(a: Store, b: Store, c: Store, hot: HotZone, next: HotZone, body: nat, target: nat)
    requires Sealed(a, b, hot, body) && hot.tailBucket < target
    requires b.rings[body].Tip() == Max(a.rings[body].Tip(), target - 1)
    requires c.rings == b.rings && next.tailBucket == target
    requires b.buckets <= c.buckets && next.tail == |c.buckets| - 1 >= |b.buckets| && c.buckets[next.tail] == {}
    requires next.lastSealed < next.tail && c.buckets[next.lastSealed] == HotBits(b, hot, target - 1)
    ensures Rolled(a, c, hot, next, body, target)
  {
  }
}
