/** The growable rolling buffer: what its operations mean on the live window, and the slot
    array that implements them. */
module AtomicRing {
  import opened Options

  /** The live window: `contents[k]` is the entry of index `base + k`. */
  datatype Ring<V> = Ring(base: nat, contents: seq<V>) {
    function Tip(): nat {
      base + |contents|
    }

    function Get(i: nat): Option<V> {
      if base <= i < Tip() then Some(contents[i - base]) else None
    }

    function Push(v: V): Ring<V> {
      Ring(base, contents + [v])
    }

    function Replace(i: nat, v: V): Ring<V> {
      if base <= i < Tip() then Ring(base, contents[i - base := v]) else this
    }

    /** Drops the entries from `from` on. */
    function Truncate(from: nat): Ring<V> {
      if from <= base then Ring(base, [])
      else if from < Tip() then Ring(base, contents[..from - base])
      else this
    }

    /** Drops the entries before `below`. */
    function Prune(below: nat): Ring<V> {
      if below <= base then this
      else if below < Tip() then Ring(below, contents[below - base..])
      else Ring(Tip(), [])
    }
  }

  // ---- Every sequence of operations ----

  datatype Op<V> = Push(value: V) | Replace(index: nat, value: V) | Truncate(from: nat) | Prune(below: nat)

  function Step<V>(r: Ring<V>, op: Op<V>): Ring<V> {
    match op
    case Push(v) => r.Push(v)
    case Replace(i, v) => r.Replace(i, v)
    case Truncate(from) => r.Truncate(from)
    case Prune(below) => r.Prune(below)
  }

  function Run<V>(r: Ring<V>, ops: seq<Op<V>>): Ring<V>
    decreases |ops|
  {
    if ops == [] then r else Step(Run(r, ops[..|ops| - 1]), ops[|ops| - 1])
  }

  /** The bounds of the live window, tracked without its contents. */
  function Bounds<V>(start: nat, ops: seq<Op<V>>): (b: (nat, nat))
    ensures b.0 <= b.1
  {
    if ops == [] then (start, start)
    else
      var (base, tip) := Bounds(start, ops[..|ops| - 1]);
      match ops[|ops| - 1]
      case Push(_) => (base, tip + 1)
      case Replace(_, _) => (base, tip)
      case Truncate(from) => (base, Clamp(from, base, tip))
      case Prune(below) => (Clamp(below, base, tip), tip)
  }

  function Clamp(x: nat, lo: nat, hi: nat): nat {
    if x <= lo then lo else if x < hi then x else hi
  }

  /** The value of the last push that took index `i`, or of a later replacement while `i`
      was live. */
  function LastStored<V>(start: nat, ops: seq<Op<V>>, i: nat): Option<V> {
    if ops == [] then None
    else
      var earlier := ops[..|ops| - 1];
      var (base, tip) := Bounds(start, earlier);
      match ops[|ops| - 1]
      case Push(v) => if i == tip then Some(v) else LastStored(start, earlier, i)
      case Replace(j, v) => if j == i && base <= i < tip then Some(v) else LastStored(start, earlier, i)
      case Truncate(_) => LastStored(start, earlier, i)
      case Prune(_) => LastStored(start, earlier, i)
  }

  /** After any operations, an index reads as the last value stored at it exactly when it is
      between the base and the tip. */
  lemma {:induction false} ReadsLastStored<V>(start: nat, ops: seq<Op<V>>, i: nat)
    ensures var r := Run(Ring(start, []), ops);
            && (r.base, r.Tip()) == Bounds(start, ops)
            && r.Get(i) == if r.base <= i < r.Tip() then LastStored(start, ops, i) else None
  {
    if ops != [] {
      ReadsLastStored(start, ops[..|ops| - 1], i);
    }
  }

  // ---- The slot array ----

  datatype Slot<V> = Empty | Entry(index: nat, value: V)

  /** The slot an index maps to. */
  function SlotOf<V>(slots: seq<Slot<V>>, i: nat): Slot<V>
    requires |slots| > 0
  {
    slots[i % |slots|]
  }

  lemma SlotsDiffer(i: nat, j: nat, n: nat)
    requires 0 < n && i < j < i + n
    ensures i % n != j % n
  {
    var a, b := i / n, j / n;
    assert i == n * a + i % n && j == n * b + j % n;
    if i % n == j % n {
      Multiple(n, a, b);
    }
  }

  lemma Multiple(n: nat, a: int, b: int)
    requires n > 0
    ensures n * b - n * a <= 0 || n * b - n * a >= n
  {
    var d := b - a;
    assert n * b - n * a == n * d;
    if d >= 1 {
      assert n * d == n + n * (d - 1);
      assert n * (d - 1) >= 0;
    } else {
      assert n * -d >= 0;
    }
  }

  /** Index `i` of the window sits in its slot under its own tag. */
  ghost predicate Placed<V>(slots: seq<Slot<V>>, r: Ring<V>, i: nat) {
    |slots| > 0 && r.base <= i < r.Tip() && SlotOf(slots, i) == Entry(i, r.contents[i - r.base])
  }

  ghost predicate Holds<V>(slots: seq<Slot<V>>, r: Ring<V>) {
    && 0 < |slots| && |r.contents| <= |slots|
    && forall i: nat :: r.base <= i < r.Tip() ==> Placed(slots, r, i)
  }

  /** The part of a window below `index`. */
  ghost function FirstOf<V>(r: Ring<V>, index: nat): Ring<V>
    requires r.base <= index <= r.Tip()
  {
    Ring(r.base, r.contents[..index - r.base])
  }

  /** Storing at one index of a window leaves the slots of the others alone. */
  lemma StoreKeepsOthers<V>(slots: seq<Slot<V>>, r: Ring<V>, i: nat, s: Slot<V>, j: nat)
    requires |slots| > 0 && r.base <= i < r.base + |slots| && r.base <= j < r.base + |slots| && i != j
    ensures SlotOf(slots[i % |slots| := s], j) == SlotOf(slots, j)
  {
    if i < j {
      SlotsDiffer(i, j, |slots|);
    } else {
      SlotsDiffer(j, i, |slots|);
    }
  }

  lemma PushHolds<V>(slots: seq<Slot<V>>, r: Ring<V>, v: V)
    requires Holds(slots, r) && |r.contents| < |slots|
    ensures Holds(slots[r.Tip() % |slots| := Entry(r.Tip(), v)], r.Push(v))
  {
    var out, next := slots[r.Tip() % |slots| := Entry(r.Tip(), v)], r.Push(v);
    forall i: nat | next.base <= i < next.Tip() ensures Placed(out, next, i) {
      if i < r.Tip() {
        StoreKeepsOthers(slots, r, r.Tip(), Entry(r.Tip(), v), i);
        assert Placed(slots, r, i);
      }
    }
  }

  lemma ReplaceHolds<V>(slots: seq<Slot<V>>, r: Ring<V>, at: nat, v: V)
    requires Holds(slots, r) && r.base <= at < r.Tip()
    ensures Holds(slots[at % |slots| := Entry(at, v)], r.Replace(at, v))
  {
    var out, next := slots[at % |slots| := Entry(at, v)], r.Replace(at, v);
    forall i: nat | next.base <= i < next.Tip() ensures Placed(out, next, i) {
      if i != at {
        StoreKeepsOthers(slots, r, at, Entry(at, v), i);
        assert Placed(slots, r, i);
      }
    }
  }

  /** A shorter window needs no change to the slots. */
  lemma NarrowHolds<V>(slots: seq<Slot<V>>, r: Ring<V>, n: nat)
    requires Holds(slots, r)
    ensures Holds(slots, r.Truncate(n)) && Holds(slots, r.Prune(n))
  {
    forall i: nat | r.base <= i < r.Tip() ensures Placed(slots, r, i) {}
    var t, p := r.Truncate(n), r.Prune(n);
    forall i: nat | t.base <= i < t.Tip() ensures Placed(slots, t, i) {
      assert Placed(slots, r, i);
    }
    forall i: nat | p.base <= i < p.Tip() ensures Placed(slots, p, i) {
      assert Placed(slots, r, i);
    }
  }

  const DEFAULT_CAPACITY := 64

  lemma HoldsNothing<V>(slots: seq<Slot<V>>, r: Ring<V>, full: seq<Slot<V>>)
    requires Holds(full, r) && |slots| >= |full|
    ensures Holds(slots, FirstOf(r, r.base))
  {
  }

  /** Copying one live entry extends what the copy holds. */
  lemma CopyStep<V>(from: seq<Slot<V>>, r: Ring<V>, before: seq<Slot<V>>, index: nat)
    requires Holds(from, r) && r.base <= index < r.Tip() && |before| >= |from|
    requires Holds(before, FirstOf(r, index))
    ensures 0 < |from| && 0 < |before|
    ensures var entry := SlotOf(from, index);
            && entry.Entry? && entry.index == index
            && Holds(before[index % |before| := entry], FirstOf(r, index + 1))
  {
    hide FirstOf;
    var entry := SlotOf(from, index);
    assert Placed(from, r, index);
    FirstOfNext(r, index, entry.value);
    PushHolds(before, FirstOf(r, index), entry.value);
  }

  lemma FirstOfNext<V>(r: Ring<V>, index: nat, v: V)
    requires r.base <= index < r.Tip() && v == r.contents[index - r.base]
    ensures FirstOf(r, index).Push(v) == FirstOf(r, index + 1)
    ensures FirstOf(r, index).Tip() == index && FirstOf(r, index).base == r.base
  {
  }

  class AtomicRing<V> {
    var base: nat
    var tip: nat
    var slots: array<Slot<V>>
    ghost var window: Ring<V>

    ghost predicate Valid()
      reads this, slots
    {
      base == window.base && tip == window.Tip() && Holds(slots[..], window)
    }

    constructor WithCapacity(base: nat, capacity: nat)
      requires capacity > 0
      ensures Valid() && window == Ring(base, []) && fresh(slots) && slots.Length == capacity
    {
      this.base, this.tip, this.window := base, base, Ring(base, []);
      this.slots := new Slot<V>[capacity](_ => Empty);
    }

    constructor (base: nat)
      ensures Valid() && window == Ring(base, []) && fresh(slots) && slots.Length == DEFAULT_CAPACITY
    {
      this.base, this.tip, this.window := base, base, Ring(base, []);
      this.slots := new Slot<V>[DEFAULT_CAPACITY](_ => Empty);
    }

    /** Appends at the next index, growing at most once when the window fills the array. */
    method Push(value: V) returns (index: nat)
      requires Valid()
      modifies this, slots
      ensures Valid() && (slots == old(slots) || fresh(slots))
      ensures index == old(tip) && window == old(window).Push(value)
      ensures slots.Length == if old(tip - base) < old(slots.Length) then old(slots.Length) else 2 * old(slots.Length)
      decreases if tip - base >= slots.Length then 1 else 0
    {
      index := tip;
      if index - base >= slots.Length {
        Grow();
        index := Push(value);
        return;
      }
      PushHolds(slots[..], window, value);
      ghost var before := slots[..];
      slots[index % slots.Length] := Entry(index, value);
      assert slots[..] == before[index % |before| := Entry(index, value)];
      tip := index + 1;
      window := window.Push(value);
    }

    /** The value at `index`, read through its slot's tag. */
    method Get(index: nat) returns (r: Option<V>)
      requires Valid()
      ensures r == window.Get(index)
    {
      if index < base || index >= tip {
        return None;
      }
      assert Placed(slots[..], window, index);
      var slot := slots[index % slots.Length];
      r := if slot.Entry? && slot.index == index then Some(slot.value) else None;
    }

    method Replace(index: nat, value: V)
      requires Valid()
      modifies this`window, slots
      ensures Valid() && window == old(window).Replace(index, value)
    {
      if index < base || index >= tip {
        return;
      }
      ReplaceHolds(slots[..], window, index, value);
      ghost var before := slots[..];
      slots[index % slots.Length] := Entry(index, value);
      assert slots[..] == before[index % |before| := Entry(index, value)];
      window := window.Replace(index, value);
    }

    method TruncateFrom(from: nat)
      requires Valid()
      modifies this`tip, this`window
      ensures Valid() && window == old(window).Truncate(from)
    {
      NarrowHolds(slots[..], window, from);
      tip := Clamp(from, base, tip);
      window := window.Truncate(from);
    }

    method PruneBelow(below: nat)
      requires Valid()
      modifies this`base, this`window
      ensures Valid() && window == old(window).Prune(below)
    {
      NarrowHolds(slots[..], window, below);
      base := Clamp(below, base, tip);
      window := window.Prune(below);
    }

    /** Any one operation. */
    method Perform(op: Op<V>)
      requires Valid()
      modifies this, slots
      ensures Valid() && (slots == old(slots) || fresh(slots)) && window == Step(old(window), op)
    {
      match op {
        case Push(value) => var _ := Push(value);
        case Replace(index, value) => Replace(index, value);
        case Truncate(from) => TruncateFrom(from);
        case Prune(below) => PruneBelow(below);
      }
    }

    /** Copies the live entries into an array of `capacity` slots. */
    method CopySlots(capacity: nat) returns (copy: array<Slot<V>>)
      requires Valid() && capacity >= slots.Length
      ensures fresh(copy) && copy.Length == capacity && Holds(copy[..], window)
    {
      hide Holds;
      copy := new Slot<V>[capacity](_ => Empty);
      HoldsNothing(copy[..], window, slots[..]);
      for index := base to tip
        invariant fresh(copy) && copy.Length == capacity && Valid()
        invariant Holds(copy[..], FirstOf(window, index))
      {
        ghost var before := copy[..];
        CopyStep(slots[..], window, before, index);
        var entry := slots[index % slots.Length];
        if entry.Entry? && entry.index == index {
          copy[index % copy.Length] := entry;
          assert copy[..] == before[index % |before| := entry];
        }
      }
      assert FirstOf(window, tip) == window;
    }

    /** Doubles the capacity. */
    method Grow()
      requires Valid()
      modifies this`slots
      ensures Valid() && fresh(slots) && slots.Length == 2 * old(slots.Length)
    {
      slots := CopySlots(slots.Length * 2);
    }

    /** An independent ring over the same window: it owns its slot array. */
    method Fork() returns (copy: AtomicRing<V>)
      requires Valid()
      ensures fresh(copy) && fresh(copy.slots) && copy.Valid() && copy.window == window
    {
      var own := CopySlots(slots.Length);
      copy := new AtomicRing.WithCapacity(base, 1);
      copy.tip, copy.slots, copy.window := tip, own, window;
    }
  }

  /** An operation on the original or on its fork. */
  datatype Sided<V> = Sided(onFork: bool, op: Op<V>)

  /** The operations of one side, in order. */
  function OpsOf<V>(ops: seq<Sided<V>>, onFork: bool): seq<Op<V>> {
    if ops == [] then []
    else OpsOf(ops[..|ops| - 1], onFork) + if ops[|ops| - 1].onFork == onFork then [ops[|ops| - 1].op] else []
  }

  lemma OpsNext<V>(r: Ring<V>, ops: seq<Sided<V>>, n: nat, onFork: bool)
    requires n < |ops|
    ensures var before := Run(r, OpsOf(ops[..n], onFork));
            Run(r, OpsOf(ops[..n + 1], onFork)) == if ops[n].onFork == onFork then Step(before, ops[n].op) else before
  {
    hide Step;
    assert ops[..n + 1][..n] == ops[..n];
    var before := OpsOf(ops[..n], onFork);
    assert (before + [ops[n].op])[..|before|] == before && before + [] == before;
    assert OpsOf(ops[..n + 1], onFork) == before + if ops[n].onFork == onFork then [ops[n].op] else [];
  }

  /** Forks are independent: under every interleaving of operations on the two, each window is
      what its own operations make of the window that was forked. */
  method ForkIsIndependent<V>(ring: AtomicRing<V>, ops: seq<Sided<V>>) returns (copy: AtomicRing<V>)
    requires ring.Valid()
    modifies ring, ring.slots
    ensures copy.Valid() && ring.Valid() && fresh(copy)
    ensures ring.window == Run(old(ring.window), OpsOf(ops, false))
    ensures copy.window == Run(old(ring.window), OpsOf(ops, true))
  {
    hide Run;
    hide OpsOf;
    hide Step;
    copy := ring.Fork();
    NoOps(ring.window, ops);
    for n := 0 to |ops|
      invariant ring.Valid() && copy.Valid() && fresh(copy) && fresh(copy.slots)
      invariant ring.slots == old(ring.slots) || fresh(ring.slots)
      invariant copy != ring && copy.slots != ring.slots
      invariant ring.window == Run(old(ring.window), OpsOf(ops[..n], false))
      invariant copy.window == Run(old(ring.window), OpsOf(ops[..n], true))
    {
      OpsNext(old(ring.window), ops, n, false);
      OpsNext(old(ring.window), ops, n, true);
      if ops[n].onFork {
        copy.Perform(ops[n].op);
      } else {
        ring.Perform(ops[n].op);
      }
    }
    assert ops[..|ops|] == ops;
  }

  lemma NoOps<V>(r: Ring<V>, ops: seq<Sided<V>>)
    ensures Run(r, OpsOf(ops[..0], false)) == r && Run(r, OpsOf(ops[..0], true)) == r
  {
  }
}
