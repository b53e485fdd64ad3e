/** The scheduled transactions and what running them one by one would give. */
module SchedProgram {
  import opened Options

  /** A resource's data and the batch that last wrote it. */
  datatype Value = Value(version: nat, data: string)

  datatype Access = Access(resource: nat, write: bool)

  /** A transaction with its declared accesses, in its batch. */
  datatype Tx = Tx(batch: nat, accesses: seq<Access>)

  /** What processing transaction `t` on its resources' values gives; none on failure. */
  type Processor = (nat, seq<Value>) -> Option<seq<Value>>

  /** Everything scheduled, in order, over the values stored before. */
  datatype Program = Program(txs: seq<Tx>, run: Processor, initial: nat -> Value)

  /** One transaction's access. */
  datatype Id = Id(tx: nat, k: nat)

  predicate IsAccess(pr: Program, a: Id) {
    a.tx < |pr.txs| && a.k < |pr.txs[a.tx].accesses|
  }

  function ResourceOf(pr: Program, a: Id): nat
    requires IsAccess(pr, a)
  {
    pr.txs[a.tx].accesses[a.k].resource
  }

  predicate Writes(pr: Program, a: Id)
    requires IsAccess(pr, a)
  {
    pr.txs[a.tx].accesses[a.k].write
  }

  function BatchOf(pr: Program, a: Id): nat
    requires IsAccess(pr, a)
  {
    pr.txs[a.tx].batch
  }

  /** Batches follow each other, and no transaction declares a resource twice. */
  ghost predicate WellFormed(pr: Program) {
    && (forall t, u :: 0 <= t <= u < |pr.txs| ==> pr.txs[t].batch <= pr.txs[u].batch)
    && (forall t, i, j :: 0 <= t < |pr.txs| && 0 <= i < j < |pr.txs[t].accesses| ==>
          pr.txs[t].accesses[i].resource != pr.txs[t].accesses[j].resource)
  }

  /** The access of transaction `t` to `r`. */
  function AccessTo(pr: Program, t: nat, r: nat, from: nat): (a: Option<Id>)
    requires t < |pr.txs| && from <= |pr.txs[t].accesses|
    ensures a.Some? ==> a.value.tx == t && IsAccess(pr, a.value) && ResourceOf(pr, a.value) == r
    ensures a.None? ==> forall k :: from <= k < |pr.txs[t].accesses| ==> pr.txs[t].accesses[k].resource != r
    decreases |pr.txs[t].accesses| - from
  {
    if from == |pr.txs[t].accesses| then None
    else if pr.txs[t].accesses[from].resource == r then Some(Id(t, from))
    else AccessTo(pr, t, r, from + 1)
  }

  /** Transaction `t`'s access to `r`, if it declares one. */
  function Find(pr: Program, t: nat, r: nat): Option<Id>
    requires t < |pr.txs|
  {
    AccessTo(pr, t, r, 0)
  }

  lemma FindIsUnique(pr: Program, a: Id)
    requires WellFormed(pr) && IsAccess(pr, a)
    ensures Find(pr, a.tx, ResourceOf(pr, a)) == Some(a)
  {
    var b := Find(pr, a.tx, ResourceOf(pr, a));
    assert b.Some?;
    assert !(b.value.k < a.k) && !(a.k < b.value.k);
  }

  // ---- Running one by one ----

  /** What access `a` leaves behind when its transaction reads `inputs`: reads and failed
      transactions leave what was there. */
  function Result(pr: Program, a: Id, inputs: seq<Value>): Value
    requires IsAccess(pr, a) && |inputs| == |pr.txs[a.tx].accesses|
  {
    if !Writes(pr, a) then inputs[a.k]
    else
      var out := pr.run(a.tx, inputs);
      if out.Some? && a.k < |out.value| then out.value[a.k] else inputs[a.k]
  }

  /** The value of `r` after the first `n` transactions. */
  function Serial(pr: Program, n: nat, r: nat): Value
    requires n <= |pr.txs|
    decreases n, 0
  {
    if n == 0 then pr.initial(r)
    else
      var a := Find(pr, n - 1, r);
      if a.None? then Serial(pr, n - 1, r) else Result(pr, a.value, SerialInputs(pr, n - 1))
  }

  /** What transaction `t` reads. */
  function SerialInputs(pr: Program, t: nat): (inputs: seq<Value>)
    requires t < |pr.txs|
    ensures |inputs| == |pr.txs[t].accesses|
    decreases t, 1
  {
    seq(|pr.txs[t].accesses|, k requires 0 <= k < |pr.txs[t].accesses| =>
          Serial(pr, t, pr.txs[t].accesses[k].resource))
  }

  function SerialRead(pr: Program, a: Id): Value
    requires IsAccess(pr, a)
  {
    Serial(pr, a.tx, ResourceOf(pr, a))
  }

  function SerialWritten(pr: Program, a: Id): Value
    requires IsAccess(pr, a)
  {
    Serial(pr, a.tx + 1, ResourceOf(pr, a))
  }

  lemma WrittenIsResult(pr: Program, a: Id)
    requires WellFormed(pr) && IsAccess(pr, a)
    ensures SerialWritten(pr, a) == Result(pr, a, SerialInputs(pr, a.tx))
    ensures !Writes(pr, a) ==> SerialWritten(pr, a) == SerialRead(pr, a)
  {
    FindIsUnique(pr, a);
  }

  /** A transaction that fails leaves every resource as it found it. */
  lemma FailureChangesNothing(pr: Program, t: nat, r: nat)
    requires t < |pr.txs| && pr.run(t, SerialInputs(pr, t)).None?
    ensures Serial(pr, t + 1, r) == Serial(pr, t, r)
  {
    var a := Find(pr, t, r);
    if a.Some? {
      assert SerialInputs(pr, t)[a.value.k] == Serial(pr, t, r);
    }
  }

  /** Transaction `t` may write `r`, and its output says what. */
  predicate Gives(pr: Program, t: nat, out: seq<Value>, k: nat, r: nat)
    requires t < |pr.txs|
  {
    k < |pr.txs[t].accesses| && k < |out| && pr.txs[t].accesses[k] == Access(r, true)
  }

  /** A transaction that succeeds leaves its outputs in the resources it declared for writing,
      and every other resource as it found it. */
  lemma SuccessLeavesItsOutputs(pr: Program, t: nat, out: seq<Value>, r: nat)
    requires WellFormed(pr) && t < |pr.txs| && pr.run(t, SerialInputs(pr, t)) == Some(out)
    ensures forall k: nat :: Gives(pr, t, out, k, r) ==> Serial(pr, t + 1, r) == out[k]
    ensures (forall k: nat :: !Gives(pr, t, out, k, r)) ==> Serial(pr, t + 1, r) == Serial(pr, t, r)
  {
    var a := Find(pr, t, r);
    forall k: nat | Gives(pr, t, out, k, r) ensures Serial(pr, t + 1, r) == out[k] {
      FindIsUnique(pr, Id(t, k));
    }
    if a.Some? && forall k: nat :: !Gives(pr, t, out, k, r) {
      assert !Gives(pr, t, out, a.value.k, r);
      assert SerialInputs(pr, t)[a.value.k] == Serial(pr, t, r);
    }
  }

  // ---- The chain of accesses to a resource ----

  /** No transaction of `[i, j)` declares `r`. */
  ghost predicate Untouched(pr: Program, i: nat, j: nat, r: nat) {
    j <= |pr.txs| && forall t :: i <= t < j ==> Find(pr, t, r).None?
  }

  lemma {:induction false} UntouchedKeepsValue(pr: Program, i: nat, j: nat, r: nat)
    requires i <= j && Untouched(pr, i, j, r)
    ensures Serial(pr, i, r) == Serial(pr, j, r)
  {
    if i < j {
      UntouchedKeepsValue(pr, i, j - 1, r);
    }
  }

  /** The last access to `r` before transaction `t`. */
  function Last(pr: Program, t: nat, r: nat): (p: Option<Id>)
    requires t <= |pr.txs|
    ensures p.Some? ==> p.value.tx < t && IsAccess(pr, p.value) && ResourceOf(pr, p.value) == r
  {
    if t == 0 then None
    else if Find(pr, t - 1, r).Some? then Find(pr, t - 1, r)
    else Last(pr, t - 1, r)
  }

  lemma {:induction false} LastIsLast(pr: Program, t: nat, r: nat)
    requires t <= |pr.txs|
    ensures Last(pr, t, r).None? ==> Untouched(pr, 0, t, r)
    ensures Last(pr, t, r).Some? ==> Untouched(pr, Last(pr, t, r).value.tx + 1, t, r)
  {
    if t > 0 && Find(pr, t - 1, r).None? {
      LastIsLast(pr, t - 1, r);
    }
  }

  /** The access before `a` to the same resource. */
  function Prev(pr: Program, a: Id): (p: Option<Id>)
    requires IsAccess(pr, a)
    ensures p.Some? ==> p.value.tx < a.tx && IsAccess(pr, p.value) && ResourceOf(pr, p.value) == ResourceOf(pr, a)
  {
    Last(pr, a.tx, ResourceOf(pr, a))
  }

  /** Values flow along the chain: what one access leaves is what the next one reads. */
  lemma ChainCarriesValues(pr: Program, a: Id)
    requires WellFormed(pr) && IsAccess(pr, a)
    ensures Prev(pr, a).Some? ==> SerialRead(pr, a) == SerialWritten(pr, Prev(pr, a).value)
    ensures Prev(pr, a).None? ==> SerialRead(pr, a) == pr.initial(ResourceOf(pr, a))
  {
    var r := ResourceOf(pr, a);
    LastIsLast(pr, a.tx, r);
    if Prev(pr, a).Some? {
      UntouchedKeepsValue(pr, Prev(pr, a).value.tx + 1, a.tx, r);
    } else {
      UntouchedKeepsValue(pr, 0, a.tx, r);
    }
  }

  lemma PrevIsInjective(pr: Program, a: Id, b: Id)
    requires WellFormed(pr) && IsAccess(pr, a) && IsAccess(pr, b)
    requires Prev(pr, a).Some? && Prev(pr, a) == Prev(pr, b)
    ensures a == b
  {
    var r := ResourceOf(pr, a);
    LastIsLast(pr, a.tx, r);
    LastIsLast(pr, b.tx, r);
    FindIsUnique(pr, a);
    FindIsUnique(pr, b);
  }
}
