/**
  Offset arithmetic on positions of a buffer (the `String.Index` extension and
  the `firstIndex` / `lastIndex` / `countIndex` helpers).

  A position is a code-unit offset into `parent`; the positions that may be
  dereferenced are `0 .. |parent| - 1`, and `|parent|` is the one-past-the-end
  sentinel (`countIndex`).
 */
module IndexArithmetic {
  import opened Wrappers

  /** A position that may be dereferenced in `parent`. */
  predicate Dereferenceable(parent: string, p: int) {
    0 <= p < |parent|
  }

  /** `countIndex`: the one-past-the-end sentinel. */
  function CountIndex(parent: string): (c: nat)
    ensures !Dereferenceable(parent, c)
    ensures forall p :: Dereferenceable(parent, p) ==> p < c
    ensures c == 0 || Dereferenceable(parent, c - 1)
  {
    |parent|
  }

  /** `firstIndex`: offset 0, absent for the empty string. */
  function FirstIndex(parent: string): (r: Option<nat>)
    ensures r.None? <==> |parent| == 0
    ensures r.Some? ==> Dereferenceable(parent, r.value)
    ensures r.Some? ==> forall p :: Dereferenceable(parent, p) ==> r.value <= p
  {
    if |parent| > 0 then Some(0) else None
  }

  /** `lastIndex`: the last dereferenceable offset, absent for the empty string. */
  function LastIndex(parent: string): (r: Option<nat>)
    ensures r.None? <==> |parent| == 0
    ensures r.Some? ==> Dereferenceable(parent, r.value)
    ensures r.Some? ==> forall p :: Dereferenceable(parent, p) ==> p <= r.value
  {
    if |parent| > 0 then Some(|parent| - 1) else None
  }

  /**
    `addToIndex(amount:in:)`: move a position by `amount` code units, failing
    unless the result is dereferenceable. Building an index at a negative offset
    traps in the source, hence the precondition.
   */
  function AddToIndex(parent: string, i: nat, amount: int): (r: Option<nat>)
    requires i + amount >= 0
    ensures r.Some? <==> Dereferenceable(parent, i + amount)
    ensures r.Some? ==> r.value - i == amount
    ensures r != Some(CountIndex(parent))
  {
    if i + amount < |parent| then Some(i + amount) else None
  }

  /** `increment(in:)`: the next position, failing at (and past) the last one. */
  function Increment(parent: string, i: nat): (r: Option<nat>)
    ensures r.Some? <==> Dereferenceable(parent, i + 1)
    ensures r.Some? ==> r.value > i && r.value - i == 1
    ensures |parent| > 0 && i < |parent| ==> (r.None? <==> Some(i) == LastIndex(parent))
  {
    if i + 1 < |parent| then Some(i + 1) else None
  }

  /** `decrement(in:)`: the previous position; the guard `> 0` means offset 0 is never produced. */
  function Decrement(parent: string, i: nat): (r: Option<nat>)
    ensures r.Some? <==> i >= 2
    ensures r.Some? ==> i - r.value == 1
    ensures r != Some(0)
  {
    if i - 1 > 0 then Some(i - 1) else None
  }

  /** Adding one is the same as incrementing, at every position. */
  lemma AddOneIsIncrement(parent: string, i: nat)
    ensures AddToIndex(parent, i, 1) == Increment(parent, i)
  {
  }

  /** No amount added to any position ever yields the one-past-the-end sentinel. */
  lemma AddNeverReachesCount(parent: string, i: nat, amount: int)
    requires i + amount >= 0
    ensures AddToIndex(parent, i, amount).Some? ==> AddToIndex(parent, i, amount).value < CountIndex(parent)
  {
  }

  /** Decrementing undoes incrementing, except when that would give offset 0. */
  lemma DecrementUndoesIncrement(parent: string, i: nat)
    requires Increment(parent, i).Some?
    ensures i > 0 ==> Decrement(parent, Increment(parent, i).value) == Some(i)
    ensures i == 0 ==> Decrement(parent, Increment(parent, i).value) == None
  {
  }

  /** Incrementing undoes decrementing for every dereferenceable position. */
  lemma IncrementUndoesDecrement(parent: string, i: nat)
    requires Decrement(parent, i).Some? && Dereferenceable(parent, i)
    ensures Increment(parent, Decrement(parent, i).value) == Some(i)
  {
  }

  /** For a non-empty buffer, firstIndex <= lastIndex < countIndex. */
  lemma IndexOrder(parent: string)
    requires |parent| > 0
    ensures FirstIndex(parent).Some? && LastIndex(parent).Some?
    ensures FirstIndex(parent).value <= LastIndex(parent).value < CountIndex(parent)
    ensures LastIndex(parent).value + 1 == CountIndex(parent)
  {
  }
}
