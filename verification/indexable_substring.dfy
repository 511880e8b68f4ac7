/**
  `IndexableSubString`: an immutable window `[lower, upper)` over a parent
  buffer. Every position it accepts or returns is an absolute offset into the
  parent, never renumbered to the window. The private `currentIndex` of the
  Swift struct is the `cursor` field; `next()` returns the updated view.
 */
module SubStrings {
  import opened Wrappers
  import opened IndexArithmetic

  datatype View = View(parent: string, lower: nat, upper: nat, cursor: nat)

  /** The range invariant of a `Range<String.Index>` over the parent, plus a cursor inside the parent. */
  predicate Valid(v: View) {
    v.lower <= v.upper <= |v.parent| && v.lower <= v.cursor <= |v.parent|
  }

  /** `init(parent:indexes:)`: a fresh view whose cursor is at the lower bound. */
  function Make(parent: string, lower: nat, upper: nat): (v: View)
    requires lower <= upper <= |parent|
    ensures Valid(v) && v.parent == parent
    ensures v.lower == lower && v.upper == upper && v.cursor == lower
  {
    View(parent, lower, upper, lower)
  }

  /** `subscript(position:)`: the parent's character at an absolute position. */
  function Subscript(v: View, p: nat): (c: char)
    requires Valid(v) && Dereferenceable(v.parent, p)
    ensures c == v.parent[p]
    ensures v.lower <= p < v.upper ==> c == v.parent[v.lower..v.upper][p - v.lower]
  {
    v.parent[p]
  }

  /** `value`: the slice of the parent the view denotes. */
  function Value(v: View): (r: string)
    requires Valid(v)
    ensures |r| == v.upper - v.lower
    ensures forall p :: v.lower <= p < v.upper ==> r[p - v.lower] == Subscript(v, p)
  {
    v.parent[v.lower..v.upper]
  }

  /** `count`: the number of code units spanned, i.e. the length of `value`. */
  function Count(v: View): (n: int)
    requires Valid(v)
    ensures n == |Value(v)|
    ensures n == 0 <==> v.lower == v.upper
  {
    v.upper - v.lower
  }

  /**
    `index(after:)`: the next position, saturating at the parent's last
    position. The view's own upper bound plays no part.
   */
  function IndexAfter(v: View, i: nat): (j: nat)
    ensures j == i || j == i + 1
    ensures j == i + 1 <==> Dereferenceable(v.parent, i + 1)
    ensures Dereferenceable(v.parent, i) ==> Dereferenceable(v.parent, j)
  {
    match Increment(v.parent, i)
    case Some(n) => n
    case None => i
  }

  /** The first position of `[from, v.upper)` whose character satisfies `pred`. */
  function FirstFrom(v: View, pred: char -> bool, from: nat): (r: Option<nat>)
    requires Valid(v) && v.lower <= from <= v.upper
    ensures r.Some? ==> from <= r.value < v.upper && pred(v.parent[r.value])
    ensures r.Some? ==> forall q :: from <= q < r.value ==> !pred(v.parent[q])
    ensures r.None? <==> forall q :: from <= q < v.upper ==> !pred(v.parent[q])
    decreases v.upper - from
  {
    if from == v.upper then None
    else if pred(v.parent[from]) then Some(from)
    else FirstFrom(v, pred, from + 1)
  }

  /**
    `firstIndex(where:)`: the least absolute position in `[lower, upper)` whose
    character satisfies `pred`, absent exactly when there is none.
   */
  function FirstIndexWhere(v: View, pred: char -> bool): (r: Option<nat>)
    requires Valid(v)
    ensures r.Some? ==> v.lower <= r.value < v.upper && pred(v.parent[r.value])
    ensures r.Some? ==> forall q :: v.lower <= q < r.value ==> !pred(v.parent[q])
    ensures r.None? <==> forall q :: v.lower <= q < v.upper ==> !pred(v.parent[q])
  {
    FirstFrom(v, pred, v.lower)
  }

  /**
    `next()`: the character under the cursor, never absent, and the view with
    its cursor moved by `index(after:)`; the bounds and parent never change.
    Reading at the one-past-the-end sentinel traps in the source.
   */
  function Next(v: View): (r: (Option<char>, View))
    requires Valid(v) && Dereferenceable(v.parent, v.cursor)
    ensures r.0 == Some(v.parent[v.cursor])
    ensures Valid(r.1) && Dereferenceable(r.1.parent, r.1.cursor)
    ensures r.1.parent == v.parent && r.1.lower == v.lower && r.1.upper == v.upper
    ensures r.1.cursor == v.cursor + 1 || (r.1.cursor == v.cursor == |v.parent| - 1)
  {
    (Some(v.parent[v.cursor]), v.(cursor := IndexAfter(v, v.cursor)))
  }

  /** The characters produced by `k` successive calls of `next()`. */
  function Drain(v: View, k: nat): (cs: seq<char>)
    requires Valid(v) && Dereferenceable(v.parent, v.cursor)
    ensures |cs| == k
    ensures k > 0 ==> cs[0] == v.parent[v.cursor]
    decreases k
  {
    if k == 0 then []
    else
      var (c, v') := Next(v);
      [c.value] + Drain(v', k - 1)
  }

  function Min(a: int, b: int): int {
    if a <= b then a else b
  }

  /**
    The `j`-th call of `next()` on a view yields the parent's character at
    `cursor + j`, clamped to the parent's last position: the iterator never
    ends and repeats the last character forever.
   */
  lemma {:induction false} DrainRepeatsLast(v: View, k: nat)
    requires Valid(v) && Dereferenceable(v.parent, v.cursor)
    ensures forall j :: 0 <= j < k ==> Drain(v, k)[j] == v.parent[Min(v.cursor + j, |v.parent| - 1)]
    decreases k
  {
    if k > 0 {
      var (c, v') := Next(v);
      var rest := Drain(v', k - 1);
      DrainRepeatsLast(v', k - 1);
      assert Drain(v, k) == [c.value] + rest;
      forall j | 0 <= j < k
        ensures Drain(v, k)[j] == v.parent[Min(v.cursor + j, |v.parent| - 1)]
      {
        if j > 0 {
          assert Drain(v, k)[j] == rest[j - 1];
          assert Min(v'.cursor + (j - 1), |v.parent| - 1) == Min(v.cursor + j, |v.parent| - 1);
        }
      }
    }
  }

  /** A fresh view's first `k` characters from `next()` start at its lower bound. */
  lemma FreshViewIteration(parent: string, lower: nat, upper: nat, k: nat)
    requires lower <= upper <= |parent| && lower < |parent|
    ensures forall j :: 0 <= j < k ==>
      Drain(Make(parent, lower, upper), k)[j] == parent[Min(lower + j, |parent| - 1)]
  {
    DrainRepeatsLast(Make(parent, lower, upper), k);
  }

  /** Position reached after `k` applications of `index(after:)`. */
  function AdvanceN(v: View, i: nat, k: nat): nat
    decreases k
  {
    if k == 0 then i else AdvanceN(v, IndexAfter(v, i), k - 1)
  }

  /**
    When a view extends to the parent's end, walking its indices with
    `index(after:)` never reaches `endIndex`: the positions climb to the
    parent's last position and stay there.
   */
  lemma {:induction false} IndicesNeverReachEnd(v: View, i: nat, k: nat)
    requires Valid(v) && v.upper == |v.parent| && v.lower <= i < |v.parent|
    ensures AdvanceN(v, i, k) == Min(i + k, |v.parent| - 1)
    ensures AdvanceN(v, i, k) != v.upper
    decreases k
  {
    if k > 0 {
      IndicesNeverReachEnd(v, IndexAfter(v, i), k - 1);
    }
  }
}
