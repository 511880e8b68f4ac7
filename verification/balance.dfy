/**
  Opener/closer bookkeeping used by the balanced scan. A character in the
  opener set always counts as an opener, even if it is also a closer; a
  "pure closer" is a closer that is not an opener.
 */
module Balance {

  /** The change a character makes to the nesting depth. */
  function Delta(c: char, openers: set<char>, closers: set<char>): int {
    if c in openers then 1 else if c in closers then -1 else 0
  }

  /** Number of openers in `t`. */
  function Openers(t: string, openers: set<char>): nat
    decreases |t|
  {
    if |t| == 0 then 0
    else Openers(t[..|t| - 1], openers) + (if t[|t| - 1] in openers then 1 else 0)
  }

  /** Number of closers in `t` that are not also openers. */
  function PureClosers(t: string, openers: set<char>, closers: set<char>): nat
    decreases |t|
  {
    if |t| == 0 then 0
    else
      var c := t[|t| - 1];
      PureClosers(t[..|t| - 1], openers, closers) + (if c !in openers && c in closers then 1 else 0)
  }

  /** Openers minus pure closers: the depth gained over `t`. */
  function Bal(t: string, openers: set<char>, closers: set<char>): int {
    Openers(t, openers) - PureClosers(t, openers, closers)
  }

  /** Appending one character changes the balance by that character's `Delta`. */
  lemma BalSnoc(t: string, c: char, openers: set<char>, closers: set<char>)
    ensures Bal(t + [c], openers, closers) == Bal(t, openers, closers) + Delta(c, openers, closers)
  {
    assert (t + [c])[..|t|] == t;
  }

  /** The balance of `s[lower..j+1]` is that of `s[lower..j]` plus the change made by `s[j]`. */
  lemma BalStep(s: string, lower: nat, j: nat, openers: set<char>, closers: set<char>)
    requires lower <= j < |s|
    ensures Bal(s[lower..j + 1], openers, closers) == Bal(s[lower..j], openers, closers) + Delta(s[j], openers, closers)
  {
    assert s[lower..j + 1] == s[lower..j] + [s[j]];
    BalSnoc(s[lower..j], s[j], openers, closers);
  }

  /** Every prefix `s[lower..j]` with `j` in `[lower, upto]` has no more pure closers than openers. */
  ghost predicate NeverNegative(s: string, openers: set<char>, closers: set<char>, lower: nat, upto: int)
    requires lower <= |s|
  {
    forall j :: lower <= j <= upto && j <= |s| ==> Bal(s[lower..j], openers, closers) >= 0
  }
}
