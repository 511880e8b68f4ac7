/**
  Behaviour of the source that its own documentation does not intend, each
  shown on a concrete input, next to a corrected definition with the intended
  property proved.
 */
module Corrections {
  import opened Wrappers
  import opened IndexArithmetic
  import opened SubStrings
  import opened Balance
  import opened Selector

  // ---------------------------------------------------------------------------
  // Balanced scan: the loop never reaches `return nil`
  // ---------------------------------------------------------------------------

  /**
    As written: an unclosed opener makes the loop spin forever on the last
    position, and a closer in the last position is re-read until the depth
    reaches zero, so an unbalanced slice is returned.
   */
  lemma BalancedAsWrittenCounterexamples()
    ensures FindBalanced("{a", {'{'}, {'}'}) == Diverges
    ensures FindBalanced("{{a}", {'{'}, {'}'}) == Found(Make("{{a}", 1, 3))
    ensures Bal("{{a}"[1..3], {'{'}, {'}'}) == 1
  {
    UnclosedDiverges();
    NestedUnclosedReturns();
  }

  /** "{a": the only opener is never closed and the last character is not a closer. */
  lemma UnclosedDiverges()
    ensures FindBalanced("{a", {'{'}, {'}'}) == Diverges
  {
    assert IsLeftmost("{a", {'{'}, 0, 0);
    assert ScanFrom("{a", {'{'}, {'}'}, 1, 1, 1) == Diverges;
  }

  /** "{{a}": the final '}' is read again until the depth reaches zero, leaving "{a" open. */
  lemma NestedUnclosedReturns()
    ensures FindBalanced("{{a}", {'{'}, {'}'}) == Found(Make("{{a}", 1, 3))
    ensures Bal("{{a}"[1..3], {'{'}, {'}'}) == 1
  {
    assert IsLeftmost("{{a}", {'{'}, 0, 0);
    var o, c := {'{'}, {'}'};
    assert ScanFrom("{{a}", o, c, 1, 1, 1) == ScanFrom("{{a}", o, c, 1, 2, 2);
    assert "{{a}"[1..3] == "{a";
    assert "{a"[..1] == "{";
    assert "{"[..0] == "";
  }

  /** The intended scan: walk to the end of the buffer and report no match there. */
  function ScanToEnd(s: string, openers: set<char>, closers: set<char>, lower: nat, i: nat, depth: int): (r: Scan)
    requires lower <= i <= |s| && depth >= 1
    ensures !r.Diverges?
    ensures r.Found? ==> r.view.parent == s && r.view.lower == lower && r.view.cursor == lower
    ensures r.Found? ==> i <= r.view.upper < |s|
    ensures r.Found? ==> s[r.view.upper] in closers && s[r.view.upper] !in openers
    decreases |s| - i
  {
    if i == |s| then NotFound
    else
      var c := s[i];
      if c in openers then ScanToEnd(s, openers, closers, lower, i + 1, depth + 1)
      else if c in closers && depth == 1 then Found(Make(s, lower, i))
      else ScanToEnd(s, openers, closers, lower, i + 1, if c in closers then depth - 1 else depth)
  }

  /**
    With the scan invariant, the intended scan finds a slice with as many
    openers as pure closers, followed by a pure closer, and reports no match
    exactly when the depth never drops to zero.
   */
  lemma {:induction false} ScanToEndSpec(s: string, openers: set<char>, closers: set<char>, lower: nat, i: nat, depth: int)
    requires lower <= i <= |s| && depth >= 1
    requires depth == 1 + Bal(s[lower..i], openers, closers)
    requires NeverNegative(s, openers, closers, lower, i)
    ensures var r := ScanToEnd(s, openers, closers, lower, i, depth);
            r.Found? ==> && s[r.view.upper] in closers && s[r.view.upper] !in openers
                         && NeverNegative(s, openers, closers, lower, r.view.upper)
                         && Bal(s[lower..r.view.upper], openers, closers) == 0
    ensures ScanToEnd(s, openers, closers, lower, i, depth).NotFound? <==> NeverNegative(s, openers, closers, lower, |s|)
    decreases |s| - i
  {
    if i < |s| {
      var c := s[i];
      BalStep(s, lower, i, openers, closers);
      if c in openers || c !in closers || depth > 1 {
        var d := if c in openers then depth + 1 else if c in closers then depth - 1 else depth;
        assert NeverNegative(s, openers, closers, lower, i + 1);
        ScanToEndSpec(s, openers, closers, lower, i + 1, d);
      } else {
        assert Bal(s[lower..i + 1], openers, closers) < 0;
      }
    }
  }

  /** The corrected `findSubString(between:and:)`: it always terminates, and a match is balanced. */
  function FindBalancedToEnd(s: string, openers: set<char>, closers: set<char>): (r: Scan)
    ensures !r.Diverges?
    ensures r.Found? ==> IsLeftmost(s, openers, 0, r.view.lower - 1)
    ensures r.Found? ==> r.view.lower <= r.view.upper < |s|
    ensures r.Found? ==> Openers(s[r.view.lower..r.view.upper], openers) == PureClosers(s[r.view.lower..r.view.upper], openers, closers)
    ensures r.Found? ==> NeverNegative(s, openers, closers, r.view.lower, r.view.upper)
    ensures r.Found? ==> s[r.view.upper] in closers && s[r.view.upper] !in openers
    ensures var rg := RangeForStartingCharacters(s, openers);
            rg.Some? ==> (r.NotFound? <==> NeverNegative(s, openers, closers, rg.value.lower, |s|))
  {
    match RangeForStartingCharacters(s, openers)
    case None => NotFound
    case Some(rg) =>
      assert s[rg.lower..rg.lower] == [];
      ScanToEndSpec(s, openers, closers, rg.lower, rg.lower, 1);
      ScanToEnd(s, openers, closers, rg.lower, rg.lower, 1)
  }

  lemma BalancedToEndExamples()
    ensures FindBalancedToEnd("{a", {'{'}, {'}'}) == NotFound
    ensures FindBalancedToEnd("{{a}", {'{'}, {'}'}) == NotFound
  {
    assert IsLeftmost("{a", {'{'}, 0, 0);
    assert IsLeftmost("{{a}", {'{'}, 0, 0);
  }

  // ---------------------------------------------------------------------------
  // Word search: a word ending at the buffer's end is never found
  // ---------------------------------------------------------------------------

  /** As written: "bc" occurs at the end of "abc", yet no position satisfies the search's bound. */
  lemma WordSuffixCounterexample()
    ensures "abc"[1..3] == "bc"
    ensures forall j :: !WordMatchAt("abc", "bc", j)
  {
    assert "abc"[0..2][0] != "bc"[0];
  }

  /** A match of `word` at `i` whose end may be the one-past-the-end sentinel. */
  ghost predicate WordFitsAt(s: string, word: string, i: int) {
    0 <= i && i + |word| <= |s| && s[i..i + |word|] == word
  }

  /** The intended word search from `from`: the end of a match may be `countIndex`. */
  function FindWordFrom(s: string, word: string, from: nat): (r: Option<View>)
    ensures r.Some? ==> r.value.parent == s && r.value.cursor == r.value.lower
    ensures r.Some? ==> from <= r.value.lower && r.value.upper == r.value.lower + |word|
    ensures r.Some? ==> WordFitsAt(s, word, r.value.lower)
    ensures r.Some? ==> forall j :: from <= j < r.value.lower ==> !WordFitsAt(s, word, j)
    ensures r.None? <==> forall j :: from <= j ==> !WordFitsAt(s, word, j)
    decreases |s| - from
  {
    if from + |word| > |s| then None
    else if s[from..from + |word|] == word then Some(Make(s, from, from + |word|))
    else FindWordFrom(s, word, from + 1)
  }

  lemma WordSuffixFound()
    ensures FindWordFrom("abc", "bc", 0) == Some(Make("abc", 1, 3))
  {
    assert "abc"[0..2][0] != "bc"[0];
  }

  // ---------------------------------------------------------------------------
  // decrement: offset 0 is never produced
  // ---------------------------------------------------------------------------

  /** As written: decrementing position 1 fails although position 0 exists. */
  lemma DecrementCounterexample()
    ensures Decrement("ab", 1) == None && Dereferenceable("ab", 0)
  {
  }

  /** The intended `decrement(in:)`: fails only below offset 0. */
  function DecrementToZero(parent: string, i: nat): (r: Option<nat>)
    ensures r.Some? <==> i >= 1
    ensures r.Some? ==> r.value + 1 == i
  {
    if i - 1 >= 0 then Some(i - 1) else None
  }

  /** The corrected decrement undoes increment at every position, and conversely. */
  lemma DecrementToZeroRoundTrip(parent: string, i: nat)
    ensures Increment(parent, i).Some? ==> DecrementToZero(parent, Increment(parent, i).value) == Some(i)
    ensures DecrementToZero(parent, i).Some? && Dereferenceable(parent, i) ==>
              Increment(parent, DecrementToZero(parent, i).value) == Some(i)
  {
  }
}
