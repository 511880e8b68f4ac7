/**
  The scenarios of the selector tests on the buffer "abc$123}{d{ef}g}hi",
  stated as facts about the model.
 */
module SelectorExamples {
  import opened Wrappers
  import opened SubStrings
  import opened Selector

  const Parent: string := "abc$123}{d{ef}g}hi"

  lemma DollarRange()
    ensures RangeForStartingCharactersAfter(Parent, {'$'}, 0) == Some(Range(4, 18))
  {
    assert IsLeftmost(Parent, {'$'}, 1, 3);
  }

  lemma BraceRange()
    ensures RangeForStartingCharactersAfter(Parent, {'{'}, 0) == Some(Range(9, 18))
  {
    assert IsLeftmost(Parent, {'{'}, 1, 8);
  }

  /** The slices the scenarios expect, read off the buffer. */
  lemma ExpectedValues()
    ensures Value(Make(Parent, 4, 7)) == "123"
    ensures Value(Make(Parent, 9, 15)) == "d{ef}g"
    ensures Value(Make(Parent, 15, 17)) == "}h"
  {
  }

  lemma BetweenDollarAndBrace()
    ensures FindSubStringAfterBetween(Parent, 0, '$', '}') == Some(Make(Parent, 4, 7))
    ensures Value(Make(Parent, 4, 7)) == "123"
  {
    ExpectedValues();
    var v := Make(Parent, 4, 7);
    assert IsLeftmost(Parent, {'$'}, 1, 3);
    assert IsLeftmost(Parent, {'}'}, 4, 7);
    assert UnbalancedMatchAfter(Parent, {'$'}, {'}'}, 0, v);
    var r := FindSubStringAfterBetween(Parent, 0, '$', '}');
    UnbalancedMatchUnique(Parent, {'$'}, {'}'}, 1, r.value, v);
  }

  /** The inner pair "{ef}" raises the depth to 2 and lowers it back to 1. */
  lemma NestedScanInner()
    ensures ScanFrom(Parent, {'{'}, {'}'}, 9, 11, 2) == ScanFrom(Parent, {'{'}, {'}'}, 9, 14, 1)
  {
    var o, c := {'{'}, {'}'};
    assert ScanFrom(Parent, o, c, 9, 13, 2) == ScanFrom(Parent, o, c, 9, 14, 1);
    assert ScanFrom(Parent, o, c, 9, 12, 2) == ScanFrom(Parent, o, c, 9, 13, 2);
  }

  /** The scan from the content start of "d{ef}g}" stops at the second '}'. */
  lemma NestedScan()
    ensures ScanFrom(Parent, {'{'}, {'}'}, 9, 9, 1) == Found(Make(Parent, 9, 15))
  {
    var o, c := {'{'}, {'}'};
    assert ScanFrom(Parent, o, c, 9, 15, 1) == Found(Make(Parent, 9, 15));
    assert ScanFrom(Parent, o, c, 9, 14, 1) == ScanFrom(Parent, o, c, 9, 15, 1);
    NestedScanInner();
    assert ScanFrom(Parent, o, c, 9, 10, 1) == ScanFrom(Parent, o, c, 9, 11, 2);
    assert ScanFrom(Parent, o, c, 9, 9, 1) == ScanFrom(Parent, o, c, 9, 10, 1);
  }

  lemma BalancedNested()
    ensures FindBalancedAfter(Parent, 0, {'{'}, {'}'}) == Found(Make(Parent, 9, 15))
    ensures Value(Make(Parent, 9, 15)) == "d{ef}g"
  {
    ExpectedValues();
    BraceRange();
    NestedScan();
    assert BalancedOutcome(Parent, Some(Range(9, 18)), {'{'}, {'}'}) == Found(Make(Parent, 9, 15));
  }

  lemma BetweenMissingOpener()
    ensures FindSubStringAfterBetween(Parent, 0, '!', '$') == None
  {
    assert NoCandidate(Parent, {'!'}, 1);
  }

  lemma BetweenMissingCloser()
    ensures FindSubStringAfterBetween(Parent, 0, '$', '!') == None
  {
    DollarRange();
    assert NoCandidate(Parent, {'!'}, 4);
  }

  lemma BetweenCloserOnlyBeforeOpener()
    ensures FindSubStringAfterBetween(Parent, 0, '}', '$') == None
  {
    assert IsLeftmost(Parent, {'}'}, 1, 7);
    assert NoCandidate(Parent, {'$'}, 8);
  }

  /** The closer may be the buffer's last character. */
  lemma BetweenCloserAtEnd()
    ensures FindSubStringAfterBetween(Parent, 0, 'g', 'i') == Some(Make(Parent, 15, 17))
    ensures Value(Make(Parent, 15, 17)) == "}h"
  {
    ExpectedValues();
    var v := Make(Parent, 15, 17);
    assert IsLeftmost(Parent, {'g'}, 1, 14);
    assert IsLeftmost(Parent, {'i'}, 15, 17);
    assert UnbalancedMatchAfter(Parent, {'g'}, {'i'}, 0, v);
    var r := FindSubStringAfterBetween(Parent, 0, 'g', 'i');
    UnbalancedMatchUnique(Parent, {'g'}, {'i'}, 1, r.value, v);
  }

  /** The scan from the content start of "123}" stops at the first '}'. */
  lemma DollarScan()
    ensures ScanFrom(Parent, {'$'}, {'}'}, 4, 4, 1) == Found(Make(Parent, 4, 7))
  {
    var o, c := {'$'}, {'}'};
    assert ScanFrom(Parent, o, c, 4, 7, 1) == Found(Make(Parent, 4, 7));
    assert ScanFrom(Parent, o, c, 4, 6, 1) == ScanFrom(Parent, o, c, 4, 7, 1);
    assert ScanFrom(Parent, o, c, 4, 5, 1) == ScanFrom(Parent, o, c, 4, 6, 1);
  }

  lemma BalancedSingleDollar()
    ensures FindBalancedAfter(Parent, 0, {'$'}, {'}'}) == Found(Make(Parent, 4, 7))
  {
    DollarRange();
    DollarScan();
    assert BalancedOutcome(Parent, Some(Range(4, 18)), {'$'}, {'}'}) == Found(Make(Parent, 4, 7));
  }

  /** Resuming after offset 3 skips the only `$`; after offset 2 it is found; after 17 nothing is left. */
  lemma BalancedResume()
    ensures FindBalancedAfterChars(Parent, 3, '$', '}') == NotFound
    ensures FindBalancedAfterChars(Parent, 2, '$', '}') == Found(Make(Parent, 4, 7))
    ensures FindBalancedAfterChars(Parent, 17, '$', '}') == NotFound
  {
    assert NoCandidate(Parent, {'$'}, 4);
    assert IsLeftmost(Parent, {'$'}, 3, 3);
    assert RangeForStartingCharactersAfter(Parent, {'$'}, 2) == Some(Range(4, 18));
    DollarScan();
    assert BalancedOutcome(Parent, Some(Range(4, 18)), {'$'}, {'}'}) == Found(Make(Parent, 4, 7));
  }

  method WordExamples()
  {
    var r := FindIndexesAfter(Parent, "123", 0);
    NotWordBefore4();
    assert WordMatchAt(Parent, "123", 4);
    assert r == Some(Make(Parent, 4, 7));

    // a word occupying the buffer's last character is never found
    var suffix := FindIndexes("abc", "bc");
    assert "abc"[0..2][0] != "bc"[0];
    assert suffix == None;
  }

  lemma NotWordBefore4()
    ensures forall j :: 0 < j < 4 ==> !WordMatchAt(Parent, "123", j)
  {
    assert Parent[1..4][0] != "123"[0] && Parent[2..5][0] != "123"[0] && Parent[3..6][0] != "123"[0];
  }
}
