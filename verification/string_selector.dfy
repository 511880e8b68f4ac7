/**
  The delimiter scanners of the `String` extension: exact word search,
  unbalanced opener/closer extraction and depth-counted balanced extraction,
  each over single characters or character sets, optionally resuming strictly
  after a position. Every result is a fresh view over the searched buffer.
 */
module Selector {
  import opened Wrappers
  import opened IndexArithmetic
  import opened SubStrings
  import opened Balance

  /** A `Range<String.Index>` over the buffer. */
  datatype Range = Range(lower: nat, upper: nat)

  /**
    Outcome of a balanced scan. The Swift loop returns a view or runs forever;
    `NotFound` arises only when no usable opener exists.
   */
  datatype Scan = Found(view: View) | NotFound | Diverges

  /** Outcome of running the Swift loop for a bounded number of iterations. */
  datatype Run = Returned(result: Option<View>) | OutOfFuel

  // ---------------------------------------------------------------------------
  // Reference definitions
  // ---------------------------------------------------------------------------

  /** `p` is the first position at or after `from` holding a character of `chars`. */
  ghost predicate IsLeftmost(s: string, chars: set<char>, from: nat, p: int) {
    from <= p < |s| && s[p] in chars && forall q :: from <= q < p ==> s[q] !in chars
  }

  /** No position at or after `from` holds a character of `chars`. */
  ghost predicate NoCandidate(s: string, chars: set<char>, from: nat) {
    forall q :: from <= q < |s| ==> s[q] !in chars
  }

  lemma LeftmostUnique(s: string, chars: set<char>, from: nat, p: int, p': int)
    requires IsLeftmost(s, chars, from, p) && IsLeftmost(s, chars, from, p')
    ensures p == p'
  {
  }

  /**
    `v` is what an unbalanced search starting at `from` should return: the
    leftmost opener is not the last position, and `v` runs from just after it
    up to (excluding) the first closer after it.
   */
  ghost predicate UnbalancedMatch(s: string, starting: set<char>, ending: set<char>, from: nat, v: View) {
    && v.parent == s && v.cursor == v.lower
    && 1 <= v.lower < |s|
    && IsLeftmost(s, starting, from, v.lower - 1)
    && IsLeftmost(s, ending, v.lower, v.upper)
  }

  /**
    `v` is a balanced match: it ends just before a closer that is not an
    opener, the depth never dropped to zero inside it, and, unless it ends at
    the buffer's last position, it holds as many openers as pure closers.
   */
  ghost predicate BalancedMatch(s: string, openers: set<char>, closers: set<char>, v: View) {
    && v.parent == s && v.cursor == v.lower
    && v.lower <= v.upper < |s|
    && s[v.upper] in closers && s[v.upper] !in openers
    && NeverNegative(s, openers, closers, v.lower, v.upper)
    && (v.upper < |s| - 1 ==> Bal(s[v.lower..v.upper], openers, closers) == 0)
  }

  /**
    A balanced scan from `lower` never ends: the depth stays positive before
    the buffer's last position, and the last character, which the saturating
    loop re-reads forever, is not a pure closer.
   */
  ghost predicate NeverCloses(s: string, openers: set<char>, closers: set<char>, lower: nat)
    requires lower < |s|
  {
    && NeverNegative(s, openers, closers, lower, |s| - 1)
    && !(s[|s| - 1] in closers && s[|s| - 1] !in openers)
  }

  /** An unbalanced match for a search that resumes strictly after `index`. */
  ghost predicate UnbalancedMatchAfter(s: string, starting: set<char>, ending: set<char>, index: nat, v: View) {
    UnbalancedMatch(s, starting, ending, index + 1, v)
  }

  /** A match of `word` at `i` that `addToIndex` admits: it must end before the last position. */
  ghost predicate WordMatchAt(s: string, word: string, i: int) {
    0 <= i && i + |word| < |s| && s[i..i + |word|] == word
  }

  /** A match of `word` at `i` inside the candidate window `v`. */
  ghost predicate WordMatchIn(v: View, word: string, i: int) {
    && v.lower <= i < v.upper
    && i + |word| < |v.parent| && i + |word| <= v.upper
    && v.parent[i..i + |word|] == word
  }

  // ---------------------------------------------------------------------------
  // Start-of-content ranges
  // ---------------------------------------------------------------------------

  /**
    The guard shared by both range helpers: a found opener that is not the last
    position yields the range from just after it to `countIndex`.
   */
  function CandidateRange(s: string, found: Option<nat>): (r: Option<Range>)
    requires found.Some? ==> found.value < |s|
    ensures r.Some? <==> found.Some? && found.value != |s| - 1
    ensures r.Some? ==> r.value == Range(found.value + 1, |s|)
  {
    match found
    case None => None
    case Some(p) =>
      if Some(p) == LastIndex(s) || Increment(s, p).None? then None
      else Some(Range(Increment(s, p).value, CountIndex(s)))
  }

  /** `findRangeForStartingCharacters(for:)`: search the whole buffer. */
  function RangeForStartingCharacters(s: string, chars: set<char>): (r: Option<Range>)
    ensures r.Some? ==> r.value.upper == |s| && 1 <= r.value.lower < |s|
    ensures r.Some? ==> IsLeftmost(s, chars, 0, r.value.lower - 1)
    ensures r.None? <==> NoCandidate(s, chars, 0) || IsLeftmost(s, chars, 0, |s| - 1)
  {
    CandidateRange(s, FirstIndexWhere(Make(s, 0, |s|), c => c in chars))
  }

  /** `findRangeForStartingCharacters(for:after:)`: search strictly after `index`. */
  function RangeForStartingCharactersAfter(s: string, chars: set<char>, index: nat): (r: Option<Range>)
    ensures r.Some? ==> r.value.upper == |s| && index + 2 <= r.value.lower < |s|
    ensures r.Some? ==> IsLeftmost(s, chars, index + 1, r.value.lower - 1)
    ensures r.None? <==> NoCandidate(s, chars, index + 1) || IsLeftmost(s, chars, index + 1, |s| - 1)
  {
    match Increment(s, index)
    case None => None
    case Some(start) => CandidateRange(s, FirstIndexWhere(Make(s, start, |s|), c => c in chars))
  }

  /** `findRangeForStartingCharacter(for:after:)`: the single-character case. */
  function RangeForStartingCharacter(s: string, ch: char, index: nat): (r: Option<Range>)
    ensures r.Some? ==> r.value.upper == |s| && index + 2 <= r.value.lower < |s|
    ensures r.Some? ==> IsLeftmost(s, {ch}, index + 1, r.value.lower - 1)
    ensures r.None? <==> NoCandidate(s, {ch}, index + 1) || IsLeftmost(s, {ch}, index + 1, |s| - 1)
  {
    RangeForStartingCharactersAfter(s, {ch}, index)
  }

  // ---------------------------------------------------------------------------
  // Unbalanced extraction
  // ---------------------------------------------------------------------------

  /** From the start of content, up to the first closer; no emptiness check. */
  function CloseUnbalanced(s: string, range: Option<Range>, ending: set<char>): (r: Option<View>)
    requires range.Some? ==> range.value.lower <= range.value.upper == |s|
    ensures r.Some? ==> range.Some? && r.value.lower == range.value.lower
    ensures r.Some? ==> r.value.parent == s && r.value.cursor == r.value.lower
    ensures r.Some? ==> IsLeftmost(s, ending, r.value.lower, r.value.upper)
    ensures range.Some? ==> (r.None? <==> NoCandidate(s, ending, range.value.lower))
  {
    match range
    case None => None
    case Some(rg) =>
      match FirstIndexWhere(Make(s, rg.lower, rg.upper), c => c in ending)
      case None => None
      case Some(q) => Some(Make(s, rg.lower, q))
  }

  /** `findSubString(with:and:)` with single characters: unbalanced, may return an empty slice. */
  function FindSubStringWith(s: string, first: char, last: char): (r: Option<View>)
    ensures r.Some? ==> UnbalancedMatch(s, {first}, {last}, 0, r.value)
    ensures r.None? <==> forall v :: !UnbalancedMatch(s, {first}, {last}, 0, v)
  {
    var range := RangeForStartingCharacters(s, {first});
    var r := CloseUnbalanced(s, range, {last});
    UnbalancedNoneMeansNoMatch(s, {first}, {last}, 0, range, r);
    r
  }

  /** `findSubString(after:between:and:)` with single characters: unbalanced, rejects an empty slice. */
  function FindSubStringAfterBetween(s: string, index: nat, first: char, last: char): (r: Option<View>)
    ensures r.Some? ==> UnbalancedMatchAfter(s, {first}, {last}, index, r.value)
    ensures r.Some? ==> index + 2 <= r.value.lower < r.value.upper
    ensures r.None? <==> forall v :: UnbalancedMatchAfter(s, {first}, {last}, index, v) ==> v.lower == v.upper
  {
    var range := RangeForStartingCharacter(s, first, index);
    var r := CloseUnbalanced(s, range, {last});
    UnbalancedAfterNoneMeansNoMatch(s, {first}, {last}, index, range, r);
    if r.Some? && r.value.upper > r.value.lower then r else None
  }

  /** `findSubString(after:with:and:)` with character sets: unbalanced, may return an empty slice. */
  function FindSubStringAfterWithSets(s: string, index: nat, starting: set<char>, ending: set<char>): (r: Option<View>)
    ensures r.Some? ==> UnbalancedMatchAfter(s, starting, ending, index, r.value)
    ensures r.Some? ==> index + 2 <= r.value.lower
    ensures r.None? <==> forall v :: !UnbalancedMatchAfter(s, starting, ending, index, v)
  {
    var range := RangeForStartingCharactersAfter(s, starting, index);
    var r := CloseUnbalanced(s, range, ending);
    UnbalancedAfterNoneMeansNoMatch(s, starting, ending, index, range, r);
    r
  }

  /**
    Closing the leftmost usable range yields the unique unbalanced match, and
    no result means no match exists.
   */
  lemma UnbalancedNoneMeansNoMatch(s: string, starting: set<char>, ending: set<char>, from: nat,
                                   range: Option<Range>, r: Option<View>)
    requires range.Some? ==> range.value.upper == |s| && 1 <= range.value.lower < |s|
    requires range.Some? ==> IsLeftmost(s, starting, from, range.value.lower - 1)
    requires range.None? <==> NoCandidate(s, starting, from) || IsLeftmost(s, starting, from, |s| - 1)
    requires r == CloseUnbalanced(s, range, ending)
    ensures r.Some? ==> UnbalancedMatch(s, starting, ending, from, r.value)
    ensures forall v :: UnbalancedMatch(s, starting, ending, from, v) ==> r == Some(v)
  {
    forall v | UnbalancedMatch(s, starting, ending, from, v)
      ensures r == Some(v)
    {
      assert from <= v.lower - 1 < |s| - 1 && s[v.lower - 1] in starting;
      assert range.Some?;
      LeftmostUnique(s, starting, from, v.lower - 1, range.value.lower - 1);
      assert s[v.upper] in ending;
      LeftmostUnique(s, ending, v.lower, v.upper, r.value.upper);
    }
  }

  /** `UnbalancedNoneMeansNoMatch` for a search that resumes strictly after `index`. */
  lemma UnbalancedAfterNoneMeansNoMatch(s: string, starting: set<char>, ending: set<char>, index: nat,
                                        range: Option<Range>, r: Option<View>)
    requires range == RangeForStartingCharactersAfter(s, starting, index)
    requires r == CloseUnbalanced(s, range, ending)
    ensures r.Some? ==> UnbalancedMatchAfter(s, starting, ending, index, r.value)
    ensures forall v :: UnbalancedMatchAfter(s, starting, ending, index, v) ==> r == Some(v)
  {
    UnbalancedNoneMeansNoMatch(s, starting, ending, index + 1, range, r);
    forall v | UnbalancedMatchAfter(s, starting, ending, index, v)
      ensures r == Some(v)
    {
      assert UnbalancedMatch(s, starting, ending, index + 1, v);
    }
  }

  lemma UnbalancedMatchUnique(s: string, starting: set<char>, ending: set<char>, from: nat, v: View, w: View)
    requires UnbalancedMatch(s, starting, ending, from, v) && UnbalancedMatch(s, starting, ending, from, w)
    ensures v == w
  {
    LeftmostUnique(s, starting, from, v.lower - 1, w.lower - 1);
    LeftmostUnique(s, ending, v.lower, v.upper, w.upper);
  }

  // ---------------------------------------------------------------------------
  // Balanced extraction
  // ---------------------------------------------------------------------------

  /**
    Closed form of the balanced loop from position `i` at nesting `depth`.
    Before the last position an opener raises the depth (and skips the closer
    test), a pure closer lowers it, and reaching zero ends the match before that
    position. At the last position `index(after:)` saturates, so the character
    there is read again and again: a pure closer counts the depth down to zero
    and ends the match before it, anything else never terminates.
   */
  function ScanFrom(s: string, openers: set<char>, closers: set<char>, lower: nat, i: nat, depth: int): (r: Scan)
    requires lower <= i < |s| && depth >= 1
    ensures !r.NotFound?
    ensures r.Found? ==> r.view.parent == s && r.view.lower == lower && r.view.cursor == lower
    ensures r.Found? ==> i <= r.view.upper < |s|
    ensures r.Found? ==> s[r.view.upper] in closers && s[r.view.upper] !in openers
    decreases |s| - i
  {
    var c := s[i];
    if i == |s| - 1 then
      if c !in openers && c in closers then Found(Make(s, lower, i)) else Diverges
    else if c in openers then ScanFrom(s, openers, closers, lower, i + 1, depth + 1)
    else if c in closers && depth == 1 then Found(Make(s, lower, i))
    else ScanFrom(s, openers, closers, lower, i + 1, if c in closers then depth - 1 else depth)
  }

  /** The balanced outcome for a start-of-content range (or its absence). */
  function BalancedOutcome(s: string, range: Option<Range>, openers: set<char>, closers: set<char>): (r: Scan)
    requires range.Some? ==> range.value.lower < range.value.upper == |s|
    ensures r.NotFound? <==> range.None?
    ensures r.Found? ==> r.view.lower == range.value.lower && r.view.parent == s
  {
    match range
    case None => NotFound
    case Some(rg) => ScanFrom(s, openers, closers, rg.lower, rg.lower, 1)
  }

  /**
    The Swift `for i in candidates.indices` loop, literally, for at most `fuel`
    iterations: the loop stops when the index equals `endIndex`, and steps with
    the saturating `index(after:)`.
   */
  function LoopRun(candidates: View, openers: set<char>, closers: set<char>, cur: nat, depth: int, fuel: nat): (r: Run)
    requires Valid(candidates) && candidates.lower <= cur <= candidates.upper
    requires cur < |candidates.parent| || cur == candidates.upper
    ensures r.Returned? && r.result.Some? ==>
              && r.result.value.parent == candidates.parent && r.result.value.lower == candidates.lower
              && r.result.value.cursor == candidates.lower && cur <= r.result.value.upper < candidates.upper
    ensures depth >= 1 && r.Returned? && r.result.Some? ==>
              var p := r.result.value.upper;
              candidates.parent[p] in closers && candidates.parent[p] !in openers
    ensures candidates.upper == |candidates.parent| && cur < candidates.upper ==> r != Returned(None)
    decreases fuel
  {
    if fuel == 0 then OutOfFuel
    else if cur == candidates.upper then Returned(None)
    else
      var c := candidates.parent[cur];
      var next := IndexAfter(candidates, cur);
      if c in openers then LoopRun(candidates, openers, closers, next, depth + 1, fuel - 1)
      else
        var d := if c in closers then depth - 1 else depth;
        if d == 0 then Returned(Some(Make(candidates.parent, candidates.lower, cur)))
        else LoopRun(candidates, openers, closers, next, d, fuel - 1)
  }

  /** The Swift balanced search after its range guard, run for at most `fuel` iterations. */
  function BalancedLoop(s: string, range: Option<Range>, openers: set<char>, closers: set<char>, fuel: nat): (r: Run)
    requires range.Some? ==> range.value.lower < range.value.upper == |s|
    ensures r == Returned(None) <==> range.None?
    ensures r.Returned? && r.result.Some? ==>
              && range.Some? && r.result.value.parent == s && r.result.value.lower == range.value.lower
              && r.result.value.upper < |s|
              && s[r.result.value.upper] in closers && s[r.result.value.upper] !in openers
  {
    match range
    case None => Returned(None)
    case Some(rg) => LoopRun(Make(s, rg.lower, rg.upper), openers, closers, rg.lower, 1, fuel)
  }

  /**
    The closed form agrees with the loop: whatever the loop returns is the
    closed form's match, and a match is returned once the loop has run long
    enough. (A `Diverges` outcome therefore never returns.)
   */
  lemma {:induction false} LoopAgreesWithScan(candidates: View, openers: set<char>, closers: set<char>,
                                              cur: nat, depth: int, fuel: nat)
    requires Valid(candidates) && candidates.upper == |candidates.parent|
    requires candidates.lower <= cur < |candidates.parent| && depth >= 1
    ensures var scan := ScanFrom(candidates.parent, openers, closers, candidates.lower, cur, depth);
            LoopRun(candidates, openers, closers, cur, depth, fuel) != OutOfFuel ==>
              scan.Found? && LoopRun(candidates, openers, closers, cur, depth, fuel) == Returned(Some(scan.view))
    ensures var scan := ScanFrom(candidates.parent, openers, closers, candidates.lower, cur, depth);
            scan.Found? && fuel >= 2 * (|candidates.parent| - cur) + depth ==>
              LoopRun(candidates, openers, closers, cur, depth, fuel) == Returned(Some(scan.view))
    decreases fuel
  {
    if fuel > 0 {
      var c := candidates.parent[cur];
      var next := IndexAfter(candidates, cur);
      if c in openers {
        LoopAgreesWithScan(candidates, openers, closers, next, depth + 1, fuel - 1);
      } else {
        var d := if c in closers then depth - 1 else depth;
        if d != 0 {
          LoopAgreesWithScan(candidates, openers, closers, next, d, fuel - 1);
        }
      }
    }
  }

  /**
    For any start-of-content range: no range means the loop is never entered
    and the search returns nothing; a `Found` outcome is what the loop returns
    after at most `2 * |s| + 1` iterations; a `Diverges` outcome is a loop that
    never returns, and `return nil` after the loop is unreachable.
   */
  lemma BalancedLoopAgrees(s: string, range: Option<Range>, openers: set<char>, closers: set<char>, fuel: nat)
    requires range.Some? ==> range.value.lower < range.value.upper == |s|
    ensures range.None? ==> BalancedLoop(s, range, openers, closers, fuel) == Returned(None)
    ensures BalancedOutcome(s, range, openers, closers).Found? && fuel >= 2 * |s| + 1 ==>
              BalancedLoop(s, range, openers, closers, fuel) == Returned(Some(BalancedOutcome(s, range, openers, closers).view))
    ensures BalancedOutcome(s, range, openers, closers).Diverges? ==>
              BalancedLoop(s, range, openers, closers, fuel) == OutOfFuel
    ensures range.Some? ==> BalancedLoop(s, range, openers, closers, fuel) != Returned(None)
  {
    if range.Some? {
      LoopAgreesWithScan(Make(s, range.value.lower, range.value.upper), openers, closers, range.value.lower, 1, fuel);
    }
  }

  /**
    The scan's invariant: at position `i` the depth is one plus the balance of
    `s[lower..i]`, and no earlier prefix went negative. From it, a `Found`
    result is a balanced match, and the scan diverges exactly when the depth
    never reaches zero before the last position and the last character is not
    a pure closer.
   */
  lemma {:induction false} ScanSpec(s: string, openers: set<char>, closers: set<char>, lower: nat, i: nat, depth: int)
    requires lower <= i < |s| && depth >= 1
    requires depth == 1 + Bal(s[lower..i], openers, closers)
    requires NeverNegative(s, openers, closers, lower, i)
    ensures ScanFrom(s, openers, closers, lower, i, depth).Found? ==>
              BalancedMatch(s, openers, closers, ScanFrom(s, openers, closers, lower, i, depth).view)
    ensures ScanFrom(s, openers, closers, lower, i, depth).Diverges? <==> NeverCloses(s, openers, closers, lower)
    decreases |s| - i
  {
    var c := s[i];
    if i < |s| - 1 {
      BalStep(s, lower, i, openers, closers);
      if c in openers || c !in closers || depth > 1 {
        var d := if c in openers then depth + 1 else if c in closers then depth - 1 else depth;
        assert NeverNegative(s, openers, closers, lower, i + 1);
        ScanSpec(s, openers, closers, lower, i + 1, d);
      } else {
        assert Bal(s[lower..i + 1], openers, closers) < 0;
      }
    }
  }

  /** The balanced outcome for any start-of-content range, stated without the scan. */
  lemma BalancedOutcomeSpec(s: string, range: Option<Range>, openers: set<char>, closers: set<char>)
    requires range.Some? ==> range.value.lower < range.value.upper == |s|
    ensures BalancedOutcome(s, range, openers, closers).Found? ==>
              BalancedMatch(s, openers, closers, BalancedOutcome(s, range, openers, closers).view)
    ensures range.Some? ==>
              (BalancedOutcome(s, range, openers, closers).Diverges? <==> NeverCloses(s, openers, closers, range.value.lower))
  {
    if range.Some? {
      var lower := range.value.lower;
      assert s[lower..lower] == [];
      ScanSpec(s, openers, closers, lower, lower, 1);
    }
  }

  /** `findSubString(between:and:)` with character sets: balanced, over the whole buffer. */
  function FindBalanced(s: string, openers: set<char>, closers: set<char>): (r: Scan)
    ensures r.NotFound? <==> NoCandidate(s, openers, 0) || IsLeftmost(s, openers, 0, |s| - 1)
    ensures r.Found? ==> IsLeftmost(s, openers, 0, r.view.lower - 1)
    ensures r.Found? ==> BalancedMatch(s, openers, closers, r.view)
    ensures var rg := RangeForStartingCharacters(s, openers);
            rg.Some? ==> (r.Diverges? <==> NeverCloses(s, openers, closers, rg.value.lower))
  {
    var range := RangeForStartingCharacters(s, openers);
    BalancedOutcomeSpec(s, range, openers, closers);
    BalancedOutcome(s, range, openers, closers)
  }

  /** `findSubString(between:and:)` with single characters. */
  function FindBalancedChars(s: string, first: char, last: char): (r: Scan)
    ensures r.NotFound? <==> NoCandidate(s, {first}, 0) || IsLeftmost(s, {first}, 0, |s| - 1)
    ensures r.Found? ==> IsLeftmost(s, {first}, 0, r.view.lower - 1)
    ensures r.Found? ==> BalancedMatch(s, {first}, {last}, r.view)
    ensures var rg := RangeForStartingCharacters(s, {first});
            rg.Some? ==> (r.Diverges? <==> NeverCloses(s, {first}, {last}, rg.value.lower))
  {
    FindBalanced(s, {first}, {last})
  }

  /** `findSubString(after:between:and:)` with character sets: balanced, strictly after `index`. */
  function FindBalancedAfter(s: string, index: nat, openers: set<char>, closers: set<char>): (r: Scan)
    ensures r.NotFound? <==> NoCandidate(s, openers, index + 1) || IsLeftmost(s, openers, index + 1, |s| - 1)
    ensures r.Found? ==> index < r.view.lower && IsLeftmost(s, openers, index + 1, r.view.lower - 1)
    ensures r.Found? ==> BalancedMatch(s, openers, closers, r.view)
    ensures var rg := RangeForStartingCharactersAfter(s, openers, index);
            rg.Some? ==> (r.Diverges? <==> NeverCloses(s, openers, closers, rg.value.lower))
  {
    var range := RangeForStartingCharactersAfter(s, openers, index);
    BalancedOutcomeSpec(s, range, openers, closers);
    BalancedOutcome(s, range, openers, closers)
  }

  /** `findSubString(after:with:and:)` with single characters: balanced, despite its label. */
  function FindBalancedAfterChars(s: string, index: nat, first: char, last: char): (r: Scan)
    ensures r.NotFound? <==> NoCandidate(s, {first}, index + 1) || IsLeftmost(s, {first}, index + 1, |s| - 1)
    ensures r.Found? ==> index < r.view.lower && IsLeftmost(s, {first}, index + 1, r.view.lower - 1)
    ensures r.Found? ==> BalancedMatch(s, {first}, {last}, r.view)
    ensures var rg := RangeForStartingCharactersAfter(s, {first}, index);
            rg.Some? ==> (r.Diverges? <==> NeverCloses(s, {first}, {last}, rg.value.lower))
  {
    FindBalancedAfter(s, index, {first}, {last})
  }

  /** When every closer is also an opener, openers win and a balanced search never finds a match. */
  lemma OpenerWinsOverCloser(s: string, index: nat, openers: set<char>, closers: set<char>)
    requires closers <= openers
    ensures !FindBalancedAfter(s, index, openers, closers).Found?
    ensures !FindBalanced(s, openers, closers).Found?
  {
  }

  // ---------------------------------------------------------------------------
  // Word search
  // ---------------------------------------------------------------------------

  /**
    The private `findIndexes(for:in:)`: walk the window's indices; stop with
    nothing as soon as `addToIndex` or the window bound rejects the end of the
    candidate, and return the first exact match.
   */
  method FindIndexesIn(word: string, candidates: View) returns (r: Option<View>)
    requires Valid(candidates)
    ensures r.Some? ==> r.value.parent == candidates.parent && r.value.cursor == r.value.lower
    ensures r.Some? ==> r.value.upper == r.value.lower + |word|
    ensures r.Some? ==> WordMatchIn(candidates, word, r.value.lower)
    ensures r.Some? ==> forall j :: candidates.lower <= j < r.value.lower ==> !WordMatchIn(candidates, word, j)
    ensures r.None? <==> forall j :: !WordMatchIn(candidates, word, j)
  {
    var parent := candidates.parent;
    var cur := candidates.lower;
    while cur != candidates.upper
      invariant candidates.lower <= cur <= candidates.upper
      invariant forall j :: candidates.lower <= j < cur ==> !WordMatchIn(candidates, word, j)
      decreases candidates.upper - cur
    {
      var i := cur;
      cur := IndexAfter(candidates, i);
      var lastWordIndex := AddToIndex(parent, i, |word|);
      if lastWordIndex.None? || lastWordIndex.value > candidates.upper {
        // the end of a candidate only grows with its start, so no later start fits either
        return None;
      }
      var candidateRange := Make(parent, i, lastWordIndex.value);
      if Value(candidateRange) == word {
        assert WordMatchIn(candidates, word, i);
        return Some(candidateRange);
      }
      assert |word| > 0;
    }
    return None;
  }

  /** `findIndexes(for:)`: the leftmost match in the whole buffer that ends before its last position. */
  method FindIndexes(s: string, word: string) returns (r: Option<View>)
    ensures r.Some? ==> r.value.parent == s && r.value.cursor == r.value.lower
    ensures r.Some? ==> r.value.upper == r.value.lower + |word|
    ensures r.Some? ==> WordMatchAt(s, word, r.value.lower) && r.value.upper < |s|
    ensures r.Some? ==> forall j :: 0 <= j < r.value.lower ==> !WordMatchAt(s, word, j)
    ensures r.None? <==> forall j :: !WordMatchAt(s, word, j)
  {
    var first := FirstIndex(s);
    if first.None? {
      return None;
    }
    var window := Make(s, first.value, CountIndex(s));
    r := FindIndexesIn(word, window);
    assert forall j :: WordMatchAt(s, word, j) <==> WordMatchIn(window, word, j);
  }

  /** `findIndexes(for:after:)`: the leftmost match strictly after `index`. */
  method FindIndexesAfter(s: string, word: string, index: nat) returns (r: Option<View>)
    ensures r.Some? ==> r.value.parent == s && r.value.cursor == r.value.lower
    ensures r.Some? ==> r.value.upper == r.value.lower + |word|
    ensures r.Some? ==> index < r.value.lower && WordMatchAt(s, word, r.value.lower) && r.value.upper < |s|
    ensures r.Some? ==> forall j :: index < j < r.value.lower ==> !WordMatchAt(s, word, j)
    ensures r.None? <==> forall j :: index < j ==> !WordMatchAt(s, word, j)
  {
    if !(index < CountIndex(s)) || Increment(s, index).None? {
      return None;
    }
    var window := Make(s, Increment(s, index).value, CountIndex(s));
    r := FindIndexesIn(word, window);
    assert forall j :: (index < j && WordMatchAt(s, word, j)) <==> WordMatchIn(window, word, j);
  }
}
