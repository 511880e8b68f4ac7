/**
  The indentation helpers of the `String` extension. Lines are separated by
  '\n' (the only newline character modelled), and whitespace is the ASCII
  space, tab, carriage return and line feed.
 */
module Mutator {
  import opened Wrappers
  import opened SubStrings

  /** The unit of indentation: four spaces. */
  const IndentString: string := "    "

  predicate IsWhitespace(c: char) {
    c == ' ' || c == '\t' || c == '\r' || c == '\n'
  }

  /** A line with no character outside whitespace. */
  ghost predicate Blank(line: string) {
    forall q :: 0 <= q < |line| ==> IsWhitespace(line[q])
  }

  /** Every character of `t` is `c`. */
  ghost predicate Uniform(t: string, c: char) {
    forall k :: 0 <= k < |t| ==> t[k] == c
  }

  /** `String(repeating:count:)`. */
  function Repeat(t: string, n: nat): (r: string)
    ensures |r| == n * |t|
    ensures forall c :: Uniform(t, c) ==> Uniform(r, c)
    decreases n
  {
    if n == 0 then "" else t + Repeat(t, n - 1)
  }

  // ---------------------------------------------------------------------------
  // Joining and splitting lines
  // ---------------------------------------------------------------------------

  /**
    `joinWithNewLines(str2:amount:)`: `amount` newlines go between the two
    strings only when the amount is positive and both are non-empty; in every
    other case the result is the plain concatenation.
   */
  function JoinWithNewLines(a: string, b: string, amount: int): (r: string)
    ensures amount <= 0 || a == "" || b == "" ==> r == a + b
    ensures amount > 0 && a != "" && b != "" ==>
              |r| == |a| + amount + |b| && r[..|a|] == a && r[|a| + amount..] == b
              && forall k :: |a| <= k < |a| + amount ==> r[k] == '\n'
  {
    if amount <= 0 then a + b
    else if a == "" then b
    else if b == "" then a
    else
      var newLines := Repeat("\n", amount);
      assert Uniform("\n", '\n');
      a + newLines + b
  }

  /** `components(separatedBy: .newlines)`: the lines of `s`, at least one. */
  function Split(s: string): (ls: seq<string>)
    ensures |ls| >= 1
    ensures forall k :: 0 <= k < |ls| ==> '\n' !in ls[k]
    decreases |s|
  {
    if |s| == 0 then [""]
    else
      var rest := Split(s[1..]);
      if s[0] == '\n' then [""] + rest
      else [[s[0]] + rest[0]] + rest[1..]
  }

  /** The lines joined with a single '\n' between consecutive ones. */
  function Unlines(ls: seq<string>): string
    requires |ls| >= 1
    decreases |ls|
  {
    if |ls| == 1 then ls[0] else ls[0] + "\n" + Unlines(ls[1..])
  }

  function UnlinesOrEmpty(ls: seq<string>): string {
    if |ls| == 0 then "" else Unlines(ls)
  }

  /** Splitting at a '\n' concatenates the line lists of both sides. */
  lemma {:induction false} SplitConcat(x: string, y: string)
    ensures Split(x + "\n" + y) == Split(x) + Split(y)
    decreases |x|
  {
    if |x| == 0 {
      assert x + "\n" + y == "\n" + y;
      assert ("\n" + y)[1..] == y;
    } else {
      assert (x + "\n" + y)[1..] == x[1..] + "\n" + y;
      SplitConcat(x[1..], y);
    }
  }

  /** A string without '\n' is a single line. */
  lemma {:induction false} SplitSingleLine(x: string)
    requires '\n' !in x
    ensures Split(x) == [x]
    decreases |x|
  {
    if |x| > 0 {
      assert '\n' !in x[1..] by {
        forall k | 0 <= k < |x[1..]| ensures x[1..][k] != '\n' {
          assert x[1..][k] == x[k + 1];
        }
      }
      SplitSingleLine(x[1..]);
      assert [x[0]] + x[1..] == x;
    }
  }

  /** Joining lines that hold no '\n' and splitting again gives the lines back. */
  lemma {:induction false} SplitUnlines(ls: seq<string>)
    requires |ls| >= 1 && forall k :: 0 <= k < |ls| ==> '\n' !in ls[k]
    ensures Split(Unlines(ls)) == ls
    decreases |ls|
  {
    SplitSingleLine(ls[0]);
    if |ls| > 1 {
      SplitUnlines(ls[1..]);
      SplitConcat(ls[0], Unlines(ls[1..]));
    }
  }

  /** Splitting and joining again gives the string back. */
  lemma {:induction false} UnlinesSplit(s: string)
    ensures Unlines(Split(s)) == s
    decreases |s|
  {
    if |s| > 0 {
      var rest := Split(s[1..]);
      UnlinesSplit(s[1..]);
      if s[0] == '\n' {
        assert ([""] + rest)[1..] == rest;
      } else {
        var ls := [[s[0]] + rest[0]] + rest[1..];
        if |rest| > 1 {
          assert ls[1..] == rest[1..];
        }
        assert [s[0]] + s[1..] == s;
      }
    }
  }

  // ---------------------------------------------------------------------------
  // Folding lines back together
  // ---------------------------------------------------------------------------

  /** `reduce("") { $0.joinWithNewLines(str2: $1) }` with the accumulator `acc`. */
  function FoldJoin(acc: string, ls: seq<string>): (r: string)
    ensures |acc| <= |r| && r[..|acc|] == acc
    ensures (forall k :: 0 <= k < |ls| ==> ls[k] == "") ==> r == acc
    decreases |ls|
  {
    if |ls| == 0 then acc else FoldJoin(JoinWithNewLines(acc, ls[0], 1), ls[1..])
  }

  /** The non-empty lines of `ls`, in order. */
  function NonEmpty(ls: seq<string>): (r: seq<string>)
    ensures |r| <= |ls|
    ensures forall k :: 0 <= k < |r| ==> r[k] != ""
    ensures forall l :: l in r <==> l in ls && l != ""
    ensures (forall k :: 0 <= k < |ls| ==> ls[k] != "") ==> r == ls
    decreases |ls|
  {
    if |ls| == 0 then []
    else if ls[0] == "" then NonEmpty(ls[1..])
    else [ls[0]] + NonEmpty(ls[1..])
  }

  lemma JoinAssociative(a: string, b: string, c: string)
    ensures JoinWithNewLines(JoinWithNewLines(a, b, 1), c, 1) == JoinWithNewLines(a, JoinWithNewLines(b, c, 1), 1)
  {
    if a != "" && b != "" && c != "" {
      assert Repeat("\n", 1) == "\n";
    }
  }

  lemma {:induction false} UnlinesNonEmpty(ls: seq<string>)
    requires |ls| >= 1 && ls[0] != ""
    ensures Unlines(ls) != ""
  {
    if |ls| > 1 {
      assert |Unlines(ls)| >= |ls[0]|;
    }
  }

  /**
    Folding lines with `joinWithNewLines` drops the empty ones and puts a
    single '\n' between the rest.
   */
  lemma {:induction false} FoldJoinDropsEmpty(acc: string, ls: seq<string>)
    ensures FoldJoin(acc, ls) == JoinWithNewLines(acc, UnlinesOrEmpty(NonEmpty(ls)), 1)
    decreases |ls|
  {
    if |ls| > 0 {
      var x := ls[0];
      var rest := NonEmpty(ls[1..]);
      FoldJoinDropsEmpty(JoinWithNewLines(acc, x, 1), ls[1..]);
      if x != "" {
        assert NonEmpty(ls) == [x] + rest;
        if |rest| > 0 {
          UnlinesNonEmpty(rest);
          assert ([x] + rest)[1..] == rest;
          assert Repeat("\n", 1) == "\n";
        }
        JoinAssociative(acc, x, UnlinesOrEmpty(rest));
      }
    }
  }

  // ---------------------------------------------------------------------------
  // Indentation
  // ---------------------------------------------------------------------------

  /** `indent(amount:)`: prefix `amount` indentation units, or leave the string alone. */
  function Indent(str: string, amount: int): (r: string)
    ensures amount <= 0 ==> r == str
    ensures amount > 0 ==> |r| == 4 * amount + |str| && r[4 * amount..] == str
    ensures amount > 0 ==> forall k :: 0 <= k < 4 * amount ==> r[k] == ' '
  {
    if amount <= 0 then str
    else
      var indentStringTotal := Repeat(IndentString, amount);
      assert Uniform(IndentString, ' ');
      indentStringTotal + str
  }

  /** Every line of `lines` indented by `amount`. */
  function IndentEach(lines: seq<string>, amount: int): (r: seq<string>)
    ensures |r| == |lines|
  {
    seq(|lines|, k requires 0 <= k < |lines| => Indent(lines[k], amount))
  }

  /** `indentLines(amount:)`. */
  function IndentLines(s: string, amount: int): (r: string)
    ensures amount <= 0 ==> r == s
  {
    if amount <= 0 then s
    else FoldJoin("", IndentEach(Split(s), amount))
  }

  /**
    For a positive amount, the lines of the result are exactly the lines of
    the input, each indented by the same prefix: no line is lost or merged.
   */
  lemma IndentLinesSpec(s: string, amount: int)
    requires amount > 0
    ensures Split(IndentLines(s, amount)) == IndentEach(Split(s), amount)
    ensures |Split(IndentLines(s, amount))| == |Split(s)|
  {
    var lines := IndentEach(Split(s), amount);
    forall k | 0 <= k < |lines| ensures '\n' !in lines[k] && lines[k] != "" {
      IndentKeepsLine(Split(s)[k], amount);
    }
    assert NonEmpty(lines) == lines;
    FoldJoinDropsEmpty("", lines);
    assert IndentLines(s, amount) == Unlines(lines);
    SplitUnlines(lines);
  }

  /** Indenting a line by a positive amount gives a non-empty line without a newline. */
  lemma IndentKeepsLine(l: string, amount: int)
    requires amount > 0 && '\n' !in l
    ensures '\n' !in Indent(l, amount) && Indent(l, amount) != ""
  {
    var r := Indent(l, amount);
    forall q | 0 <= q < |r| ensures r[q] != '\n' {
      if q >= 4 * amount {
        assert r[q] == r[4 * amount..][q - 4 * amount] == l[q - 4 * amount];
      }
    }
  }

  /** `createBlock(indent:)`: the indented lines between a line "{" and a line "}". */
  function CreateBlock(s: string, amount: int): (r: string)
    ensures |r| >= 4 && r[..2] == "{\n" && r[|r| - 2..] == "\n}"
    ensures r[2..|r| - 2] == IndentLines(s, amount)
  {
    "{\n" + IndentLines(s, amount) + "\n}"
  }

  /** A block's lines are "{", the indented lines of the input, and "}". */
  lemma CreateBlockLines(s: string, amount: int)
    ensures Split(CreateBlock(s, amount)) == ["{"] + IndentEach(Split(s), amount) + ["}"]
  {
    var body := IndentLines(s, amount);
    assert CreateBlock(s, amount) == "{\n" + body + "\n}";
    BracedLines(body);
    if amount > 0 {
      IndentLinesSpec(s, amount);
    } else {
      assert IndentEach(Split(s), amount) == Split(s);
    }
  }

  /** Wrapping text in a line "{" and a line "}" adds exactly those two lines. */
  lemma BracedLines(body: string)
    ensures Split("{\n" + body + "\n}") == ["{"] + Split(body) + ["}"]
  {
    assert "{\n" + body + "\n}" == "{" + "\n" + (body + "\n" + "}");
    SplitConcat("{", body + "\n" + "}");
    SplitConcat(body, "}");
    SplitSingleLine("{");
    SplitSingleLine("}");
  }

  /** The block built around "A" with one level of indentation. */
  lemma CreateBlockExample()
    ensures CreateBlock("A", 1) == "{\n    A\n}"
  {
    IndentSingleLine();
    var block := "{\n" + IndentLines("A", 1) + "\n}";
    assert block == "{\n    A\n}";
  }

  lemma IndentSingleLine()
    ensures IndentLines("A", 1) == "    A"
  {
    SplitSingleLine("A");
    assert Repeat(IndentString, 1) == IndentString + "";
    assert Indent("A", 1) == "    A";
    assert IndentEach(["A"], 1) == ["    A"];
    assert FoldJoin("", ["    A"]) == "    A";
  }

  // ---------------------------------------------------------------------------
  // Removing redundant indentation
  // ---------------------------------------------------------------------------

  /** `countWhitespaceAtFront`: the offset of the first non-whitespace character, absent for a blank line. */
  function CountWhitespaceAtFront(line: string): (r: Option<nat>)
    ensures r.Some? ==> r.value < |line| && !IsWhitespace(line[r.value])
    ensures r.Some? ==> forall q :: 0 <= q < r.value ==> IsWhitespace(line[q])
    ensures r.None? <==> Blank(line)
  {
    FirstIndexWhere(Make(line, 0, |line|), c => !IsWhitespace(c))
  }

  /** `compactMap(\.countWhitespaceAtFront)`: the indentation of every non-blank line. */
  function Indents(lines: seq<string>): (r: seq<nat>)
    ensures forall n :: n in r <==> exists k :: 0 <= k < |lines| && CountWhitespaceAtFront(lines[k]) == Some(n)
    ensures |r| == 0 <==> forall k :: 0 <= k < |lines| ==> Blank(lines[k])
    decreases |lines|
  {
    if |lines| == 0 then []
    else
      var rest := Indents(lines[1..]);
      assert forall k :: 1 <= k < |lines| ==> lines[k] == lines[1..][k - 1];
      match CountWhitespaceAtFront(lines[0])
      case Some(n) => [n] + rest
      case None => rest
  }

  /** `min()`: the least element, absent for an empty sequence. */
  function MinOf(xs: seq<nat>): (r: Option<nat>)
    ensures r.None? <==> |xs| == 0
    ensures r.Some? ==> r.value in xs && forall x :: x in xs ==> r.value <= x
    decreases |xs|
  {
    if |xs| == 0 then None
    else
      assert xs == [xs[0]] + xs[1..];
      match MinOf(xs[1..])
      case None => Some(xs[0])
      case Some(m) => if xs[0] <= m then Some(xs[0]) else Some(m)
  }

  /** Swift's `dropFirst(n)`: the line without its first `n` characters, or empty if it is shorter. */
  function DropFirst(line: string, n: nat): (r: string)
    ensures n <= |line| ==> r == line[n..]
    ensures n >= |line| ==> r == ""
  {
    if n >= |line| then "" else line[n..]
  }

  /** `m` is the indentation of some non-blank line and no non-blank line is indented less. */
  ghost predicate LeastIndent(lines: seq<string>, m: nat) {
    && (exists k :: 0 <= k < |lines| && CountWhitespaceAtFront(lines[k]) == Some(m))
    && (forall k :: 0 <= k < |lines| && CountWhitespaceAtFront(lines[k]).Some? ==>
          m <= CountWhitespaceAtFront(lines[k]).value)
  }

  /** `compactMap(\.countWhitespaceAtFront).min()`: the least indentation of a non-blank line. */
  function MinIndent(lines: seq<string>): (r: Option<nat>)
    ensures r.None? <==> forall k :: 0 <= k < |lines| ==> Blank(lines[k])
    ensures r.Some? ==> LeastIndent(lines, r.value)
  {
    var indents := Indents(lines);
    var r := MinOf(indents);
    MinOfIndentsIsLeast(lines);
    r
  }

  lemma MinOfIndentsIsLeast(lines: seq<string>)
    ensures MinOf(Indents(lines)).Some? ==> LeastIndent(lines, MinOf(Indents(lines)).value)
  {
    var indents := Indents(lines);
    var r := MinOf(indents);
    if r.Some? {
      assert r.value in indents;
      forall k | 0 <= k < |lines| && CountWhitespaceAtFront(lines[k]).Some?
        ensures r.value <= CountWhitespaceAtFront(lines[k]).value
      {
        assert CountWhitespaceAtFront(lines[k]).value in indents;
      }
    }
  }

  /** The amount removed: the least indentation rounded down to whole indentation units. */
  function RedundantIndent(s: string): (r: Option<nat>)
    ensures r.None? <==> MinIndent(Split(s)).None?
    ensures r.Some? ==> r.value % |IndentString| == 0
    ensures r.Some? ==> r.value <= MinIndent(Split(s)).value < r.value + |IndentString|
  {
    match MinIndent(Split(s))
    case None => None
    case Some(minIndent) =>
      Some(WholeUnits(minIndent))
  }

  /** `(m / indentString.count) * indentString.count`: `m` rounded down to whole indentation units. */
  function WholeUnits(m: nat): (r: nat)
    ensures r % |IndentString| == 0
    ensures r <= m < r + |IndentString|
  {
    var unit := |IndentString|;
    assert unit == 4;
    (m / unit) * unit
  }

  /** Every line of `lines` with its first `n` characters dropped. */
  function DropEach(lines: seq<string>, n: nat): (r: seq<string>)
    ensures |r| == |lines|
  {
    seq(|lines|, k requires 0 <= k < |lines| => DropFirst(lines[k], n))
  }

  /** `removeRedundentIndentation`. */
  function RemoveRedundentIndentation(s: string): (r: string)
    ensures RedundantIndent(s).None? ==> r == s
    ensures RedundantIndent(s).Some? ==> r == UnlinesOrEmpty(NonEmpty(DropEach(Split(s), RedundantIndent(s).value)))
  {
    match RedundantIndent(s)
    case None => s
    case Some(n) =>
      FoldJoinDropsEmpty("", DropEach(Split(s), n));
      FoldJoin("", DropEach(Split(s), n))
  }

  /** When every line is blank the string is returned unchanged. */
  lemma RemoveIndentationAllBlank(s: string)
    requires forall k :: 0 <= k < |Split(s)| ==> Blank(Split(s)[k])
    ensures RemoveRedundentIndentation(s) == s
  {
  }

  /**
    Otherwise every line loses the same number of leading characters; lines
    left empty are dropped and the rest are joined with a single '\n'.
   */
  lemma RemoveIndentationResult(s: string)
    ensures RedundantIndent(s).Some? ==>
              RemoveRedundentIndentation(s) == UnlinesOrEmpty(NonEmpty(DropEach(Split(s), RedundantIndent(s).value)))
  {
    if RedundantIndent(s).Some? {
      FoldJoinDropsEmpty("", DropEach(Split(s), RedundantIndent(s).value));
    }
  }

  /** A non-blank line loses only whitespace, and keeps its first non-whitespace character. */
  lemma RemoveIndentationOnlyWhitespace(s: string, k: nat)
    requires k < |Split(s)|
    ensures !Blank(Split(s)[k]) ==> RedundantIndent(s).Some?
    ensures !Blank(Split(s)[k]) ==>
              var n := RedundantIndent(s).value;
              n < |Split(s)[k]| && DropEach(Split(s), n)[k] == Split(s)[k][n..]
              && forall q :: 0 <= q < n ==> IsWhitespace(Split(s)[k][q])
  {
    var lines := Split(s);
    if !Blank(lines[k]) {
      var n := RedundantIndent(s).value;
      assert CountWhitespaceAtFront(lines[k]).Some?;
      assert n <= MinIndent(lines).value <= CountWhitespaceAtFront(lines[k]).value;
    }
  }

  /** Shortening lines that hold no '\n' and dropping the empty ones leaves lines without '\n'. */
  lemma DroppedLinesSingle(lines: seq<string>, n: nat)
    requires forall k :: 0 <= k < |lines| ==> '\n' !in lines[k]
    ensures forall k :: 0 <= k < |NonEmpty(DropEach(lines, n))| ==> '\n' !in NonEmpty(DropEach(lines, n))[k]
  {
    var dropped := DropEach(lines, n);
    forall j | 0 <= j < |dropped| ensures '\n' !in dropped[j] {
      forall q | 0 <= q < |dropped[j]| ensures dropped[j][q] != '\n' {
        assert dropped[j][q] == lines[j][q + n];
      }
    }
    var kept := NonEmpty(dropped);
    forall k | 0 <= k < |kept| ensures '\n' !in kept[k] {
      assert kept[k] in dropped;
    }
  }

  /** The lines of the result are the non-empty shortened lines, in order. */
  lemma RemoveIndentationLines(s: string)
    ensures RedundantIndent(s).Some? && |NonEmpty(DropEach(Split(s), RedundantIndent(s).value))| > 0 ==>
              Split(RemoveRedundentIndentation(s)) == NonEmpty(DropEach(Split(s), RedundantIndent(s).value))
  {
    if RedundantIndent(s).Some? && |NonEmpty(DropEach(Split(s), RedundantIndent(s).value))| > 0 {
      var n := RedundantIndent(s).value;
      RemoveIndentationResult(s);
      DroppedLinesSingle(Split(s), n);
      SplitUnlines(NonEmpty(DropEach(Split(s), n)));
    }
  }
}
