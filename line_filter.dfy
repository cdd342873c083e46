/**
 * `removeLinesWithHash`: split a commit message into lines the way
 * `bufio.Scanner` with its default line splitter does (on `'\n'`), drop every
 * line that begins with `#`, and join the rest with `"\n"`.
 */
module LineFilter {
  import opened Text

  /** The position of the first `'\n'` in `s`, or `|s|` when there is none. */
  function NewlineIndex(s: string): (i: nat)
    ensures i <= |s|
    ensures i < |s| ==> s[i] == '\n'
  {
    if s == [] || s[0] == '\n' then 0 else 1 + NewlineIndex(s[1..])
  }

  /** No line break comes before `NewlineIndex(s)`. */
  lemma {:induction false} NewlineIndexIsFirst(s: string)
    ensures '\n' !in s[..NewlineIndex(s)]
    decreases |s|
  {
    if s != [] && s[0] != '\n' {
      NewlineIndexIsFirst(s[1..]);
      assert s[..NewlineIndex(s)] == [s[0]] + s[1..][..NewlineIndex(s[1..])];
    }
  }

  /** The first token of `s`: the text before its first line break. */
  function Token(s: string): string {
    s[..NewlineIndex(s)]
  }

  /** What the scanner has left after the first token: the text after its line break. */
  function Remainder(s: string): (r: string)
    ensures s != [] ==> |r| < |s|
  {
    var i := NewlineIndex(s);
    if i < |s| then s[i + 1..] else []
  }

  /**
   * The tokens the scanner yields for `s`: the pieces between line breaks,
   * where a final empty piece (after a trailing `'\n'`, or of the empty
   * input) is no token.
   */
  function Lines(s: string): seq<string>
    decreases |s|
  {
    if s == [] then [] else [Token(s)] + Lines(Remainder(s))
  }

  /** A git comment line: `strings.HasPrefix(line, "#")`. */
  predicate IsComment(line: string) {
    StartsWith(line, "#")
  }

  /** The lines of `lines` that are not comments, in their original order. */
  function Kept(lines: seq<string>): seq<string>
    decreases |lines|
  {
    if lines == [] then []
    else (if IsComment(lines[0]) then [] else [lines[0]]) + Kept(lines[1..])
  }

  /** What `removeLinesWithHash` returns for `input`. */
  function Filtered(input: string): string {
    Join(Kept(Lines(input)), "\n")
  }

  /**
   * The loop of `removeLinesWithHash`: each scanned line that is not a comment
   * is appended to `resultLines`, which is joined at the end.
   */
  method RemoveLinesWithHash(input: string) returns (output: string)
    ensures output == Filtered(input)
  {
    var resultLines: seq<string> := [];
    var rest := input;
    while rest != []
      invariant resultLines + Kept(Lines(rest)) == Kept(Lines(input))
      decreases |rest|
    {
      var line := Token(rest);
      var next := Remainder(rest);
      KeptCons(line, Lines(next));
      AppendKept(resultLines, line, Kept(Lines(next)), Kept(Lines(input)), IsComment(line));
      if !IsComment(line) {
        resultLines := resultLines + [line];
      }
      rest := next;
    }
    assert resultLines + [] == resultLines;
    output := Join(resultLines, "\n");
  }

  /** The sequence algebra of one loop step. */
  lemma {:induction false} AppendKept(done: seq<string>, line: string, todo: seq<string>, all: seq<string>, comment: bool)
    requires done + ((if comment then [] else [line]) + todo) == all
    ensures (if comment then done else done + [line]) + todo == all
  {
    if comment {
      assert [] + todo == todo;
    } else {
      assert (done + [line]) + todo == done + ([line] + todo);
    }
  }

  // ---------------------------------------------------------------------------
  // Lines: the scanner's tokens

  /** Filtering a line list with a given head. */
  lemma {:induction false} KeptCons(line: string, rest: seq<string>)
    ensures Kept([line] + rest) == (if IsComment(line) then [] else [line]) + Kept(rest)
  {
    assert ([line] + rest)[1..] == rest;
  }

  /** No token contains a line break. */
  lemma {:induction false} LinesHaveNoBreak(s: string)
    ensures forall line | line in Lines(s) :: '\n' !in line
    decreases |s|
  {
    if s != [] {
      NewlineIndexIsFirst(s);
      LinesHaveNoBreak(Remainder(s));
    }
  }

  /**
   * Joining the tokens gives the input back, except for a trailing line break,
   * which the filter loses.
   */
  lemma {:induction false} JoinLines(s: string)
    ensures Rejoins(s)
    decreases |s|
  {
    if s != [] {
      JoinLines(Remainder(s));
      RejoinsStep(s);
    }
  }

  /** `Join` undoes `Lines` up to a trailing line break. */
  predicate Rejoins(s: string) {
    Join(Lines(s), "\n") + (if s != [] && s[|s| - 1] == '\n' then "\n" else "") == s
  }

  /** `Rejoins` carries over from the scanner's remainder to the whole text. */
  lemma {:induction false} RejoinsStep(s: string)
    requires s != [] && Rejoins(Remainder(s))
    ensures Rejoins(s)
  {
    var x, t := Token(s), Remainder(s);
    assert Lines(s) == [x] + Lines(t);
    if NewlineIndex(s) < |s| {
      SplitAtBreak(s);
      JoinStep(x, t, Lines(t));
    } else {
      NewlineIndexIsFirst(s);
      assert s[|s| - 1] in s;
    }
  }

  /** A text with a line break is its first token, the break, and the remainder. */
  lemma {:induction false} SplitAtBreak(s: string)
    requires NewlineIndex(s) < |s|
    ensures s == Token(s) + "\n" + Remainder(s)
  {
  }

  /** One step of `JoinLines`: a token and a line break in front of a rejoined text. */
  lemma {:induction false} JoinStep(x: string, t: string, rest: seq<string>)
    requires rest == [] <==> t == []
    requires Join(rest, "\n") + (if t != [] && t[|t| - 1] == '\n' then "\n" else "") == t
    ensures var s := x + "\n" + t;
      Join([x] + rest, "\n") + (if s[|s| - 1] == '\n' then "\n" else "") == s
  {
    var s := x + "\n" + t;
    if t == [] {
      assert [x] + rest == [x];
    } else {
      JoinCons(x, rest, "\n");
      assert s[|s| - 1] == t[|t| - 1];
    }
  }

  /** Joining a list with at least two parts puts the separator after the first. */
  lemma {:induction false} JoinCons(x: string, rest: seq<string>, sep: string)
    requires rest != []
    ensures Join([x] + rest, sep) == x + sep + Join(rest, sep)
  {
    assert ([x] + rest)[1..] == rest;
  }

  /** The first line break of `p + s`, for a break-free `p`, is the first one of `s`. */
  lemma {:induction false} NewlineIndexAfter(p: string, s: string)
    requires '\n' !in p
    ensures NewlineIndex(p + s) == |p| + NewlineIndex(s)
    decreases |p|
  {
    if p == [] {
      assert p + s == s;
    } else {
      assert p[0] in p;
      assert (p + s)[0] == p[0];
      assert (p + s)[1..] == p[1..] + s;
      assert forall c | c in p[1..] :: c in p;
      NewlineIndexAfter(p[1..], s);
    }
  }

  /**
   * Putting a non-empty break-free `p` in front of `s` extends the first
   * token of `s` and keeps all the others.
   */
  lemma {:induction false} LinesAfter(p: string, s: string)
    requires p != [] && '\n' !in p
    ensures Lines(p + s) == [p + Token(s)] + Lines(Remainder(s))
  {
    var i := NewlineIndex(s);
    var t := p + s;
    NewlineIndexAfter(p, s);
    assert Token(t) == p + Token(s) by {
      assert t[..|p| + i] == p + s[..i];
    }
    assert Remainder(t) == Remainder(s) by {
      if i < |s| {
        assert t[|p| + i + 1..] == s[i + 1..];
      }
    }
  }

  /** A break-free `x` followed by a line break is the first token. */
  lemma {:induction false} LinesBreakAfter(x: string, t: string)
    requires '\n' !in x
    ensures Lines(x + "\n" + t) == [x] + Lines(t)
  {
    var s := x + "\n" + t;
    assert s == x + ("\n" + t);
    NewlineIndexAfter(x, "\n" + t);
    assert Token(s) == x;
    assert Remainder(s) == t;
  }

  /** A non-empty break-free string is a single token. */
  lemma {:induction false} LinesOfLine(x: string)
    requires '\n' !in x
    ensures Lines(x) == if x == "" then [] else [x]
  {
    if x != "" {
      NewlineIndexAfter(x, "");
      assert x + "" == x;
    }
  }

  /**
   * Splitting a join of break-free lines gives those lines back, except a
   * final empty line, which the scanner does not report.
   */
  lemma {:induction false} LinesOfJoin(lines: seq<string>)
    requires NoBreaks(lines)
    ensures SplitsBack(lines)
    decreases |lines|
  {
    if |lines| == 1 {
      assert lines[0] in lines;
      LinesOfLine(lines[0]);
    } else if lines != [] {
      assert NoBreaks(lines[1..]) by {
        assert forall line | line in lines[1..] :: line in lines;
      }
      LinesOfJoin(lines[1..]);
      SplitsBackStep(lines);
    }
  }

  /** No line of `lines` holds a line break. */
  predicate NoBreaks(lines: seq<string>) {
    forall line | line in lines :: '\n' !in line
  }

  /** The scanner splits the join of `lines` back into `lines`, less a final empty line. */
  predicate SplitsBack(lines: seq<string>) {
    Lines(Join(lines, "\n")) == if lines != [] && lines[|lines| - 1] == "" then lines[..|lines| - 1] else lines
  }

  /** `SplitsBack` carries over from the tail of a list of two or more lines to the whole list. */
  lemma {:induction false} SplitsBackStep(lines: seq<string>)
    requires |lines| >= 2 && NoBreaks(lines) && SplitsBack(lines[1..])
    ensures SplitsBack(lines)
  {
    var x, rest := lines[0], lines[1..];
    assert x in lines;
    assert lines == [x] + rest;
    JoinCons(x, rest, "\n");
    LinesBreakAfter(x, Join(rest, "\n"));
    if lines[|lines| - 1] == "" {
      assert lines[..|lines| - 1] == [x] + rest[..|rest| - 1];
    }
  }

  // ---------------------------------------------------------------------------
  // Kept: the comment filter on lines

  /** Filtering distributes over concatenation. */
  lemma {:induction false} KeptAppend(a: seq<string>, b: seq<string>)
    ensures Kept(a + b) == Kept(a) + Kept(b)
    decreases |a|
  {
    if a == [] {
      assert a + b == b;
    } else {
      assert (a + b)[0] == a[0];
      assert (a + b)[1..] == a[1..] + b;
      KeptAppend(a[1..], b);
    }
  }

  /** A line survives exactly when it occurs in the input and is not a comment. */
  lemma {:induction false} KeptMembers(lines: seq<string>)
    ensures forall line :: line in Kept(lines) <==> line in lines && !IsComment(line)
    decreases |lines|
  {
    if lines != [] {
      KeptMembers(lines[1..]);
      assert lines == [lines[0]] + lines[1..];
    }
  }

  /**
   * Filtering keeps the order of the lines it keeps: the result is a
   * subsequence of the input, picked out by an increasing index map.
   */
  lemma {:induction false} KeptIsSubsequence(lines: seq<string>)
    ensures exists idx: seq<nat> :: IsPick(lines, Kept(lines), idx)
    decreases |lines|
  {
    if lines == [] {
      assert IsPick(lines, Kept(lines), []);
    } else {
      KeptIsSubsequence(lines[1..]);
      var tail := Kept(lines[1..]);
      var idx: seq<nat> :| IsPick(lines[1..], tail, idx);
      var shifted := PickShift(lines, tail, idx);
      if IsComment(lines[0]) {
        assert Kept(lines) == tail;
      } else {
        assert Kept(lines) == [lines[0]] + tail;
        PickCons(lines, tail, shifted);
      }
    }
  }

  /** A pick from `lines[1..]` is a pick from `lines` once its indices are shifted. */
  lemma {:induction false} PickShift(lines: seq<string>, sub: seq<string>, idx: seq<nat>)
      returns (shifted: seq<nat>)
    requires lines != [] && IsPick(lines[1..], sub, idx)
    ensures IsPick(lines, sub, shifted) && forall k | 0 <= k < |shifted| :: shifted[k] > 0
  {
    shifted := seq(|idx|, k requires 0 <= k < |idx| => idx[k] + 1);
    forall k | 0 <= k < |shifted|
      ensures shifted[k] < |lines| && sub[k] == lines[shifted[k]]
    {
      assert lines[1..][idx[k]] == lines[idx[k] + 1];
    }
  }

  /** A pick avoiding index 0 extends to one that also picks the first line. */
  lemma {:induction false} PickCons(lines: seq<string>, sub: seq<string>, idx: seq<nat>)
    requires lines != [] && IsPick(lines, sub, idx) && forall k | 0 <= k < |idx| :: idx[k] > 0
    ensures IsPick(lines, [lines[0]] + sub, [0] + idx)
  {
    var picked := [0] + idx;
    forall j, k | 0 <= j < k < |picked| ensures picked[j] < picked[k] {
      if j > 0 {
        assert picked[j] == idx[j - 1];
      }
      assert picked[k] == idx[k - 1];
    }
    forall k | 0 < k < |picked|
      ensures picked[k] < |lines| && ([lines[0]] + sub)[k] == lines[picked[k]]
    {
      assert picked[k] == idx[k - 1];
    }
  }

  /** `sub[k] == lines[idx[k]]` for an increasing `idx`. */
  predicate IsPick(lines: seq<string>, sub: seq<string>, idx: seq<nat>) {
    |idx| == |sub|
    && (forall k | 0 <= k < |idx| :: idx[k] < |lines| && sub[k] == lines[idx[k]])
    && (forall j, k | 0 <= j < k < |idx| :: idx[j] < idx[k])
  }

  /** Lines without comments are left alone. */
  lemma {:induction false} KeptNoComments(lines: seq<string>)
    requires forall line | line in lines :: !IsComment(line)
    ensures Kept(lines) == lines
    decreases |lines|
  {
    if lines != [] {
      assert lines[0] in lines;
      assert forall line | line in lines[1..] :: line in lines;
      KeptNoComments(lines[1..]);
    }
  }

  /** A line is a comment exactly when `#` is its first character. */
  lemma {:induction false} CommentIsHashFirst(line: string)
    ensures IsComment(line) <==> |line| > 0 && line[0] == '#'
  {
    if |line| > 0 {
      assert line[..1] == [line[0]];
    }
  }

  /**
   * A scanned line is dropped exactly when `#` is its first character: a `#`
   * further along, after indentation say, does not make a comment.
   */
  lemma {:induction false} KeptUnlessHashFirst(lines: seq<string>, line: string)
    requires line in lines
    ensures line in Kept(lines) <==> !(|line| > 0 && line[0] == '#')
  {
    KeptMembers(lines);
    CommentIsHashFirst(line);
  }

  // ---------------------------------------------------------------------------
  // Filtered: the whole of removeLinesWithHash

  /**
   * The output of `removeLinesWithHash` has no comment line: every token of
   * the output is a token of the input that is not a comment.
   */
  lemma {:induction false} OutputLinesAreKept(input: string)
    ensures forall line | line in Lines(Filtered(input)) :: line in Lines(input) && !IsComment(line)
  {
    var kept := Kept(Lines(input));
    LinesHaveNoBreak(input);
    KeptMembers(Lines(input));
    assert NoBreaks(kept) by {
      forall line | line in kept ensures '\n' !in line {
        assert line in Lines(input);
      }
    }
    LinesOfJoin(kept);
    if kept != [] && kept[|kept| - 1] == "" {
      assert forall line | line in kept[..|kept| - 1] :: line in kept;
    }
  }

  /** The empty message filters to the empty string. */
  lemma {:induction false} FilterEmpty()
    ensures Filtered("") == ""
  {
  }

  /** A message without comment lines only loses a trailing line break. */
  lemma {:induction false} FilterNoComments(input: string)
    requires forall line | line in Lines(input) :: !IsComment(line)
    ensures Filtered(input) + (if input != [] && input[|input| - 1] == '\n' then "\n" else "") == input
  {
    KeptNoComments(Lines(input));
    JoinLines(input);
  }
}
