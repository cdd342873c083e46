/**
 * The branch-name convention: the trimmed output of
 * `git rev-parse --abbrev-ref HEAD` must match
 * `^(feature|bugfix)/([a-zA-Z]+-\d+)-.*$`, and the second group is the issue
 * key. The matcher for this one pattern is written out by hand. In Go's
 * regular-expression syntax `\d` is an ASCII digit, `.` is any character but
 * a line break, and `$` (without the `m` flag) is the end of the text.
 */
module BranchName {
  import opened Wrappers
  import opened Text

  predicate IsAsciiLetter(c: char) {
    'a' <= c <= 'z' || 'A' <= c <= 'Z'
  }

  predicate IsAsciiDigit(c: char) {
    '0' <= c <= '9'
  }

  predicate AllLetters(s: string) {
    forall k | 0 <= k < |s| :: IsAsciiLetter(s[k])
  }

  predicate AllDigits(s: string) {
    forall k | 0 <= k < |s| :: IsAsciiDigit(s[k])
  }

  /** The first group of the pattern. */
  predicate IsCategory(category: string) {
    category == "feature" || category == "bugfix"
  }

  /** `key` splits at position `i` into letters, a hyphen and digits, none of the parts empty. */
  predicate KeySplitsAt(key: string, i: nat) {
    0 < i < |key| - 1 && key[i] == '-' && AllLetters(key[..i]) && AllDigits(key[i + 1..])
  }

  /** An issue key, `[a-zA-Z]+-\d+`. */
  predicate IsIssueKey(key: string) {
    exists i: nat | i < |key| :: KeySplitsAt(key, i)
  }

  /** The groups of a successful match: `name == category + "/" + key + "-" + suffix`. */
  datatype BranchMatch = BranchMatch(category: string, key: string, suffix: string)

  /** The length of the run of ASCII letters at the front of `s`. */
  function LetterRun(s: string): (n: nat)
    ensures n <= |s| && AllLetters(s[..n])
    ensures n < |s| ==> !IsAsciiLetter(s[n])
  {
    if s != [] && IsAsciiLetter(s[0]) then
      var n := 1 + LetterRun(s[1..]);
      assert forall k | 1 <= k < n :: s[..n][k] == s[1..][..n - 1][k - 1];
      n
    else 0
  }

  /** The length of the run of ASCII digits at the front of `s`. */
  function DigitRun(s: string): (n: nat)
    ensures n <= |s| && AllDigits(s[..n])
    ensures n < |s| ==> !IsAsciiDigit(s[n])
  {
    if s != [] && IsAsciiDigit(s[0]) then
      var n := 1 + DigitRun(s[1..]);
      assert forall k | 1 <= k < n :: s[..n][k] == s[1..][..n - 1][k - 1];
      n
    else 0
  }

  /**
   * Matches `([a-zA-Z]+-\d+)-.*$` against what follows `category + "/"`.
   * Neither run can stop early, because the character after each one must
   * be `-`, which is neither a letter nor a digit.
   */
  function MatchAfterCategory(category: string, rest: string): Option<BranchMatch> {
    var n := LetterRun(rest);
    if n == 0 || n == |rest| || rest[n] != '-' then None
    else
      var m := DigitRun(rest[n + 1..]);
      var e := n + 1 + m;
      if m == 0 || e == |rest| || rest[e] != '-' then None
      else if '\n' in rest[e + 1..] then None
      else Some(BranchMatch(category, rest[..e], rest[e + 1..]))
  }

  /** `regexp.FindStringSubmatch` for the branch pattern. */
  function Match(name: string): Option<BranchMatch> {
    if StartsWith(name, "feature/") then MatchAfterCategory("feature", name[8..])
    else if StartsWith(name, "bugfix/") then MatchAfterCategory("bugfix", name[7..])
    else None
  }

  /** A match of what follows the category is an issue key, `-` and a suffix without line breaks. */
  lemma {:induction false} MatchAfterCategorySound(category: string, rest: string)
    requires MatchAfterCategory(category, rest).Some?
    ensures var m := MatchAfterCategory(category, rest).value;
      && m.category == category
      && IsIssueKey(m.key)
      && '\n' !in m.suffix
      && rest == m.key + "-" + m.suffix
  {
    var n := LetterRun(rest);
    var m := DigitRun(rest[n + 1..]);
    var e := n + 1 + m;
    var key := rest[..e];
    assert KeySplitsAt(key, n) by {
      assert key[..n] == rest[..n];
      assert key[n + 1..] == rest[n + 1..][..m];
    }
    assert rest == key + "-" + rest[e + 1..];
  }

  /**
   * A match splits the name into a category, `/`, an issue key, `-` and a
   * suffix without line breaks, so the key is preceded by `feature/` or
   * `bugfix/` and followed by `-`.
   */
  lemma {:induction false} MatchSound(name: string)
    requires Match(name).Some?
    ensures var m := Match(name).value;
      && IsCategory(m.category)
      && IsIssueKey(m.key)
      && '\n' !in m.suffix
      && name == m.category + "/" + m.key + "-" + m.suffix
  {
    var m := Match(name).value;
    if StartsWith(name, "feature/") {
      assert name == "feature" + "/" + name[8..] by {
        assert "feature" + "/" == "feature/" == name[..8];
      }
      MatchAfterCategorySound("feature", name[8..]);
      Compose("feature", name, name[8..], m.key, m.suffix);
    } else {
      assert name == "bugfix" + "/" + name[7..] by {
        assert "bugfix" + "/" == "bugfix/" == name[..7];
      }
      MatchAfterCategorySound("bugfix", name[7..]);
      Compose("bugfix", name, name[7..], m.key, m.suffix);
    }
  }

  lemma Compose(category: string, name: string, rest: string, key: string, suffix: string)
    requires name == category + "/" + rest && rest == key + "-" + suffix
    ensures name == category + "/" + key + "-" + suffix
  {
  }

  /** The issue key of a branch as `git rev-parse` prints it: lines 31-43 of the hook. */
  function BranchKey(gitOutput: string): Option<string> {
    match Match(TrimSpace(gitOutput))
    case None => None
    case Some(m) => Some(m.key)
  }

  // ---------------------------------------------------------------------------

  /** A run that stops at position `n` has length `n`. */
  lemma {:induction false} LetterRunIs(s: string, n: nat)
    requires n <= |s| && AllLetters(s[..n]) && (n < |s| ==> !IsAsciiLetter(s[n]))
    ensures LetterRun(s) == n
    decreases n
  {
    if n > 0 {
      assert s[1..][..n - 1] == s[1..n];
      assert IsAsciiLetter(s[..n][0]);
      LetterRunIs(s[1..], n - 1);
    }
  }

  /** A run that stops at position `n` has length `n`. */
  lemma {:induction false} DigitRunIs(s: string, n: nat)
    requires n <= |s| && AllDigits(s[..n]) && (n < |s| ==> !IsAsciiDigit(s[n]))
    ensures DigitRun(s) == n
    decreases n
  {
    if n > 0 {
      assert s[1..][..n - 1] == s[1..n];
      assert IsAsciiDigit(s[..n][0]);
      DigitRunIs(s[1..], n - 1);
    }
  }

  /**
   * What follows the category matches when it has letters at `[0, n)`, a
   * hyphen at `n`, digits at `(n, e)`, a hyphen at `e` and no line break
   * after; the key is then `rest[..e]`.
   */
  lemma {:induction false} MatchAfterCategoryAt(category: string, rest: string, n: nat, e: nat)
    requires 0 < n && n + 1 < e < |rest|
    requires AllLetters(rest[..n]) && rest[n] == '-'
    requires AllDigits(rest[n + 1..e]) && rest[e] == '-'
    requires '\n' !in rest[e + 1..]
    ensures MatchAfterCategory(category, rest) == Some(BranchMatch(category, rest[..e], rest[e + 1..]))
  {
    assert LetterRun(rest) == n by {
      LetterRunIs(rest, n);
    }
    DigitsEndAt(rest, n, e);
    var m := e - n - 1;
    assert n + 1 + m == e;
  }

  /** The digit run after the hyphen at `n` ends at the hyphen at `e`. */
  lemma {:induction false} DigitsEndAt(rest: string, n: nat, e: nat)
    requires n + 1 < e < |rest|
    requires AllDigits(rest[n + 1..e]) && rest[e] == '-'
    ensures DigitRun(rest[n + 1..]) == e - n - 1
  {
    var d := rest[n + 1..];
    assert d[..e - n - 1] == rest[n + 1..e];
    assert d[e - n - 1] == '-';
    DigitRunIs(d, e - n - 1);
  }

  /** The positions of the parts of `letters-digits-suffix`. */
  lemma {:induction false} PartsOf(letters: string, digits: string, suffix: string)
    ensures var rest := letters + "-" + digits + "-" + suffix;
      var n, e := |letters|, |letters| + 1 + |digits|;
      && rest[..n] == letters && rest[n] == '-'
      && rest[n + 1..e] == digits && rest[e] == '-'
      && rest[..e] == letters + "-" + digits && rest[e + 1..] == suffix
  {
    var key := letters + "-" + digits;
    var rest := letters + "-" + digits + "-" + suffix;
    assert rest == key + "-" + suffix;
    assert rest[..|key|] == key;
    assert key[..|letters|] == letters;
    assert key[|letters| + 1..] == digits;
  }

  /** Every `letters-digits-suffix` matches, with key `letters-digits`. */
  lemma {:induction false} MatchAfterCategoryComplete(category: string, letters: string, digits: string, suffix: string)
    requires |letters| > 0 && AllLetters(letters)
    requires |digits| > 0 && AllDigits(digits)
    requires '\n' !in suffix
    ensures MatchAfterCategory(category, letters + "-" + digits + "-" + suffix)
         == Some(BranchMatch(category, letters + "-" + digits, suffix))
  {
    PartsOf(letters, digits, suffix);
    MatchAfterCategoryAt(category, letters + "-" + digits + "-" + suffix, |letters|, |letters| + 1 + |digits|);
  }

  /**
   * Every name of the form `category/letters-digits-suffix` matches, and its
   * second group is `letters-digits`: together with the contract of `Match`
   * this says that `Match` accepts exactly the names of that form.
   */
  lemma {:induction false} MatchComplete(category: string, letters: string, digits: string, suffix: string)
    requires IsCategory(category)
    requires |letters| > 0 && AllLetters(letters)
    requires |digits| > 0 && AllDigits(digits)
    requires '\n' !in suffix
    ensures Match(category + "/" + letters + "-" + digits + "-" + suffix)
         == Some(BranchMatch(category, letters + "-" + digits, suffix))
  {
    var rest := letters + "-" + digits + "-" + suffix;
    var name := category + "/" + rest;
    Regroup(category, letters, digits, suffix);
    MatchAfterCategoryComplete(category, letters, digits, suffix);
    MatchOfCategory(category, rest);
  }

  /** A name that starts with a category and `/` is matched by what follows. */
  lemma MatchOfCategory(category: string, rest: string)
    requires IsCategory(category)
    ensures Match(category + "/" + rest) == MatchAfterCategory(category, rest)
  {
    var name := category + "/" + rest;
    if category == "feature" {
      assert name[..8] == "feature/" && name[8..] == rest;
    } else {
      assert !StartsWith(name, "feature/") by { assert name[0] != 'f'; }
      assert name[..7] == "bugfix/" && name[7..] == rest;
    }
  }

  lemma Regroup(category: string, letters: string, digits: string, suffix: string)
    ensures category + "/" + letters + "-" + digits + "-" + suffix
         == category + "/" + (letters + "-" + digits + "-" + suffix)
  {
  }

  /**
   * Whatever `git rev-parse` printed, once `strings.TrimSpace` leaves a name
   * `category/letters-digits-suffix`, the key found is `letters-digits`: white
   * space of any kind around the name does not matter.
   */
  lemma {:induction false} BranchKeyOfGitOutput(gitOutput: string, category: string, letters: string,
                                                digits: string, suffix: string)
    requires TrimSpace(gitOutput) == category + "/" + letters + "-" + digits + "-" + suffix
    requires IsCategory(category)
    requires |letters| > 0 && AllLetters(letters)
    requires |digits| > 0 && AllDigits(digits)
    requires '\n' !in suffix
    ensures BranchKey(gitOutput) == Some(letters + "-" + digits)
  {
    MatchComplete(category, letters, digits, suffix);
  }

  /**
   * The usual case: git prints the name followed by a line break, and a name
   * that does not end in white space is kept whole by the trim.
   */
  lemma {:induction false} BranchKeyOfOutputLine(category: string, letters: string, digits: string, suffix: string)
    requires IsCategory(category)
    requires |letters| > 0 && AllLetters(letters)
    requires |digits| > 0 && AllDigits(digits)
    requires '\n' !in suffix && (suffix == [] || !IsSpace(suffix[|suffix| - 1]))
    ensures BranchKey(category + "/" + letters + "-" + digits + "-" + suffix + "\n")
         == Some(letters + "-" + digits)
  {
    var name := category + "/" + letters + "-" + digits + "-" + suffix;
    assert name[0] == category[0];
    assert name[|name| - 1] == if suffix == [] then '-' else suffix[|suffix| - 1];
    TrimSpaceDropsLineBreak(name);
    BranchKeyOfGitOutput(name + "\n", category, letters, digits, suffix);
  }
}
