/**
 * The `commit-msg` hook: read the branch name, find the issue key in it,
 * strip comment lines from the message and, unless the key is already there,
 * put `"[" + key + "] "` in front and write the message back.
 *
 * The process's surroundings are parameters: `args` is `os.Args`,
 * `branchQuery` is what `git rev-parse --abbrev-ref HEAD` printed (`None`
 * when the command failed), `file` is what reading the message file gave
 * (`None` when the read failed) and `writeOk` says whether writing it back
 * succeeds.
 */
module CommitMsg {
  import opened Wrappers
  import opened Text
  import opened LineFilter
  import opened BranchName

  /**
   * The ways the hook returns early without touching the message file (exit
   * status 0): `git rev-parse` failed, the branch name does not match, or the
   * key is already in the message.
   */
  datatype SkipReason = BranchQueryFailed | BranchMismatch | KeyPresent

  /** The ways the hook stops through `log.Fatal` (exit status 1). */
  datatype FatalError = MissingMessageFile | ReadFailed | WriteFailed

  datatype Outcome =
    | Skipped(reason: SkipReason)
    | Rewritten(content: string)
    | Fatal(error: FatalError)
  {
    /** The process's exit status: `log.Fatal` exits with 1, every other path with 0. */
    function ExitStatus(): int {
      if Fatal? then 1 else 0
    }
  }

  /** The prefix the hook puts in front of the message. */
  function Tag(key: string): string {
    "[" + key + "] "
  }

  /**
   * Lines 52-60 of the hook, once the key is known and the file is read:
   * filter the comment lines out, then skip when the key is already in the
   * filtered message, and otherwise prefix it.
   */
  function Decide(key: string, raw: string): Outcome {
    var message := Filtered(raw);
    if Contains(message, key) then Skipped(KeyPresent) else Rewritten(Tag(key) + message)
  }

  /** The whole hook, in the order in which `main` does each step. */
  function Run(args: seq<string>, branchQuery: Option<string>, file: Option<string>, writeOk: bool): Outcome {
    if |args| < 2 then Fatal(MissingMessageFile)
    else if branchQuery.None? then Skipped(BranchQueryFailed)
    else
      match BranchKey(branchQuery.value)
      case None => Skipped(BranchMismatch)
      case Some(key) =>
        if file.None? then Fatal(ReadFailed)
        else
          match Decide(key, file.value)
          case Rewritten(content) => if writeOk then Rewritten(content) else Fatal(WriteFailed)
          case other => other
  }

  /**
   * The message file after the hook ran. After a failed write the content is
   * not known, so that outcome is excluded.
   */
  function FileAfter(original: string, o: Outcome): string
    requires o != Fatal(WriteFailed)
  {
    if o.Rewritten? then o.content else original
  }

  /**
   * The hook as `main` runs it: the same steps as `Run`, with the comment
   * filter done by the `RemoveLinesWithHash` loop.
   */
  method CommitMsgHook(args: seq<string>, branchQuery: Option<string>, file: Option<string>, writeOk: bool)
      returns (o: Outcome)
    ensures o == Run(args, branchQuery, file, writeOk)
  {
    if |args| < 2 {
      return Fatal(MissingMessageFile);
    }
    if branchQuery.None? {
      return Skipped(BranchQueryFailed);
    }
    var key := BranchKey(branchQuery.value);
    if key.None? {
      return Skipped(BranchMismatch);
    }
    if file.None? {
      return Fatal(ReadFailed);
    }
    var message := RemoveLinesWithHash(file.value);
    if Contains(message, key.value) {
      return Skipped(KeyPresent);
    }
    if !writeOk {
      return Fatal(WriteFailed);
    }
    o := Rewritten(Tag(key.value) + message);
  }

  // ---------------------------------------------------------------------------

  /** An issue key is one line: it has no line break. */
  lemma IssueKeyHasNoBreak(key: string)
    requires IsIssueKey(key)
    ensures '\n' !in key
  {
    var i: nat :| i < |key| && KeySplitsAt(key, i);
    forall k | 0 <= k < |key| ensures key[k] != '\n' {
      if k < i {
        assert key[..i][k] == key[k];
      } else if k > i {
        assert key[i + 1..][k - i - 1] == key[k];
      }
    }
  }

  /** A key found in a branch name has no line break. */
  lemma BranchKeyHasNoBreak(branchOutput: string)
    requires BranchKey(branchOutput).Some?
    ensures '\n' !in BranchKey(branchOutput).value
  {
    MatchSound(TrimSpace(branchOutput));
    IssueKeyHasNoBreak(BranchKey(branchOutput).value);
  }

  /** The tag holds the key from its second character on. */
  lemma TagHoldsKey(key: string, rest: string)
    ensures OccursAt(Tag(key) + rest, key, 1)
    ensures (Tag(key) + rest)[0] == '['
  {
    assert Tag(key) + rest == "[" + (key + ("] " + rest));
  }

  /**
   * A branch name that does not match the pattern leaves the message file
   * alone and exits 0, whether or not the file could have been read.
   */
  lemma MismatchLeavesMessage(args: seq<string>, branchOutput: string, file: Option<string>, writeOk: bool)
    requires |args| >= 2
    requires Match(TrimSpace(branchOutput)).None?
    ensures Run(args, Some(branchOutput), file, writeOk) == Skipped(BranchMismatch)
    ensures Run(args, Some(branchOutput), file, writeOk).ExitStatus() == 0
  {
  }

  /**
   * When the filtered message already contains the key, the hook does not
   * write, so the file keeps its original content, comment lines included.
   */
  lemma KeyPresentKeepsOriginal(args: seq<string>, branchOutput: string, raw: string, writeOk: bool)
    requires |args| >= 2
    requires BranchKey(branchOutput).Some?
    requires Contains(Filtered(raw), BranchKey(branchOutput).value)
    ensures Run(args, Some(branchOutput), Some(raw), writeOk) == Skipped(KeyPresent)
    ensures FileAfter(raw, Run(args, Some(branchOutput), Some(raw), writeOk)) == raw
  {
    RunWithKey(args, branchOutput, raw, writeOk, BranchKey(branchOutput).value);
  }

  lemma RunWithKey(args: seq<string>, branchOutput: string, raw: string, writeOk: bool, key: string)
    requires |args| >= 2
    requires BranchKey(branchOutput) == Some(key)
    ensures Run(args, Some(branchOutput), Some(raw), writeOk)
         == if Decide(key, raw).Rewritten? && !writeOk then Fatal(WriteFailed) else Decide(key, raw)
  {
  }

  /**
   * The rewritten message is the filtered message behind the tag: it starts
   * with `[`, holds the key right after it, and what follows the tag is the
   * filtered message.
   */
  lemma RewriteShape(key: string, raw: string)
    requires Decide(key, raw).Rewritten?
    ensures var content := Decide(key, raw).content;
      && !Contains(Filtered(raw), key)
      && StartsWith(content, Tag(key))
      && content[|Tag(key)|..] == Filtered(raw)
      && content[0] == '['
      && OccursAt(content, key, 1)
      && Contains(content, key)
  {
    var content := Decide(key, raw).content;
    TagHoldsKey(key, Filtered(raw));
    OccursAtContains(content, key, 1);
    assert content[..|Tag(key)|] == Tag(key);
  }

  /** With a break-free key, the tag is one break-free, non-comment piece of text. */
  lemma TagIsOneLine(key: string)
    requires '\n' !in key
    ensures '\n' !in Tag(key) && Tag(key) != []
  {
    forall c | c in Tag(key) ensures c != '\n' {
      assert c in "[" || c in key || c in "] ";
    }
  }

  /**
   * Splitting a tagged text: the first line begins with the tag and is no
   * comment, and every later line is a line of the text behind the tag.
   */
  lemma TaggedLines(key: string, message: string)
    requires '\n' !in key
    ensures var lines := Lines(Tag(key) + message);
      && lines != [] && StartsWith(lines[0], Tag(key)) && !IsComment(lines[0])
      && (forall k | 1 <= k < |lines| :: lines[k] in Lines(message))
  {
    TagIsOneLine(key);
    LinesAfter(Tag(key), message);
    TaggedFirstLine(key, Token(message));
    LaterLines(message);
  }

  /** The tag followed by a token begins with the tag and is no comment. */
  lemma TaggedFirstLine(key: string, token: string)
    ensures StartsWith(Tag(key) + token, Tag(key)) && !IsComment(Tag(key) + token)
  {
    var first := Tag(key) + token;
    assert first[..|Tag(key)|] == Tag(key);
    TagHoldsKey(key, token);
    CommentIsHashFirst(first);
  }

  /** Every token after the scanner's first one is a token of the whole text. */
  lemma LaterLines(message: string)
    ensures var tail := Lines(Remainder(message));
      forall k | 0 <= k < |tail| :: tail[k] in Lines(message)
  {
    var tail := Lines(Remainder(message));
    if message != [] {
      assert Lines(message) == [Token(message)] + tail;
      forall k | 0 <= k < |tail| ensures tail[k] in Lines(message) {
        assert tail[k] == Lines(message)[k + 1];
      }
    }
  }

  /**
   * The written message has no comment line: its first line begins with the
   * tag, and every other line is a line of the original message that is not
   * a comment.
   */
  lemma RewriteHasNoCommentLines(key: string, raw: string)
    requires '\n' !in key
    requires Decide(key, raw).Rewritten?
    ensures var lines := Lines(Decide(key, raw).content);
      && lines != [] && StartsWith(lines[0], Tag(key))
      && (forall k | 1 <= k < |lines| :: lines[k] in Lines(raw) && !IsComment(lines[k]))
      && (forall line | line in lines :: !IsComment(line))
  {
    var message := Filtered(raw);
    assert Decide(key, raw).content == Tag(key) + message;
    TaggedLines(key, message);
    OutputLinesAreKept(raw);
    var lines := Lines(Tag(key) + message);
    forall line | line in lines ensures !IsComment(line) {
      var k :| 0 <= k < |lines| && lines[k] == line;
    }
  }

  /**
   * Running the decision on its own output changes nothing: the tagged first
   * line is not a comment, so it survives filtering and the key is found.
   */
  lemma DecideIdempotent(key: string, raw: string)
    requires '\n' !in key
    requires Decide(key, raw).Rewritten?
    ensures Decide(key, Decide(key, raw).content) == Skipped(KeyPresent)
  {
    var content := Tag(key) + Filtered(raw);
    assert Decide(key, raw).content == content;
    TaggedLines(key, Filtered(raw));
    FilteredKeepsFirstLine(content);
    StartsWithTrans(Filtered(content), Lines(content)[0], Tag(key));
    TagPrefixHoldsKey(key, Filtered(content));
  }

  /** A text that begins with a line that is no comment filters to a text beginning with that line. */
  lemma FilteredKeepsFirstLine(content: string)
    requires Lines(content) != [] && !IsComment(Lines(content)[0])
    ensures StartsWith(Filtered(content), Lines(content)[0])
  {
    var lines := Lines(content);
    assert lines == [lines[0]] + lines[1..];
    KeptCons(lines[0], lines[1..]);
    JoinStartsWithFirst(Kept(lines), "\n");
  }

  /** A text beginning with the tag contains the key. */
  lemma TagPrefixHoldsKey(key: string, s: string)
    requires StartsWith(s, Tag(key))
    ensures Contains(s, key)
  {
    assert s == Tag(key) + s[|Tag(key)|..];
    TagHoldsKey(key, s[|Tag(key)|..]);
    OccursAtContains(s, key, 1);
  }

  /**
   * Running the hook twice on the same branch and message file gives the
   * same file as running it once; the second run never writes.
   */
  lemma HookIdempotent(args: seq<string>, branchQuery: Option<string>, raw: string)
    ensures var first := Run(args, branchQuery, Some(raw), true);
      var once := FileAfter(raw, first);
      var second := Run(args, branchQuery, Some(once), true);
      && !second.Rewritten?
      && FileAfter(once, second) == once
  {
    var first := Run(args, branchQuery, Some(raw), true);
    if first.Rewritten? {
      var key := BranchKey(branchQuery.value).value;
      BranchKeyHasNoBreak(branchQuery.value);
      DecideIdempotent(key, raw);
    }
  }

  /**
   * When the hook writes, the trimmed branch name had the form
   * `category/key-suffix`, the filtered message lacked the key, and the
   * written content is the tag followed by the filtered message.
   */
  lemma RewriteRequiresMatch(args: seq<string>, branchQuery: Option<string>, file: Option<string>, writeOk: bool)
    requires Run(args, branchQuery, file, writeOk).Rewritten?
    ensures |args| >= 2 && branchQuery.Some? && file.Some? && writeOk
    ensures var name := TrimSpace(branchQuery.value);
      var m := Match(name);
      && m.Some?
      && IsCategory(m.value.category) && IsIssueKey(m.value.key)
      && name == m.value.category + "/" + m.value.key + "-" + m.value.suffix
      && !Contains(Filtered(file.value), m.value.key)
      && Run(args, branchQuery, file, writeOk).content == Tag(m.value.key) + Filtered(file.value)
  {
    MatchSound(TrimSpace(branchQuery.value));
  }

  /**
   * Whatever the hook writes has no comment line: its first line begins with
   * the tag of the branch's key, and every other line is a non-comment line
   * of the message file.
   */
  lemma RunWritesNoCommentLines(args: seq<string>, branchQuery: Option<string>, file: Option<string>, writeOk: bool)
    requires Run(args, branchQuery, file, writeOk).Rewritten?
    ensures var lines := Lines(Run(args, branchQuery, file, writeOk).content);
      && lines != [] && StartsWith(lines[0], Tag(BranchKey(branchQuery.value).value))
      && (forall k | 1 <= k < |lines| :: lines[k] in Lines(file.value))
      && (forall line | line in lines :: !IsComment(line))
  {
    RewriteRequiresMatch(args, branchQuery, file, writeOk);
    var key := BranchKey(branchQuery.value).value;
    BranchKeyHasNoBreak(branchQuery.value);
    assert Decide(key, file.value).Rewritten?;
    assert Run(args, branchQuery, file, writeOk).content == Decide(key, file.value).content;
    RewriteHasNoCommentLines(key, file.value);
  }

  /**
   * The converse: when git's output trims to `category/letters-digits-suffix`,
   * a readable message without the key is rewritten with the tag of
   * `letters-digits`.
   */
  lemma MatchingBranchRewrites(args: seq<string>, gitOutput: string, category: string, letters: string,
                                digits: string, suffix: string, raw: string)
    requires |args| >= 2
    requires TrimSpace(gitOutput) == category + "/" + letters + "-" + digits + "-" + suffix
    requires IsCategory(category)
    requires |letters| > 0 && AllLetters(letters)
    requires |digits| > 0 && AllDigits(digits)
    requires '\n' !in suffix
    requires !Contains(Filtered(raw), letters + "-" + digits)
    ensures Run(args, Some(gitOutput), Some(raw), true) == Rewritten(Tag(letters + "-" + digits) + Filtered(raw))
  {
    BranchKeyOfGitOutput(gitOutput, category, letters, digits, suffix);
    RunWithKey(args, gitOutput, raw, true, letters + "-" + digits);
  }
}
