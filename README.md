# commit-msg hook, modelled in Dafny

The repository ships a git `commit-msg` hook written in Go. Git runs it with the
path of the file that holds the commit message the user is writing. The hook
does four things:

1. It asks git for the current branch (`git rev-parse --abbrev-ref HEAD`).
2. It trims the answer and matches it against `^(feature|bugfix)/([a-zA-Z]+-\d+)-.*$`.
   The second group is the issue key, for example `ABC-123` on `feature/ABC-123-login`.
3. It reads the message and drops every line that begins with `#`, which are git's
   comment lines.
4. If the filtered message does not already contain the key, it writes
   `"[" + key + "] "` followed by the filtered message back to the file.

A failed branch query, a branch name that does not match, and a
message that already holds the key all leave the file alone and exit 0. A missing
argument, a failed read and a failed write are fatal and exit 1.

Modules:

- `Wrappers`: `Option`.
- `Text`: the Go string functions the hook uses, written out:
  - `strings.HasPrefix` as `StartsWith`;
  - `strings.Index` and `strings.Contains` as `Index` and `Contains`;
  - `strings.Join` as `Join`;
  - `strings.TrimSpace` as `TrimSpace`, over Go's `unicode.IsSpace` set.
- `BranchName`: a recognizer written by hand for the branch regexp. It follows Go's
  `regexp` semantics:
  - `.` does not match `'\n'`;
  - `$` is the end of the text;
  - `\d` and `[a-zA-Z]` are ASCII only.

  `BranchKey` is lines 31-43 of the hook.
- `LineFilter`: `removeLinesWithHash`.
  - `Lines` gives the tokens `bufio.Scanner` yields with its default line splitter.
  - `Kept` is the comment filter, and `Filtered` is the function the method is
    proved against.
  - `RemoveLinesWithHash` is the method with the scanning loop.
- `CommitMsg`: the hook itself.
  - `Decide` is lines 52-60 and `Run` is `main` as a function of what it observes.
  - `CommitMsgHook` is `main` as a method with its early returns.
  - The lemmas state what the hook guarantees.

A failed branch query is a no-op. Comments are filtered out before the key check,
and the prefix is `[KEY] `. The hook writes the prefix followed by the *filtered*
message, not the original one: comment lines are removed and a trailing line
break is lost. For the same reason, a key that appears only in a comment line
does not stop the rewrite (`RewriteShape`, `RewriteHasNoCommentLines`,
`JoinLines`).

All properties of the hook are proved about the function `Run`. The method
`CommitMsgHook` exists to connect the loop of `RemoveLinesWithHash` to `Run`:
its contract says it ends with the outcome `Run` describes.

## Model

| member | source | states |
|---|---|---|
| Text.Index | commit-msg.go:54 | `strings.Index`, counting positions in characters where Go counts bytes (the hook uses it only through `Contains`, where the two agree): the result is -1 exactly when `sub` occurs nowhere in `s`; otherwise it is a position where `sub` occurs, and it occurs at no earlier position |
| Text.OccursAtContains | commit-msg.go:54 | an occurrence of `sub` at any position makes `strings.Contains` true |
| Text.StartsWithTrans | commit-msg.go:76 | a prefix of a prefix of `s` is a prefix of `s` |
| Text.JoinStartsWithFirst | commit-msg.go:86 | `strings.Join` of a non-empty list begins with its first element |
| Text.LeadingSpace | commit-msg.go:31 | the length of the white-space run at the front: all of it is `unicode.IsSpace`, and the next character is not |
| Text.TrailingSpace | commit-msg.go:31 | the same for the white-space run at the end |
| Text.TrimSpace | commit-msg.go:31 | the result is a contiguous piece of the input with only white space around it, and it neither begins nor ends in white space |
| Text.TrimSpaceDropsLineBreak | commit-msg.go:23-31 | trimming git's output `name + "\n"` gives back `name` when `name` does not begin or end in white space |
| Text.StartsWith | commit-msg.go:76 | `strings.HasPrefix`; a definition without a contract of its own, described by `StartsWithTrans` and `CommitMsg.TagPrefixHoldsKey` |
| Text.Contains | commit-msg.go:54 | `strings.Contains` as `Index >= 0`; a definition without a contract of its own, described by `Index`'s contract and `OccursAtContains` |
| Text.Join | commit-msg.go:86 | `strings.Join`; a definition without a contract of its own, described by `JoinStartsWithFirst`, `LineFilter.JoinCons`, `LineFilter.JoinLines` and `LineFilter.LinesOfJoin` |
| BranchName.LetterRun | commit-msg.go:34 | `[a-zA-Z]+` is greedy: the run is all ASCII letters and the next character is not a letter |
| BranchName.DigitRun | commit-msg.go:34 | the same for `\d+` and ASCII digits |
| BranchName.MatchAfterCategorySound | commit-msg.go:34-36 | a match after the category splits the rest into an issue key, `-` and a suffix without `'\n'` |
| BranchName.MatchSound | commit-msg.go:34-43 | when the branch name matches, the category is `feature` or `bugfix`, group 2 is letters-`-`-digits, and the name is `category + "/" + key + "-" + suffix` with no line break in the suffix |
| BranchName.LetterRunIs | commit-msg.go:34 | a letter run of length n followed by a non-letter is found with length exactly n |
| BranchName.DigitRunIs | commit-msg.go:34 | the same for digit runs |
| BranchName.MatchAfterCategoryAt | commit-msg.go:34-36 | the matcher accepts at the positions where the letter run, `-`, the digit run and `-` end |
| BranchName.MatchAfterCategoryComplete | commit-msg.go:34-36 | the text after the category of the form letters-digits-suffix, with a suffix free of `'\n'`, matches with key letters-digits and that suffix |
| BranchName.MatchOfCategory | commit-msg.go:34 | a name beginning with `feature/` or `bugfix/` is matched by what follows the slash |
| BranchName.MatchComplete | commit-msg.go:34-43 | every name `category/letters-digits-suffix` with a suffix free of `'\n'` matches, with group 2 equal to `letters-digits` |
| BranchName.BranchKeyOfGitOutput | commit-msg.go:23-43 | for any git output that `strings.TrimSpace` turns into `category/letters-digits-suffix` with a suffix free of `'\n'`, the key found is `letters-digits` |
| BranchName.BranchKeyOfOutputLine | commit-msg.go:23-43 | the usual case: for git's answer `category/letters-digits-suffix` plus a line break, where the suffix has no `'\n'` and does not end in white space, the key found is `letters-digits` |
| BranchName.MatchAfterCategory | commit-msg.go:34-36 | the pattern after `feature/` or `bugfix/`; a definition without a contract of its own, described by `MatchAfterCategorySound`, `MatchAfterCategoryAt` and `MatchAfterCategoryComplete` |
| BranchName.Match | commit-msg.go:34-36 | `FindStringSubmatch` for the branch pattern; a definition without a contract of its own, described by `MatchSound` and `MatchComplete`, which together say it accepts exactly the names of the pattern's form |
| BranchName.BranchKey | commit-msg.go:31-43 | group 2 of the trimmed branch name; a definition without a contract of its own, described by `BranchKeyOfGitOutput`, `BranchKeyOfOutputLine` and `CommitMsg.BranchKeyHasNoBreak` |
| LineFilter.NewlineIndex | commit-msg.go:73-75 | the scanner's end of token: at most the length of the input, and when smaller it is at a `'\n'` |
| LineFilter.NewlineIndexIsFirst | commit-msg.go:73-75 | no `'\n'` comes before the end of the first token |
| LineFilter.Remainder | commit-msg.go:74 | every scan step consumes at least one character |
| LineFilter.Token | commit-msg.go:74-75 | the scanner's first token; a definition without a contract of its own, described by `NewlineIndexIsFirst`, `SplitAtBreak` and `LinesAfter` |
| LineFilter.Lines | commit-msg.go:73-75 | the tokens `bufio.Scanner` yields; a definition without a contract of its own, described by `LinesHaveNoBreak`, `JoinLines`, `LinesOfJoin`, `LinesAfter` and `LinesBreakAfter` |
| LineFilter.IsComment | commit-msg.go:76 | `strings.HasPrefix(line, "#")`; a definition without a contract of its own, described by `CommentIsHashFirst` |
| LineFilter.Kept | commit-msg.go:76-77 | the comment filter on lines; a definition without a contract of its own, described by `KeptCons`, `KeptAppend`, `KeptMembers`, `KeptIsSubsequence` and `KeptNoComments` |
| LineFilter.Filtered | commit-msg.go:70-87 | what `removeLinesWithHash` returns; a definition without a contract of its own, described by `RemoveLinesWithHash`, `OutputLinesAreKept`, `FilterEmpty` and `FilterNoComments` |
| LineFilter.RemoveLinesWithHash | commit-msg.go:70-87 | the loop returns `Filtered(input)`: the non-comment tokens in order, joined with `"\n"` |
| LineFilter.KeptCons | commit-msg.go:76-77 | one filter step keeps the head exactly when it is not a comment |
| LineFilter.AppendKept | commit-msg.go:76-77 | appending a kept line to the lines done keeps the loop's invariant |
| LineFilter.LinesHaveNoBreak | commit-msg.go:74-75 | no scanned token contains `'\n'` |
| LineFilter.JoinLines | commit-msg.go:73-86 | joining the tokens with `"\n"` gives the input back, except for a trailing line break, which is lost |
| LineFilter.RejoinsStep | commit-msg.go:73-86 | the rejoining property passes from the scanner's remainder to the whole text |
| LineFilter.SplitAtBreak | commit-msg.go:74-75 | a text with a line break is its first token, `'\n'`, and the remainder |
| LineFilter.JoinStep | commit-msg.go:86 | one step of rejoining: a token and `'\n'` before a rejoined text |
| LineFilter.JoinCons | commit-msg.go:86 | `strings.Join` of two or more parts puts the separator after the first part |
| LineFilter.NewlineIndexAfter | commit-msg.go:74-75 | in front of a text, a break-free prefix moves the first line break by its own length |
| LineFilter.LinesAfter | commit-msg.go:74-75 | a break-free prefix joins the first token and leaves every later token as it was |
| LineFilter.LinesBreakAfter | commit-msg.go:74-75 | a break-free `x` followed by `'\n'` is scanned as the token `x` followed by the tokens of the rest |
| LineFilter.LinesOfLine | commit-msg.go:74-75 | a non-empty break-free text is a single token, and the empty text has none |
| LineFilter.LinesOfJoin | commit-msg.go:74-86 | scanning the join of break-free lines gives those lines back, except for a final empty line |
| LineFilter.SplitsBackStep | commit-msg.go:74-86 | the previous property passes from the tail of a list to the whole list |
| LineFilter.KeptAppend | commit-msg.go:74-79 | filtering distributes over concatenation |
| LineFilter.KeptMembers | commit-msg.go:76-77 | a line is in the output exactly when it is in the input and is not a comment |
| LineFilter.KeptIsSubsequence | commit-msg.go:74-79 | the kept lines appear in the input at increasing positions, so their order is kept |
| LineFilter.PickShift | commit-msg.go:74-79 | a subsequence of the tail is a subsequence of the whole list |
| LineFilter.PickCons | commit-msg.go:74-79 | a subsequence extends by the first line |
| LineFilter.KeptNoComments | commit-msg.go:76-77 | lines without comments pass through the filter unchanged |
| LineFilter.CommentIsHashFirst | commit-msg.go:76 | `strings.HasPrefix(line, "#")` holds exactly when `#` is the first character |
| LineFilter.KeptUnlessHashFirst | commit-msg.go:76-77 | a scanned line is dropped exactly when `#` is its first character, so a `#` later in the line keeps it |
| LineFilter.OutputLinesAreKept | commit-msg.go:70-87 | every line of the filter's output is a line of the input that is not a comment |
| LineFilter.FilterEmpty | commit-msg.go:70-87 | the empty message filters to the empty string |
| LineFilter.FilterNoComments | commit-msg.go:70-87 | a message without comment lines comes back unchanged, except for a trailing line break |
| CommitMsg.CommitMsgHook | commit-msg.go:15-68 | `main` checks the argument, the branch query, the match, the read, the key and the write in this order, and ends with the same outcome as `Run` |
| CommitMsg.Tag | commit-msg.go:60 | the prefix `"[" + key + "] "`; a definition without a contract of its own, described by `TagHoldsKey`, `TagIsOneLine` and `TagPrefixHoldsKey` |
| CommitMsg.Decide | commit-msg.go:52-60 | filter, key check and prefix; a definition without a contract of its own, described by `RewriteShape`, `RewriteHasNoCommentLines` and `DecideIdempotent` |
| CommitMsg.Run | commit-msg.go:15-68 | `main` as a function of what it observes; a definition without a contract of its own, described by `MismatchLeavesMessage`, `KeyPresentKeepsOriginal`, `HookIdempotent`, `RewriteRequiresMatch`, `RunWritesNoCommentLines` and `MatchingBranchRewrites` |
| CommitMsg.FileAfter | commit-msg.go:54-67 | the message file after the hook: the written content after a rewrite, otherwise the original; a definition without a contract of its own, used by `KeyPresentKeepsOriginal` and `HookIdempotent` |
| CommitMsg.IssueKeyHasNoBreak | commit-msg.go:34 | an issue key has no line break |
| CommitMsg.BranchKeyHasNoBreak | commit-msg.go:31-43 | a key taken from the branch name has no line break |
| CommitMsg.TagHoldsKey | commit-msg.go:60 | the new message begins with `[` and holds the key from its second character |
| CommitMsg.MismatchLeavesMessage | commit-msg.go:36-40 | a branch name that does not match ends the hook with exit status 0 and the file untouched, whatever the file holds |
| CommitMsg.KeyPresentKeepsOriginal | commit-msg.go:52-57 | when the filtered message contains the key, the hook does not write, and the file keeps its original content, comments included |
| CommitMsg.RewriteShape | commit-msg.go:54-60 | a rewrite happens only when the filtered message lacks the key; the result is `"[" + key + "] "` followed by the filtered message, so it contains the key |
| CommitMsg.TagIsOneLine | commit-msg.go:60 | for a key without `'\n'`, the prefix is non-empty and free of line breaks |
| CommitMsg.TaggedLines | commit-msg.go:60 | for a key without `'\n'`, in a tagged message the first line begins with the prefix and is not a comment, and every later line is a line of the message behind the prefix |
| CommitMsg.RewriteHasNoCommentLines | commit-msg.go:52-63 | for a key without `'\n'`, the written content has no comment lines: its first line begins with the prefix, and every later line is a non-comment line of the original message |
| CommitMsg.FilteredKeepsFirstLine | commit-msg.go:70-87 | a message whose first line is not a comment filters to a text beginning with that line |
| CommitMsg.TagPrefixHoldsKey | commit-msg.go:54-60 | a text beginning with the prefix contains the key |
| CommitMsg.DecideIdempotent | commit-msg.go:52-60 | for a key without `'\n'` (every key from a branch name, `BranchKeyHasNoBreak`), given the hook's own output the decision step finds the key and does not write |
| CommitMsg.HookIdempotent | commit-msg.go:15-68 | running the hook a second time on its own output never writes, and leaves the file as the first run left it |
| CommitMsg.RewriteRequiresMatch | commit-msg.go:15-68 | if the hook writes, the argument was given, the query succeeded, the file was read, the write succeeded, the trimmed branch name matched, and the content is the prefix followed by the filtered message |
| CommitMsg.RunWritesNoCommentLines | commit-msg.go:15-68 | whatever the hook writes has no comment line: its first line begins with the tag of the branch's key, and every other line is a line of the message file |
| CommitMsg.MatchingBranchRewrites | commit-msg.go:15-68 | for any git output that `strings.TrimSpace` turns into `category/letters-digits-suffix` with a suffix free of `'\n'`, and a readable message whose filtered text lacks `letters-digits`, the hook writes the prefix of `letters-digits` followed by the filtered message |

## Left out

- `os.Args`, process exit and `log.Fatal`: the arguments are a parameter. The fatal paths are `Fatal` outcomes with exit status 1, and a missing argument is `MissingMessageFile`.
- The `git rev-parse` subprocess: `Run` takes its output as a parameter, and `None` stands for a failed command.
- File I/O: the message file's content is a parameter (`None` for a failed read), and `writeOk` says whether the write succeeds. The file mode `0644` is not modelled.
- `FileAfter` excludes the outcome of a failed write, because the content of the file after a failed write is unknown.
- The Go `regexp` engine: it is replaced by a matcher written by hand for this one pattern, whose soundness and completeness are proved against the pattern's meaning.
- `bufio.Scanner`'s limit of 64 KiB on a token is not modelled. Nor is the fallback at lines 81-84 that returns the input unchanged on a scanner error, because with a string reader the only such error is a line over the limit.
- `bufio.ScanLines` dropping a trailing `'\r'` from every token, the last one included: the model splits on `'\n'` only, so `"abc\r"` keeps its `'\r'` in the model.
- The filter loses a trailing line break (`JoinLines`). For this reason the filter is not idempotent (`"a\n\n"` gives `"a\n"`, which gives `"a"`), but the whole hook is (`HookIdempotent`).
- Logging (`log.Println`, `fmt.Println`) has no effect on the outcome and is not modelled.
- Strings are sequences of Unicode characters. Invalid UTF-8 in the message or in git's output is not modelled.
