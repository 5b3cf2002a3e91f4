# License header and banned-word tools, modelled in Dafny

This project models two line-oriented repository maintenance scripts.

- **The license tool** (`scripts/licensing/licensing.py`) works in steps:
  - It lists the tracked source files with `git ls-files` and merges the listings without repetitions.
  - It keeps the paths that match an include glob and no exclude glob.
  - It renders the LICENSE file as a comment block for each file suffix.
  - With check on, it checks that each file starts with that block, after an optional `#!` loader line.
  - With apply on, it then splices the block into each file that has no "Copyright" comment line. One run can do both, check first, and a failed check stops the run before apply.
- **The banned-word scanner** (`scripts/banwords/banwords.py`) selects files the same way.
  - It turns the decoded word list into one case-insensitive alternation pattern.
  - It counts each line's distinct matches and reports the lines that match.
  - It fails the run when the total is not zero.

The modules are:

- `Wrappers`: `Option` and `Result`.
- `Seqs`: concatenation of listings, `dict.fromkeys` de-duplication, subsequences, `str.join`, counting and collecting.
- `Text`:
  - `str.isspace` with Python's exact whitespace set;
  - `rstrip` and `strip`;
  - `startswith` and the `in` substring test;
  - `splitlines` for '\n'.
- `PathList`: the path listing and filtering that both scripts share. The two scripts contain identical copies of this code.
- `Licensing`: the license tool.
- `LicensingExample`: a worked example of the license tool.
- `Banwords`: the banned-word scanner.

The loops of the scripts are methods with loop invariants, each proved against a specification function. Examples:

- `GetGitPaths` is proved against `Dedup(Concat(...))`.
- `CheckAll` is proved against `FailedCount`.
- `ApplyAll` is proved against `Rewrites`.
- `RunLicensing` is proved against `RunOutcome`.
- `LoadBanlist` is proved against `BanPattern`.
- `CheckFile` is proved against `FileCount` and `FileDiagnostics`.
- `ScanAll` is proved against `TotalCount` and `AllDiagnostics`.

The meaning of each specification function is proved in lemmas.

Some behaviour is not modelled directly and is passed in as parameters instead:

- The glob match (`PurePath.match`) is `matches`.
- `re.escape` is `escape`.
- `Pattern.findall` is `findAll`.
- Reading a file is `read`.
- The listings `git ls-files` prints are `listings`.

Nothing is written. The text apply would write to each file is returned as a `FileWrite`.

The scripts end with an exit status. The model gives each run an `Outcome`, whose `ExitCode` is that status:

- Licensing:
  - no selected file: 0;
  - a failed check: 1;
  - an unknown suffix: 1, for the uncaught `KeyError`;
  - otherwise: 0.
- Banwords:
  - a nonzero total: 1;
  - otherwise: 0.

## Model

| member | source | states |
|---|---|---|
| Seqs.Concat | scripts/licensing/licensing.py:34-37 | No listings concatenate to nothing. With `ConcatMembers`, a path is in the concatenation exactly when some listing holds it. |
| Seqs.Dedup | scripts/banwords/banwords.py:33 | The merged list has no repetitions. It holds exactly the elements of its input and is no longer than it. |
| Seqs.DedupKeepsFirstOccurrenceOrder | scripts/licensing/licensing.py:38 | Of two kept paths, the one first seen earlier in the input comes first. |
| Seqs.DedupOfDistinct | scripts/banwords/banwords.py:33-34 | An input without repetitions comes back unchanged. |
| Seqs.ConcatMembers | scripts/licensing/licensing.py:34-37 | A path is in the appended listings exactly when it is in one of the listings. |
| Seqs.DistinctCardinality | scripts/banwords/banwords.py:70 | A list without repetitions is as long as the set of its elements. |
| PathList.GetGitPaths | scripts/licensing/licensing.py:33-39 | The loop builds the concatenated listings, and the result is their de-duplication. A path is in the result exactly when some listing holds it. No path repeats. |
| PathList.AnyMatch | scripts/banwords/banwords.py:44-45 | `any(p.match(pat) for pat in pats)`: some pattern of the list matches the path. |
| PathList.Selected | scripts/banwords/banwords.py:44-45 | The filter's test: some include pattern matches and no exclude pattern does. |
| PathList.FilterPaths | scripts/licensing/licensing.py:41-52 | A path is kept exactly when it is an input path, matches some include pattern and matches no exclude pattern. No include patterns means no paths. |
| PathList.FilterIsSubsequence | scripts/banwords/banwords.py:41-47 | The kept paths are the input with some paths left out, in the input order. |
| PathList.FilterCounts | scripts/licensing/licensing.py:47-51 | A selected path keeps as many copies as the input has. An unselected path has none. |
| PathList.FilterAppend | scripts/banwords/banwords.py:42-46 | Filtering two lists one after the other gives the two filtered lists one after the other. |
| PathList.FilterIdempotent | scripts/licensing/licensing.py:46-52 | Filtering twice with the same patterns gives the same list as filtering once. |
| PathList.FilterKeepsDistinct | scripts/banwords/banwords.py:36-47 | A list without repetitions stays without repetitions. |
| PathList.Selection | scripts/licensing/licensing.py:162-163 | The paths a run works on have no repetitions. They are exactly the listed paths that pass the filter. |
| Seqs.CountWhere | scripts/licensing/licensing.py:169 | `sum(not c for c in checks)`: the count is at most the number of elements. `CountWherePositive` shows it is nonzero exactly when some element satisfies the test. |
| Seqs.SumOf | scripts/banwords/banwords.py:141-144 | The running total of per-element counts. `SumOfPositive` shows it is nonzero exactly when some element's count is nonzero. |
| Seqs.Join | scripts/banwords/banwords.py:60 | One part joins to itself, and no parts join to nothing. The joined text is as long as the parts and one separator between each two of them. |
| Text.IsSpace | scripts/banwords/banwords.py:57 | Python's `str.isspace` set, as `strip` and `rstrip` use it: U+0009-U+000D, U+001C-U+0020, U+0085, U+00A0, U+1680, U+2000-U+200A, U+2028, U+2029, U+202F, U+205F and U+3000. |
| Text.StartsWith | scripts/licensing/licensing.py:70 | `s.startswith(p)`: the string is at least as long as the prefix, and its first characters are the prefix. |
| Text.Contains | scripts/licensing/licensing.py:70 | `t in s`: the text occurs in the string at some position. |
| Text.LStrip | scripts/banwords/banwords.py:57 | The result is the input with a whitespace prefix removed, and it does not start with whitespace. |
| Text.RStrip | scripts/licensing/licensing.py:58 | The result is a prefix of the input with no trailing whitespace. Everything removed is whitespace. |
| Text.RStripUnique | scripts/licensing/licensing.py:58 | These three conditions determine the right-stripped string. |
| Text.Strip | scripts/banwords/banwords.py:57 | The result has no leading or trailing whitespace. It occurs in the line with only whitespace before and after it. |
| Text.SplitLines | scripts/banwords/banwords.py:56 | A text has no lines exactly when it is empty. No line holds a '\n'. Joined with '\n', the lines give back the text, less one final '\n' if it has one. |
| Text.SplitTerminated | scripts/licensing/licensing.py:92 | Lines without line breaks, each ended by '\n', split back into the same lines. |
| Licensing.LastIndexOf | scripts/licensing/licensing.py:65 | It gives the last position of the character, or -1 when the character is absent. |
| Licensing.FileName | scripts/licensing/licensing.py:64-65 | The file name contains no '/'. |
| Licensing.FileNameIsLastComponent | scripts/licensing/licensing.py:64-65 | The file name is the end of the path, right after the last '/'. |
| Licensing.Extension | scripts/licensing/licensing.py:65 | The suffix contains no dot. When it is not empty, the name ends with a dot and the suffix, and something comes before that dot. When the name has a dot that is neither its first nor its last character and has no dot after it, the suffix is what follows that dot. |
| Licensing.SuffixKey | scripts/licensing/licensing.py:90 | The key looked up is the suffix of the path's file name, without its dot. The key holds no dot, and a non-empty key ends the name behind a dot that is not the name's first character. It is what follows the last dot whenever that dot is neither the name's first nor its last character, and otherwise it is empty. |
| Licensing.HasLoader | scripts/licensing/licensing.py:76 | The file has a first line and it starts with "#!". |
| Licensing.LicenseHeader | scripts/licensing/licensing.py:55-61 | It fails exactly when the suffix has no comment prefix, and the error names the suffix. Otherwise there is one header line per license line. Header line i is the comment prefix plus license line i, right-stripped. |
| Licensing.HeaderLinesClean | scripts/licensing/licensing.py:57-60 | Header lines have no line breaks and no trailing whitespace. |
| Licensing.HeaderLineIsNotLoader | scripts/licensing/licensing.py:13-20 | No header line starts with "#!", whatever the license says. |
| Licensing.Body | scripts/licensing/licensing.py:94-96 | The file's lines are the optional loader line followed by the lines compared. |
| Licensing.HeaderPresent | scripts/licensing/licensing.py:97-115 | The header stands line for line at the top of the lines: there are enough lines and each of the first ones equals its header line. |
| Licensing.IsFirstMismatch | scripts/licensing/licensing.py:97-99 | The first position the zip reaches where the file's line differs from the header line, or where the file has run out: every earlier line matches. |
| Licensing.DescribesMismatch | scripts/licensing/licensing.py:97-114 | A logged mismatch in the file's terms: the first mismatch below the loader line, its number `idx + start`, the expected header line, and the file's line there or "<EOF>" when the file has ended. |
| Licensing.CompareFrom | scripts/licensing/licensing.py:97-115 | It passes exactly when the header stands line for line at the top of the lines. A mismatch reports the first differing or missing position. Its line number is that position counted from the given start. The report gives the expected line. The actual line is "<EOF>" when the lines end at that position, and the file's line otherwise. |
| Licensing.CompareHeader | scripts/licensing/licensing.py:92-115 | It passes exactly when the header stands line for line at the top of the lines below the loader, and an empty header always passes. A mismatch reports the first differing or missing position and its line number. The number is the position + 1, or + 2 below a loader line. The report gives the expected line. The actual line is "<EOF>" when the file ends at that position, and the file's line otherwise. |
| Licensing.CheckPasses | scripts/licensing/licensing.py:88-115 | `check_license` returns True: the suffix has a comment prefix, and the rendered header stands at the top of the lines below the loader line. |
| Licensing.CheckLicense | scripts/licensing/licensing.py:88-115 | An unknown suffix is an error. Otherwise the file passes exactly when the rendered header is present, and a mismatch is reported as `CompareHeader` describes. |
| Licensing.IsLicensed | scripts/licensing/licensing.py:69-72 | Some line starts with the comment prefix and contains "Copyright". |
| Licensing.Chars | scripts/licensing/licensing.py:77 | Extending a list by a string adds one element per character. |
| Licensing.ConcatChars | scripts/licensing/licensing.py:77 | Written out, the one-character strings of a loader line spell the loader line. |
| Licensing.ApplyLicense | scripts/licensing/licensing.py:63-86 | An unknown suffix is an error. A file with a comment line that mentions "Copyright" is left alone. Any other file is rewritten with its loader line, the header and the remaining lines, concatenated with no separators. |
| Licensing.WrittenText | scripts/licensing/licensing.py:75-84 | The as-written text is the spliced list of lines run together with nothing between them. Its length is the header's text plus the file's whole text. |
| Licensing.CorrectedText | scripts/licensing/licensing.py:75-84 | The text apply is evidently meant to write: the spliced lines, each followed by '\n'. `CorrectedApplyThenCheckPasses` and `CorrectedApplyIsIdempotent` give its meaning. |
| Licensing.OutLines | scripts/licensing/licensing.py:75-80 | The spliced list has one line for the loader (if any), one per header line and one per remaining line. |
| Licensing.OutLinesClean | scripts/licensing/licensing.py:75-80 | Spliced from lines without line breaks, the list has none either. |
| Licensing.BodyOfOutLines | scripts/licensing/licensing.py:94-96 | Below the loader line, the spliced list is the header followed by the old body. |
| Licensing.AsWrittenApplyThenCheckFails | scripts/licensing/licensing.py:83-84 | As written, for a non-empty license and a file with text and no loader line, checking the file right after apply fails. |
| Licensing.AsWrittenApplyNotIdempotent | scripts/licensing/licensing.py:76-84 | As written, a file with a loader line is not seen as licensed after apply, so a second apply rewrites it again. |
| Licensing.OneLineCannotHoldHeader | scripts/licensing/licensing.py:92-115 | A file whose one line is the header's text with more text after it fails the check. |
| Licensing.LoaderLineIsNotLicensed | scripts/licensing/licensing.py:69-72 | A file whose one line starts with "#!" has no line that starts with "# " or "// ", so it is not seen as licensed. |
| Licensing.WrittenTextIsOneLine | scripts/licensing/licensing.py:83-84 | For a non-empty header and a file with text and no loader line, the text written without separators splits into a single line, which cannot hold the header. |
| Licensing.LoaderTextIsOneLine | scripts/licensing/licensing.py:76-84 | That single line starts with "#!", not with the comment prefix. |
| Licensing.CorrectedApplyThenCheckPasses | scripts/licensing/licensing.py:83-84 | With each line ended by '\n', a check right after apply passes. |
| Licensing.HeaderKeepsCopyright | scripts/licensing/licensing.py:69-72 | A license line that mentions "Copyright" becomes a header line that starts with the comment prefix and still mentions "Copyright". |
| Licensing.CorrectedApplyIsIdempotent | scripts/licensing/licensing.py:69-74 | With each line ended by '\n', a second apply finds the file licensed, once a license line mentions "Copyright". |
| Licensing.AllKnown | scripts/licensing/licensing.py:57 | Every path's suffix has a comment prefix, so no lookup raises `KeyError`. |
| Licensing.KnownPrefix | scripts/licensing/licensing.py:168 | It is the number of paths before the first one whose suffix has no comment prefix. |
| Licensing.PrefixStopsInside | scripts/licensing/licensing.py:168 | When some suffix is unknown, the first unknown one is at a position inside the list. |
| Licensing.KnownPrefixAt | scripts/licensing/licensing.py:168 | The first unknown suffix is at the position this gives. |
| Licensing.FailedCount | scripts/licensing/licensing.py:168-169 | The number of paths whose check fails, at most the number of paths. |
| Licensing.FailedCountPositive | scripts/licensing/licensing.py:169-170 | The failure count is nonzero exactly when some path's check fails. |
| Licensing.RewriteOf | scripts/licensing/licensing.py:63-86 | A path is rewritten exactly when its suffix is known and the file is not licensed, and the rewrite names that path. |
| Licensing.Rewrites | scripts/licensing/licensing.py:176-177 | There are at most as many rewrites as paths; `RewritesAreTheUnlicensed` says which. |
| Licensing.RewritesAreTheUnlicensed | scripts/licensing/licensing.py:176-177 | Apply rewrites only unlicensed paths, each with the spliced text, and it rewrites every one of them. |
| Licensing.FailedCountStep | scripts/licensing/licensing.py:168-169 | One more path adds one to the failure count exactly when its check fails. |
| Licensing.RewritesStep | scripts/licensing/licensing.py:175-176 | One more path adds its rewrite, if it has one, to the end of the rewrites. |
| Licensing.CheckNext | scripts/licensing/licensing.py:168 | One more checked path adds its failure to the count, or the step stops with the path's unknown suffix. |
| Licensing.CheckAll | scripts/licensing/licensing.py:168-169 | The first unknown suffix aborts the run with that suffix. Otherwise the result is the number of failing paths. |
| Licensing.ApplyNext | scripts/licensing/licensing.py:176 | One more applied path adds its rewrite, or the step stops with the path's unknown suffix. |
| Licensing.ApplyAll | scripts/licensing/licensing.py:175-178 | The first unknown suffix aborts the run, after the rewrites of the paths before it. Otherwise every unlicensed path is rewritten, and the changed count is the number of rewrites. |
| Licensing.Outcome.ExitCode | scripts/licensing/licensing.py:164-172 | Status 1 for a failed check and for the uncaught `KeyError` of an unknown suffix, 0 otherwise. |
| Licensing.RunOutcome | scripts/licensing/licensing.py:164-178 | The run ends at once exactly when no path is selected. |
| Licensing.RunOutcomeMeaning | scripts/licensing/licensing.py:164-178 | The run aborts exactly when a mode is on and some suffix is unknown. With every suffix known, check fails exactly when some file fails it, and a failed check ends the run before apply. A finished run has rewritten exactly the unlicensed files when apply is on, and nothing otherwise. The status is 1 exactly when a mode is on and some suffix is unknown, or check is on and some file fails it. |
| Licensing.RunOnPaths | scripts/licensing/licensing.py:167-178 | For selected paths, check then apply give the outcome `RunOutcome` describes. |
| Licensing.RunLicensing | scripts/licensing/licensing.py:162-178 | Listing, filtering, check and apply give the outcome `RunOutcome` describes for the selected paths. |
| LicensingExample.ExampleSuffix | scripts/licensing/licensing.py:65 | The path "src/mod.py" has the key "py". |
| LicensingExample.ExampleTrailingDot | scripts/licensing/licensing.py:90 | A file name that ends in a dot, "x.a.", has no suffix, so its key is empty. |
| LicensingExample.ExampleHeader | scripts/licensing/licensing.py:55-61 | The license line "Copyright 2024 Example" becomes "# Copyright 2024 Example" for a Python file. |
| LicensingExample.ExampleWrittenText | scripts/licensing/licensing.py:75-84 | Applied to "print(1)" and "print(2)", the as-written text is "# Copyright 2024 Exampleprint(1)print(2)". |
| LicensingExample.ExampleAsWritten | scripts/licensing/licensing.py:83-84 | The check after that apply fails. |
| LicensingExample.ExampleCorrectedText | scripts/licensing/licensing.py:75-84 | The corrected text is the three lines, each ended by '\n'. |
| LicensingExample.ExampleCorrected | scripts/licensing/licensing.py:83-84 | The check after the corrected apply passes on the example. |
| Banwords.IsWordLine | scripts/banwords/banwords.py:57-58 | A line holds a word when its stripped form is not empty and does not start with "#". |
| Banwords.WordOf | scripts/banwords/banwords.py:57-59 | A word line gives its stripped form; any other line gives nothing. |
| Banwords.KeptWords | scripts/banwords/banwords.py:56-59 | There are no more words than lines in the list. |
| Banwords.KeptWordsMembers | scripts/banwords/banwords.py:56-59 | A word is kept exactly when some line strips to it and that line is neither blank nor starts with '#'. |
| Banwords.KeptWordsAppend | scripts/banwords/banwords.py:56-59 | The words of two pieces of a list are the words of the first piece followed by those of the second. |
| Banwords.KeptWordsIsSubsequence | scripts/banwords/banwords.py:56-59 | The kept words are the stripped lines with some left out, in input order. |
| Banwords.BlankLineIsDropped | scripts/banwords/banwords.py:57-58 | An all-whitespace line gives no word. |
| Banwords.IndentedCommentIsDropped | scripts/banwords/banwords.py:57-58 | A '#' after leading whitespace still marks a comment line. |
| Banwords.StripStartsAtFirstNonSpace | scripts/banwords/banwords.py:57 | A stripped line starts with the line's first character that is not whitespace. |
| Banwords.Escaped | scripts/banwords/banwords.py:59 | There is one escaped word per kept word. |
| Banwords.BanSource | scripts/banwords/banwords.py:60 | The pattern text; `BanSourceShape` and `BanSourceHoldsEachWord` give its shape and its words. |
| Banwords.BanPattern | scripts/banwords/banwords.py:53-60 | The case-insensitive pattern compiled from the split decoded list. |
| Banwords.BanSourceShape | scripts/banwords/banwords.py:59-60 | The pattern is `\b(`, then the escaped words joined by `\|`, then `)\b`. An empty list gives `\b()\b`. |
| Banwords.BanSourceHoldsEachWord | scripts/banwords/banwords.py:56-60 | Every kept word, escaped, occurs in the pattern text. |
| Banwords.JoinHoldsEachPart | scripts/banwords/banwords.py:77 | Every part of a join occurs in it. |
| Banwords.JoinHasPart | scripts/banwords/banwords.py:60 | Every word joined into the alternation occurs in it. |
| Banwords.KeptWordsStep | scripts/banwords/banwords.py:56-59 | One more line adds its word, if it has one. |
| Banwords.LoadBanlist | scripts/banwords/banwords.py:53-60 | The word loop and compile give the case-insensitive pattern `BanPattern` of the decoded text. |
| Banwords.LinesOf | scripts/banwords/banwords.py:65-69 | The lines of a file: its text split at '\n', and no lines when the file cannot be decoded. |
| Banwords.LineMatches | scripts/banwords/banwords.py:70 | The matches of a line without repetitions: exactly the strings `findall` returned. |
| Banwords.WordsText | scripts/banwords/banwords.py:77-78 | Without show, the word text is "<hidden>". With show, every match occurs in it, and a single match is shown as itself. Two or more matches start with the first match and ", ", and end with ", " and the last match. The length is that of the matches with ", " between each two of them. |
| Banwords.FileCount | scripts/banwords/banwords.py:69-81 | The sum of the distinct matches of each line; `CountZeroIffSilent` ties it to the diagnostics. |
| Banwords.LineCountIsDistinctHits | scripts/banwords/banwords.py:70 | A line counts the number of distinct strings `findall` returns for it. |
| Banwords.CaseVariantsCountSeparately | scripts/banwords/banwords.py:70 | Two differently spelled hits on one line, such as "Foo" and "foo", count as two. |
| Banwords.FileDiagnostics | scripts/banwords/banwords.py:69-79 | There are no more diagnostics than lines. |
| Banwords.DiagnosticsNameMatchingLines | scripts/banwords/banwords.py:69-79 | Each diagnostic names a matching line by its 1-based number. It gives the number of distinct matches there, and the matches joined by ", " (or "<hidden>"). |
| Banwords.MatchingLinesHaveDiagnostics | scripts/banwords/banwords.py:70-72 | Every line with a match has a diagnostic. |
| Banwords.DiagnosticLinesIncrease | scripts/banwords/banwords.py:69-76 | Line numbers strictly increase, so no line is reported twice. |
| Banwords.CountZeroIffSilent | scripts/banwords/banwords.py:71-80 | A file's count is zero exactly when it gives no diagnostic, and exactly when no line has a match. |
| Banwords.UndecodableIsSilent | scripts/banwords/banwords.py:65-68 | An undecodable file contributes count 0 and no diagnostic. |
| Banwords.FileStep | scripts/banwords/banwords.py:69-80 | One more line adds its distinct matches to the count and, when it matches, its diagnostic at the end. |
| Banwords.ScanLines | scripts/banwords/banwords.py:69-81 | The line loop computes the count and the diagnostics of the given lines. |
| Banwords.CheckFile | scripts/banwords/banwords.py:62-81 | Reading, with an undecodable file read as empty, then the line loop, give the file's count and diagnostics. |
| Banwords.TotalPositiveIffHit | scripts/banwords/banwords.py:141-146 | The total is nonzero exactly when some line of some selected file has a match. |
| Banwords.TotalZeroIffSilent | scripts/banwords/banwords.py:141-146 | The total is zero exactly when no file gave a diagnostic. |
| Banwords.TotalCount | scripts/banwords/banwords.py:141-144 | The sum of the file counts; `TotalPositiveIffHit` ties it to the matches. |
| Banwords.TotalCountStep | scripts/banwords/banwords.py:142-144 | One more file adds its count to the total. |
| Banwords.AllDiagnostics | scripts/banwords/banwords.py:142-143 | The diagnostics of every file, file after file, each file's in line order. |
| Banwords.AllDiagnosticsStep | scripts/banwords/banwords.py:142-143 | One more file adds its diagnostics at the end. |
| Banwords.ScanAll | scripts/banwords/banwords.py:141-144 | The file loop's total and diagnostics are the sums over all files. |
| Banwords.Outcome.ExitCode | scripts/banwords/banwords.py:146-152 | Status 1 when files were scanned and the total is not zero, 0 otherwise. |
| Banwords.RunBanwords | scripts/banwords/banwords.py:134-152 | With no selected path the run ends with status 0 and the word list is never used. Otherwise every selected file is scanned. The status is 1 exactly when a line of some selected file matches the pattern. |

## Left out

- `cmd_output` and the `git ls-files` process are outside the model: process I/O. The model starts from each directory's listing. The `RuntimeError` branch could never run anyway, because `check=True` raises first.
- File reading, the `.tmp` file and its rename are outside the model: filesystem effects. In the license tool, a file that cannot be read or decoded raises an uncaught exception and ends the run with status 1. The model's `read` gives every path its lines, and `Licensing.Outcome` has no case for this. The same holds for a banwords file that cannot be read for a reason other than decoding.
- Nothing is written to disk: apply returns the text it would write, and banwords receives each file as text or as `Undecodable`.
- Base64 and UTF-8 decoding of the word list are outside the model: library calls. The model starts from the decoded text. A word list that fails to decode raises an uncaught exception; that is not modelled.
- The regex engine (`re.escape`, `re.compile`, `findall`, `\b`) and the glob semantics of `PurePath.match` are outside the model: library behaviour. They are parameters. So the model proves nothing about what a pattern matches. For instance, an empty word list gives the pattern `\b()\b`, and what that pattern finds is not modelled. `str(Path(p))` is taken to leave git's paths unchanged.
- Text.SplitLines: splits at '\n' only. Python's `splitlines` also splits at '\r', '\r\n', '\v', '\f', '\x1c'-'\x1e', '\x85', U+2028 and U+2029.
- Licensing.Extension: follows `PurePath.suffix` as in Python up to 3.12 (the last dot, neither first nor last in the name). Later rules for unusual names are not modelled.
- `@cache` on `get_license_header` is not modelled, because it does not change any result.
- logging is not modelled: the message texts, the summary lines and the `--show` hint. Banwords.Diagnostic carries the fields of each per-line message (path, line number, count, words) instead of the formatted string. `Licensing.CheckReport` carries those of a mismatch.
- argparse and the unused `--apply`/`--check` flags of the banned-word scanner are not modelled. The license tool's `--check` and `--apply` are the parameters `check` and `apply`. `--top` and the path join with it are left out: paths are used as listed.
- Licensing.AsWrittenApplyThenCheckFails: the failure after an as-written apply is not universal, and the lemma requires what it needs. With an empty license the header is empty and the check passes. With a one-line license and a file whose lines are all empty, the written text is just the header line, and the check passes too.
- Licensing.RunOutcome: models apply as written, so its rewrites are the as-written texts. The corrected text (`CorrectedText`) is proved correct beside it, but the run does not use it.

## Findings

The license tool is evidently meant to do three things:

- a check right after apply always passes;
- apply is idempotent, because the second apply finds the "Copyright" line;
- for a two-line Python file, apply produces the header line, then the lines, each ended by a line break.

As written, `apply_license` does none of them. It writes each list element with no line separator. It also appends the loader line as single characters, which gives the same text. So the whole file becomes one line.

| source | as written | input that shows it | evidently intended | confidence | as-written member | corrected member |
|---|---|---|---|---|---|---|
| scripts/licensing/licensing.py:83-84 | The elements of `out_lines` are written with no separator, so the rewritten file is a single line. For a non-empty license and a file with text and no loader line, the check after apply then fails. | License "Copyright 2024 Example", suffix `py`, lines "print(1)" and "print(2)". The written text is "# Copyright 2024 Exampleprint(1)print(2)". | Each line is written followed by '\n', so the check after apply passes. | high, not executed | Licensing.AsWrittenApplyThenCheckFails, LicensingExample.ExampleAsWritten | Licensing.CorrectedApplyThenCheckPasses, LicensingExample.ExampleCorrected |
| scripts/licensing/licensing.py:76-84 | After apply, a file with a loader line is one line starting with "#!". It has no line that starts with the comment prefix, so a second apply rewrites it again. | Any `.py` file whose first line is "#!/usr/bin/env python3", with a license line that mentions "Copyright". | The header lines stay separate lines, so a second apply finds the "Copyright" line and leaves the file alone. | high, not executed | Licensing.AsWrittenApplyNotIdempotent | Licensing.CorrectedApplyIsIdempotent |

There is also a smaller ambiguity in `check_license`. When the file ends before the header, it reports "<EOF>" as the actual line. A file line whose text is literally "<EOF>" gives the same text. `Licensing.CheckReport` tells the two apart by `index == |rest|`.
