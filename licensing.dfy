/**
 * The license tool: render the license file as a comment block for a source
 * file's suffix, check that a file starts with it (after an optional loader
 * line), or splice it in. Files are their lines (`read_text().splitlines()`);
 * what apply would write is returned, not written.
 */
module Licensing {
  import opened Wrappers
  import opened Seqs
  import opened Text
  import PathList

  /** Marker of a loader line, which stays on top, ahead of the header. */
  const Loader: string := "#!"

  /** Comment prefix for each file suffix handled. */
  const Comments: map<string, string> :=
    map["py" := "# ", "c" := "// ", "h" := "// ", "cpp" := "// ", "hpp" := "// "]

  /** A suffix with no entry in Comments: a lookup failure that ends the run. */
  datatype Error = UnknownSuffix(suffix: string)

  // ---------------------------------------------------------------- suffixes

  /** `s.rfind(c)`: the last position of `c`, or -1. */
  function LastIndexOf(s: string, c: char): (k: int)
    ensures -1 <= k < |s|
    ensures k >= 0 ==> s[k] == c
    ensures forall j :: k < j < |s| ==> s[j] != c
  {
    if s == [] then -1
    else if s[|s| - 1] == c then |s| - 1
    else LastIndexOf(s[..|s| - 1], c)
  }

  /** The final component of a path. */
  function FileName(path: string): (name: string)
    ensures '/' !in name
  {
    path[LastIndexOf(path, '/') + 1..]
  }

  /** FileName is what follows the last '/' of the path. */
  lemma FileNameIsLastComponent(path: string)
    ensures EndsWith(path, FileName(path))
    ensures |FileName(path)| < |path| ==> path[|path| - |FileName(path)| - 1] == '/'
  {
  }

  /**
   * `PurePath.suffix` without its dot: what follows the last dot of a file
   * name, when that dot is neither the name's first nor its last character;
   * otherwise "".
   */
  function Extension(name: string): (key: string)
    ensures '.' !in key
    ensures key != [] ==> |key| + 1 < |name| && EndsWith(name, "." + key)
    ensures forall i :: 0 < i < |name| - 1 && name[i] == '.' && '.' !in name[i + 1..] ==>
      key == name[i + 1..]
  {
    var i := LastIndexOf(name, '.');
    forall j | 0 < j < |name| - 1 && name[j] == '.' && '.' !in name[j + 1..]
      ensures j == i
    {
      LastDotIsUnique(name, i, j);
    }
    if 0 < i < |name| - 1 then
      var key := name[i + 1..];
      assert name[i..] == "." + key;
      key
    else ""
  }

  /** A dot with no dot after it is the one `rfind` finds. */
  lemma LastDotIsUnique(name: string, i: int, j: int)
    requires i == LastIndexOf(name, '.')
    requires 0 <= j < |name| && name[j] == '.' && '.' !in name[j + 1..]
    ensures j == i
  {
    assert forall k :: j < k < |name| ==> name[k] == name[j + 1..][k - j - 1];
  }

  /** `path.suffix[1:]`, the key looked up in Comments. */
  function SuffixKey(path: string): (key: string)
    ensures '.' !in key
    ensures key != [] ==> |key| + 1 < |FileName(path)| && EndsWith(FileName(path), "." + key)
    ensures var name := FileName(path);
      forall i :: 0 < i < |name| - 1 && name[i] == '.' && '.' !in name[i + 1..] ==>
        key == name[i + 1..]
  {
    Extension(FileName(path))
  }

  // ------------------------------------------------------------------ header

  /**
   * `get_license_header`: each license line behind the suffix's comment
   * prefix, trailing whitespace removed; an unknown suffix is an error.
   */
  function LicenseHeader(licenseLines: seq<string>, suffix: string): (r: Result<seq<string>, Error>)
    ensures r.Err? <==> suffix !in Comments
    ensures r.Err? ==> r.error == UnknownSuffix(suffix)
    ensures r.Ok? ==> |r.value| == |licenseLines|
    ensures r.Ok? ==> forall i :: 0 <= i < |licenseLines| ==>
      IsRStripOf(r.value[i], Comments[suffix] + licenseLines[i])
  {
    if suffix !in Comments then Err(UnknownSuffix(suffix))
    else
      var comment := Comments[suffix];
      Ok(seq(|licenseLines|, i requires 0 <= i < |licenseLines| => RStrip(comment + licenseLines[i])))
  }

  /** No header line has trailing whitespace or a line break. */
  lemma HeaderLinesClean(licenseLines: seq<string>, suffix: string)
    requires suffix in Comments
    requires NoLineBreaks(licenseLines)
    ensures var header := LicenseHeader(licenseLines, suffix).value;
      NoLineBreaks(header)
      && forall i :: 0 <= i < |header| && header[i] != [] ==> !IsSpace(header[i][|header[i]| - 1])
  {
    var header := LicenseHeader(licenseLines, suffix).value;
    var comment := Comments[suffix];
    assert '\n' !in comment;
    forall i | 0 <= i < |header| ensures '\n' !in header[i] {
      var s := comment + licenseLines[i];
      assert header[i] == s[..|header[i]|];
      forall j | 0 <= j < |header[i]| ensures header[i][j] != '\n' {
        assert header[i][j] == s[j];
        if j < |comment| {
          assert s[j] == comment[j];
        } else {
          assert s[j] == licenseLines[i][j - |comment|];
        }
      }
    }
  }

  /** A header line never looks like a loader line. */
  lemma HeaderLineIsNotLoader(h: string, suffix: string, l: string)
    requires suffix in Comments
    requires IsRStripOf(h, Comments[suffix] + l)
    ensures !StartsWith(h, Loader)
  {
    var s := Comments[suffix] + l;
    assert Comments[suffix] == "# " || Comments[suffix] == "// ";
    if |h| >= 2 {
      assert h[0] == s[0] && h[1] == s[1];
      assert Loader[0] == '#' && Loader[1] == '!';
    }
  }

  // ------------------------------------------------------------------- check

  predicate HasLoader(lines: seq<string>)
  {
    |lines| > 0 && StartsWith(lines[0], Loader)
  }

  /** The lines below the loader line, or all of them when there is none. */
  function Body(lines: seq<string>): (rest: seq<string>)
    ensures lines == (if HasLoader(lines) then [lines[0]] else []) + rest
  {
    if HasLoader(lines) then lines[1..] else lines
  }

  /** The header stands at the top of `rest`, line for line. */
  predicate HeaderPresent(header: seq<string>, rest: seq<string>)
  {
    |header| <= |rest| && forall i :: 0 <= i < |header| ==> rest[i] == header[i]
  }

  /** `k` is the first place where `rest` differs from `header` or runs out. */
  predicate IsFirstMismatch(header: seq<string>, rest: seq<string>, k: nat)
  {
    k < |header| && k <= |rest|
    && (forall j :: 0 <= j < k ==> rest[j] == header[j])
    && (k == |rest| || rest[k] != header[k])
  }

  /** What `check_license` reports: a pass, or the logged first mismatch. */
  datatype CheckReport =
    | Passed
    | Mismatch(index: nat, lineNo: nat, expected: string, actual: string)

  /**
   * A mismatch report in the file's terms: the first differing position
   * below the loader line, its 1-based line number in the whole file, the
   * expected header line, and the file's line there or "<EOF>" when the file
   * ends first.
   */
  predicate DescribesMismatch(header: seq<string>, lines: seq<string>, r: CheckReport)
    requires r.Mismatch?
  {
    var rest := Body(lines);
    IsFirstMismatch(header, rest, r.index)
    && r.lineNo == r.index + (if HasLoader(lines) then 2 else 1)
    && r.expected == header[r.index]
    && r.actual == (if r.index == |rest| then "<EOF>" else rest[r.index])
  }

  /**
   * The comparison loop of `check_license` over the lines below the loader
   * line: walks the header and those lines side by side and reports the
   * first difference, numbering the lines from `start`, with "<EOF>" when
   * the lines end first.
   */
  method CompareFrom(header: seq<string>, rest: seq<string>, start: nat) returns (r: CheckReport)
    ensures r.Passed? <==> HeaderPresent(header, rest)
    ensures r.Mismatch? ==>
      IsFirstMismatch(header, rest, r.index)
      && r.lineNo == r.index + start
      && r.expected == header[r.index]
      && r.actual == (if r.index == |rest| then "<EOF>" else rest[r.index])
  {
    // zip(header, in_lines + [None]) stops at the shorter of the two;
    // position |rest| holds the None that stands for the end of the file
    var n := if |header| < |rest| + 1 then |header| else |rest| + 1;
    var idx := 0;
    while idx < n
      invariant 0 <= idx <= n && idx <= |rest|
      invariant forall j :: 0 <= j < idx ==> rest[j] == header[j]
    {
      var hdr := header[idx];
      var inl: Option<string> := if idx == |rest| then None else Some(rest[idx]);
      if inl.None? || hdr != inl.value {
        var actual := if inl.None? then "<EOF>" else inl.value;
        return Mismatch(idx, idx + start, hdr, actual);
      }
      idx := idx + 1;
    }
    return Passed;
  }

  /**
   * The comparison of `check_license`: drops a loader line, then compares
   * the header with the remaining lines, numbering them as in the whole
   * file.
   */
  method CompareHeader(header: seq<string>, lines: seq<string>) returns (r: CheckReport)
    ensures r.Passed? <==> HeaderPresent(header, Body(lines))
    ensures header == [] ==> r.Passed?
    ensures r.Mismatch? ==>
      var rest := Body(lines);
      IsFirstMismatch(header, rest, r.index)
      && r.lineNo == r.index + (if HasLoader(lines) then 2 else 1)
      && r.expected == header[r.index]
      && r.actual == (if r.index == |rest| then "<EOF>" else rest[r.index])
  {
    var inLines := lines;
    var start := 1;
    if |inLines| > 0 && StartsWith(inLines[0], Loader) {
      inLines := inLines[1..];
      start := 2;
    }
    assert inLines == Body(lines);
    r := CompareFrom(header, inLines, start);
  }

  /**
   * `check_license`: the header for the path's suffix (an unknown suffix is
   * an error) compared with the file's lines.
   */
  method CheckLicense(licenseLines: seq<string>, path: string, lines: seq<string>)
    returns (r: Result<CheckReport, Error>)
    ensures r.Err? <==> SuffixKey(path) !in Comments
    ensures r.Err? ==> r.error == UnknownSuffix(SuffixKey(path))
    ensures r.Ok? ==> (r.value.Passed? <==> CheckPasses(licenseLines, path, lines))
    ensures r.Ok? && r.value.Mismatch? ==>
      DescribesMismatch(LicenseHeader(licenseLines, SuffixKey(path)).value, lines, r.value)
  {
    var hr := LicenseHeader(licenseLines, SuffixKey(path));
    if hr.Err? {
      return Err(hr.error);
    }
    var report := CompareHeader(hr.value, lines);
    return Ok(report);
  }

  // ------------------------------------------------------------------- apply

  /** Some line starts with the comment prefix and mentions "Copyright". */
  predicate IsLicensed(comment: string, lines: seq<string>)
  {
    exists i :: 0 <= i < |lines| && StartsWith(lines[i], comment) && Contains(lines[i], "Copyright")
  }

  /** What `list += str` appends: one one-character string per character. */
  function Chars(s: string): (r: seq<string>)
    ensures |r| == |s|
  {
    seq(|s|, i requires 0 <= i < |s| => [s[i]])
  }

  lemma {:induction false} ConcatChars(s: string)
    ensures Concat(Chars(s)) == s
  {
    if s != [] {
      var init := s[..|s| - 1];
      ConcatChars(init);
      assert Chars(s)[..|s| - 1] == Chars(init);
      assert s == init + [s[|s| - 1]];
    }
  }

  /**
   * What apply writes: the loader line, the header, the rest, with nothing
   * between. It is the spliced list of lines run together, and it holds the
   * header's text and all of the file's text.
   */
  function WrittenText(header: seq<string>, lines: seq<string>): (text: string)
    ensures text == Concat(OutLines(header, lines))
    ensures |text| == |Concat(header)| + |Concat(lines)|
  {
    OutLinesConcat(header, lines);
    (if HasLoader(lines) then lines[0] else "") + Concat(header) + Concat(Body(lines))
  }

  lemma OutLinesConcat(header: seq<string>, lines: seq<string>)
    ensures Concat(OutLines(header, lines))
      == (if HasLoader(lines) then lines[0] else "") + Concat(header) + Concat(Body(lines))
    ensures |Concat(lines)| == (if HasLoader(lines) then |lines[0]| else 0) + |Concat(Body(lines))|
  {
    var lead := if HasLoader(lines) then [lines[0]] else [];
    assert lines == lead + Body(lines);
    ConcatAppend(lead + header, Body(lines));
    ConcatAppend(lead, header);
    ConcatAppend(lead, Body(lines));
    if HasLoader(lines) {
      ConcatSingle(lines[0]);
    }
  }

  /** What `apply_license` did to one file. */
  datatype ApplyReport = AlreadyLicensed | Rewritten(text: string)

  /**
   * `apply_license`: a file with a "Copyright" comment line is left alone;
   * otherwise the header goes below the loader line (or on top), followed by
   * the remaining lines, and each element of the list is written with no
   * separator.
   */
  method ApplyLicense(licenseLines: seq<string>, path: string, lines: seq<string>)
    returns (r: Result<ApplyReport, Error>)
    ensures r.Err? <==> SuffixKey(path) !in Comments
    ensures r.Err? ==> r.error == UnknownSuffix(SuffixKey(path))
    ensures r.Ok? ==> (r.value.AlreadyLicensed? <==> IsLicensed(Comments[SuffixKey(path)], lines))
    ensures r.Ok? && r.value.Rewritten? ==>
      r.value.text == WrittenText(LicenseHeader(licenseLines, SuffixKey(path)).value, lines)
  {
    var suffix := SuffixKey(path);
    var hr := LicenseHeader(licenseLines, suffix);
    if hr.Err? {
      return Err(hr.error);
    }
    var header := hr.value;
    var comment := Comments[suffix];
    var inLines := lines;
    if IsLicensed(comment, inLines) {
      return Ok(AlreadyLicensed);
    }
    var outLines: seq<string> := [];
    if |inLines| > 0 && StartsWith(inLines[0], Loader) {
      // the loader line is added character by character
      outLines := outLines + Chars(inLines[0]);
      inLines := inLines[1..];
    }
    outLines := outLines + header;
    outLines := outLines + inLines;
    var text := "";
    var k := 0;
    while k < |outLines|
      invariant 0 <= k <= |outLines|
      invariant text == Concat(outLines[..k])
    {
      assert outLines[..k + 1][..k] == outLines[..k];
      text := text + outLines[k];
      k := k + 1;
    }
    assert outLines[..k] == outLines;
    var loaderPart := if HasLoader(lines) then Chars(lines[0]) else [];
    assert outLines == loaderPart + header + Body(lines);
    ConcatAppend(loaderPart + header, Body(lines));
    ConcatAppend(loaderPart, header);
    if HasLoader(lines) {
      ConcatChars(lines[0]);
    }
    return Ok(Rewritten(text));
  }

  // ---------------------------------------------- what apply evidently means

  /**
   * The text `apply_license` evidently means to write: the loader line kept
   * as one line, then the header and the remaining lines, each line ended by
   * '\n'.
   */
  function CorrectedText(header: seq<string>, lines: seq<string>): string
  {
    Terminated(OutLines(header, lines))
  }

  /** The lines of the rewritten file: loader line, header, remaining lines. */
  function OutLines(header: seq<string>, lines: seq<string>): (out: seq<string>)
    ensures |out| == (if HasLoader(lines) then 1 else 0) + |header| + |Body(lines)|
  {
    (if HasLoader(lines) then [lines[0]] else []) + header + Body(lines)
  }

  lemma OutLinesClean(licenseLines: seq<string>, suffix: string, lines: seq<string>)
    requires suffix in Comments
    requires NoLineBreaks(licenseLines) && NoLineBreaks(lines)
    ensures NoLineBreaks(OutLines(LicenseHeader(licenseLines, suffix).value, lines))
  {
    var header := LicenseHeader(licenseLines, suffix).value;
    HeaderLinesClean(licenseLines, suffix);
    var out := OutLines(header, lines);
    var lead := if HasLoader(lines) then 1 else 0;
    forall i | 0 <= i < |out| ensures '\n' !in out[i] {
      if i < lead {
        assert out[i] == lines[0];
      } else if i < lead + |header| {
        assert out[i] == header[i - lead];
      } else {
        assert out[i] == lines[i - |header|];
      }
    }
  }

  /** Below a header that does not look like a loader line, the out lines are header and body. */
  lemma BodyOfOutLines(header: seq<string>, lines: seq<string>)
    requires header == [] || !StartsWith(header[0], Loader)
    ensures Body(OutLines(header, lines)) == header + Body(lines)
  {
    var out := OutLines(header, lines);
    if HasLoader(lines) {
      assert out == [lines[0]] + (header + Body(lines));
      assert out[0] == lines[0] && HasLoader(out);
      assert out[1..] == header + Body(lines);
    } else {
      assert out == header + lines;
      if header != [] {
        assert out[0] == header[0];
      }
      assert !HasLoader(out);
    }
  }

  /** With the corrected text, a check right after apply passes. */
  lemma CorrectedApplyThenCheckPasses(licenseLines: seq<string>, suffix: string, lines: seq<string>)
    requires suffix in Comments
    requires NoLineBreaks(licenseLines) && NoLineBreaks(lines)
    ensures var header := LicenseHeader(licenseLines, suffix).value;
      HeaderPresent(header, Body(SplitLines(CorrectedText(header, lines))))
  {
    var header := LicenseHeader(licenseLines, suffix).value;
    var out := OutLines(header, lines);
    OutLinesClean(licenseLines, suffix, lines);
    SplitTerminated(out);
    if header != [] {
      HeaderLineIsNotLoader(header[0], suffix, licenseLines[0]);
    }
    BodyOfOutLines(header, lines);
    assert Body(SplitLines(CorrectedText(header, lines))) == header + Body(lines);
  }

  /** A license line with "Copyright" stays a "Copyright" comment line in the header. */
  lemma HeaderKeepsCopyright(comment: string, l: string)
    requires Contains(l, "Copyright")
    ensures StartsWith(RStrip(comment + l), comment)
    ensures Contains(RStrip(comment + l), "Copyright")
  {
    var p: nat :| p <= |l| && OccursAt(l, "Copyright", p);
    var s := comment + l;
    var q := |comment| + p;
    assert s[q..q + 9] == l[p..p + 9];
    assert s[q + 8] == 't';
    var r := RStrip(s);
    assert q + 8 < |r|;
    assert r[..|comment|] == s[..|comment|];
    assert r[q..q + 9] == s[q..q + 9];
    assert OccursAt(r, "Copyright", q);
  }

  /**
   * With the corrected text, applying again changes nothing, once a license
   * line mentions "Copyright".
   */
  lemma CorrectedApplyIsIdempotent(licenseLines: seq<string>, suffix: string, lines: seq<string>, k: nat)
    requires suffix in Comments
    requires NoLineBreaks(licenseLines) && NoLineBreaks(lines)
    requires k < |licenseLines| && Contains(licenseLines[k], "Copyright")
    ensures var header := LicenseHeader(licenseLines, suffix).value;
      IsLicensed(Comments[suffix], SplitLines(CorrectedText(header, lines)))
  {
    var header := LicenseHeader(licenseLines, suffix).value;
    var out := OutLines(header, lines);
    OutLinesClean(licenseLines, suffix, lines);
    SplitTerminated(out);
    HeaderKeepsCopyright(Comments[suffix], licenseLines[k]);
    var lead := if HasLoader(lines) then 1 else 0;
    assert out[lead + k] == header[k];
  }

  /**
   * As written, checking a file right after apply fails whenever the file
   * had some text and no loader line: the rewritten text is a single line
   * that is longer than the first header line.
   */
  lemma AsWrittenApplyThenCheckFails(licenseLines: seq<string>, suffix: string, lines: seq<string>)
    requires suffix in Comments
    requires NoLineBreaks(licenseLines) && NoLineBreaks(lines)
    requires licenseLines != [] && !HasLoader(lines) && Concat(lines) != []
    ensures var header := LicenseHeader(licenseLines, suffix).value;
      !HeaderPresent(header, Body(SplitLines(WrittenText(header, lines))))
  {
    HeaderLinesClean(licenseLines, suffix);
    WrittenTextIsOneLine(LicenseHeader(licenseLines, suffix).value, lines);
  }

  lemma WrittenTextIsOneLine(header: seq<string>, lines: seq<string>)
    requires NoLineBreaks(header) && NoLineBreaks(lines)
    requires header != [] && !HasLoader(lines) && Concat(lines) != []
    ensures !HeaderPresent(header, Body(SplitLines(WrittenText(header, lines))))
  {
    var text := Concat(header) + Concat(lines);
    WrittenTextWithoutLoader(header, lines);
    NoBreaksInConcat(header);
    NoBreaksInConcat(lines);
    assert '\n' !in text;
    OneLine(text);
    OneLineCannotHoldHeader(header, Concat(lines));
  }

  lemma WrittenTextWithoutLoader(header: seq<string>, lines: seq<string>)
    requires !HasLoader(lines)
    ensures WrittenText(header, lines) == Concat(header) + Concat(lines)
  {
    assert Body(lines) == lines;
  }

  /** A single line that runs on past the header's text cannot hold the header. */
  lemma OneLineCannotHoldHeader(header: seq<string>, tail: string)
    requires header != [] && tail != []
    ensures !HeaderPresent(header, Body([Concat(header) + tail]))
  {
    var text := Concat(header) + tail;
    var body := Body([text]);
    assert |body| <= 1;
    if |header| == 1 && body != [] {
      assert body[0] == text;
      ConcatSingle(header[0]);
      assert |text| > |header[0]|;
    }
  }

  /**
   * As written, a file with a loader line is rewritten again by a second
   * apply: its text is one line that starts with "#!", not with the comment.
   */
  lemma AsWrittenApplyNotIdempotent(licenseLines: seq<string>, suffix: string, lines: seq<string>)
    requires suffix in Comments
    requires NoLineBreaks(licenseLines) && NoLineBreaks(lines)
    requires HasLoader(lines)
    ensures var header := LicenseHeader(licenseLines, suffix).value;
      !IsLicensed(Comments[suffix], SplitLines(WrittenText(header, lines)))
  {
    HeaderLinesClean(licenseLines, suffix);
    assert Comments[suffix] == "# " || Comments[suffix] == "// ";
    LoaderTextIsOneLine(LicenseHeader(licenseLines, suffix).value, lines, Comments[suffix]);
  }

  lemma LoaderTextIsOneLine(header: seq<string>, lines: seq<string>, comment: string)
    requires NoLineBreaks(header) && NoLineBreaks(lines)
    requires HasLoader(lines)
    requires comment == "# " || comment == "// "
    ensures !IsLicensed(comment, SplitLines(WrittenText(header, lines)))
  {
    var text := lines[0] + (Concat(header) + Concat(Body(lines)));
    WrittenTextWithLoader(header, lines);
    NoBreaksInConcat(header);
    assert NoLineBreaks(Body(lines)) by {
      assert forall i :: 0 <= i < |Body(lines)| ==> Body(lines)[i] == lines[i + 1];
    }
    NoBreaksInConcat(Body(lines));
    assert '\n' !in lines[0];
    assert '\n' !in text;
    OneLine(text);
    LoaderLineIsNotLicensed(text, comment);
  }

  lemma WrittenTextWithLoader(header: seq<string>, lines: seq<string>)
    requires HasLoader(lines)
    ensures WrittenText(header, lines) == lines[0] + (Concat(header) + Concat(Body(lines)))
  {
  }

  /** A single line that starts with "#!" does not start with a comment prefix. */
  lemma LoaderLineIsNotLicensed(text: string, comment: string)
    requires StartsWith(text, Loader)
    requires comment == "# " || comment == "// "
    ensures !IsLicensed(comment, [text])
  {
    assert text[1] == Loader[1] == '!';
    assert !StartsWith(text, comment);
  }

  lemma {:induction false} NoBreaksInConcat(ls: seq<string>)
    requires NoLineBreaks(ls)
    ensures '\n' !in Concat(ls)
  {
    if ls != [] {
      assert NoLineBreaks(ls[..|ls| - 1]);
      NoBreaksInConcat(ls[..|ls| - 1]);
      assert '\n' !in ls[|ls| - 1];
    }
  }

  // -------------------------------------------------------------------- main

  /** A file `apply` would replace, with the text it would write. */
  datatype FileWrite = FileWrite(path: string, text: string)

  /** How a run of the license tool ends. */
  datatype Outcome =
    | NoFiles
    | CheckFailed(checked: nat, failed: nat)
    | Finished(selected: nat, changed: nat, writes: seq<FileWrite>)
    | Aborted(error: Error, writes: seq<FileWrite>)
  {
    function ExitCode(): int
    {
      match this
      case NoFiles => 0
      case CheckFailed(_, _) => 1
      case Finished(_, _, _) => 0
      case Aborted(_, _) => 1
    }
  }

  predicate AllKnown(paths: seq<string>)
  {
    forall i :: 0 <= i < |paths| ==> SuffixKey(paths[i]) in Comments
  }

  /** How many paths lead up to the first one with an unknown suffix. */
  function KnownPrefix(paths: seq<string>): (n: nat)
    ensures n <= |paths| && AllKnown(paths[..n])
    ensures n < |paths| ==> SuffixKey(paths[n]) !in Comments
  {
    if paths == [] then 0
    else if SuffixKey(paths[0]) !in Comments then 0
    else
      var n := 1 + KnownPrefix(paths[1..]);
      assert forall i :: 1 <= i < n ==> paths[..n][i] == paths[1..][..n - 1][i - 1];
      n
  }

  /** When some suffix is unknown, the first unknown one lies inside the list. */
  lemma PrefixStopsInside(paths: seq<string>)
    requires !AllKnown(paths)
    ensures KnownPrefix(paths) < |paths|
  {
    assert paths[..|paths|] == paths;
  }

  lemma {:induction false} KnownPrefixAt(paths: seq<string>, i: nat)
    requires i < |paths| && AllKnown(paths[..i]) && SuffixKey(paths[i]) !in Comments
    ensures KnownPrefix(paths) == i
  {
    if i > 0 {
      assert paths[0] == paths[..i][0];
      assert paths[1..][..i - 1] == paths[..i][1..];
      KnownPrefixAt(paths[1..], i - 1);
    }
  }

  /** The check of one file passes (an unknown suffix never passes). */
  predicate CheckPasses(licenseLines: seq<string>, path: string, lines: seq<string>)
  {
    SuffixKey(path) in Comments
    && HeaderPresent(LicenseHeader(licenseLines, SuffixKey(path)).value, Body(lines))
  }

  function FailsFn(licenseLines: seq<string>, read: string -> seq<string>): string -> bool
  {
    p => !CheckPasses(licenseLines, p, read(p))
  }

  /** The number of paths whose check fails: `sum(not c for c in checks)`. */
  function FailedCount(licenseLines: seq<string>, paths: seq<string>, read: string -> seq<string>): (n: nat)
    ensures n <= |paths|
  {
    CountWhere(paths, FailsFn(licenseLines, read))
  }

  /** Check fails somewhere exactly when the failure count is not zero. */
  lemma FailedCountPositive(licenseLines: seq<string>, paths: seq<string>, read: string -> seq<string>)
    ensures FailedCount(licenseLines, paths, read) > 0 <==>
      exists i :: 0 <= i < |paths| && !CheckPasses(licenseLines, paths[i], read(paths[i]))
  {
    CountWherePositive(paths, FailsFn(licenseLines, read));
  }

  /** The file apply rewrites for this path, if it rewrites it. */
  function RewriteOf(licenseLines: seq<string>, path: string, lines: seq<string>): (w: Option<FileWrite>)
    ensures w.Some? <==> SuffixKey(path) in Comments && !IsLicensed(Comments[SuffixKey(path)], lines)
    ensures w.Some? ==> w.value.path == path
  {
    var suffix := SuffixKey(path);
    if suffix !in Comments || IsLicensed(Comments[suffix], lines) then None
    else Some(FileWrite(path, WrittenText(LicenseHeader(licenseLines, suffix).value, lines)))
  }

  function RewriteFn(licenseLines: seq<string>, read: string -> seq<string>): string -> Option<FileWrite>
  {
    p => RewriteOf(licenseLines, p, read(p))
  }

  /** The files apply rewrites, in order, with the text of each. */
  function Rewrites(licenseLines: seq<string>, paths: seq<string>, read: string -> seq<string>)
    : (writes: seq<FileWrite>)
    ensures |writes| <= |paths|
  {
    Collect(paths, RewriteFn(licenseLines, read))
  }

  /**
   * Apply rewrites exactly the unlicensed files, each with the as-written
   * text, and no other file.
   */
  lemma RewritesAreTheUnlicensed(licenseLines: seq<string>, paths: seq<string>,
                                 read: string -> seq<string>)
    requires AllKnown(paths)
    ensures |Rewrites(licenseLines, paths, read)| <= |paths|
    ensures forall w :: w in Rewrites(licenseLines, paths, read) ==>
      exists i :: 0 <= i < |paths| && w.path == paths[i]
        && !IsLicensed(Comments[SuffixKey(paths[i])], read(paths[i]))
        && w.text == WrittenText(LicenseHeader(licenseLines, SuffixKey(paths[i])).value, read(paths[i]))
    ensures forall i :: 0 <= i < |paths| && !IsLicensed(Comments[SuffixKey(paths[i])], read(paths[i])) ==>
      exists w :: w in Rewrites(licenseLines, paths, read) && w.path == paths[i]
  {
    var f := RewriteFn(licenseLines, read);
    CollectMembers(paths, f);
    forall i | 0 <= i < |paths| && !IsLicensed(Comments[SuffixKey(paths[i])], read(paths[i]))
      ensures exists w :: w in Rewrites(licenseLines, paths, read) && w.path == paths[i]
    {
      assert f(paths[i]) == RewriteOf(licenseLines, paths[i], read(paths[i]));
      assert f(paths[i]).value in Collect(paths, f);
    }
  }

  lemma FailedCountStep(licenseLines: seq<string>, paths: seq<string>, read: string -> seq<string>, i: nat)
    requires i < |paths|
    ensures FailedCount(licenseLines, paths[..i + 1], read)
      == FailedCount(licenseLines, paths[..i], read)
         + (if CheckPasses(licenseLines, paths[i], read(paths[i])) then 0 else 1)
  {
    assert paths[..i + 1][..i] == paths[..i];
  }

  lemma RewritesStep(licenseLines: seq<string>, paths: seq<string>, read: string -> seq<string>, i: nat)
    requires i < |paths|
    ensures var r := RewriteOf(licenseLines, paths[i], read(paths[i]));
      Rewrites(licenseLines, paths[..i + 1], read)
        == Rewrites(licenseLines, paths[..i], read) + (if r.Some? then [r.value] else [])
  {
    assert paths[..i + 1][..i] == paths[..i];
  }

  lemma AllKnownStep(paths: seq<string>, i: nat)
    requires i < |paths| && AllKnown(paths[..i]) && SuffixKey(paths[i]) in Comments
    ensures AllKnown(paths[..i + 1])
  {
    assert forall j :: 0 <= j < i ==> paths[..i + 1][j] == paths[..i][j];
  }

  /** One step of the check loop: check `paths[i]` and add its failure to the count. */
  method CheckNext(licenseLines: seq<string>, paths: seq<string>, read: string -> seq<string>, i: nat, failed: nat)
    returns (r: Result<nat, Error>)
    requires i < |paths| && failed == FailedCount(licenseLines, paths[..i], read)
    ensures r.Err? <==> SuffixKey(paths[i]) !in Comments
    ensures r.Err? ==> r.error == UnknownSuffix(SuffixKey(paths[i]))
    ensures r.Ok? ==> r.value == FailedCount(licenseLines, paths[..i + 1], read)
  {
    var c := CheckLicense(licenseLines, paths[i], read(paths[i]));
    if c.Err? {
      return Err(c.error);
    }
    FailedCountStep(licenseLines, paths, read, i);
    if c.value.Mismatch? {
      return Ok(failed + 1);
    }
    return Ok(failed);
  }

  /**
   * The check step of `main`: `check_license` on every path, in order; the
   * first unknown suffix aborts, otherwise the failures are counted.
   */
  method CheckAll(licenseLines: seq<string>, paths: seq<string>, read: string -> seq<string>)
    returns (r: Result<nat, Error>)
    ensures r.Err? <==> !AllKnown(paths)
    ensures r.Err? ==> r.error == UnknownSuffix(SuffixKey(paths[KnownPrefix(paths)]))
    ensures r.Ok? ==> r.value == FailedCount(licenseLines, paths, read)
  {
    var failed := 0;
    var i := 0;
    while i < |paths|
      invariant 0 <= i <= |paths|
      invariant AllKnown(paths[..i])
      invariant failed == FailedCount(licenseLines, paths[..i], read)
    {
      var c := CheckNext(licenseLines, paths, read, i, failed);
      if c.Err? {
        KnownPrefixAt(paths, i);
        return c;
      }
      AllKnownStep(paths, i);
      failed := c.value;
      i := i + 1;
    }
    assert paths[..i] == paths;
    return Ok(failed);
  }

  /** One step of the apply loop: apply to `paths[i]` and record its rewrite. */
  method ApplyNext(licenseLines: seq<string>, paths: seq<string>, read: string -> seq<string>, i: nat,
                   writes: seq<FileWrite>)
    returns (r: Result<seq<FileWrite>, Error>)
    requires i < |paths| && writes == Rewrites(licenseLines, paths[..i], read)
    ensures r.Err? <==> SuffixKey(paths[i]) !in Comments
    ensures r.Err? ==> r.error == UnknownSuffix(SuffixKey(paths[i]))
    ensures r.Ok? ==> r.value == Rewrites(licenseLines, paths[..i + 1], read)
  {
    var a := ApplyLicense(licenseLines, paths[i], read(paths[i]));
    if a.Err? {
      return Err(a.error);
    }
    RewritesStep(licenseLines, paths, read, i);
    if a.value.Rewritten? {
      return Ok(writes + [FileWrite(paths[i], a.value.text)]);
    }
    return Ok(writes);
  }

  /**
   * The apply step of `main`: `apply_license` on every path, in order,
   * counting the files changed; the first unknown suffix aborts, after the
   * rewrites of the paths before it.
   */
  method ApplyAll(licenseLines: seq<string>, paths: seq<string>, read: string -> seq<string>)
    returns (changed: nat, writes: seq<FileWrite>, error: Option<Error>)
    ensures error.Some? <==> !AllKnown(paths)
    ensures error.Some? ==>
      error.value == UnknownSuffix(SuffixKey(paths[KnownPrefix(paths)]))
      && writes == Rewrites(licenseLines, paths[..KnownPrefix(paths)], read)
    ensures error.None? ==> writes == Rewrites(licenseLines, paths, read)
    ensures changed == |writes|
  {
    writes := [];
    changed := 0;
    var i := 0;
    while i < |paths|
      invariant 0 <= i <= |paths|
      invariant AllKnown(paths[..i])
      invariant writes == Rewrites(licenseLines, paths[..i], read)
      invariant changed == |writes|
    {
      var r := ApplyNext(licenseLines, paths, read, i, writes);
      if r.Err? {
        KnownPrefixAt(paths, i);
        return changed, writes, Some(r.error);
      }
      AllKnownStep(paths, i);
      changed := changed + (|r.value| - |writes|);
      writes := r.value;
      i := i + 1;
    }
    assert paths[..i] == paths;
    return changed, writes, None;
  }

  /**
   * What `main` does once the paths are selected. No path ends the run at
   * once. Otherwise check, when on, goes first and apply, when on, second;
   * an unknown suffix aborts the run at the first such path, keeping the
   * rewrites apply made before it; a failed check ends the run before
   * apply starts.
   */
  function RunOutcome(check: bool, apply: bool, licenseLines: seq<string>, paths: seq<string>,
                      read: string -> seq<string>): (o: Outcome)
    ensures o.NoFiles? <==> paths == []
  {
    if paths == [] then NoFiles
    else if (check || apply) && !AllKnown(paths) then
      var n := KnownPrefix(paths);
      PrefixStopsInside(paths);
      Aborted(UnknownSuffix(SuffixKey(paths[n])),
              if check then [] else Rewrites(licenseLines, paths[..n], read))
    else if check && FailedCount(licenseLines, paths, read) > 0 then
      CheckFailed(|paths|, FailedCount(licenseLines, paths, read))
    else if apply then
      var writes := Rewrites(licenseLines, paths, read);
      Finished(|paths|, |writes|, writes)
    else Finished(|paths|, 0, [])
  }

  /**
   * The run's outcome in words: it aborts exactly when a mode is on and a
   * path has an unknown suffix; with every suffix known, check fails
   * exactly when some file fails it; a finished run has rewritten exactly
   * the unlicensed files when apply is on and nothing otherwise; and the
   * exit status is 1 exactly in the aborted and failed cases.
   */
  lemma RunOutcomeMeaning(check: bool, apply: bool, licenseLines: seq<string>,
                          paths: seq<string>, read: string -> seq<string>)
    ensures var o := RunOutcome(check, apply, licenseLines, paths, read);
      o.Aborted? <==> paths != [] && (check || apply) && !AllKnown(paths)
    ensures var o := RunOutcome(check, apply, licenseLines, paths, read);
      paths != [] && check && AllKnown(paths) ==>
        (o.CheckFailed? <==> exists i :: 0 <= i < |paths| && !CheckPasses(licenseLines, paths[i], read(paths[i])))
    ensures var o := RunOutcome(check, apply, licenseLines, paths, read);
      o.CheckFailed? ==> check && AllKnown(paths) && o.checked == |paths| && o.failed > 0
    ensures var o := RunOutcome(check, apply, licenseLines, paths, read);
      o.Finished? ==>
        o.selected == |paths| && o.changed == |o.writes|
        && (apply ==> AllKnown(paths) && o.writes == Rewrites(licenseLines, paths, read))
        && (!apply ==> o.writes == [])
    ensures var o := RunOutcome(check, apply, licenseLines, paths, read);
      o.ExitCode() != 0 <==>
        paths != [] &&
        (((check || apply) && !AllKnown(paths))
         || (check && exists i :: 0 <= i < |paths| && !CheckPasses(licenseLines, paths[i], read(paths[i]))))
  {
    var o := RunOutcome(check, apply, licenseLines, paths, read);
    if paths != [] && check && AllKnown(paths) {
      FailedCountPositive(licenseLines, paths, read);
    }
  }

  /** `main` after the path selection, for a non-empty list of paths. */
  method RunOnPaths(check: bool, apply: bool, licenseLines: seq<string>, paths: seq<string>,
                    read: string -> seq<string>)
    returns (o: Outcome)
    requires paths != []
    ensures o == RunOutcome(check, apply, licenseLines, paths, read)
  {
    if check {
      var c := CheckAll(licenseLines, paths, read);
      if c.Err? {
        return Aborted(c.error, []);
      }
      if c.value > 0 {
        return CheckFailed(|paths|, c.value);
      }
    }
    var changed, writes := 0, [];
    if apply {
      var error;
      changed, writes, error := ApplyAll(licenseLines, paths, read);
      if error.Some? {
        return Aborted(error.value, writes);
      }
    }
    return Finished(|paths|, changed, writes);
  }

  /**
   * `main` once the listings and the files' lines are known: the paths are
   * the selected ones, and the run ends as RunOutcome describes.
   */
  method RunLicensing(check: bool, apply: bool, licenseLines: seq<string>,
                      listings: seq<seq<string>>, includes: seq<string>, excludes: seq<string>,
                      matches: (string, string) -> bool, read: string -> seq<string>)
    returns (o: Outcome)
    ensures o == RunOutcome(check, apply, licenseLines,
                            PathList.Selection(listings, includes, excludes, matches), read)
  {
    var paths := PathList.GetGitPaths(listings);
    paths := PathList.FilterPaths(paths, includes, excludes, matches);
    assert paths == PathList.Selection(listings, includes, excludes, matches);
    if |paths| == 0 {
      return NoFiles;
    }
    o := RunOnPaths(check, apply, licenseLines, paths, read);
  }
}
