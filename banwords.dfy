/**
 * The banned-word scanner (`banwords.py`) once its inputs are known. The
 * decoded word list becomes one case-insensitive alternation pattern. Every
 * selected file is scanned line by line, and each line's distinct matches are
 * counted and reported. A nonzero total fails the run. Three things are
 * parameters: `re.escape`, the regex search `findall`, and file reading.
 */
module Banwords {
  import opened Wrappers
  import opened Seqs
  import opened Text
  import PathList

  /** A compiled `re.Pattern`: its source text and whether it ignores case. */
  datatype Pattern = Pattern(source: string, ignoreCase: bool)

  // ---------------------------------------------------------------------
  // `load_banlist`
  // ---------------------------------------------------------------------

  /** A word-list line holds a word when, once stripped, it is neither blank nor a `#` comment. */
  predicate IsWordLine(l: string)
  {
    var w := Strip(l);
    w != [] && !StartsWith(w, "#")
  }

  /** The word a word-list line contributes, if any. */
  function WordOf(l: string): Option<string>
  {
    if IsWordLine(l) then Some(Strip(l)) else None
  }

  /** The words of the decoded list, stripped, in their input order. */
  function KeptWords(lines: seq<string>): (words: seq<string>)
    ensures |words| <= |lines|
  {
    Collect(lines, WordOf)
  }

  /** Every stripped line of the word list, blank and comment lines included. */
  function Stripped(lines: seq<string>): (r: seq<string>)
    ensures |r| == |lines|
  {
    seq(|lines|, i requires 0 <= i < |lines| => Strip(lines[i]))
  }

  /** A word is kept exactly when some line strips to it and that line is not blank or a comment. */
  lemma KeptWordsMembers(lines: seq<string>)
    ensures forall w :: w in KeptWords(lines) <==>
      exists i :: 0 <= i < |lines| && IsWordLine(lines[i]) && Strip(lines[i]) == w
  {
    CollectMembers(lines, WordOf);
    forall w | w in KeptWords(lines)
      ensures exists i :: 0 <= i < |lines| && IsWordLine(lines[i]) && Strip(lines[i]) == w
    {
      var i :| 0 <= i < |lines| && WordOf(lines[i]) == Some(w);
      assert IsWordLine(lines[i]) && Strip(lines[i]) == w;
    }
    forall i | 0 <= i < |lines| && IsWordLine(lines[i])
      ensures Strip(lines[i]) in KeptWords(lines)
    {
      assert WordOf(lines[i]).Some?;
    }
  }

  /** Parsing goes line by line: the words of two pieces of a list, one after the other. */
  lemma {:induction false} KeptWordsAppend(a: seq<string>, b: seq<string>)
    ensures KeptWords(a + b) == KeptWords(a) + KeptWords(b)
    decreases |b|
  {
    if b == [] {
      assert a + b == a;
    } else {
      var b' := b[..|b| - 1];
      assert (a + b)[..|a + b| - 1] == a + b';
      assert (a + b)[|a + b| - 1] == b[|b| - 1];
      KeptWordsAppend(a, b');
    }
  }

  /** The words keep their input order: they are the stripped lines with some left out. */
  lemma {:induction false} KeptWordsIsSubsequence(lines: seq<string>)
    ensures IsSubsequence(KeptWords(lines), Stripped(lines))
  {
    if lines != [] {
      var init := lines[..|lines| - 1];
      var last := lines[|lines| - 1];
      KeptWordsIsSubsequence(init);
      assert Stripped(lines)[..|lines| - 1] == Stripped(init);
      var k := KeptWords(init);
      if IsWordLine(last) {
        assert KeptWords(lines) == k + [Strip(last)];
        assert (k + [Strip(last)])[..|k|] == k;
      } else {
        assert KeptWords(lines) == k;
        SubsequenceOfLonger(k, Stripped(init), Strip(last));
      }
    }
  }

  /** A blank line holds no word. */
  lemma BlankLineIsDropped(l: string)
    requires AllSpace(l)
    ensures !IsWordLine(l)
    ensures KeptWords([l]) == []
  {
    assert [l][..0] == [];
  }

  /**
   * The test is made on the stripped line, so a `#` after leading whitespace
   * still marks a comment.
   */
  lemma IndentedCommentIsDropped(l: string, k: nat)
    requires k < |l| && AllSpace(l[..k]) && l[k] == '#'
    ensures !IsWordLine(l)
    ensures KeptWords([l]) == []
  {
    StripStartsAtFirstNonSpace(l, k);
    assert [l][..0] == [];
  }

  /** A stripped line starts with the first character that is not whitespace. */
  lemma StripStartsAtFirstNonSpace(l: string, k: nat)
    requires k < |l| && AllSpace(l[..k]) && !IsSpace(l[k])
    ensures Strip(l) != [] && Strip(l)[0] == l[k]
  {
    var r := Strip(l);
    var a: nat :| OccursAt(l, r, a) && AllSpace(l[..a]) && AllSpace(l[a + |r|..]);
    SpacePrefix(l, k);
    SpacePrefix(l, a);
    assert r != [] && r[0] == l[a];
  }

  lemma SpacePrefix(l: string, k: nat)
    requires k <= |l| && AllSpace(l[..k])
    ensures forall i :: 0 <= i < k ==> IsSpace(l[i])
  {
    assert forall i :: 0 <= i < k ==> l[..k][i] == l[i];
  }

  /** `re.escape` applied to each word. */
  function Escaped(words: seq<string>, escape: string -> string): (r: seq<string>)
    ensures |r| == |words|
  {
    seq(|words|, i requires 0 <= i < |words| => escape(words[i]))
  }

  /** The source text `load_banlist` compiles: the escaped words as one alternation. */
  function BanSource(lines: seq<string>, escape: string -> string): string
  {
    "\\b(" + Join(Escaped(KeptWords(lines), escape), "|") + ")\\b"
  }

  /**
   * The pattern is a word-bounded group around the escaped words joined by
   * `|`; with no word the group is empty.
   */
  lemma BanSourceShape(lines: seq<string>, escape: string -> string)
    ensures var src := BanSource(lines, escape);
      StartsWith(src, "\\b(") && EndsWith(src, ")\\b")
      && src[3..|src| - 3] == Join(Escaped(KeptWords(lines), escape), "|")
      && (KeptWords(lines) == [] ==> src == "\\b()\\b")
  {
    var j := Join(Escaped(KeptWords(lines), escape), "|");
    var src := BanSource(lines, escape);
    assert src == "\\b(" + j + ")\\b";
    assert src[3..|src| - 3] == j;
  }

  /** Each kept word, escaped, occurs in the pattern. */
  lemma BanSourceHoldsEachWord(lines: seq<string>, escape: string -> string, i: nat)
    requires i < |KeptWords(lines)|
    ensures Contains(BanSource(lines, escape), escape(KeptWords(lines)[i]))
  {
    var words := Escaped(KeptWords(lines), escape);
    var j := Join(words, "|");
    var src := BanSource(lines, escape);
    var w := words[i];
    assert w == escape(KeptWords(lines)[i]);
    var k := JoinHasPart(words, "|", i);
    OccursInside("\\b(", j, ")\\b", w, k);
  }

  /** An occurrence stays one when text is added around it. */
  lemma OccursInside(pre: string, t: string, post: string, w: string, k: nat)
    requires OccursAt(t, w, k)
    ensures OccursAt(pre + t + post, w, |pre| + k)
  {
    var s := pre + t + post;
    assert s[|pre| + k..|pre| + k + |w|] == t[k..k + |w|];
  }

  /** Every part of a join occurs in it. */
  lemma {:induction false} JoinHasPart(parts: seq<string>, sep: string, i: nat) returns (k: nat)
    requires i < |parts|
    ensures OccursAt(Join(parts, sep), parts[i], k)
    decreases |parts|
  {
    var j := Join(parts, sep);
    if |parts| == 1 {
      k := 0;
      assert j[0..|parts[i]|] == parts[i];
    } else {
      var init := parts[..|parts| - 1];
      var left := Join(init, sep);
      assert j == left + sep + parts[|parts| - 1];
      if i == |parts| - 1 {
        k := |left| + |sep|;
        assert j[k..k + |parts[i]|] == parts[i];
      } else {
        assert init[i] == parts[i];
        k := JoinHasPart(init, sep, i);
        assert j[k..k + |parts[i]|] == left[k..k + |parts[i]|];
      }
    }
  }

  /** The pattern `load_banlist` compiles from the decoded word list. */
  function BanPattern(content: string, escape: string -> string): Pattern
  {
    Pattern(BanSource(SplitLines(content), escape), true)
  }

  lemma KeptWordsStep(lines: seq<string>, k: nat)
    requires k < |lines|
    ensures KeptWords(lines[..k + 1])
      == KeptWords(lines[..k]) + (if IsWordLine(lines[k]) then [Strip(lines[k])] else [])
  {
    assert lines[..k + 1][..k] == lines[..k];
    assert lines[..k + 1][k] == lines[k];
  }

  lemma EscapedAppend(words: seq<string>, w: string, escape: string -> string)
    ensures Escaped(words + [w], escape) == Escaped(words, escape) + [escape(w)]
  {
  }

  /** `load_banlist` from the decoded text: the word loop, then the compile. */
  method LoadBanlist(content: string, escape: string -> string) returns (p: Pattern)
    ensures p.ignoreCase
    ensures p == BanPattern(content, escape)
  {
    var lines := SplitLines(content);
    var words: seq<string> := [];
    var k := 0;
    while k < |lines|
      invariant 0 <= k <= |lines|
      invariant words == Escaped(KeptWords(lines[..k]), escape)
    {
      KeptWordsStep(lines, k);
      var l := Strip(lines[k]);
      if l != [] && !StartsWith(l, "#") {
        EscapedAppend(KeptWords(lines[..k]), l, escape);
        words := words + [escape(l)];
      }
      k := k + 1;
    }
    assert lines[..k] == lines;
    p := Pattern("\\b(" + Join(words, "|") + ")\\b", true);
  }

  // ---------------------------------------------------------------------
  // `check_file`
  // ---------------------------------------------------------------------

  /** What reading a file gives: its text, or a decoding failure. */
  datatype FileText = Decoded(text: string) | Undecodable

  /** The lines scanned: an undecodable file is scanned as the empty text. */
  function LinesOf(f: FileText): seq<string>
  {
    SplitLines(if f.Decoded? then f.text else "")
  }

  /** One error message of `check_file`: the file, the 1-based line, how many words, which. */
  datatype Diagnostic = Diagnostic(path: string, lineNo: nat, found: nat, words: string)

  const Hidden: string := "<hidden>"

  /** The distinct matches of one line, in order of first occurrence, as `findall` spells them. */
  function LineMatches(pattern: Pattern, findAll: (Pattern, string) -> seq<string>, line: string)
    : (m: seq<string>)
    ensures NoDuplicates(m)
    ensures forall x :: x in m <==> x in findAll(pattern, line)
  {
    Dedup(findAll(pattern, line))
  }

  /** The word text of a diagnostic: the matches, or a placeholder when they are not shown. */
  function WordsText(m: seq<string>, show: bool): (t: string)
    ensures !show ==> t == Hidden
    ensures show && |m| == 1 ==> t == m[0]
    ensures show ==> forall i :: 0 <= i < |m| ==> Contains(t, m[i])
    ensures show && m != [] ==> |t| == |Concat(m)| + 2 * (|m| - 1)
    ensures show && |m| >= 2 ==> StartsWith(t, m[0] + ", ") && EndsWith(t, ", " + m[|m| - 1])
  {
    if show then
      JoinHoldsEachPart(m, ", ");
      JoinEnds(m, ", ");
      Join(m, ", ")
    else Hidden
  }

  /** A join of two or more parts starts with the first and a separator, and ends with one and the last. */
  lemma JoinEnds(parts: seq<string>, sep: string)
    ensures |parts| >= 2 ==>
      StartsWith(Join(parts, sep), parts[0] + sep) && EndsWith(Join(parts, sep), sep + parts[|parts| - 1])
  {
    if |parts| >= 2 {
      var j := Join(parts, sep);
      assert parts == [parts[0]] + parts[1..];
      JoinCons(parts[0], parts[1..], sep);
      assert j == parts[0] + sep + Join(parts[1..], sep);
      assert j[..|parts[0] + sep|] == parts[0] + sep;
      var left := Join(parts[..|parts| - 1], sep);
      assert j == left + (sep + parts[|parts| - 1]);
    }
  }

  /** Every part of a join occurs somewhere in it. */
  lemma JoinHoldsEachPart(parts: seq<string>, sep: string)
    ensures forall i :: 0 <= i < |parts| ==> Contains(Join(parts, sep), parts[i])
  {
    forall i | 0 <= i < |parts|
      ensures Contains(Join(parts, sep), parts[i])
    {
      var k := JoinHasPart(parts, sep, i);
    }
  }

  /** The count of `check_file`: the distinct matches of each line, added up. */
  function FileCount(pattern: Pattern, findAll: (Pattern, string) -> seq<string>, lines: seq<string>)
    : nat
  {
    if lines == [] then 0
    else
      FileCount(pattern, findAll, lines[..|lines| - 1])
        + |LineMatches(pattern, findAll, lines[|lines| - 1])|
  }

  /** The messages of `check_file`, one per line with a match, in line order. */
  function FileDiagnostics(path: string, pattern: Pattern, findAll: (Pattern, string) -> seq<string>,
                           show: bool, lines: seq<string>): (ds: seq<Diagnostic>)
    ensures |ds| <= |lines|
  {
    if lines == [] then []
    else
      var m := LineMatches(pattern, findAll, lines[|lines| - 1]);
      FileDiagnostics(path, pattern, findAll, show, lines[..|lines| - 1])
        + (if m != [] then [Diagnostic(path, |lines|, |m|, WordsText(m, show))] else [])
  }

  /**
   * A line counts the distinct strings `findall` gives for it. Case is kept,
   * so "Foo" and "foo" are two.
   */
  lemma LineCountIsDistinctHits(pattern: Pattern, findAll: (Pattern, string) -> seq<string>,
                                line: string)
    ensures |LineMatches(pattern, findAll, line)| == |set w | w in findAll(pattern, line)|
  {
    var m := LineMatches(pattern, findAll, line);
    DistinctCardinality(m);
    assert (set w | w in m) == (set w | w in findAll(pattern, line));
  }

  /** Two different spellings found on one line count as two words. */
  lemma CaseVariantsCountSeparately(pattern: Pattern, findAll: (Pattern, string) -> seq<string>,
                                    line: string, a: string, b: string)
    requires a != b && a in findAll(pattern, line) && b in findAll(pattern, line)
    ensures |LineMatches(pattern, findAll, line)| >= 2
  {
    LineCountIsDistinctHits(pattern, findAll, line);
    var hits := set w | w in findAll(pattern, line);
    assert {a, b} <= hits;
    assert |{a, b}| == 2;
    assert hits == {a, b} + (hits - {a, b});
  }

  /**
   * Each diagnostic names a line with a match: its 1-based number, the
   * number of distinct matches on it and their text.
   */
  lemma {:induction false} DiagnosticsNameMatchingLines(
    path: string, pattern: Pattern, findAll: (Pattern, string) -> seq<string>,
    show: bool, lines: seq<string>)
    ensures forall d :: d in FileDiagnostics(path, pattern, findAll, show, lines) ==>
      1 <= d.lineNo <= |lines| && d.path == path
      && var m := LineMatches(pattern, findAll, lines[d.lineNo - 1]);
      m != [] && d.found == |m| && d.words == WordsText(m, show)
  {
    if lines != [] {
      var init := lines[..|lines| - 1];
      DiagnosticsNameMatchingLines(path, pattern, findAll, show, init);
      assert forall i :: 0 <= i < |init| ==> init[i] == lines[i];
    }
  }

  /** Every line with a match has a diagnostic. */
  lemma {:induction false} MatchingLinesHaveDiagnostics(
    path: string, pattern: Pattern, findAll: (Pattern, string) -> seq<string>,
    show: bool, lines: seq<string>)
    ensures forall i :: 0 <= i < |lines| && LineMatches(pattern, findAll, lines[i]) != [] ==>
      exists d :: d in FileDiagnostics(path, pattern, findAll, show, lines) && d.lineNo == i + 1
  {
    if lines != [] {
      var init := lines[..|lines| - 1];
      MatchingLinesHaveDiagnostics(path, pattern, findAll, show, init);
      assert forall i :: 0 <= i < |init| ==> init[i] == lines[i];
      var p := FileDiagnostics(path, pattern, findAll, show, init);
      var ds := FileDiagnostics(path, pattern, findAll, show, lines);
      var m := LineMatches(pattern, findAll, lines[|lines| - 1]);
      if m != [] {
        assert ds == p + [Diagnostic(path, |lines|, |m|, WordsText(m, show))];
        assert ds[|p|].lineNo == |lines|;
      } else {
        assert ds == p;
      }
      assert forall d :: d in p ==> d in ds;
    }
  }

  predicate LineNumbersIncrease(ds: seq<Diagnostic>)
  {
    forall a, b :: 0 <= a < b < |ds| ==> ds[a].lineNo < ds[b].lineNo
  }

  /** The line numbers of the diagnostics strictly increase: no line is reported twice. */
  lemma {:induction false} DiagnosticLinesIncrease(
    path: string, pattern: Pattern, findAll: (Pattern, string) -> seq<string>,
    show: bool, lines: seq<string>)
    ensures LineNumbersIncrease(FileDiagnostics(path, pattern, findAll, show, lines))
  {
    if lines != [] {
      var init := lines[..|lines| - 1];
      DiagnosticLinesIncrease(path, pattern, findAll, show, init);
      DiagnosticsNameMatchingLines(path, pattern, findAll, show, init);
      var p := FileDiagnostics(path, pattern, findAll, show, init);
      var ds := FileDiagnostics(path, pattern, findAll, show, lines);
      var m := LineMatches(pattern, findAll, lines[|lines| - 1]);
      if m != [] {
        assert ds == p + [Diagnostic(path, |lines|, |m|, WordsText(m, show))];
      } else {
        assert ds == p;
      }
      forall a, b | 0 <= a < b < |ds|
        ensures ds[a].lineNo < ds[b].lineNo
      {
        assert ds[a] == p[a];
        if b < |p| {
          assert ds[b] == p[b];
          assert p[a].lineNo < p[b].lineNo;
        } else {
          assert p[a] in p;
          assert p[a].lineNo <= |init|;
          assert ds[b].lineNo == |lines|;
        }
      }
    }
  }

  /** Some line of the file has a match. */
  predicate FileHasHit(pattern: Pattern, findAll: (Pattern, string) -> seq<string>, lines: seq<string>)
  {
    exists j :: 0 <= j < |lines| && LineMatches(pattern, findAll, lines[j]) != []
  }

  /** A file counts nothing exactly when it gives no diagnostic, and when no line has a match. */
  lemma {:induction false} CountZeroIffSilent(
    path: string, pattern: Pattern, findAll: (Pattern, string) -> seq<string>,
    show: bool, lines: seq<string>)
    ensures FileCount(pattern, findAll, lines) == 0 <==>
      FileDiagnostics(path, pattern, findAll, show, lines) == []
    ensures FileCount(pattern, findAll, lines) != 0 <==> FileHasHit(pattern, findAll, lines)
  {
    if lines != [] {
      var init := lines[..|lines| - 1];
      CountZeroIffSilent(path, pattern, findAll, show, init);
      assert forall i :: 0 <= i < |init| ==> init[i] == lines[i];
    }
  }

  /** A file that cannot be decoded is scanned as empty: no count and no message. */
  lemma UndecodableIsSilent(path: string, pattern: Pattern, findAll: (Pattern, string) -> seq<string>,
                            show: bool)
    ensures FileCount(pattern, findAll, LinesOf(Undecodable)) == 0
    ensures FileDiagnostics(path, pattern, findAll, show, LinesOf(Undecodable)) == []
  {
  }

  /** One more line adds its distinct matches to the count, and its diagnostic if it matches. */
  lemma FileStep(path: string, pattern: Pattern, findAll: (Pattern, string) -> seq<string>,
                 show: bool, lines: seq<string>, idx: nat)
    requires idx < |lines|
    ensures var m := LineMatches(pattern, findAll, lines[idx]);
      FileCount(pattern, findAll, lines[..idx + 1]) == FileCount(pattern, findAll, lines[..idx]) + |m|
      && FileDiagnostics(path, pattern, findAll, show, lines[..idx + 1])
         == FileDiagnostics(path, pattern, findAll, show, lines[..idx])
            + (if m != [] then [Diagnostic(path, idx + 1, |m|, WordsText(m, show))] else [])
  {
    assert lines[..idx + 1][..idx] == lines[..idx];
    assert lines[..idx + 1][idx] == lines[idx];
  }

  /** `check_file`: the line loop adding each line's distinct matches and reporting matching lines. */
  method CheckFile(path: string, file: FileText, pattern: Pattern,
                   findAll: (Pattern, string) -> seq<string>, show: bool)
    returns (count: nat, diags: seq<Diagnostic>)
    ensures count == FileCount(pattern, findAll, LinesOf(file))
    ensures diags == FileDiagnostics(path, pattern, findAll, show, LinesOf(file))
  {
    var text := if file.Decoded? then file.text else "";
    var lines := SplitLines(text);
    count, diags := ScanLines(path, lines, pattern, findAll, show);
  }

  /** The line loop of `check_file` over the file's lines. */
  method ScanLines(path: string, lines: seq<string>, pattern: Pattern,
                   findAll: (Pattern, string) -> seq<string>, show: bool)
    returns (count: nat, diags: seq<Diagnostic>)
    ensures count == FileCount(pattern, findAll, lines)
    ensures diags == FileDiagnostics(path, pattern, findAll, show, lines)
  {
    count := 0;
    diags := [];
    var idx := 0;
    while idx < |lines|
      invariant 0 <= idx <= |lines|
      invariant count == FileCount(pattern, findAll, lines[..idx])
      invariant diags == FileDiagnostics(path, pattern, findAll, show, lines[..idx])
    {
      FileStep(path, pattern, findAll, show, lines, idx);
      var matches := Dedup(findAll(pattern, lines[idx]));
      if matches != [] {
        var words := WordsText(matches, show);
        diags := diags + [Diagnostic(path, idx + 1, |matches|, words)];
      }
      count := count + |matches|;
      idx := idx + 1;
    }
    assert lines[..idx] == lines;
  }

  // ---------------------------------------------------------------------
  // `main`
  // ---------------------------------------------------------------------

  /** The count `check_file` gives for the file at a path. */
  function FileCountFn(read: string -> FileText, pattern: Pattern,
                       findAll: (Pattern, string) -> seq<string>): string -> nat
  {
    p => FileCount(pattern, findAll, LinesOf(read(p)))
  }

  /** The sum of the per-file counts over `paths`. */
  function TotalCount(paths: seq<string>, read: string -> FileText, pattern: Pattern,
                      findAll: (Pattern, string) -> seq<string>): nat
  {
    SumOf(paths, FileCountFn(read, pattern, findAll))
  }

  lemma TotalCountStep(paths: seq<string>, read: string -> FileText, pattern: Pattern,
                       findAll: (Pattern, string) -> seq<string>, i: nat)
    requires i < |paths|
    ensures TotalCount(paths[..i + 1], read, pattern, findAll)
      == TotalCount(paths[..i], read, pattern, findAll)
         + FileCount(pattern, findAll, LinesOf(read(paths[i])))
  {
    SumOfStep(paths, FileCountFn(read, pattern, findAll), i);
  }

  /** The messages of all files, file after file. */
  function AllDiagnostics(paths: seq<string>, read: string -> FileText, pattern: Pattern,
                          findAll: (Pattern, string) -> seq<string>, show: bool): seq<Diagnostic>
  {
    if paths == [] then []
    else
      var last := paths[|paths| - 1];
      AllDiagnostics(paths[..|paths| - 1], read, pattern, findAll, show)
        + FileDiagnostics(last, pattern, findAll, show, LinesOf(read(last)))
  }

  lemma AllDiagnosticsStep(paths: seq<string>, read: string -> FileText, pattern: Pattern,
                            findAll: (Pattern, string) -> seq<string>, show: bool, i: nat)
    requires i < |paths|
    ensures AllDiagnostics(paths[..i + 1], read, pattern, findAll, show)
      == AllDiagnostics(paths[..i], read, pattern, findAll, show)
         + FileDiagnostics(paths[i], pattern, findAll, show, LinesOf(read(paths[i])))
  {
    assert paths[..i + 1][..i] == paths[..i];
    assert paths[..i + 1][i] == paths[i];
  }

  /** Some line of some file among `paths` has a match. */
  predicate AnyHit(paths: seq<string>, read: string -> FileText, pattern: Pattern,
                   findAll: (Pattern, string) -> seq<string>)
  {
    exists i :: 0 <= i < |paths| && FileHasHit(pattern, findAll, LinesOf(read(paths[i])))
  }

  /** The total is nonzero exactly when some line of some file has a match. */
  lemma TotalPositiveIffHit(paths: seq<string>, read: string -> FileText, pattern: Pattern,
                            findAll: (Pattern, string) -> seq<string>)
    ensures TotalCount(paths, read, pattern, findAll) != 0 <==> AnyHit(paths, read, pattern, findAll)
  {
    var f := FileCountFn(read, pattern, findAll);
    SumOfPositive(paths, f);
    forall i | 0 <= i < |paths|
      ensures f(paths[i]) != 0 <==> FileHasHit(pattern, findAll, LinesOf(read(paths[i])))
    {
      CountZeroIffSilent(paths[i], pattern, findAll, false, LinesOf(read(paths[i])));
    }
  }

  /** The total is zero exactly when no file gave a message. */
  lemma {:induction false} TotalZeroIffSilent(paths: seq<string>, read: string -> FileText,
                                              pattern: Pattern,
                                              findAll: (Pattern, string) -> seq<string>, show: bool)
    ensures TotalCount(paths, read, pattern, findAll) == 0 <==>
      AllDiagnostics(paths, read, pattern, findAll, show) == []
  {
    if paths != [] {
      var last := paths[|paths| - 1];
      TotalZeroIffSilent(paths[..|paths| - 1], read, pattern, findAll, show);
      TotalCountStep(paths, read, pattern, findAll, |paths| - 1);
      assert paths[..|paths| - 1 + 1] == paths;
      CountZeroIffSilent(last, pattern, findAll, show, LinesOf(read(last)));
    }
  }

  /** How a run ends: no selected file, or every selected file scanned. */
  datatype Outcome = NoFiles | Scanned(checked: nat, total: nat, diags: seq<Diagnostic>)
  {
    /** The exit status: 1 when a banned word was found, otherwise 0. */
    function ExitCode(): nat
    {
      if Scanned? && total != 0 then 1 else 0
    }
  }

  /** The scan loop of `main`: `check_file` on each path, counts added up. */
  method ScanAll(paths: seq<string>, read: string -> FileText, pattern: Pattern,
                 findAll: (Pattern, string) -> seq<string>, show: bool)
    returns (total: nat, diags: seq<Diagnostic>)
    ensures total == TotalCount(paths, read, pattern, findAll)
    ensures diags == AllDiagnostics(paths, read, pattern, findAll, show)
  {
    total := 0;
    diags := [];
    var i := 0;
    while i < |paths|
      invariant 0 <= i <= |paths|
      invariant total == TotalCount(paths[..i], read, pattern, findAll)
      invariant diags == AllDiagnostics(paths[..i], read, pattern, findAll, show)
    {
      TotalCountStep(paths, read, pattern, findAll, i);
      AllDiagnosticsStep(paths, read, pattern, findAll, show, i);
      var count, ds := CheckFile(paths[i], read(paths[i]), pattern, findAll, show);
      total := total + count;
      diags := diags + ds;
      i := i + 1;
    }
    assert paths[..i] == paths;
  }

  /**
   * `main` once the listings, the decoded word list and the files are known.
   * With no selected path the run ends at once with status 0, before the
   * word list is used. Otherwise every selected file is scanned, and the
   * status is 1 exactly when a line of some file has a match.
   */
  method RunBanwords(listings: seq<seq<string>>, includes: seq<string>, excludes: seq<string>,
                     matches: (string, string) -> bool, banText: string,
                     escape: string -> string, read: string -> FileText,
                     findAll: (Pattern, string) -> seq<string>, show: bool)
    returns (o: Outcome)
    ensures var paths := PathList.Selection(listings, includes, excludes, matches);
      paths == [] <==> o.NoFiles?
    ensures var paths := PathList.Selection(listings, includes, excludes, matches);
      var pattern := BanPattern(banText, escape);
      o.Scanned? ==>
        o.checked == |paths|
        && o.total == TotalCount(paths, read, pattern, findAll)
        && o.diags == AllDiagnostics(paths, read, pattern, findAll, show)
    ensures var paths := PathList.Selection(listings, includes, excludes, matches);
      o.ExitCode() == 1 <==>
        paths != [] && AnyHit(paths, read, BanPattern(banText, escape), findAll)
  {
    var merged := PathList.GetGitPaths(listings);
    var paths := PathList.FilterPaths(merged, includes, excludes, matches);
    if |paths| == 0 {
      return NoFiles;
    }
    var pattern := LoadBanlist(banText, escape);
    var total, diags := ScanAll(paths, read, pattern, findAll, show);
    TotalPositiveIffHit(paths, read, pattern, findAll);
    return Scanned(|paths|, total, diags);
  }
}
