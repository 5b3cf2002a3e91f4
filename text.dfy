/**
 * String helpers with Python's meaning: `str.isspace`, `rstrip`, `strip`,
 * `startswith`, the `in` substring test, and line splitting.
 */
module Text {
  import opened Seqs

  /** Python's whitespace characters, as `str.isspace` and `str.strip` see them. */
  predicate IsSpace(c: char)
  {
    var n := c as int;
    (9 <= n <= 13) || (28 <= n <= 32) || n == 0x85 || n == 0xA0 || n == 0x1680
    || (0x2000 <= n <= 0x200A) || n == 0x2028 || n == 0x2029 || n == 0x202F
    || n == 0x205F || n == 0x3000
  }

  /** `r` is what `s.rstrip()` returns: `s` less its trailing whitespace. */
  predicate IsRStripOf(r: string, s: string)
  {
    |r| <= |s| && r == s[..|r|]
    && (r == [] || !IsSpace(r[|r| - 1]))
    && forall i :: |r| <= i < |s| ==> IsSpace(s[i])
  }

  function RStrip(s: string): (r: string)
    ensures IsRStripOf(r, s)
  {
    if s != [] && IsSpace(s[|s| - 1]) then RStrip(s[..|s| - 1]) else s
  }

  /** The three conditions of IsRStripOf leave no choice. */
  lemma RStripUnique(a: string, b: string, s: string)
    requires IsRStripOf(a, s) && IsRStripOf(b, s)
    ensures a == b
  {
  }

  function LStrip(s: string): (r: string)
    ensures |r| <= |s| && r == s[|s| - |r|..]
    ensures r == [] || !IsSpace(r[0])
    ensures forall i :: 0 <= i < |s| - |r| ==> IsSpace(s[i])
  {
    if s != [] && IsSpace(s[0]) then LStrip(s[1..]) else s
  }

  /** `s.strip()`: `s` less its leading and trailing whitespace. */
  function Strip(s: string): (r: string)
    ensures r == [] || (!IsSpace(r[0]) && !IsSpace(r[|r| - 1]))
    ensures exists a: nat :: OccursAt(s, r, a) && AllSpace(s[..a]) && AllSpace(s[a + |r|..])
  {
    var t := RStrip(s);
    var r := LStrip(t);
    StripParts(s, t, r);
    r
  }

  /** Where the two strips cut: the middle piece, with whitespace on either side. */
  lemma StripParts(s: string, t: string, r: string)
    requires IsRStripOf(t, s)
    requires |r| <= |t| && r == t[|t| - |r|..]
    requires forall i :: 0 <= i < |t| - |r| ==> IsSpace(t[i])
    ensures OccursAt(s, r, |t| - |r|) && AllSpace(s[..|t| - |r|]) && AllSpace(s[|t|..])
    ensures r == [] || !IsSpace(r[|r| - 1])
  {
    StripMiddle(s, t, r);
    StripLeft(s, t, r);
    StripRight(s, t);
    StripLast(t, r);
  }

  lemma StripLast(t: string, r: string)
    requires t == [] || !IsSpace(t[|t| - 1])
    requires |r| <= |t| && r == t[|t| - |r|..]
    ensures r == [] || !IsSpace(r[|r| - 1])
  {
    if r != [] {
      assert r[|r| - 1] == t[|t| - 1];
    }
  }

  lemma StripMiddle(s: string, t: string, r: string)
    requires |t| <= |s| && t == s[..|t|]
    requires |r| <= |t| && r == t[|t| - |r|..]
    ensures OccursAt(s, r, |t| - |r|)
  {
    assert s[|t| - |r|..|t|] == t[|t| - |r|..];
  }

  lemma StripLeft(s: string, t: string, r: string)
    requires |t| <= |s| && t == s[..|t|]
    requires |r| <= |t| && forall i :: 0 <= i < |t| - |r| ==> IsSpace(t[i])
    ensures AllSpace(s[..|t| - |r|])
  {
    assert forall i :: 0 <= i < |t| - |r| ==> s[..|t| - |r|][i] == t[i];
  }

  lemma StripRight(s: string, t: string)
    requires IsRStripOf(t, s)
    ensures AllSpace(s[|t|..])
  {
    assert forall i :: 0 <= i < |s| - |t| ==> s[|t|..][i] == s[|t| + i];
  }

  predicate AllSpace(t: string)
  {
    forall i :: 0 <= i < |t| ==> IsSpace(t[i])
  }

  predicate StartsWith(s: string, prefix: string)
  {
    |prefix| <= |s| && s[..|prefix|] == prefix
  }

  predicate EndsWith(s: string, suffix: string)
  {
    |suffix| <= |s| && s[|s| - |suffix|..] == suffix
  }

  predicate OccursAt(s: string, t: string, k: nat)
  {
    k + |t| <= |s| && s[k..k + |t|] == t
  }

  /** Python's `t in s` on strings. */
  predicate Contains(s: string, t: string)
  {
    exists k: nat | k <= |s| :: OccursAt(s, t, k)
  }

  /** Length of the first line of `s`: the characters before the first '\n'. */
  function LineEnd(s: string): (n: nat)
    ensures n <= |s|
    ensures forall i :: 0 <= i < n ==> s[i] != '\n'
    ensures n < |s| ==> s[n] == '\n'
  {
    if s == [] || s[0] == '\n' then 0 else 1 + LineEnd(s[1..])
  }

  /**
   * `s.splitlines()` for text whose only line break is '\n': the pieces
   * between the breaks, with no empty piece after a final break.
   */
  function SplitLines(s: string): (lines: seq<string>)
    ensures s == [] <==> lines == []
    ensures NoLineBreaks(lines)
    ensures s != [] ==> Join(lines, "\n") == (if s[|s| - 1] == '\n' then s[..|s| - 1] else s)
    decreases |s|
  {
    if s == [] then []
    else
      var n := LineEnd(s);
      var first := s[..n];
      assert '\n' !in first by {
        assert forall i :: 0 <= i < n ==> first[i] == s[i];
      }
      if n == |s| then
        assert first == s;
        [first]
      else
        var rest := SplitLines(s[n + 1..]);
        SplitLinesCons(s, n, first, rest);
        [first] + rest
  }

  /** The step of SplitLines: a first line and its break in front of the rest's lines. */
  lemma SplitLinesCons(s: string, n: nat, first: string, rest: seq<string>)
    requires n < |s| && s[n] == '\n' && first == s[..n] && '\n' !in first
    requires s[n + 1..] == [] <==> rest == []
    requires NoLineBreaks(rest)
    requires s[n + 1..] != [] ==>
      Join(rest, "\n") == (var t := s[n + 1..]; if t[|t| - 1] == '\n' then t[..|t| - 1] else t)
    ensures NoLineBreaks([first] + rest)
    ensures Join([first] + rest, "\n") == (if s[|s| - 1] == '\n' then s[..|s| - 1] else s)
  {
    NoBreaksCons(first, rest);
    var t := s[n + 1..];
    assert s == first + "\n" + t;
    if rest == [] {
      assert [first] + rest == [first];
      assert s[..|s| - 1] == first;
    } else {
      JoinCons(first, rest, "\n");
      DropFinalBreak(first, t);
    }
  }

  lemma NoBreaksCons(first: string, rest: seq<string>)
    requires '\n' !in first && NoLineBreaks(rest)
    ensures NoLineBreaks([first] + rest)
  {
    var all := [first] + rest;
    assert forall i :: 1 <= i < |all| ==> all[i] == rest[i - 1];
  }

  lemma DropFinalBreak(first: string, t: string)
    requires t != []
    ensures var s := first + "\n" + t;
      (if s[|s| - 1] == '\n' then s[..|s| - 1] else s)
      == first + "\n" + (if t[|t| - 1] == '\n' then t[..|t| - 1] else t)
  {
    var s := first + "\n" + t;
    assert s[|s| - 1] == t[|t| - 1];
    assert s[..|s| - 1] == first + "\n" + t[..|t| - 1];
  }

  /** Each line followed by '\n', as a text file stores them. */
  function Terminated(lines: seq<string>): (s: string)
    ensures lines == [] <==> s == []
  {
    if lines == [] then [] else lines[0] + "\n" + Terminated(lines[1..])
  }

  predicate NoLineBreaks(lines: seq<string>)
  {
    forall i :: 0 <= i < |lines| ==> '\n' !in lines[i]
  }

  /** Writing lines terminated and splitting them again gives the lines back. */
  lemma {:induction false} SplitTerminated(lines: seq<string>)
    requires NoLineBreaks(lines)
    ensures SplitLines(Terminated(lines)) == lines
  {
    if lines != [] {
      var s := Terminated(lines);
      var l := lines[0];
      assert s == l + ("\n" + Terminated(lines[1..]));
      LineEndAt(l, "\n" + Terminated(lines[1..]));
      assert s[..|l|] == l;
      assert s[|l| + 1..] == Terminated(lines[1..]);
      assert NoLineBreaks(lines[1..]);
      SplitTerminated(lines[1..]);
      if |l| + 1 == |s| {
        assert Terminated(lines[1..]) == [];
        assert lines[1..] == [];
      }
      assert lines == [l] + lines[1..];
    }
  }

  lemma {:induction false} LineEndAt(l: string, rest: string)
    requires '\n' !in l
    requires rest != [] && rest[0] == '\n'
    ensures LineEnd(l + rest) == |l|
    decreases |l|
  {
    if l != [] {
      assert (l + rest)[1..] == l[1..] + rest;
      LineEndAt(l[1..], rest);
    } else {
      assert l + rest == rest;
    }
  }

  /** Text without a '\n' is a single line. */
  lemma OneLine(s: string)
    requires s != [] && '\n' !in s
    ensures SplitLines(s) == [s]
  {
    LineEndWhole(s);
    assert s[..|s|] == s;
  }

  lemma {:induction false} LineEndWhole(s: string)
    requires '\n' !in s
    ensures LineEnd(s) == |s|
  {
    if s != [] {
      assert s[0] in s;
      assert forall c :: c in s[1..] ==> c in s;
      LineEndWhole(s[1..]);
    }
  }
}
