/**
 * The worked example of the license tool: the license "Copyright 2024
 * Example", a Python file with the two lines "print(1)" and "print(2)" and
 * no loader line.
 */
module LicensingExample {
  import opened Seqs
  import opened Text
  import opened Licensing

  /** A path in a directory with the name "mod.py" has the key "py". */
  lemma ExampleSuffix()
    ensures SuffixKey("src/mod.py") == "py"
  {
    var path := "src/mod.py";
    assert path[3] == '/' && forall j :: 3 < j < |path| ==> path[j] != '/';
    assert LastIndexOf(path, '/') == 3;
    assert FileName(path) == "mod.py";
    var name := "mod.py";
    assert name[3] == '.' && '.' !in name[4..];
  }

  /** A name that ends in a dot has no suffix, so its key is empty. */
  lemma ExampleTrailingDot()
    ensures SuffixKey("x.a.") == ""
  {
    var key := SuffixKey("x.a.");
    assert FileName("x.a.") == "x.a." by {
      assert forall j :: 0 <= j < 4 ==> "x.a."[j] != '/';
    }
  }

  /** The header is the one line "# Copyright 2024 Example". */
  lemma ExampleHeader()
    ensures LicenseHeader(["Copyright 2024 Example"], "py").value == ["# Copyright 2024 Example"]
  {
    var s := "# Copyright 2024 Example";
    assert Comments["py"] + "Copyright 2024 Example" == s;
    assert !IsSpace(s[|s| - 1]);
    OneLineHeader("Copyright 2024 Example", "py");
  }

  /** A one-line license gives the one header line. */
  lemma OneLineHeader(line: string, suffix: string)
    requires suffix in Comments
    ensures LicenseHeader([line], suffix).value == [RStrip(Comments[suffix] + line)]
  {
  }

  /** As written, apply writes header and lines with nothing between them. */
  lemma ExampleWrittenText()
    ensures WrittenText(["# Copyright 2024 Example"], ["print(1)", "print(2)"])
      == "# Copyright 2024 Exampleprint(1)print(2)"
  {
    var lines := ["print(1)", "print(2)"];
    assert !HasLoader(lines) by { assert lines[0][0] != '#'; }
    assert Concat(lines) == lines[0] + lines[1] by {
      assert lines[..1] == [lines[0]];
      ConcatSingle(lines[0]);
    }
    ConcatSingle("# Copyright 2024 Example");
  }

  /** So a check right after apply fails on the example. */
  lemma ExampleAsWritten()
    ensures var header := LicenseHeader(["Copyright 2024 Example"], "py").value;
      WrittenText(header, ["print(1)", "print(2)"]) == "# Copyright 2024 Exampleprint(1)print(2)"
      && !HeaderPresent(header, Body(SplitLines(WrittenText(header, ["print(1)", "print(2)"]))))
  {
    ExampleHeader();
    ExampleWrittenText();
    var lines := ["print(1)", "print(2)"];
    assert '\n' !in lines[0] && '\n' !in lines[1];
    assert NoLineBreaks(["Copyright 2024 Example"]);
    assert !HasLoader(lines) by { assert lines[0][0] != '#'; }
    assert Concat(lines) != [] by {
      assert Concat(lines) == Concat(lines[..1]) + lines[1];
    }
    AsWrittenApplyThenCheckFails(["Copyright 2024 Example"], "py", lines);
  }

  /** The corrected text ends each line with a line break. */
  lemma ExampleCorrectedText()
    ensures CorrectedText(["# Copyright 2024 Example"], ["print(1)", "print(2)"])
      == "# Copyright 2024 Example\nprint(1)\nprint(2)\n"
  {
    var a, b, c := "# Copyright 2024 Example", "print(1)", "print(2)";
    var lines := [b, c];
    assert !HasLoader(lines) by { assert b[0] != '#'; }
    assert OutLines([a], lines) == [a, b, c];
    TerminatedThree(a, b, c);
    assert a + "\n" + b + "\n" + c + "\n" == "# Copyright 2024 Example\nprint(1)\nprint(2)\n";
  }

  /** Three lines, each followed by a line break. */
  lemma TerminatedThree(a: string, b: string, c: string)
    ensures Terminated([a, b, c]) == a + "\n" + b + "\n" + c + "\n"
  {
    TerminatedCons(c, []);
    TerminatedCons(b, [c]);
    TerminatedCons(a, [b, c]);
    assert [b] + [c] == [b, c] && [a] + [b, c] == [a, b, c];
  }

  lemma TerminatedCons(l: string, ls: seq<string>)
    ensures Terminated([l] + ls) == l + "\n" + Terminated(ls)
  {
    assert ([l] + ls)[1..] == ls;
  }


  /** With the corrected text the check after apply passes. */
  lemma ExampleCorrected()
    ensures var header := LicenseHeader(["Copyright 2024 Example"], "py").value;
      HeaderPresent(header, Body(SplitLines(CorrectedText(header, ["print(1)", "print(2)"]))))
  {
    var lines := ["print(1)", "print(2)"];
    assert '\n' !in lines[0] && '\n' !in lines[1];
    assert NoLineBreaks(["Copyright 2024 Example"]);
    CorrectedApplyThenCheckPasses(["Copyright 2024 Example"], "py", lines);
  }
}
