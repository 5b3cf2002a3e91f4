/**
 * The path-list step both tools share: the listings `git ls-files` gave for
 * each directory, merged without repetitions, then filtered by include and
 * exclude glob patterns. The glob match (`PurePath.match`) is a parameter.
 */
module PathList {
  import opened Seqs

  /**
   * `get_git_paths` once each directory's listing is known: the listings are
   * appended one after another, then `dict.fromkeys` removes repetitions.
   */
  method GetGitPaths(listings: seq<seq<string>>) returns (paths: seq<string>)
    ensures NoDuplicates(paths)
    ensures forall p :: p in paths <==> exists i :: 0 <= i < |listings| && p in listings[i]
    ensures paths == Dedup(Concat(listings))
  {
    var out: seq<string> := [];
    var k := 0;
    while k < |listings|
      invariant 0 <= k <= |listings|
      invariant out == Concat(listings[..k])
    {
      assert listings[..k + 1][..k] == listings[..k];
      out := out + listings[k];
      k := k + 1;
    }
    assert listings[..k] == listings;
    paths := Dedup(out);
    forall p ensures p in paths <==> exists i :: 0 <= i < |listings| && p in listings[i] {
      ConcatMembers(listings, p);
    }
  }

  /** Some pattern of `pats` matches `path`: `any(p.match(pat) for pat in pats)`. */
  predicate AnyMatch(path: string, pats: seq<string>, matches: (string, string) -> bool)
  {
    exists i :: 0 <= i < |pats| && matches(path, pats[i])
  }

  /** The filter's test: some include pattern matches and no exclude pattern does. */
  predicate Selected(path: string, includes: seq<string>, excludes: seq<string>,
                     matches: (string, string) -> bool)
  {
    AnyMatch(path, includes, matches) && !AnyMatch(path, excludes, matches)
  }

  /** `filter_paths`: the paths that pass the test, in their input order. */
  function FilterPaths(files: seq<string>, includes: seq<string>, excludes: seq<string>,
                       matches: (string, string) -> bool): (r: seq<string>)
    ensures forall p :: p in r <==> p in files && Selected(p, includes, excludes, matches)
    ensures includes == [] ==> r == []
  {
    if files == [] then []
    else
      var init := files[..|files| - 1];
      var last := files[|files| - 1];
      FilterPaths(init, includes, excludes, matches)
        + (if Selected(last, includes, excludes, matches) then [last] else [])
  }

  /** The kept paths stay in their input order. */
  lemma {:induction false} FilterIsSubsequence(files: seq<string>, includes: seq<string>,
                                               excludes: seq<string>,
                                               matches: (string, string) -> bool)
    ensures IsSubsequence(FilterPaths(files, includes, excludes, matches), files)
  {
    if files != [] {
      var init := files[..|files| - 1];
      var last := files[|files| - 1];
      var r := FilterPaths(files, includes, excludes, matches);
      var r' := FilterPaths(init, includes, excludes, matches);
      FilterIsSubsequence(init, includes, excludes, matches);
      if Selected(last, includes, excludes, matches) {
        assert r[..|r| - 1] == r';
      } else if r != [] {
        assert r == r';
        assert r[|r| - 1] in r;
        assert r[|r| - 1] != last;
      }
    }
  }

  /** A kept path is kept as many times as it occurs; a dropped one never. */
  lemma {:induction false} FilterCounts(files: seq<string>, includes: seq<string>,
                                        excludes: seq<string>, matches: (string, string) -> bool,
                                        p: string)
    ensures multiset(FilterPaths(files, includes, excludes, matches))[p]
      == if Selected(p, includes, excludes, matches) then multiset(files)[p] else 0
  {
    if files != [] {
      var init := files[..|files| - 1];
      assert files == init + [files[|files| - 1]];
      FilterCounts(init, includes, excludes, matches, p);
    }
  }

  /** Filtering a concatenation filters each part. */
  lemma {:induction false} FilterAppend(a: seq<string>, b: seq<string>, includes: seq<string>,
                                        excludes: seq<string>, matches: (string, string) -> bool)
    ensures FilterPaths(a + b, includes, excludes, matches)
      == FilterPaths(a, includes, excludes, matches) + FilterPaths(b, includes, excludes, matches)
    decreases |b|
  {
    if b == [] {
      assert a + b == a;
    } else {
      var b' := b[..|b| - 1];
      assert (a + b)[..|a + b| - 1] == a + b';
      assert (a + b)[|a + b| - 1] == b[|b| - 1];
      FilterAppend(a, b', includes, excludes, matches);
    }
  }

  /** Filtering twice with the same patterns is filtering once. */
  lemma {:induction false} FilterIdempotent(files: seq<string>, includes: seq<string>,
                                            excludes: seq<string>, matches: (string, string) -> bool)
    ensures FilterPaths(FilterPaths(files, includes, excludes, matches), includes, excludes, matches)
      == FilterPaths(files, includes, excludes, matches)
  {
    if files != [] {
      var init := files[..|files| - 1];
      var last := files[|files| - 1];
      var once := FilterPaths(init, includes, excludes, matches);
      var tail := if Selected(last, includes, excludes, matches) then [last] else [];
      FilterIdempotent(init, includes, excludes, matches);
      FilterAppend(once, tail, includes, excludes, matches);
      if tail != [] {
        assert tail[..0] == [];
      }
    }
  }

  /** A list without repetitions stays without repetitions when filtered. */
  lemma {:induction false} FilterKeepsDistinct(files: seq<string>, includes: seq<string>,
                                               excludes: seq<string>,
                                               matches: (string, string) -> bool)
    requires NoDuplicates(files)
    ensures NoDuplicates(FilterPaths(files, includes, excludes, matches))
  {
    if files != [] {
      var init := files[..|files| - 1];
      assert NoDuplicates(init);
      FilterKeepsDistinct(init, includes, excludes, matches);
      assert files[|files| - 1] !in init;
    }
  }

  /**
   * The paths a run works on: the merged listings, filtered. Each appears
   * once, and exactly the listed paths that pass the filter appear.
   */
  function Selection(listings: seq<seq<string>>, includes: seq<string>, excludes: seq<string>,
                     matches: (string, string) -> bool): (paths: seq<string>)
    ensures NoDuplicates(paths)
    ensures forall p :: p in paths <==>
      (exists i :: 0 <= i < |listings| && p in listings[i]) && Selected(p, includes, excludes, matches)
  {
    var merged := Dedup(Concat(listings));
    forall p ensures p in merged <==> exists i :: 0 <= i < |listings| && p in listings[i] {
      ConcatMembers(listings, p);
    }
    FilterKeepsDistinct(merged, includes, excludes, matches);
    FilterPaths(merged, includes, excludes, matches)
  }
}
