/** File name patterns: globs with `*` and `?`, translated to SQL LIKE patterns. */
module Glob {
  import opened Collections

  const ESCAPE := '\\'

  /** `s.replace(c, t)` for a single character `c`. */
  function Replace(s: string, c: char, t: string): string {
    if s == "" then "" else (if s[0] == c then t else [s[0]]) + Replace(s[1..], c, t)
  }

  /** The five replacements, in the order of the code. */
  function GlobToLike(glob: string): string {
    var pattern := Replace(glob, '\\', "\\\\");
    var pattern := Replace(pattern, '%', "\\%");
    var pattern := Replace(pattern, '_', "\\_");
    var pattern := Replace(pattern, '*', "%");
    Replace(pattern, '?', "_")
  }

  // --------------------------------------------------------------- one pass

  /** The translation of one character. */
  function Translate(c: char): string {
    if c == '\\' || c == '%' || c == '_' then [ESCAPE, c]
    else if c == '*' then "%"
    else if c == '?' then "_"
    else [c]
  }

  function TranslateAll(glob: string): string {
    if glob == "" then "" else Translate(glob[0]) + TranslateAll(glob[1..])
  }

  lemma {:induction false} ReplaceConcat(a: string, b: string, c: char, t: string)
    ensures Replace(a + b, c, t) == Replace(a, c, t) + Replace(b, c, t)
  {
    if a == "" {
      assert a + b == b;
    } else {
      assert (a + b)[1..] == a[1..] + b;
      ReplaceConcat(a[1..], b, c, t);
    }
  }

  function Stage(s: string, k: nat): string
    requires k <= 5
  {
    if k == 0 then s
    else
      var before := Stage(s, k - 1);
      if k == 1 then Replace(before, '\\', "\\\\")
      else if k == 2 then Replace(before, '%', "\\%")
      else if k == 3 then Replace(before, '_', "\\_")
      else if k == 4 then Replace(before, '*', "%")
      else Replace(before, '?', "_")
  }

  lemma {:induction false} StageConcat(a: string, b: string, k: nat)
    requires k <= 5
    ensures Stage(a + b, k) == Stage(a, k) + Stage(b, k)
  {
    if k > 0 {
      StageConcat(a, b, k - 1);
      ReplaceConcat(Stage(a, k - 1), Stage(b, k - 1), '\\', "\\\\");
      ReplaceConcat(Stage(a, k - 1), Stage(b, k - 1), '%', "\\%");
      ReplaceConcat(Stage(a, k - 1), Stage(b, k - 1), '_', "\\_");
      ReplaceConcat(Stage(a, k - 1), Stage(b, k - 1), '*', "%");
      ReplaceConcat(Stage(a, k - 1), Stage(b, k - 1), '?', "_");
    }
  }

  lemma ReplaceOne(x: char, c: char, t: string)
    ensures Replace([x], c, t) == if x == c then t else [x]
  {
    assert Replace([x][1..], c, t) == "";
  }

  lemma ReplaceTwo(x: char, y: char, c: char, t: string)
    ensures Replace([x, y], c, t) == (if x == c then t else [x]) + (if y == c then t else [y])
  {
    assert [x, y][1..] == [y];
    ReplaceOne(y, c, t);
  }

  /** No later replacement touches what an earlier one produced. */
  lemma StagesOfOne(c: char)
    ensures Stage([c], 5) == Translate(c)
  {
    ReplaceOne(c, '\\', "\\\\");
    assert Stage([c], 0) == [c];
    if c == '\\' {
      assert Stage([c], 1) == ['\\', '\\'];
      ReplaceTwo('\\', '\\', '%', "\\%");
      assert Stage([c], 2) == ['\\', '\\'];
      ReplaceTwo('\\', '\\', '_', "\\_");
      ReplaceTwo('\\', '\\', '*', "%");
      ReplaceTwo('\\', '\\', '?', "_");
      assert Stage([c], 3) == ['\\', '\\'];
      assert Stage([c], 4) == ['\\', '\\'];
    } else {
      assert Stage([c], 1) == [c];
      ReplaceOne(c, '%', "\\%");
      if c == '%' {
        assert Stage([c], 2) == ['\\', '%'];
        ReplaceTwo('\\', '%', '_', "\\_");
        assert Stage([c], 3) == ['\\', '%'];
        ReplaceTwo('\\', '%', '*', "%");
        assert Stage([c], 4) == ['\\', '%'];
        ReplaceTwo('\\', '%', '?', "_");
      } else {
        assert Stage([c], 2) == [c];
        ReplaceOne(c, '_', "\\_");
        if c == '_' {
          assert Stage([c], 3) == ['\\', '_'];
          ReplaceTwo('\\', '_', '*', "%");
          assert Stage([c], 4) == ['\\', '_'];
          ReplaceTwo('\\', '_', '?', "_");
        } else {
          assert Stage([c], 3) == [c];
          ReplaceOne(c, '*', "%");
          assert Stage([c], 4) == (if c == '*' then ['%'] else [c]);
          ReplaceOne('%', '?', "_");
          ReplaceOne(c, '?', "_");
        }
      }
    }
  }

  lemma StagesAreTheCode(glob: string)
    ensures Stage(glob, 5) == GlobToLike(glob)
  {
    assert Stage(glob, 1) == Replace(glob, '\\', "\\\\");
    assert Stage(glob, 2) == Replace(Stage(glob, 1), '%', "\\%");
    assert Stage(glob, 3) == Replace(Stage(glob, 2), '_', "\\_");
    assert Stage(glob, 4) == Replace(Stage(glob, 3), '*', "%");
  }

  lemma StageEmpty(k: nat)
    requires k <= 5
    ensures Stage("", k) == ""
  {
  }

  /** The five passes equal one character-by-character translation. */
  lemma {:induction false} FivePassesAreOne(glob: string)
    ensures GlobToLike(glob) == TranslateAll(glob)
  {
    StagesAreTheCode(glob);
    if glob == "" {
      StageEmpty(5);
    } else {
      assert glob == [glob[0]] + glob[1..];
      StageConcat([glob[0]], glob[1..], 5);
      StagesOfOne(glob[0]);
      StagesAreTheCode(glob[1..]);
      FivePassesAreOne(glob[1..]);
    }
  }

  // ---------------------------------------------------------------- matching

  /** `*` matches any characters, `?` exactly one, everything else itself. */
  predicate GlobMatches(glob: string, s: string)
    decreases |glob| + |s|
  {
    if glob == "" then s == ""
    else if glob[0] == '*' then GlobMatches(glob[1..], s) || (s != "" && GlobMatches(glob, s[1..]))
    else if s == "" then false
    else (glob[0] == '?' || glob[0] == s[0]) && GlobMatches(glob[1..], s[1..])
  }

  /** A LIKE predicate with an escape character is either evaluated or an error: the
      escape must be followed by itself, by `%` or by `_`. */
  datatype LikeResult = Matches(yes: bool) | InvalidEscape

  predicate WellEscaped(pattern: string)
    decreases |pattern|
  {
    if pattern == "" then true
    else if pattern[0] == ESCAPE then
      |pattern| >= 2 && pattern[1] in {ESCAPE, '%', '_'} && WellEscaped(pattern[2..])
    else WellEscaped(pattern[1..])
  }

  predicate LikeBody(pattern: string, s: string)
    requires WellEscaped(pattern)
    decreases |pattern| + |s|
  {
    if pattern == "" then s == ""
    else if pattern[0] == '%' then LikeBody(pattern[1..], s) || (s != "" && LikeBody(pattern, s[1..]))
    else if s == "" then false
    else if pattern[0] == ESCAPE then pattern[1] == s[0] && LikeBody(pattern[2..], s[1..])
    else (pattern[0] == '_' || pattern[0] == s[0]) && LikeBody(pattern[1..], s[1..])
  }

  function Like(pattern: string, s: string): LikeResult {
    if WellEscaped(pattern) then Matches(LikeBody(pattern, s)) else InvalidEscape
  }

  lemma TranslateHead(glob: string)
    requires glob != ""
    ensures var p := TranslateAll(glob);
      && (glob[0] in {'\\', '%', '_'} ==>
            |p| >= 2 && p[0] == ESCAPE && p[1] == glob[0] && p[2..] == TranslateAll(glob[1..]))
      && (glob[0] !in {'\\', '%', '_'} ==>
            && p != "" && p[1..] == TranslateAll(glob[1..])
            && p[0] == (if glob[0] == '*' then '%' else if glob[0] == '?' then '_' else glob[0]))
  {
    assert Translate(glob[0]) + TranslateAll(glob[1..]) == TranslateAll(glob);
  }

  /** Every escape in a translated pattern is followed by a special character. */
  lemma {:induction false} TranslatedWellEscaped(glob: string)
    ensures WellEscaped(TranslateAll(glob))
  {
    if glob != "" {
      TranslateHead(glob);
      TranslatedWellEscaped(glob[1..]);
    }
  }

  lemma {:induction false} TranslationMatches(glob: string, s: string)
    ensures WellEscaped(TranslateAll(glob))
    ensures LikeBody(TranslateAll(glob), s) <==> GlobMatches(glob, s)
    decreases |glob| + |s|
  {
    TranslatedWellEscaped(glob);
    if glob != "" {
      TranslateHead(glob);
      TranslatedWellEscaped(glob[1..]);
      if glob[0] == '*' {
        TranslationMatches(glob[1..], s);
        if s != "" { TranslationMatches(glob, s[1..]); }
      } else if s != "" {
        TranslationMatches(glob[1..], s[1..]);
      }
    }
  }

  /** The translated pattern is valid and matches exactly what the glob matches. */
  lemma LikeMeansGlob(glob: string, s: string)
    ensures Like(GlobToLike(glob), s) == Matches(GlobMatches(glob, s))
  {
    FivePassesAreOne(glob);
    TranslationMatches(glob, s);
  }

  // ------------------------------------------------------------ what `*` means

  /** Matching distributes over concatenation of patterns: the text splits. */
  lemma {:induction false} GlobSplits(g: string, h: string, s: string)
    ensures GlobMatches(g + h, s) <==> exists k :: 0 <= k <= |s| && GlobMatches(g, s[..k]) && GlobMatches(h, s[k..])
    decreases |g| + |s|
  {
    if g == "" {
      assert g + h == h;
      assert s[..0] == "" && s[0..] == s;
      forall k | 0 <= k <= |s| && GlobMatches(g, s[..k]) ensures k == 0 {
        assert s[..k] == "";
      }
    } else {
      assert (g + h)[0] == g[0] && (g + h)[1..] == g[1..] + h;
      if GlobMatches(g + h, s) {
        SplitFound(g, h, s);
      }
      if k :| 0 <= k <= |s| && GlobMatches(g, s[..k]) && GlobMatches(h, s[k..]) {
        SplitJoins(g, h, s, k);
      }
    }
  }

  lemma {:induction false} SplitFound(g: string, h: string, s: string)
    requires GlobMatches(g + h, s)
    ensures exists k :: 0 <= k <= |s| && GlobMatches(g, s[..k]) && GlobMatches(h, s[k..])
    decreases |g| + |s|
  {
    if g == "" {
      assert g + h == h && s[..0] == "" && s[0..] == s;
      assert GlobMatches(g, s[..0]);
    } else {
      assert (g + h)[0] == g[0] && (g + h)[1..] == g[1..] + h;
      if g[0] == '*' && GlobMatches(g[1..] + h, s) {
        SplitFound(g[1..], h, s);
        var k :| 0 <= k <= |s| && GlobMatches(g[1..], s[..k]) && GlobMatches(h, s[k..]);
        assert GlobMatches(g, s[..k]);
      } else {
        var rest := s[1..];
        SplitFound(if g[0] == '*' then g else g[1..], h, rest);
        var k :| 0 <= k <= |rest| && GlobMatches(if g[0] == '*' then g else g[1..], rest[..k]) && GlobMatches(h, rest[k..]);
        assert s[..k + 1][1..] == rest[..k] && s[k + 1..] == rest[k..];
        assert GlobMatches(g, s[..k + 1]);
      }
    }
  }

  lemma {:induction false} SplitJoins(g: string, h: string, s: string, k: nat)
    requires k <= |s| && GlobMatches(g, s[..k]) && GlobMatches(h, s[k..])
    ensures GlobMatches(g + h, s)
    decreases |g| + k
  {
    if g == "" {
      assert g + h == h && s[k..] == s;
    } else {
      assert (g + h)[0] == g[0] && (g + h)[1..] == g[1..] + h;
      if g[0] == '*' && GlobMatches(g[1..], s[..k]) {
        SplitJoins(g[1..], h, s, k);
      } else {
        assert s[..k][1..] == s[1..][..k - 1] && s[k..] == s[1..][k - 1..];
        SplitJoins(if g[0] == '*' then g else g[1..], h, s[1..], k - 1);
      }
    }
  }

  lemma {:induction false} StarMatchesAll(s: string)
    ensures GlobMatches("*", s)
  {
    if s != "" {
      StarMatchesAll(s[1..]);
    }
  }

  // --------------------------------------------------------------- searching

  /** A case folding that neither makes nor loses a special character. */
  ghost predicate Folds(fold: char -> char) {
    forall c :: fold(c) in {'\\', '%', '_', '*', '?'} || c in {'\\', '%', '_', '*', '?'} ==> fold(c) == c
  }

  function Fold(fold: char -> char, s: string): (r: string)
    ensures |r| == |s| && forall i :: 0 <= i < |s| ==> r[i] == fold(s[i])
  {
    if s == "" then "" else [fold(s[0])] + Fold(fold, s[1..])
  }

  lemma {:induction false} FoldTranslates(fold: char -> char, glob: string)
    requires Folds(fold)
    ensures Fold(fold, TranslateAll(glob)) == TranslateAll(Fold(fold, glob))
  {
    if glob != "" {
      var c, rest := glob[0], TranslateAll(glob[1..]);
      FoldTranslates(fold, glob[1..]);
      TranslateHead(glob);
      assert Fold(fold, glob)[0] == fold(c) && Fold(fold, glob)[1..] == Fold(fold, glob[1..]);
      FoldConcat(fold, Translate(c), rest);
      if c in {'\\', '%', '_'} {
        assert Translate(c)[1..] == [c] && [c][1..] == "";
        assert Fold(fold, Translate(c)) == [fold(ESCAPE)] + Fold(fold, [c]);
        assert Fold(fold, [c]) == [fold(c)] + Fold(fold, "");
        assert Fold(fold, Translate(c)) == Translate(fold(c));
      } else {
        var t := Translate(c);
        assert t[1..] == "";
        assert Fold(fold, t) == [fold(t[0])] + "";
        assert Fold(fold, t) == Translate(fold(c));
      }
    }
  }

  lemma {:induction false} FoldConcat(fold: char -> char, a: string, b: string)
    ensures Fold(fold, a + b) == Fold(fold, a) + Fold(fold, b)
  {
    if a == "" {
      assert a + b == b;
    } else {
      assert (a + b)[1..] == a[1..] + b;
      FoldConcat(fold, a[1..], b);
    }
  }

  /** `ILIKE`: both sides are folded first. */
  function ILike(fold: char -> char, pattern: string, s: string): LikeResult {
    Like(Fold(fold, pattern), Fold(fold, s))
  }

  lemma ILikeMeansGlob(fold: char -> char, glob: string, s: string)
    requires Folds(fold)
    ensures ILike(fold, GlobToLike(glob), s) == Matches(GlobMatches(Fold(fold, glob), Fold(fold, s)))
  {
    FivePassesAreOne(glob);
    FoldTranslates(fold, glob);
    FivePassesAreOne(Fold(fold, glob));
    LikeMeansGlob(Fold(fold, glob), Fold(fold, s));
  }

  datatype File = File(id: Id, userId: string, filename: string)

  /** The rows `search_files` selects, before ordering and paging. */
  function SearchFiles(fold: char -> char, files: set<File>, userId: Option<string>, glob: string): set<File> {
    var pattern := GlobToLike(glob);
    set f | f in files
      && (userId.Some? && userId.value != "" ==> f.userId == userId.value)
      && (pattern != "%" ==> ILike(fold, pattern, f.filename) == Matches(true))
  }

  /** A search returns exactly the user's files whose name the glob matches; leaving
      the filter out for the pattern `%` changes nothing. */
  lemma SearchFilesExact(fold: char -> char, files: set<File>, userId: Option<string>, glob: string, f: File)
    requires Folds(fold)
    ensures f in SearchFiles(fold, files, userId, glob) <==>
            && f in files && (userId.Some? && userId.value != "" ==> f.userId == userId.value)
            && GlobMatches(Fold(fold, glob), Fold(fold, f.filename))
  {
    ILikeMeansGlob(fold, glob, f.filename);
    if GlobToLike(glob) == "%" {
      OnlyStarIsPercent(glob);
      assert Fold(fold, glob) == "*";
      StarMatchesAll(Fold(fold, f.filename));
    }
  }

  lemma OnlyStarIsPercent(glob: string)
    requires GlobToLike(glob) == "%"
    ensures glob == "*"
  {
    FivePassesAreOne(glob);
    TranslateHead(glob);
    if |glob| > 1 { TranslateHead(glob[1..]); }
  }

  // ------------------------------------------------------------- going back

  /** Reads a LIKE pattern as a glob again. */
  function LikeToGlob(pattern: string): string
    requires WellEscaped(pattern)
    decreases |pattern|
  {
    if pattern == "" then ""
    else if pattern[0] == ESCAPE then [pattern[1]] + LikeToGlob(pattern[2..])
    else (if pattern[0] == '%' then "*" else if pattern[0] == '_' then "?" else [pattern[0]]) + LikeToGlob(pattern[1..])
  }

  /** The translation loses nothing. */
  lemma {:induction false} TranslationInvertible(glob: string)
    ensures WellEscaped(GlobToLike(glob)) && LikeToGlob(GlobToLike(glob)) == glob
  {
    FivePassesAreOne(glob);
    TranslatedWellEscaped(glob);
    if glob != "" {
      TranslateHead(glob);
      FivePassesAreOne(glob[1..]);
      TranslationInvertible(glob[1..]);
      assert glob == [glob[0]] + glob[1..];
    }
  }
}
