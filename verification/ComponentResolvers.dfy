/**
 The two longest-declaration resolvers from a project-relative path to its
 component: by raw string prefix (bollard/component_coupling.py) and by path
 boundary (atlas/registry/architecture_parse.py).
 */
module ComponentResolvers {
  import opened Wrappers
  import opened Sequences
  import opened ComponentBlocks

  // ---- string helpers, as Python has them ----------------------------------

  function RStrip(text: string, c: char): (r: string)
    ensures r <= text && (r != [] ==> r[|r| - 1] != c)
    ensures forall i | |r| <= i < |text| :: text[i] == c
  {
    if text != [] && text[|text| - 1] == c then RStrip(text[..|text| - 1], c) else text
  }

  function LStrip(text: string, c: char): (r: string)
    ensures |r| <= |text| && r == text[|text| - |r|..]
  {
    if text != [] && text[0] == c then LStrip(text[1..], c) else text
  }

  function Replace(text: string, from: char, to: char): string
  {
    if text == [] then [] else [if text[0] == from then to else text[0]] + Replace(text[1..], from, to)
  }

  function StripDots(text: string): string
    decreases |text|
  {
    if "./" <= text then StripDots(text[2..]) else text
  }

  function NormalizeRelPath(path: string): (r: string)
    ensures r != [] ==> r[|r| - 1] != '/'
  {
    RStrip(LStrip(StripDots(Replace(path, '\\', '/')), '/'), '/')
  }

  /** `text` is the path with every backslash a slash. */
  predicate IsPosix(path: string, text: string)
  {
    |text| == |path| && forall i | 0 <= i < |path| :: text[i] == if path[i] == '\\' then '/' else path[i]
  }

  /** "./" over and over. */
  predicate AllDots(text: string)
  {
    |text| % 2 == 0 && forall i | 0 <= i < |text| :: text[i] == if i % 2 == 0 then '.' else '/'
  }

  predicate AllSlashes(text: string)
  {
    forall i | 0 <= i < |text| :: text[i] == '/'
  }

  /** `r` is what leading "./" pairs, then leading slashes, and trailing slashes leave of the text. */
  ghost predicate IsNormalised(text: string, r: string)
  {
    exists dots, front, back :: NormalParts(text, dots, front, r, back)
  }

  predicate NormalParts(text: string, dots: string, front: string, r: string, back: string)
  {
    && text == dots + (front + r + back)
    && AllDots(dots) && AllSlashes(front) && AllSlashes(back)
    && !("./" <= front + r + back)
    && (r != "" ==> r[0] != '/' && r[|r| - 1] != '/')
  }

  lemma {:induction false} ReplaceIs(text: string, from: char, to: char)
    ensures |Replace(text, from, to)| == |text|
    ensures forall i | 0 <= i < |text| :: Replace(text, from, to)[i] == if text[i] == from then to else text[i]
  {
    if text != "" {
      ReplaceIs(text[1..], from, to);
    }
  }

  lemma {:induction false} StripDotsIs(text: string) returns (dots: string)
    ensures text == dots + StripDots(text) && AllDots(dots) && !("./" <= StripDots(text))
    decreases |text|
  {
    if "./" <= text {
      var rest := StripDotsIs(text[2..]);
      dots := "./" + rest;
      assert text == "./" + text[2..];
      assert forall i | 2 <= i < |dots| :: dots[i] == rest[i - 2];
    } else {
      dots := "";
    }
  }

  lemma {:induction false} LStripAt(text: string, c: char) returns (i: nat)
    ensures i <= |text| && LStrip(text, c) == text[i..] && (forall k | 0 <= k < i :: text[k] == c)
    ensures i < |text| ==> text[i] != c
  {
    if text == "" || text[0] != c {
      i := 0;
    } else {
      var rest := LStripAt(text[1..], c);
      i := rest + 1;
      assert forall k | 0 < k < i :: text[k] == text[1..][k - 1];
    }
  }

  lemma {:induction false} RStripAt(text: string, c: char) returns (j: nat)
    ensures j <= |text| && RStrip(text, c) == text[..j] && (forall k | j <= k < |text| :: text[k] == c)
    ensures j > 0 ==> text[j - 1] != c
  {
    if text == "" || text[|text| - 1] != c {
      j := |text|;
    } else {
      j := RStripAt(text[..|text| - 1], c);
      assert forall k | j <= k < |text| - 1 :: text[k] == text[..|text| - 1][k];
    }
  }

  lemma SlashesTrimmed(text: string) returns (front: string, back: string)
    ensures var r := RStrip(LStrip(text, '/'), '/');
      && text == front + r + back && AllSlashes(front) && AllSlashes(back)
      && (r != "" ==> r[0] != '/' && r[|r| - 1] != '/')
  {
    hide LStrip, RStrip;
    var i := LStripAt(text, '/');
    var inner := text[i..];
    var j := RStripAt(inner, '/');
    front, back := text[..i], inner[j..];
    assert inner == inner[..j] + back;
  }

  /** Backslashes become slashes; leading "./" and slashes and trailing slashes go, and nothing else. */
  lemma NormalizeIs(path: string, text: string)
    requires IsPosix(path, text)
    ensures IsNormalised(text, NormalizeRelPath(path))
  {
    hide LStrip, RStrip, StripDots, Replace, AllDots, AllSlashes;
    ReplaceIs(path, '\\', '/');
    assert text == Replace(path, '\\', '/');
    var dots := StripDotsIs(text);
    var front, back := SlashesTrimmed(StripDots(text));
    assert NormalParts(text, dots, front, NormalizeRelPath(path), back);
  }

  // ---- what a glob covers --------------------------------------------------

  function RawPrefix(glob: string): string
  {
    RStrip(glob, '*')
  }

  predicate RawMatches(path: string, glob: string)
  {
    RawPrefix(glob) <= path
  }

  /** None for a bare file declaration. */
  function GlobPrefix(glob: string): Option<string>
  {
    if '*' !in glob then None else Some(RStrip(RStrip(glob, '*'), '/'))
  }

  predicate Covers(prefix: string, path: string)
  {
    path == prefix || prefix + "/" <= path
  }

  predicate GlobMatches(path: string, glob: string)
  {
    var normal := NormalizeRelPath(path);
    match GlobPrefix(glob)
    case None => normal == NormalizeRelPath(glob)
    case Some(prefix) => prefix == "" || Covers(prefix, normal)
  }

  function Specificity(glob: string): nat
  {
    match GlobPrefix(glob)
    case None => |glob|
    case Some(prefix) => |prefix|
  }

  // ---- longest declaration, first on a tie ---------------------------------

  datatype Declaration = Declaration(name: string, glob: string)

  function DeclarationsOf(c: Component): (ds: seq<Declaration>)
    ensures |ds| == |c.globs|
  {
    seq(|c.globs|, i requires 0 <= i < |c.globs| => Declaration(c.name, c.globs[i]))
  }

  function Declarations(components: ComponentMap): seq<Declaration>
  {
    if components == [] then []
    else Declarations(components[..|components| - 1]) + DeclarationsOf(components[|components| - 1])
  }

  /** A match's length, or -1. */
  function RawScore(path: string, glob: string): int
  {
    if RawMatches(path, glob) then |RawPrefix(glob)| else -1
  }

  function BoundaryScore(path: string, glob: string): int
  {
    if GlobMatches(path, glob) then Specificity(glob) else -1
  }

  datatype Best = Best(name: Option<string>, score: int)

  /** The loop both resolvers run: replace the best only by something strictly longer. */
  function BestOf(score: (string, string) -> int, path: string, ds: seq<Declaration>): Best
  {
    if ds == [] then Best(None, -1)
    else
      var last := ds[|ds| - 1];
      var best := BestOf(score, path, ds[..|ds| - 1]);
      if score(path, last.glob) > best.score then Best(Some(last.name), score(path, last.glob)) else best
  }

  /** bollard's `component_of`. */
  method ComponentOfRaw(path: string, components: ComponentMap) returns (best: Option<string>)
    ensures best == BestOf(RawScore, path, Declarations(components)).name
  {
    hide BestOf, Declarations, DeclarationsOf, RawPrefix;
    var bestLen: int := -1;
    best := None;
    DeclarationsOneMore(components, 0);
    BestOfNone(RawScore, path);
    for i := 0 to |components|
      invariant -1 <= bestLen && Best(best, bestLen) == BestOf(RawScore, path, Declarations(components[..i]))
    {
      var c := components[i];
      DeclarationsOneMore(components, i);
      ghost var before, own := Declarations(components[..i]), DeclarationsOf(c);
      assert before + own[..0] == before;
      for j := 0 to |c.globs|
        invariant -1 <= bestLen && Best(best, bestLen) == BestOf(RawScore, path, before + own[..j])
      {
        DeclarationAt(c, j);
        BestOfOneMore(RawScore, path, before + own[..j], own[j]);
        assert before + own[..j] + [own[j]] == before + own[..j + 1];
        var prefix := RawPrefix(c.globs[j]);
        if prefix <= path && |prefix| > bestLen {
          best, bestLen := Some(c.name), |prefix|;
        }
      }
      assert own[..|c.globs|] == own;
    }
    assert components[..|components|] == components;
  }

  /** atlas's `component_of`. */
  method ComponentOfBoundary(path: string, components: ComponentMap) returns (best: Option<string>)
    ensures best == BestOf(BoundaryScore, path, Declarations(components)).name
  {
    hide BestOf, Declarations, DeclarationsOf, GlobMatches, Specificity;
    var bestSpecificity: int := -1;
    best := None;
    DeclarationsOneMore(components, 0);
    BestOfNone(BoundaryScore, path);
    for i := 0 to |components|
      invariant -1 <= bestSpecificity && Best(best, bestSpecificity) == BestOf(BoundaryScore, path, Declarations(components[..i]))
    {
      var c := components[i];
      DeclarationsOneMore(components, i);
      ghost var before, own := Declarations(components[..i]), DeclarationsOf(c);
      assert before + own[..0] == before;
      for j := 0 to |c.globs|
        invariant -1 <= bestSpecificity && Best(best, bestSpecificity) == BestOf(BoundaryScore, path, before + own[..j])
      {
        DeclarationAt(c, j);
        BestOfOneMore(BoundaryScore, path, before + own[..j], own[j]);
        assert before + own[..j] + [own[j]] == before + own[..j + 1];
        if GlobMatches(path, c.globs[j]) {
          var specificity := Specificity(c.globs[j]);
          if specificity > bestSpecificity {
            best, bestSpecificity := Some(c.name), specificity;
          }
        }
      }
      assert own[..|c.globs|] == own;
    }
    assert components[..|components|] == components;
  }

  lemma DeclarationsOneMore(components: ComponentMap, i: nat)
    requires i <= |components|
    ensures components[..0] == [] && Declarations([]) == []
    ensures i < |components| ==>
              Declarations(components[..i + 1]) == Declarations(components[..i]) + DeclarationsOf(components[i])
  {
    if i < |components| {
      assert components[..i + 1][..i] == components[..i];
    }
  }

  lemma DeclarationAt(c: Component, j: nat)
    requires j < |c.globs|
    ensures DeclarationsOf(c)[j] == Declaration(c.name, c.globs[j])
  {
  }

  lemma BestOfNone(score: (string, string) -> int, path: string)
    ensures BestOf(score, path, []) == Best(None, -1)
  {
  }

  lemma BestOfOneMore(score: (string, string) -> int, path: string, ds: seq<Declaration>, d: Declaration)
    ensures BestOf(score, path, ds + [d]) ==
            var best := BestOf(score, path, ds);
            if score(path, d.glob) > best.score then Best(Some(d.name), score(path, d.glob)) else best
  {
  }

  /** The winner is the first declaration with the greatest score, if any matches at all. */
  ghost predicate Wins(score: (string, string) -> int, path: string, ds: seq<Declaration>, i: int)
  {
    && 0 <= i < |ds| && score(path, ds[i].glob) >= 0
    && (forall j | 0 <= j < |ds| :: score(path, ds[j].glob) <= score(path, ds[i].glob))
    && (forall j | 0 <= j < i :: score(path, ds[j].glob) < score(path, ds[i].glob))
  }

  lemma {:induction false} BestOfIsFirstLongest(score: (string, string) -> int, path: string, ds: seq<Declaration>)
    requires forall i | 0 <= i < |ds| :: score(path, ds[i].glob) >= -1
    ensures var best := BestOf(score, path, ds);
      match best.name
      case None => best.score == -1 && forall i | 0 <= i < |ds| :: score(path, ds[i].glob) == -1
      case Some(name) => exists i :: Wins(score, path, ds, i) && ds[i].name == name && best.score == score(path, ds[i].glob)
  {
    if ds != [] {
      var last := |ds| - 1;
      BestOfIsFirstLongest(score, path, ds[..last]);
      var before := BestOf(score, path, ds[..last]);
      if before.name == None {
        if score(path, ds[last].glob) > -1 {
          assert forall i | 0 <= i < last :: ds[i] == ds[..last][i];
          assert Wins(score, path, ds, last);
        }
      } else {
        var i :| Wins(score, path, ds[..last], i) && ds[..last][i].name == before.name.value
                 && before.score == score(path, ds[..last][i].glob);
        WinnerOrLast(score, path, ds, i);
      }
    }
  }

  lemma WinnerOrLast(score: (string, string) -> int, path: string, ds: seq<Declaration>, i: int)
    requires ds != [] && Wins(score, path, ds[..|ds| - 1], i)
    ensures Wins(score, path, ds, if score(path, ds[|ds| - 1].glob) > score(path, ds[i].glob) then |ds| - 1 else i)
  {
  }

  // ---- agreement -----------------------------------------------------------

  predicate Stars(text: string)
  {
    text != [] && forall i | 0 <= i < |text| :: text[i] == '*'
  }

  /** `dir/` and stars, `dir` not empty and not itself ending in a slash. */
  ghost predicate IsDirGlob(glob: string, dir: string)
  {
    && dir != [] && dir[|dir| - 1] != '/'
    && exists stars :: Stars(stars) && glob == dir + "/" + stars
  }

  /** The three shapes a declaration has: a directory, everything, or one file. */
  ghost predicate WellShaped(glob: string)
  {
    || (exists dir :: IsDirGlob(glob, dir))
    || Stars(glob)
    || ('*' !in glob && NormalizeRelPath(glob) == glob)
  }

  /** The path is a declared directory itself, or a file declaration stops short of it. */
  ghost predicate FallsBetween(path: string, glob: string)
  {
    || IsDirGlob(glob, path)
    || ('*' !in glob && glob <= path && glob != path)
  }

  lemma {:induction false} RStripStars(head: string, stars: string, c: char)
    requires head == [] || head[|head| - 1] != c
    requires forall i | 0 <= i < |stars| :: stars[i] == c
    ensures RStrip(head + stars, c) == head
  {
    var text := head + stars;
    if stars == [] {
      assert text == head;
    } else {
      RStripStars(head, stars[..|stars| - 1], c);
      assert text[..|text| - 1] == head + stars[..|stars| - 1];
    }
  }

  lemma DirGlobPrefixes(glob: string, dir: string)
    requires IsDirGlob(glob, dir)
    ensures RawPrefix(glob) == dir + "/" && GlobPrefix(glob) == Some(dir)
  {
    var stars :| Stars(stars) && glob == dir + "/" + stars;
    RStripStars(dir + "/", stars, '*');
    RStripStars(dir, "/", '/');
    assert glob[|glob| - 1] == '*';
  }

  lemma StarPrefixes(glob: string)
    requires Stars(glob)
    ensures RawPrefix(glob) == "" && GlobPrefix(glob) == Some("")
  {
  }

  lemma BarePrefixes(glob: string)
    requires '*' !in glob
    ensures RawPrefix(glob) == glob && GlobPrefix(glob) == None
  {
  }

  /** For one well-shaped declaration the two tests differ exactly on the paths that fall between. */
  lemma MatchesDifferIffBetween(path: string, glob: string)
    requires NormalizeRelPath(path) == path && WellShaped(glob)
    ensures RawMatches(path, glob) != GlobMatches(path, glob) <==> FallsBetween(path, glob)
  {
    hide NormalizeRelPath, RStrip;
    if dir :| IsDirGlob(glob, dir) {
      DirGlobPrefixes(glob, dir);
      forall other | IsDirGlob(glob, other) ensures other == dir { DirGlobPrefixes(glob, other); }
      assert '*' in glob;
    } else if Stars(glob) {
      StarPrefixes(glob);
      forall other | IsDirGlob(glob, other) ensures false { DirGlobPrefixes(glob, other); }
      assert glob[0] == '*';
    } else {
      BarePrefixes(glob);
      forall other | IsDirGlob(glob, other) ensures false { DirGlobPrefixes(glob, other); }
    }
  }

  /** The raw length of a match, from its boundary length: one more for a directory's slash. */
  lemma ScoresOfMatch(path: string, glob: string)
    requires NormalizeRelPath(path) == path && WellShaped(glob) && !FallsBetween(path, glob)
    ensures RawScore(path, glob) < 0 <==> BoundaryScore(path, glob) < 0
    ensures var raw, boundary := RawScore(path, glob), BoundaryScore(path, glob);
      raw >= 0 ==>
        || (raw == boundary == |path|)
        || (raw == boundary == 0)
        || (raw == boundary + 1 && 0 < boundary && raw < |path|)
  {
    hide NormalizeRelPath, RStrip;
    MatchesDifferIffBetween(path, glob);
    if dir :| IsDirGlob(glob, dir) {
      DirGlobPrefixes(glob, dir);
      NormalEndsWithoutSlash(path);
      if dir + "/" <= path {
        assert path[|dir|] == (dir + "/")[|dir|] == '/';
      }
    } else if Stars(glob) {
      StarPrefixes(glob);
    } else {
      BarePrefixes(glob);
    }
  }

  lemma NormalEndsWithoutSlash(path: string)
    requires NormalizeRelPath(path) == path
    ensures path != [] ==> path[|path| - 1] != '/'
  {
    hide NormalizeRelPath, RStrip, LStrip, StripDots, Replace;
    var normal := NormalizeRelPath(path);
  }

  ghost predicate SameOrder(path: string, ds: seq<Declaration>)
  {
    && (forall d | d in ds :: RawScore(path, d.glob) < 0 <==> BoundaryScore(path, d.glob) < 0)
    && (forall d, e | d in ds && e in ds && RawScore(path, d.glob) >= 0 && RawScore(path, e.glob) >= 0 ::
          RawScore(path, d.glob) < RawScore(path, e.glob) <==> BoundaryScore(path, d.glob) < BoundaryScore(path, e.glob))
  }

  lemma {:induction false} SameOrderSameBest(path: string, ds: seq<Declaration>)
    requires SameOrder(path, ds)
    ensures var raw, boundary := BestOf(RawScore, path, ds), BestOf(BoundaryScore, path, ds);
      && raw.name == boundary.name
      && (raw.name == None ==> raw.score == boundary.score == -1)
      && (raw.name.Some? ==>
            exists d :: d in ds && raw.score == RawScore(path, d.glob) >= 0 && boundary.score == BoundaryScore(path, d.glob))
  {
    hide RawMatches, GlobMatches, Specificity, RawPrefix;
    if ds != [] {
      var last := ds[|ds| - 1];
      assert ds == ds[..|ds| - 1] + [last];
      SameOrderSameBest(path, ds[..|ds| - 1]);
      var raw := BestOf(RawScore, path, ds[..|ds| - 1]);
      assert last in ds;
      if raw.name.Some? {
        var d :| d in ds[..|ds| - 1] && raw.score == RawScore(path, d.glob) >= 0
                 && BestOf(BoundaryScore, path, ds[..|ds| - 1]).score == BoundaryScore(path, d.glob);
        assert d in ds;
      }
    }
  }

  /**
   The two resolvers name the same component, ties included, on every normalised path and
   every map of well-shaped declarations between none of which the path falls.
   */
  lemma ResolversAgree(path: string, components: ComponentMap)
    requires NormalizeRelPath(path) == path
    requires forall d | d in Declarations(components) :: WellShaped(d.glob) && !FallsBetween(path, d.glob)
    ensures BestOf(RawScore, path, Declarations(components)).name ==
            BestOf(BoundaryScore, path, Declarations(components)).name
  {
    hide RawScore, BoundaryScore, WellShaped, FallsBetween;
    var ds := Declarations(components);
    forall d | d in ds
      ensures RawScore(path, d.glob) < 0 <==> BoundaryScore(path, d.glob) < 0
    {
      ScoresOfMatch(path, d.glob);
    }
    forall d, e | d in ds && e in ds && RawScore(path, d.glob) >= 0 && RawScore(path, e.glob) >= 0
      ensures RawScore(path, d.glob) < RawScore(path, e.glob) <==>
              BoundaryScore(path, d.glob) < BoundaryScore(path, e.glob)
    {
      ScoresOfMatch(path, d.glob);
      ScoresOfMatch(path, e.glob);
    }
    SameOrderSameBest(path, ds);
  }

  /** One declaration the path falls between is enough to part them. */
  lemma BetweenPartsThem(path: string, c: Component)
    requires NormalizeRelPath(path) == path && |c.globs| == 1 && WellShaped(c.globs[0])
    ensures (BestOf(RawScore, path, Declarations([c])).name == BestOf(BoundaryScore, path, Declarations([c])).name)
            <==> !FallsBetween(path, c.globs[0])
  {
    hide RawMatches, GlobMatches, WellShaped, FallsBetween;
    MatchesDifferIffBetween(path, c.globs[0]);
    assert [c][..0] == [] && Declarations([]) == [];
    assert Declarations([c]) == [Declaration(c.name, c.globs[0])];
    BestOfOneMore(RawScore, path, [], Declaration(c.name, c.globs[0]));
    BestOfOneMore(BoundaryScore, path, [], Declaration(c.name, c.globs[0]));
  }

  // ---- strings and path components -----------------------------------------

  /** The parts of a directory prefix; the whole project is no parts. */
  function Parts(prefix: string): seq<string>
  {
    if prefix == "" then [] else Split(prefix, '/')
  }

  lemma {:induction false} JoinConcat(a: seq<string>, b: seq<string>)
    requires a != [] && b != []
    ensures Join(a + b, '/') == Join(a, '/') + "/" + Join(b, '/')
  {
    assert (a + b)[1..] == a[1..] + b;
    if |a| > 1 {
      JoinConcat(a[1..], b);
    }
  }

  /** Matching a wildcard glob on the string is matching a prefix of the list of path components. */
  lemma GlobMatchesIsComponentPrefix(path: string, glob: string)
    requires '*' in glob
    ensures GlobMatches(path, glob) <==>
            Parts(GlobPrefix(glob).value) <= Split(NormalizeRelPath(path), '/')
  {
    hide NormalizeRelPath, RStrip, Split, Join;
    var normal, prefix := NormalizeRelPath(path), GlobPrefix(glob).value;
    if prefix != "" {
      CoversIsComponentPrefix(prefix, normal);
    }
  }

  lemma CoversIsComponentPrefix(prefix: string, path: string)
    ensures Covers(prefix, path) <==> Split(prefix, '/') <= Split(path, '/')
  {
    hide Split, Join;
    var a, s := Split(prefix, '/'), Split(path, '/');
    if prefix + "/" <= path {
      var rest := path[|prefix| + 1..];
      assert path == prefix + ['/'] + rest;
      SplitAcross(prefix, rest, '/');
    }
    if a <= s {
      JoinSplit(prefix, '/');
      JoinSplit(path, '/');
      var b := s[|a|..];
      assert s == a + b;
      if b != [] {
        JoinConcat(a, b);
      } else {
        assert s == a;
      }
    }
  }
}
