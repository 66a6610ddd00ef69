/**
 bollard/component_coupling.py: which criteria file a component is judged
 against (`component_root`, `shared_component_roots`, `goals_json_path`).
 A path's text is handled as pathlib does, by its parts with "" and "." dropped;
 the file it opens is found as the system does, ".." going up one directory, and
 names apart only in a disk's case folding being one. The directories on the way
 are taken to exist and to be no symbolic links.
 */
module GoalsPath {
  import opened Wrappers
  import opened Sequences
  import opened ComponentBlocks
  import opened ComponentResolvers

  // ---- pathlib -------------------------------------------------------------

  function Kept(parts: seq<string>): seq<string>
  {
    if parts == [] then []
    else Kept(parts[..|parts| - 1]) + if parts[|parts| - 1] in {"", "."} then [] else [parts[|parts| - 1]]
  }

  function PathParts(path: string): seq<string>
  {
    Kept(Split(path, '/'))
  }

  /** Of each part between slashes only the empty ones and the dots are dropped, and order is kept. */
  lemma {:induction false} KeptDistributes(a: seq<string>, b: seq<string>)
    ensures Kept(a + b) == Kept(a) + Kept(b)
  {
    if b == [] {
      assert a + b == a;
    } else {
      KeptDistributes(a, b[..|b| - 1]);
      assert (a + b)[..|a + b| - 1] == a + b[..|b| - 1];
    }
  }

  lemma KeptOfOne(part: string)
    ensures Kept([part]) == if part == "" || part == "." then [] else [part]
  {
    assert [part][..0] == [];
  }

  /** Exactly two leading slashes are kept apart from one. */
  function Anchor(path: string): string
  {
    if "//" <= path && !("///" <= path) then "//" else if "/" <= path then "/" else ""
  }

  /** The anchor by the leading slashes: none, two of exactly two, one of any other number. */
  lemma AnchorIs(path: string)
    ensures Anchor(path) == "" <==> path == "" || path[0] != '/'
    ensures Anchor(path) == "//" <==>
            |path| >= 2 && path[0] == '/' && path[1] == '/' && (|path| == 2 || path[2] != '/')
    ensures Anchor(path) in {"", "/", "//"}
  {
    assert "//" <= path <==> |path| >= 2 && path[0] == '/' && path[1] == '/';
    assert "///" <= path <==> |path| >= 3 && path[0] == '/' && path[1] == '/' && path[2] == '/';
  }

  /** str(Path(path).parent) */
  function ParentText(path: string): string
  {
    var parts, anchor := PathParts(path), Anchor(path);
    var above := if parts == [] then [] else parts[..|parts| - 1];
    if anchor == "" && above == [] then "." else anchor + Join(above, '/')
  }

  /** The directory a path leads to from the top; above the top there is only the top. */
  function Resolved(parts: seq<string>): seq<string>
  {
    if parts == [] then []
    else
      var before, last := Resolved(parts[..|parts| - 1]), parts[|parts| - 1];
      if last != ".." then before + [last]
      else if before == [] then [] else before[..|before| - 1]
  }

  /** The directory that Path(project) / root opens; an absolute root replaces the project. */
  function Location(project: seq<string>, root: string): seq<string>
  {
    Resolved((if Anchor(root) == "" then project else []) + PathParts(root))
  }

  /** A root with a leading slash leaves the project behind; any other is opened under it. */
  lemma LocationIs(project: seq<string>, root: string)
    ensures root != "" && root[0] == '/' ==> Location(project, root) == Resolved(PathParts(root))
    ensures root == "" || root[0] != '/' ==> Location(project, root) == Resolved(project + PathParts(root))
  {
    AnchorIs(root);
    assert [] + PathParts(root) == PathParts(root);
  }

  // ---- roots ---------------------------------------------------------------

  /** The directory of a component's first glob. */
  function RootOf(globs: seq<string>): Option<string>
  {
    if globs == [] then None
    else
      var prefix := RawPrefix(globs[0]);
      if prefix != "" && prefix[|prefix| - 1] == '/' then Some(prefix)
      else
        var parent := ParentText(prefix);
        Some(if parent == "." then "" else parent + "/")
  }

  function MembersOf(components: ComponentMap, root: string): set<string>
  {
    set i | 0 <= i < |components| && RootOf(components[i].globs) == Some(root) :: components[i].name
  }

  predicate IsShared(components: ComponentMap, root: string)
  {
    exists i, j :: 0 <= i < j < |components|
      && RootOf(components[i].globs) == Some(root) && RootOf(components[j].globs) == Some(root)
  }

  /** Roots that two or more components resolve to. */
  method SharedComponentRoots(components: ComponentMap) returns (shared: map<string, set<string>>)
    requires DistinctNames(components)
    ensures forall root :: root in shared <==> IsShared(components, root)
    ensures forall root :: root in shared ==> shared[root] == MembersOf(components, root)
  {
    hide RootOf, MembersOf, IsShared;
    var roots: map<string, set<string>> := map[];
    forall root {
      NoMembers(components, root);
    }
    for k := 0 to |components|
      invariant forall root :: root in roots <==> MembersOf(components[..k], root) != {}
      invariant forall root :: root in roots ==> roots[root] == MembersOf(components[..k], root)
    {
      var c := components[k];
      forall root {
        MembersOneMore(components, k, root);
      }
      var root := RootOf(c.globs);
      if root.Some? {
        roots := roots[root.value := (if root.value in roots then roots[root.value] else {}) + {c.name}];
      }
    }
    assert components[..|components|] == components;
    shared := map root | root in roots && |roots[root]| > 1 :: roots[root];
    forall root {
      SharedIffTwoMembers(components, root);
    }
  }

  lemma NoMembers(components: ComponentMap, root: string)
    ensures MembersOf(components[..0], root) == {}
  {
  }

  lemma MembersOneMore(components: ComponentMap, k: nat, root: string)
    requires k < |components|
    ensures MembersOf(components[..k + 1], root) ==
            MembersOf(components[..k], root) +
            if RootOf(components[k].globs) == Some(root) then {components[k].name} else {}
  {
    hide RootOf;
    var before, after := components[..k], components[..k + 1];
    forall name | name in MembersOf(after, root)
      ensures name in MembersOf(before, root) || (RootOf(components[k].globs) == Some(root) && name == components[k].name)
    {
      var i :| 0 <= i < |after| && RootOf(after[i].globs) == Some(root) && after[i].name == name;
      if i < k {
        assert before[i] == after[i];
      }
    }
    forall name | name in MembersOf(before, root)
      ensures name in MembersOf(after, root)
    {
      var i :| 0 <= i < |before| && RootOf(before[i].globs) == Some(root) && before[i].name == name;
      assert after[i] == before[i];
    }
    if RootOf(components[k].globs) == Some(root) {
      assert after[k] == components[k];
    }
  }

  lemma SharedIffTwoMembers(components: ComponentMap, root: string)
    requires DistinctNames(components)
    ensures IsShared(components, root) <==> |MembersOf(components, root)| > 1
  {
    hide RootOf;
    var members := MembersOf(components, root);
    if i, j :| 0 <= i < j < |components| && RootOf(components[i].globs) == Some(root) && RootOf(components[j].globs) == Some(root) {
      var pair := {components[i].name, components[j].name};
      assert pair <= members;
      SubsetIsNoLarger(pair, members);
    }
    if |members| > 1 {
      var a :| a in members;
      assert members == (members - {a}) + {a};
      var b :| b in members - {a};
      var i :| 0 <= i < |components| && RootOf(components[i].globs) == Some(root) && components[i].name == a;
      var j :| 0 <= j < |components| && RootOf(components[j].globs) == Some(root) && components[j].name == b;
      assert i != j;
    }
  }

  lemma SubsetIsNoLarger(small: set<string>, large: set<string>)
    requires small <= large
    ensures |small| <= |large|
  {
    assert large == small + (large - small);
  }

  /** A criteria file: the directory's parts, and the file name. */
  datatype File = File(directory: seq<string>, name: string)

  function GoalsFile(project: seq<string>, components: ComponentMap, i: nat): File
    requires i < |components| && RootOf(components[i].globs).Some?
  {
    var root := RootOf(components[i].globs).value;
    File(Location(project, root), if IsShared(components, root) then components[i].name + ".GOALS.json" else "GOALS.json")
  }

  method GoalsJsonPath(project: seq<string>, components: ComponentMap, i: nat) returns (file: File)
    requires DistinctNames(components)
    requires i < |components| && RootOf(components[i].globs).Some?
    ensures file == GoalsFile(project, components, i)
  {
    hide RootOf, Location;
    var shared := SharedComponentRoots(components);
    var root := RootOf(components[i].globs).value;
    if root in shared && components[i].name in shared[root] {
      return File(Location(project, root), components[i].name + ".GOALS.json");
    }
    file := File(Location(project, root), "GOALS.json");
  }

  /** A directory declaration's root is that directory, as it is spelled. */
  lemma RootOfADirectory(globs: seq<string>, dir: string)
    requires globs != [] && IsDirGlob(globs[0], dir)
    ensures RootOf(globs) == Some(dir + "/")
  {
    hide ParentText;
    DirGlobPrefixes(globs[0], dir);
  }

  /** A file declaration's root is the directory it stands in, the project itself being the empty root. */
  lemma RootOfAFile(globs: seq<string>, parts: seq<string>)
    requires globs != [] && parts != [] && '*' !in globs[0] && globs[0] == Join(parts, '/')
    requires forall part | part in parts :: part != "" && part != "." && '/' !in part
    ensures RootOf(globs) == Some(if |parts| == 1 then "" else Join(parts[..|parts| - 1], '/') + "/")
  {
    hide Split, Join, Kept, RawPrefix, Anchor;
    var file := globs[0];
    BarePrefixes(file);
    PartsOfAFile(file, parts);
    var above := parts[..|parts| - 1];
    if above != [] {
      assert forall part | part in above :: part in parts;
      JoinIsNotDot(above);
      assert "" + Join(above, '/') == Join(above, '/');
    }
  }

  lemma PartsOfAFile(file: string, parts: seq<string>)
    requires parts != [] && file == Join(parts, '/')
    requires forall part | part in parts :: part != "" && part != "." && '/' !in part
    ensures PathParts(file) == parts && Anchor(file) == ""
    ensures file != "" ==> file[|file| - 1] != '/'
  {
    hide Split, Join, Kept;
    SplitJoin(parts);
    assert forall i | 0 <= i < |parts| :: parts[i] in parts;
    KeptAll(parts);
    LastCharIsLastParts(file);
    if "/" <= file {
      LeadingSlash(file);
    }
  }

  /** A path that ends in a slash has an empty last part. */
  lemma LastCharIsLastParts(path: string)
    ensures path != "" && path[|path| - 1] == '/' ==> Split(path, '/')[|Split(path, '/')| - 1] == ""
  {
  }

  // ---- when two components share a criteria file ---------------------------

  /** How a disk reads a letter: the identity where case counts, one letter for both cases where it does not. */
  type Fold = char -> char

  predicate SameName(fold: Fold, a: string, b: string)
  {
    |a| == |b| && forall i | 0 <= i < |a| :: fold(a[i]) == fold(b[i])
  }

  predicate SameDirectory(fold: Fold, a: seq<string>, b: seq<string>)
  {
    |a| == |b| && forall i | 0 <= i < |a| :: SameName(fold, a[i], b[i])
  }

  /** The two paths open one file on this disk. */
  predicate SameFile(fold: Fold, f: File, g: File)
  {
    SameDirectory(fold, f.directory, g.directory) && SameName(fold, f.name, g.name)
  }

  lemma SameNameWithSuffix(fold: Fold, m: string, n: string, suffix: string)
    ensures SameName(fold, m + suffix, n + suffix) <==> SameName(fold, m, n)
  {
    var a, b := m + suffix, n + suffix;
    if SameName(fold, a, b) {
      assert forall i | 0 <= i < |m| :: a[i] == m[i] && b[i] == n[i];
    }
  }

  lemma SameIsEqual(fold: Fold, a: seq<string>, b: seq<string>)
    requires forall c, d :: fold(c) == fold(d) ==> c == d
    ensures SameDirectory(fold, a, b) <==> a == b
    ensures forall x, y :: SameName(fold, x, y) <==> x == y
  {
    forall x, y ensures SameName(fold, x, y) <==> x == y {
    }
    if SameDirectory(fold, a, b) {
      assert forall i | 0 <= i < |a| :: SameName(fold, a[i], b[i]);
    }
  }

  /**
   Two components are judged against one file exactly when their roots lead to one directory
   and either are spelled differently and shared with no one as spelled, or are both shared and
   the components' names are one on this disk.
   */
  lemma CollideIffSpelledApart(fold: Fold, project: seq<string>, components: ComponentMap, i: nat, j: nat)
    requires DistinctNames(components) && i < j < |components|
    requires components[i].name != "" && components[j].name != ""
    requires RootOf(components[i].globs).Some? && RootOf(components[j].globs).Some?
    ensures var a, b := RootOf(components[i].globs).value, RootOf(components[j].globs).value;
      SameFile(fold, GoalsFile(project, components, i), GoalsFile(project, components, j)) <==>
        && SameDirectory(fold, Location(project, a), Location(project, b))
        && (|| (a != b && !IsShared(components, a) && !IsShared(components, b))
            || (IsShared(components, a) && IsShared(components, b)
                && SameName(fold, components[i].name, components[j].name)))
  {
    hide RootOf, Location, SameDirectory, SameName;
    var m, n := components[i].name, components[j].name;
    SameNameWithSuffix(fold, m, n, ".GOALS.json");
    KeyedIsLonger(fold, m);
    KeyedIsLonger(fold, n);
  }

  lemma KeyedIsLonger(fold: Fold, m: string)
    requires m != ""
    ensures !SameName(fold, m + ".GOALS.json", "GOALS.json") && !SameName(fold, "GOALS.json", m + ".GOALS.json")
    ensures SameName(fold, "GOALS.json", "GOALS.json")
  {
  }

  /** A root with no empty, "." or ".." part, ending in its slash; the project itself is the empty root. */
  predicate Canonical(root: string)
  {
    var parts := Split(root, '/');
    parts[|parts| - 1] == "" && forall i | 0 <= i < |parts| - 1 :: parts[i] !in {"", ".", ".."}
  }

  /** The first glob is relative and goes nowhere up, and if it names a directory it does so without empty or dot parts. */
  predicate NormalGlob(glob: string)
  {
    var prefix := RawPrefix(glob);
    && Anchor(prefix) == "" && ".." !in PathParts(prefix)
    && (prefix != "" && prefix[|prefix| - 1] == '/' ==> Canonical(prefix))
  }

  lemma {:induction false} KeptAll(parts: seq<string>)
    requires forall i | 0 <= i < |parts| :: parts[i] != "" && parts[i] != "."
    ensures Kept(parts) == parts
  {
    if parts != [] {
      KeptAll(parts[..|parts| - 1]);
    }
  }

  lemma {:induction false} KeptAreParts(parts: seq<string>)
    ensures forall part | part in Kept(parts) :: part in parts && part != "" && part != "."
  {
    if parts != [] {
      KeptAreParts(parts[..|parts| - 1]);
      assert parts == parts[..|parts| - 1] + [parts[|parts| - 1]];
    }
  }

  lemma CanonicalIsItsParts(root: string)
    requires Canonical(root)
    ensures Anchor(root) == "" && root == Join(PathParts(root) + [""], '/') && ".." !in PathParts(root)
  {
    hide Split, Join, Kept;
    var parts := Split(root, '/');
    var last := |parts| - 1;
    JoinSplit(root, '/');
    KeptAll(parts[..last]);
    KeptUnfold(parts);
    assert parts[last] == "" && parts == parts[..last] + [""];
    assert Kept(parts) == parts[..last] + [] == parts[..last];
    if "/" <= root {
      LeadingSlash(root);
    }
  }

  lemma LeadingSlash(root: string)
    requires "/" <= root
    ensures |Split(root, '/')| > 1 && Split(root, '/')[0] == ""
  {
  }

  lemma KeptUnfold(parts: seq<string>)
    requires parts != []
    ensures var last := parts[|parts| - 1];
      Kept(parts) == Kept(parts[..|parts| - 1]) + if last in {"", "."} then [] else [last]
  {
  }

  lemma {:induction false} SplitJoin(parts: seq<string>)
    requires parts != [] && forall part | part in parts :: '/' !in part
    ensures Split(Join(parts, '/'), '/') == parts
  {
    hide Split;
    if |parts| == 1 {
      SplitWhole(parts[0], '/');
      assert parts == [parts[0]];
    } else {
      SplitJoin(parts[1..]);
      SplitFirst(parts[0], Join(parts[1..], '/'), '/');
      assert parts == [parts[0]] + parts[1..];
    }
  }

  lemma RootIsCanonical(globs: seq<string>)
    requires globs != [] && NormalGlob(globs[0])
    ensures Canonical(RootOf(globs).value)
  {
    hide Split, Join, Kept, RawPrefix;
    var prefix := RawPrefix(globs[0]);
    SplitWhole("", '/');
    if prefix == "" || prefix[|prefix| - 1] != '/' {
      var parts := PathParts(prefix);
      KeptAreParts(Split(prefix, '/'));
      SplitHasNoSeparator(prefix, '/');
      if |parts| > 1 {
        var above := parts[..|parts| - 1];
        assert forall part | part in above :: part in parts;
        SplitJoin(above);
        SplitAcross(Join(above, '/'), "", '/');
        assert Join(above, '/') + ['/'] + "" == Join(above, '/') + "/";
        assert Split(Join(above, '/') + "/", '/') == above + [""];
        JoinIsNotDot(above);
        assert "" + Join(above, '/') == Join(above, '/');
        assert Canonical(Join(above, '/') + "/") by {
          assert forall i | 0 <= i < |above| :: (above + [""])[i] == above[i] && above[i] in parts;
        }
      } else {
        assert parts != [] ==> parts[..|parts| - 1] == [];
      }
    }
  }

  lemma JoinIsNotDot(parts: seq<string>)
    requires parts != [] && forall part | part in parts :: part != "" && part != "." && '/' !in part
    ensures Join(parts, '/') != "."
  {
    hide Split;
    SplitJoin(parts);
    SplitWhole(".", '/');
    assert parts != ["."] by {
      assert parts[0] in parts;
    }
  }

  lemma {:induction false} ResolvedOfPlain(front: seq<string>, parts: seq<string>)
    requires ".." !in parts
    ensures Resolved(front + parts) == Resolved(front) + parts
  {
    if parts == [] {
      assert front + parts == front;
    } else {
      var last := |parts| - 1;
      assert ".." !in parts[..last] && parts[last] in parts;
      ResolvedOfPlain(front, parts[..last]);
      assert (front + parts)[..|front + parts| - 1] == front + parts[..last];
    }
  }

  /** Prefixing both directories with one project keeps them one or two. */
  lemma SameBelow(fold: Fold, front: seq<string>, a: seq<string>, b: seq<string>)
    ensures SameDirectory(fold, front + a, front + b) <==> SameDirectory(fold, a, b)
  {
    hide SameName;
    if SameDirectory(fold, front + a, front + b) {
      assert forall i | 0 <= i < |a| :: (front + a)[|front| + i] == a[i] && (front + b)[|front| + i] == b[i];
    }
    if SameDirectory(fold, a, b) {
      forall x: string ensures SameName(fold, x, x) {
        SameAsItself(fold, x);
      }
    }
  }

  lemma SameAsItself(fold: Fold, x: string)
    ensures SameName(fold, x, x)
  {
  }

  /**
   With normalised first globs two components are judged against one file exactly when their roots
   differ in letter case alone, on a disk that does not tell it, and neither spelling is shared, or
   both are and the names differ so.
   */
  lemma NormalGlobsCollideIffCaseApart(fold: Fold, project: seq<string>, components: ComponentMap, i: nat, j: nat)
    requires DistinctNames(components) && i < j < |components|
    requires components[i].name != "" && components[j].name != ""
    requires components[i].globs != [] && NormalGlob(components[i].globs[0])
    requires components[j].globs != [] && NormalGlob(components[j].globs[0])
    ensures var a, b := RootOf(components[i].globs).value, RootOf(components[j].globs).value;
      && (a == b <==> PathParts(a) == PathParts(b))
      && (SameFile(fold, GoalsFile(project, components, i), GoalsFile(project, components, j)) <==>
            && SameDirectory(fold, PathParts(a), PathParts(b))
            && (|| (a != b && !IsShared(components, a) && !IsShared(components, b))
                || (IsShared(components, a) && IsShared(components, b)
                    && SameName(fold, components[i].name, components[j].name))))
  {
    hide NormalGlob, Canonical, Kept, Split, Join, IsShared, Resolved, SameFile, SameDirectory, SameName;
    CollideIffSpelledApart(fold, project, components, i, j);
    var a, b := RootOf(components[i].globs).value, RootOf(components[j].globs).value;
    RootIsCanonical(components[i].globs);
    RootIsCanonical(components[j].globs);
    CanonicalIsItsParts(a);
    CanonicalIsItsParts(b);
    ResolvedOfPlain(project, PathParts(a));
    ResolvedOfPlain(project, PathParts(b));
    SameBelow(fold, Resolved(project), PathParts(a), PathParts(b));
  }

  /** So where letter case counts, none are. */
  lemma NormalGlobsNeverCollide(fold: Fold, project: seq<string>, components: ComponentMap, i: nat, j: nat)
    requires forall c, d :: fold(c) == fold(d) ==> c == d
    requires DistinctNames(components) && i < j < |components|
    requires components[i].name != "" && components[j].name != ""
    requires components[i].globs != [] && NormalGlob(components[i].globs[0])
    requires components[j].globs != [] && NormalGlob(components[j].globs[0])
    ensures !SameFile(fold, GoalsFile(project, components, i), GoalsFile(project, components, j))
  {
    hide NormalGlob, PathParts, IsShared, SameFile, SameDirectory, SameName;
    NormalGlobsCollideIffCaseApart(fold, project, components, i, j);
    var a, b := RootOf(components[i].globs).value, RootOf(components[j].globs).value;
    SameIsEqual(fold, PathParts(a), PathParts(b));
    assert components[i].name != components[j].name;
  }

  // ---- two spellings of one directory --------------------------------------

  predicate EndsInSlash(root: string)
  {
    root != "" && root[|root| - 1] == '/'
  }

  /** `a` spells the directory some other way first and then owns a part of it; `b` owns the rest. */
  function Respelled(a: string, b: string, root: string, dir: string): ComponentMap
  {
    [Component(a, [root + "**", dir + "a/**"]), Component(b, [dir + "**"])]
  }

  /** Both components own paths of the directory, and both are judged against its one GOALS.json. */
  ghost predicate SharesOneFile(fold: Fold, project: seq<string>, components: ComponentMap, a: string, b: string, dir: string)
    requires |components| == 2 && RootOf(components[0].globs).Some? && RootOf(components[1].globs).Some?
  {
    && BestOf(RawScore, dir + "a/x.py", Declarations(components)).name == Some(a)
    && BestOf(RawScore, dir + "x.py", Declarations(components)).name == Some(b)
    && SameFile(fold, GoalsFile(project, components, 0), GoalsFile(project, components, 1))
    && GoalsFile(project, components, 1) == File(Location(project, dir), "GOALS.json")
  }

  lemma RootsOfRespelled(a: string, b: string, root: string, dir: string)
    requires EndsInSlash(root) && EndsInSlash(dir)
    ensures RawPrefix(root + "**") == root && RawPrefix(dir + "a/**") == dir + "a/" && RawPrefix(dir + "**") == dir
    ensures RootOf(Respelled(a, b, root, dir)[0].globs) == Some(root)
    ensures RootOf(Respelled(a, b, root, dir)[1].globs) == Some(dir)
  {
    hide RStrip, ParentText;
    RStripStars(root, "**", '*');
    RStripStars(dir + "a/", "**", '*');
    RStripStars(dir, "**", '*');
    assert dir + "a/" + "**" == dir + "a/**";
  }

  lemma DeclarationsOfRespelled(a: string, b: string, root: string, dir: string)
    ensures Declarations(Respelled(a, b, root, dir)) ==
            [] + [Declaration(a, root + "**")] + [Declaration(a, dir + "a/**")] + [Declaration(b, dir + "**")]
  {
    hide Declarations, DeclarationsOf;
    var components := Respelled(a, b, root, dir);
    DeclarationsOneMore(components, 0);
    DeclarationsOneMore(components, 1);
    DeclarationAt(components[0], 0);
    DeclarationAt(components[0], 1);
    DeclarationAt(components[1], 0);
    assert components[..2] == components;
    assert DeclarationsOf(components[0]) == [Declaration(a, root + "**")] + [Declaration(a, dir + "a/**")];
    assert DeclarationsOf(components[1]) == [Declaration(b, dir + "**")];
  }

  /** No other spelling is as long a prefix of a file that stands in the directory itself. */
  lemma OtherSpellingIsShorter(root: string, dir: string)
    requires EndsInSlash(root) && EndsInSlash(dir) && root <= dir + "x.py"
    ensures |root| < |dir| || root == dir
  {
    var path := dir + "x.py";
    assert root == path[..|root|] && dir == path[..|dir|];
    assert forall k | |dir| <= k < |path| :: path[k] != '/';
  }

  lemma BestOfThree(score: (string, string) -> int, path: string, first: Declaration, second: Declaration, third: Declaration)
    ensures var x, y, z := score(path, first.glob), score(path, second.glob), score(path, third.glob);
      var ds := [] + [first] + [second] + [third];
      && (y >= 0 && y > z && first.name == second.name ==> BestOf(score, path, ds).name == Some(second.name))
      && (z >= 0 && z > x && z > y ==> BestOf(score, path, ds).name == Some(third.name))
  {
    hide BestOf;
    BestOfNone(score, path);
    BestOfOneMore(score, path, [], first);
    BestOfOneMore(score, path, [] + [first], second);
    BestOfOneMore(score, path, [] + [first] + [second], third);
  }

  lemma OwnersOfRespelled(a: string, b: string, root: string, dir: string)
    requires EndsInSlash(root) && EndsInSlash(dir) && root != dir
    ensures BestOf(RawScore, dir + "a/x.py", Declarations(Respelled(a, b, root, dir))).name == Some(a)
    ensures BestOf(RawScore, dir + "x.py", Declarations(Respelled(a, b, root, dir))).name == Some(b)
  {
    hide RawPrefix, BestOf, Declarations;
    RootsOfRespelled(a, b, root, dir);
    DeclarationsOfRespelled(a, b, root, dir);
    if root <= dir + "x.py" {
      OtherSpellingIsShorter(root, dir);
    }
    var first, second, third := Declaration(a, root + "**"), Declaration(a, dir + "a/**"), Declaration(b, dir + "**");
    assert (dir + "a/x.py")[..|dir| + 2] == dir + "a/" && (dir + "a/x.py")[..|dir|] == dir && (dir + "x.py")[..|dir|] == dir;
    assert (dir + "x.py")[|dir|] == 'x' && (dir + "a/")[|dir|] == 'a';
    BestOfThree(RawScore, dir + "a/x.py", first, second, third);
    BestOfThree(RawScore, dir + "x.py", first, second, third);
  }

  /** Any other spelling of any directory: both components own paths and share a criteria file. */
  lemma RespelledDirectoryCollides(fold: Fold, project: seq<string>, a: string, b: string, root: string, dir: string)
    requires a != "" && b != "" && a != b
    requires EndsInSlash(root) && EndsInSlash(dir) && root != dir
    requires SameDirectory(fold, Location(project, root), Location(project, dir))
    ensures RootOf(Respelled(a, b, root, dir)[0].globs).Some? && RootOf(Respelled(a, b, root, dir)[1].globs).Some?
    ensures SharesOneFile(fold, project, Respelled(a, b, root, dir), a, b, dir)
  {
    hide RootOf, Location, BestOf, Declarations, SameFile, SameDirectory;
    RootsOfRespelled(a, b, root, dir);
    OwnersOfRespelled(a, b, root, dir);
    CollideIffSpelledApart(fold, project, Respelled(a, b, root, dir), 0, 1);
  }

  /** A leading "./" on one first glob, or a way round through "..", is enough on any disk. */
  lemma DotSlashCollides(fold: Fold, project: seq<string>, a: string, b: string, root: string)
    requires a != "" && b != "" && a != b
    requires root in {"./hooks/", "bollard/../hooks/"}
    ensures RootOf(Respelled(a, b, root, "hooks/")[0].globs).Some? && RootOf(Respelled(a, b, root, "hooks/")[1].globs).Some?
    ensures SharesOneFile(fold, project, Respelled(a, b, root, "hooks/"), a, b, "hooks/")
  {
    hide Location, RootOf, SharesOneFile, SameDirectory, PathParts;
    HooksParts();
    HooksLocations(project);
    SameDirectoryAsItself(fold, Location(project, "hooks/"));
    assert root[0] != "hooks/"[0];
    RespelledDirectoryCollides(fold, project, a, b, root, "hooks/");
  }

  lemma SameDirectoryAsItself(fold: Fold, parts: seq<string>)
    ensures SameDirectory(fold, parts, parts)
  {
    forall i | 0 <= i < |parts| ensures SameName(fold, parts[i], parts[i]) {
      SameAsItself(fold, parts[i]);
    }
  }

  /** And so is a capital letter, where the disk does not tell it from a small one. */
  lemma CapitalCollides(fold: Fold, project: seq<string>, a: string, b: string)
    requires a != "" && b != "" && a != b && fold('H') == fold('h')
    ensures var components := Respelled(a, b, "Hooks/", "hooks/");
      && RootOf(components[0].globs).Some? && RootOf(components[1].globs).Some?
      && NormalGlob(components[0].globs[0]) && NormalGlob(components[1].globs[0])
      && SharesOneFile(fold, project, components, a, b, "hooks/")
  {
    hide RootOf, SharesOneFile, Resolved, NormalGlob, Location;
    HooksIsNormal(project, "Hooks");
    HooksIsNormal(project, "hooks");
    SameHooks(fold);
    SameBelow(fold, Resolved(project), ["Hooks"], ["hooks"]);
    assert "Hooks" + "/" == "Hooks/" && "hooks" + "/" == "hooks/" && "Hooks/"[0] != "hooks/"[0];
    RespelledDirectoryCollides(fold, project, a, b, "Hooks/", "hooks/");
  }

  lemma HooksIsNormal(project: seq<string>, name: string)
    requires name in {"Hooks", "hooks"}
    ensures NormalGlob(name + "/" + "**") && Location(project, name + "/") == Resolved(project) + [name]
  {
    hide PathParts, Resolved, RawPrefix, Canonical;
    CapitalParts(name);
    RStripStars(name + "/", "**", '*');
    ResolvedMore(project, name);
    RelativeAnchor(name + "/");
    assert RawPrefix(name + "/" + "**") == name + "/" by { RootsOfRespelled("", "", name + "/", name + "/"); }
  }

  lemma CapitalParts(name: string)
    requires name in {"Hooks", "hooks"}
    ensures PathParts(name + "/") == [name] && Canonical(name + "/")
  {
    hide Kept;
    SplitFirst(name, "", '/');
    SplitWhole("", '/');
    assert name + ['/'] + "" == name + "/";
    assert Split(name + "/", '/') == [name, ""];
    KeptUnfold([name, ""]);
    assert [name, ""][..1] == [name];
    KeptAll([name]);
  }

  lemma SameHooks(fold: Fold)
    requires fold('H') == fold('h')
    ensures SameDirectory(fold, ["Hooks"], ["hooks"])
  {
  }

  lemma HooksParts()
    ensures PathParts("hooks/") == ["hooks"]
    ensures "./hooks" + "/" == "./hooks/" && PathParts("./hooks/") == ["hooks"]
    ensures "bollard/../hooks" + "/" == "bollard/../hooks/" && PathParts("bollard/../hooks/") == ["bollard", "..", "hooks"]
  {
    hide Split, Kept;
    SplitFirst("hooks", "", '/');
    SplitFirst(".", "hooks/", '/');
    SplitFirst("..", "hooks/", '/');
    SplitFirst("bollard", "../hooks/", '/');
    SplitWhole("", '/');
    assert "hooks" + ['/'] + "" == "hooks/" && "." + ['/'] + "hooks/" == "./hooks/";
    assert ".." + ['/'] + "hooks/" == "../hooks/" && "bollard" + ['/'] + "../hooks/" == "bollard/../hooks/";
    assert Split("hooks/", '/') == ["hooks", ""] && Split("./hooks/", '/') == [".", "hooks", ""];
    assert Split("bollard/../hooks/", '/') == ["bollard", "..", "hooks", ""];
    KeptOfHooks();
  }

  lemma KeptOfHooks()
    ensures Kept(["hooks", ""]) == ["hooks"] && Kept([".", "hooks", ""]) == ["hooks"]
    ensures Kept(["bollard", "..", "hooks", ""]) == ["bollard", "..", "hooks"]
  {
    hide Kept;
    KeptUnfold([".", "hooks", ""]);
    KeptUnfold(["hooks", ""]);
    KeptUnfold(["bollard", "..", "hooks", ""]);
    KeptUnfold([".", "hooks"]);
    KeptUnfold(["."]);
    KeptAll([]);
    KeptAll(["hooks"]);
    KeptAll(["bollard", "..", "hooks"]);
    assert ["hooks", ""][..1] == ["hooks"] && [".", "hooks", ""][..2] == [".", "hooks"] && [".", "hooks"][..1] == ["."];
    assert ["bollard", "..", "hooks", ""][..3] == ["bollard", "..", "hooks"];
  }

  lemma ResolvedMore(front: seq<string>, part: string)
    ensures Resolved(front + [part]) ==
            if part != ".." then Resolved(front) + [part]
            else if Resolved(front) == [] then [] else Resolved(front)[..|Resolved(front)| - 1]
  {
    assert (front + [part])[..|front|] == front;
  }

  lemma RelativeAnchor(path: string)
    requires path != "" && path[0] != '/'
    ensures Anchor(path) == ""
  {
  }

  lemma HooksLocations(project: seq<string>)
    requires PathParts("hooks/") == ["hooks"] && PathParts("./hooks/") == ["hooks"]
    requires PathParts("bollard/../hooks/") == ["bollard", "..", "hooks"]
    ensures Location(project, "./hooks/") == Location(project, "hooks/")
    ensures Location(project, "bollard/../hooks/") == Location(project, "hooks/")
  {
    hide PathParts, Resolved;
    ResolvedMore(project, "hooks");
    ResolvedMore(project, "bollard");
    ResolvedMore(project + ["bollard"], "..");
    assert (Resolved(project) + ["bollard"])[..|Resolved(project)|] == Resolved(project);
    RelativeAnchor("bollard/../hooks/");
    RelativeAnchor("./hooks/");
    RelativeAnchor("hooks/");
    ResolvedMore(project + ["bollard"] + [".."], "hooks");
    assert project + ["bollard", "..", "hooks"] == project + ["bollard"] + [".."] + ["hooks"];
  }
}
