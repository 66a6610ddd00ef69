/**
 atlas/hookclient/matching.py: resolving a working directory against the
 registered roots, the longest matching root winning.
 */
module RootMatching {
  import opened Sequences
  import opened GoalsPath

  /** One item of the index's `roots`: `Unusable` is an entry that is no object or has no prefix list. */
  datatype Entry = Unusable | Prefixes(prefixes: seq<string>)

  datatype Item = Item(root: string, entry: Entry)

  datatype Resolution = Unregistered | Unique | Ambiguous

  /** The root's path components begin the directory's. */
  predicate RootMatches(cwd: string, root: string)
  {
    PathParts(root) <= PathParts(cwd)
  }

  /** A root matches itself and everything under it, component by component. */
  lemma RootMatchesIs(cwd: string, root: string)
    ensures RootMatches(cwd, root) <==>
            && |PathParts(root)| <= |PathParts(cwd)|
            && forall i | 0 <= i < |PathParts(root)| :: PathParts(root)[i] == PathParts(cwd)[i]
    ensures RootMatches(root, root)
  {
  }

  predicate Counts(cwd: string, item: Item)
  {
    item.entry.Prefixes? && RootMatches(cwd, item.root)
  }

  function Depth(item: Item): nat
  {
    |PathParts(item.root)|
  }

  // ---- the declarative form ------------------------------------------------

  predicate IsDeepest(cwd: string, items: seq<Item>, item: Item)
  {
    && item in items && Counts(cwd, item)
    && forall other | other in items && Counts(cwd, other) :: Depth(other) <= Depth(item)
  }

  /** Every prefix registered at a deepest matching root. */
  ghost predicate IsCandidate(cwd: string, items: seq<Item>, p: string)
  {
    exists item :: IsDeepest(cwd, items, item) && p in item.entry.prefixes
  }

  /** The item has a prefix list, and its root's path components begin the directory's. */
  predicate Serves(cwd: string, item: Item)
  {
    && item.entry.Prefixes? && |PathParts(item.root)| <= |PathParts(cwd)|
    && forall i | 0 <= i < |PathParts(item.root)| :: PathParts(item.root)[i] == PathParts(cwd)[i]
  }

  /** A candidate is a prefix of an item that serves the directory with at least as many components as any other. */
  lemma CandidateIs(cwd: string, items: seq<Item>, p: string)
    ensures IsCandidate(cwd, items, p) <==>
            exists item ::
              && item in items && Serves(cwd, item) && p in item.entry.prefixes
              && forall other | other in items && Serves(cwd, other) :: |PathParts(other.root)| <= |PathParts(item.root)|
  {
    forall item ensures Counts(cwd, item) <==> Serves(cwd, item) {
      RootMatchesIs(cwd, item.root);
    }
    hide Counts, Serves, RootMatches;
  }

  function AsSet(candidates: seq<string>): set<string>
  {
    set p | p in candidates
  }

  // ---- the loop ------------------------------------------------------------

  /** No item is deeper than `best`, and -1 means none counts. */
  ghost predicate BestSoFar(cwd: string, items: seq<Item>, best: int)
  {
    && (forall item | item in items && Counts(cwd, item) :: Depth(item) <= best)
    && best >= -1
    && (best >= 0 ==> exists item :: item in items && Counts(cwd, item) && Depth(item) == best)
  }

  ghost predicate CandidatesSoFar(cwd: string, items: seq<Item>, best: int, candidates: seq<string>)
  {
    forall p :: p in candidates <==>
      exists item :: item in items && Counts(cwd, item) && Depth(item) == best && p in item.entry.prefixes
  }

  /** The candidates are the declarative ones, whatever order the items come in; the list is then sorted. */
  method ResolveCwdAgainstRoots(cwd: string, items: seq<Item>) returns (resolution: Resolution, candidates: set<string>)
    ensures forall p :: p in candidates <==> IsCandidate(cwd, items, p)
    ensures resolution.Unregistered? <==> candidates == {}
    ensures resolution.Unique? <==> |candidates| == 1
  {
    hide Counts, Depth, IsCandidate;
    var bestDepth: int := -1;
    var found: seq<string> := [];
    for i := 0 to |items|
      invariant BestSoFar(cwd, items[..i], bestDepth) && CandidatesSoFar(cwd, items[..i], bestDepth, found)
    {
      assert items[..i + 1] == items[..i] + [items[i]];
      if Counts(cwd, items[i]) {
        PrefixesOfCounted(cwd, items[i]);
        OneMoreItem(cwd, items[..i], items[i], bestDepth, found);
        var depth := Depth(items[i]);
        if depth > bestDepth {
          bestDepth, found := depth, items[i].entry.prefixes;
        } else if depth == bestDepth {
          found := found + items[i].entry.prefixes;
        }
      }
    }
    assert items[..|items|] == items;
    SoFarIsDeepest(cwd, items, bestDepth, found);
    candidates := AsSet(found);
    if found == [] {
      resolution := Unregistered;
    } else {
      assert found[0] in candidates;
      resolution := if |candidates| == 1 then Unique else Ambiguous;
    }
  }

  lemma PrefixesOfCounted(cwd: string, item: Item)
    ensures Counts(cwd, item) ==> item.entry.Prefixes?
  {
  }

  lemma OneMoreItem(cwd: string, items: seq<Item>, item: Item, best: int, found: seq<string>)
    requires BestSoFar(cwd, items, best) && CandidatesSoFar(cwd, items, best, found) && Counts(cwd, item)
    ensures var more, depth := items + [item], Depth(item);
      && (depth > best ==> BestSoFar(cwd, more, depth) && CandidatesSoFar(cwd, more, depth, item.entry.prefixes))
      && (depth == best ==> BestSoFar(cwd, more, best) && CandidatesSoFar(cwd, more, best, found + item.entry.prefixes))
      && (depth < best ==> BestSoFar(cwd, more, best) && CandidatesSoFar(cwd, more, best, found))
  {
    hide RootMatches;
    var more, depth := items + [item], Depth(item);
    assert forall other :: other in more <==> other in items || other == item;
  }

  lemma SoFarIsDeepest(cwd: string, items: seq<Item>, best: int, found: seq<string>)
    requires BestSoFar(cwd, items, best) && CandidatesSoFar(cwd, items, best, found)
    ensures forall p :: p in AsSet(found) <==> IsCandidate(cwd, items, p)
  {
  }

  // ---- what it means -------------------------------------------------------

  /** The answer depends on which items there are, not on their order. */
  lemma OrderDoesNotMatter(cwd: string, a: seq<Item>, b: seq<Item>, p: string)
    requires multiset(a) == multiset(b)
    ensures IsCandidate(cwd, a, p) <==> IsCandidate(cwd, b, p)
  {
    hide Depth, RootMatches;
    assert forall item :: item in a <==> item in multiset(a);
    assert forall item :: item in b <==> item in multiset(b);
    forall item
      ensures IsDeepest(cwd, a, item) <==> IsDeepest(cwd, b, item)
    {
    }
  }

  /** Roots tied for deepest are spellings of one path. */
  lemma TiedRootsAreOnePath(cwd: string, items: seq<Item>, a: Item, b: Item)
    requires IsDeepest(cwd, items, a) && IsDeepest(cwd, items, b)
    ensures PathParts(a.root) == PathParts(b.root)
  {
  }

  /** Unregistered means that the deepest matching roots offer nothing, whatever their parents offer. */
  lemma UnregisteredIffDeepestEmpty(cwd: string, items: seq<Item>)
    ensures (forall p :: !IsCandidate(cwd, items, p)) <==>
            forall item | IsDeepest(cwd, items, item) :: item.entry.prefixes == []
  {
    hide Depth, RootMatches;
    forall item | IsDeepest(cwd, items, item) && item.entry.prefixes != []
      ensures IsCandidate(cwd, items, item.entry.prefixes[0])
    {
      assert item.entry.prefixes[0] in item.entry.prefixes;
    }
  }

  /** A directory below a registered root, with nothing deeper registered, resolves to that root's prefixes. */
  lemma RegisteredRootServesItsTree(cwd: string, items: seq<Item>, item: Item)
    requires IsDeepest(cwd, items, item)
    requires forall other | other in items && other.entry.Prefixes? && PathParts(other.root) == PathParts(item.root) :: other == item
    ensures forall p :: IsCandidate(cwd, items, p) <==> p in item.entry.prefixes
  {
  }
}
