/**
 atlas/query/facade.py: `compute_transitive_base_tables` and
 `translate_source_tables`. The view graph may be cyclic, and the set of names
 already seen is local to the path being followed, not shared by the search.
 */
module ViewClosure {
  import opened Wrappers

  type Name = string

  datatype Kind = BaseTable | View | OtherKind

  /** A row of sqlite_master. */
  datatype Entry = Entry(kind: Kind, sql: Option<string>)

  /** sqlite_master, with the word-boundary search over comment-stripped SQL as `mentions`. */
  datatype Catalog = Catalog(entries: map<Name, Entry>, plumbing: set<Name>, mentions: (string, Name) -> bool)

  predicate IsView(c: Catalog, name: Name)
  {
    name in c.entries && c.entries[name].sql.Some? && c.entries[name].kind == View
  }

  /** Anything else the catalog has SQL for names itself. */
  predicate IsLeaf(c: Catalog, name: Name)
  {
    name in c.entries && c.entries[name].sql.Some? && c.entries[name].kind != View
  }

  /** `from` is a view whose SQL names another table or view. */
  predicate Mentions(c: Catalog, from: Name, to: Name)
  {
    && IsView(c, from)
    && to in c.entries && to != from && c.entries[to].kind != OtherKind
    && c.mentions(c.entries[from].sql.value, to)
  }

  function Mentioned(c: Catalog, from: Name): set<Name>
  {
    set to | to in c.entries.Keys && Mentions(c, from, to)
  }

  // ---- what the closure should be ------------------------------------------

  /** A walk along mention edges, through no plumbing view and no name to `avoid`. */
  ghost predicate IsWalk(c: Catalog, walk: seq<Name>, avoid: set<Name>)
  {
    && (forall i | 0 <= i < |walk| :: walk[i] !in c.plumbing && walk[i] !in avoid)
    && (forall i, j | 0 <= i && j == i + 1 && j < |walk| :: Mentions(c, walk[i], walk[j]))
  }

  ghost predicate Leads(c: Catalog, walk: seq<Name>, from: Name, to: Name, avoid: set<Name>)
  {
    |walk| > 0 && walk[0] == from && walk[|walk| - 1] == to && IsWalk(c, walk, avoid)
  }

  ghost predicate Reaches(c: Catalog, from: Name, to: Name, avoid: set<Name>)
  {
    exists walk :: Leads(c, walk, from, to, avoid)
  }

  ghost function Bases(c: Catalog, from: Name, avoid: set<Name>): set<Name>
  {
    set to | to in c.entries.Keys && IsLeaf(c, to) && Reaches(c, from, to, avoid)
  }

  lemma WalkFromAlone(c: Catalog, name: Name, avoid: set<Name>)
    requires name !in c.plumbing && name !in avoid
    ensures Reaches(c, name, name, avoid)
  {
    assert Leads(c, [name], name, name, avoid);
  }

  lemma NothingFromHidden(c: Catalog, name: Name, to: Name, avoid: set<Name>)
    requires Reaches(c, name, to, avoid)
    ensures name !in c.plumbing && name !in avoid
    ensures !IsView(c, name) ==> to == name
  {
    var walk :| Leads(c, walk, name, to, avoid);
    if |walk| > 1 {
      assert Mentions(c, walk[0], walk[1]);
    }
  }

  lemma Prepend(c: Catalog, from: Name, next: Name, to: Name, avoid: set<Name>, more: set<Name>)
    requires Mentions(c, from, next) && Reaches(c, next, to, more)
    requires from !in c.plumbing && from !in avoid && avoid <= more
    ensures Reaches(c, from, to, avoid)
  {
    var walk :| Leads(c, walk, next, to, more);
    assert Leads(c, [from] + walk, from, to, avoid);
  }

  /**
   A walk from a view to some other name leaves the view for good at its last visit, so
   the rest of it avoids the view: forgetting names seen on the path loses nothing.
   */
  lemma {:induction false} LeaveForGood(c: Catalog, walk: seq<Name>, from: Name, to: Name, avoid: set<Name>)
    requires Leads(c, walk, from, to, avoid) && to != from
    ensures exists next | Mentions(c, from, next) :: Reaches(c, next, to, avoid + {from})
    decreases |walk|
  {
    var rest := walk[1..];
    assert Mentions(c, walk[0], walk[1]);
    if from in rest {
      var i :| 0 <= i < |rest| && rest[i] == from;
      assert Leads(c, rest[i..], from, to, avoid);
      LeaveForGood(c, rest[i..], from, to, avoid);
    } else {
      assert Leads(c, rest, rest[0], to, avoid + {from});
    }
  }

  /** One level of the recursion, as sets. */
  lemma BasesOfView(c: Catalog, from: Name, to: Name, avoid: set<Name>)
    requires IsView(c, from) && from !in c.plumbing && from !in avoid
    ensures to in Bases(c, from, avoid) <==>
            exists next | next in Mentioned(c, from) :: to in Bases(c, next, avoid + {from})
  {
    if to in Bases(c, from, avoid) {
      var walk :| Leads(c, walk, from, to, avoid);
      LeaveForGood(c, walk, from, to, avoid);
      var next :| Mentions(c, from, next) && Reaches(c, next, to, avoid + {from});
      assert next in Mentioned(c, from) && to in Bases(c, next, avoid + {from});
    }
    if next :| next in Mentioned(c, from) && to in Bases(c, next, avoid + {from}) {
      Prepend(c, from, next, to, avoid, avoid + {from});
    }
  }

  // ---- the recursion -------------------------------------------------------

  method ComputeTransitiveBaseTables(c: Catalog, name: Name, seen: set<Name>) returns (bases: set<Name>)
    ensures bases == Bases(c, name, seen)
    decreases c.entries.Keys - seen
  {
    hide Reaches;
    bases := {};
    if name in seen || name in c.plumbing {
      forall to | to in Bases(c, name, seen) ensures false { NothingFromHidden(c, name, to, seen); }
      return;
    }
    if name !in c.entries || c.entries[name].sql == None {
      forall to | to in Bases(c, name, seen) ensures false { NothingFromHidden(c, name, to, seen); }
      return;
    }
    if c.entries[name].kind != View {
      bases := {name};
      WalkFromAlone(c, name, seen);
      forall to | to in Bases(c, name, seen) ensures to == name { NothingFromHidden(c, name, to, seen); }
      return;
    }
    var mentioned := Mentioned(c, name);
    var todo := mentioned;
    while todo != {}
      invariant todo <= mentioned
      invariant forall to :: to in bases <==> exists next | next in mentioned - todo :: to in Bases(c, next, seen + {name})
    {
      var next :| next in todo;
      var more := ComputeTransitiveBaseTables(c, next, seen + {name});
      bases := bases + more;
      todo := todo - {next};
    }
    forall to { BasesOfView(c, name, to, seen); }
  }

  /** What the facade computes for a name: nothing seen yet. */
  ghost function Closure(c: Catalog, name: Name): set<Name>
  {
    Bases(c, name, {})
  }

  /** Plumbing stops the closure, a table is its own, and a view adds up what it mentions, cycles and all. */
  lemma ClosureSolvesItsEquation(c: Catalog, name: Name, to: Name)
    ensures name in c.plumbing ==> Closure(c, name) == {}
    ensures IsLeaf(c, name) && name !in c.plumbing ==> Closure(c, name) == {name}
    ensures IsView(c, name) && name !in c.plumbing ==>
              (to in Closure(c, name) <==> exists next | next in Mentioned(c, name) :: to in Closure(c, next))
  {
    hide Reaches;
    forall other | other in Closure(c, name)
      ensures name !in c.plumbing && (!IsView(c, name) ==> other == name)
    {
      NothingFromHidden(c, name, other, {});
    }
    if IsLeaf(c, name) && name !in c.plumbing {
      WalkFromAlone(c, name, {});
    }
    if IsView(c, name) && name !in c.plumbing {
      BasesOfView(c, name, to, {});
      if to in Closure(c, name) {
        var next :| next in Mentioned(c, name) && to in Bases(c, next, {} + {name});
        AvoidLess(c, next, to, {} + {name});
        assert to in Closure(c, next);
      }
      if next :| next in Mentioned(c, name) && to in Closure(c, next) {
        Prepend(c, name, next, to, {}, {});
      }
    }
  }

  lemma AvoidLess(c: Catalog, from: Name, to: Name, avoid: set<Name>)
    requires Reaches(c, from, to, avoid)
    ensures Reaches(c, from, to, {})
  {
    var walk :| Leads(c, walk, from, to, avoid);
    assert Leads(c, walk, from, to, {});
  }

  lemma {:induction false} ClosureGrowsAlong(c: Catalog, walk: seq<Name>, from: Name, to: Name)
    requires Leads(c, walk, from, to, {})
    ensures Closure(c, to) <= Closure(c, from)
    decreases |walk|
  {
    hide Bases;
    if |walk| > 1 {
      var next := walk[1];
      assert Mentions(c, from, next);
      assert Leads(c, walk[1..], next, to, {});
      ClosureGrowsAlong(c, walk[1..], next, to);
      forall base | base in Closure(c, next)
        ensures base in Closure(c, from)
      {
        ClosureSolvesItsEquation(c, from, base);
        assert next in Mentioned(c, from);
      }
    }
  }

  /** Views that mention each other, however indirectly, have one closure. */
  lemma CyclesShareOneClosure(c: Catalog, a: Name, b: Name)
    requires Reaches(c, a, b, {}) && Reaches(c, b, a, {})
    ensures Closure(c, a) == Closure(c, b)
  {
    hide Closure;
    var there :| Leads(c, there, a, b, {});
    var back :| Leads(c, back, b, a, {});
    ClosureGrowsAlong(c, there, a, b);
    ClosureGrowsAlong(c, back, b, a);
  }

  // ---- the gate's vocabulary -----------------------------------------------

  /** The declared renaming of physical tables, and the source names the gate knows. */
  datatype Vocabulary = Vocabulary(translation: map<Name, Name>, real_: set<Name>)

  function Translated(v: Vocabulary, base: Name): Name
  {
    if base in v.translation then v.translation[base] else base
  }

  function TranslateSourceTables(v: Vocabulary, bases: set<Name>): set<Name>
  {
    set base | base in bases && Translated(v, base) in v.real_ :: Translated(v, base)
  }

  predicate Blocked(sources: set<Name>, queryable: set<Name>)
  {
    sources - queryable != {}
  }

  /** The declared name of a physical table: its translation, or its own. */
  predicate DeclaredAs(v: Vocabulary, base: Name, source: Name)
  {
    (base in v.translation && v.translation[base] == source) || (base !in v.translation && base == source)
  }

  /** A view's sources: of the base tables it reaches, those the gate knows, under the names they are declared by. */
  lemma SourcesAre(v: Vocabulary, bases: set<Name>, source: Name)
    ensures source in TranslateSourceTables(v, bases) <==>
            source in v.real_ && exists base :: base in bases && DeclaredAs(v, base, source)
  {
    if source in TranslateSourceTables(v, bases) {
      var base :| base in bases && Translated(v, base) in v.real_ && Translated(v, base) == source;
      assert DeclaredAs(v, base, source);
    }
  }

  lemma BlockedIff(sources: set<Name>, queryable: set<Name>)
    ensures Blocked(sources, queryable) <==> exists source :: source in sources && source !in queryable
  {
    if source :| source in sources && source !in queryable {
      assert source in sources - queryable;
    }
  }

  /** No view hides a block: what blocks a view it reaches blocks it too. */
  lemma BlockSpreadsToMentioningViews(c: Catalog, v: Vocabulary, from: Name, to: Name, queryable: set<Name>)
    requires Reaches(c, from, to, {})
    ensures var sources := TranslateSourceTables(v, Closure(c, from));
      && TranslateSourceTables(v, Closure(c, to)) <= sources
      && (Blocked(TranslateSourceTables(v, Closure(c, to)), queryable) ==> Blocked(sources, queryable))
  {
    hide Closure;
    var walk :| Leads(c, walk, from, to, {});
    ClosureGrowsAlong(c, walk, from, to);
    var less, more := TranslateSourceTables(v, Closure(c, to)), TranslateSourceTables(v, Closure(c, from));
    if Blocked(less, queryable) {
      var source :| source in less - queryable;
      assert source in more - queryable;
    }
  }

  /** Going through a plumbing view does hide it: the closure stops there. */
  lemma PlumbingHidesABlock() returns (c: Catalog)
    ensures Mentions(c, "v_hook_verdict", "v_queryable_source") && Mentions(c, "v_queryable_source", "dq_check")
    ensures IsLeaf(c, "dq_check") && "dq_check" !in Closure(c, "v_hook_verdict")
  {
    c := Catalog(
      map["v_hook_verdict" := Entry(View, Some("a")), "v_queryable_source" := Entry(View, Some("b")),
          "dq_check" := Entry(BaseTable, Some("c"))],
      {"v_queryable_source"},
      (sql, name) => (sql == "a" && name == "v_queryable_source") || (sql == "b" && name == "dq_check"));
    forall next | next in Mentioned(c, "v_hook_verdict")
      ensures Closure(c, next) == {}
    {
      ClosureSolvesItsEquation(c, next, "dq_check");
    }
    ClosureSolvesItsEquation(c, "v_hook_verdict", "dq_check");
  }
}
