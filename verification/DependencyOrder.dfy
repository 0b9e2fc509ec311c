/** The depth-first ordering of tables by foreign keys, shared by `scripts/refreshDevFromProd.js` and
    `scripts/createMissingTablesInDev.js`. */
module DependencyOrder {

  /** Each table with the tables its foreign keys reference (its parents). */
  type Graph = map<string, seq<string>>

  predicate Closed(g: Graph) {
    forall t, p :: t in g && p in g[t] ==> p in g
  }

  function ToSet(s: seq<string>): set<string> { set x | x in s }

  predicate Distinct(s: seq<string>) {
    forall i, j :: 0 <= i < j < |s| ==> s[i] != s[j]
  }

  /** A chain of references: each table references the next. */
  predicate Chain(g: Graph, c: seq<string>) {
    forall i :: 0 <= i < |c| - 1 ==> c[i] in g && c[i + 1] in g[c[i]]
  }

  ghost predicate Links(g: Graph, c: seq<string>, a: string, b: string) {
    |c| >= 2 && c[0] == a && c[|c| - 1] == b && Chain(g, c)
  }

  /** `a` references `b`, directly or through other tables. */
  ghost predicate Depends(g: Graph, a: string, b: string) {
    exists c :: Links(g, c, a, b)
  }

  /** No cycle through two or more tables; a table may reference itself. */
  ghost predicate Acyclic(g: Graph) {
    forall a, b :: a != b && Depends(g, a, b) ==> !Depends(g, b, a)
  }

  /** Every parent comes before its child, unless they depend on each other. */
  ghost predicate Ordered(g: Graph, sorted: seq<string>) {
    forall i, p :: 0 <= i < |sorted| && sorted[i] in g && p in g[sorted[i]] ==>
      p in sorted[..i] || Depends(g, p, sorted[i])
  }

  /** Every other table a table references comes before it. */
  predicate ParentsFirst(g: Graph, sorted: seq<string>) {
    forall i, p :: 0 <= i < |sorted| && sorted[i] in g && p in g[sorted[i]] && p != sorted[i] ==> p in sorted[..i]
  }

  // ── The sort ───────────────────────────────────────────────────────────────

  class Sorter {
    const deps: Graph
    var visited: set<string>
    var sorted: seq<string>

    constructor (deps: Graph)
      ensures this.deps == deps && visited == {} && sorted == []
    {
      this.deps, visited, sorted := deps, {}, [];
    }

    /** Between visits: what is visited is either output or still open on the stack of callers, a chain
        of references leading to the current table. */
    ghost predicate Valid(stack: seq<string>)
      reads this
    {
      && Closed(deps) && visited <= deps.Keys
      && visited == ToSet(sorted) + ToSet(stack) && ToSet(sorted) !! ToSet(stack)
      && Distinct(sorted) && Chain(deps, stack) && Ordered(deps, sorted)
    }

    method Visit(t: string, ghost stack: seq<string>)
      requires Valid(stack) && t in deps
      requires stack == [] || t in deps[stack[|stack| - 1]]
      requires forall s :: s in stack ==> s in deps
      modifies this`visited, this`sorted
      ensures Valid(stack) && t in visited
      ensures old(visited) <= visited && old(sorted) <= sorted
      decreases deps.Keys - visited
    {
      if t in visited {
        return;
      }
      ghost var open := stack + [t];
      visited := visited + {t};
      assert ToSet(open) == ToSet(stack) + {t};
      var parents := deps[t];
      for i := 0 to |parents|
        invariant Valid(open)
        invariant ToSet(parents[..i]) <= visited
        invariant old(visited) + {t} <= visited && old(sorted) <= sorted
      {
        Visit(parents[i], open);
        assert parents[..i + 1] == parents[..i] + [parents[i]];
      }
      assert parents[..|parents|] == parents;
      forall p | p in parents
        ensures p in sorted || Depends(deps, p, t)
      {
        assert p in ToSet(parents);
        if p !in sorted {
          OpenDepends(deps, stack, t, p);
        }
      }
      OrderedExtends(deps, sorted, t);
      assert t in ToSet(open) && t !in sorted;
      sorted := sorted + [t];
    }

    /** Each table exactly once; each parent before its child unless they depend on each other. */
    method Sort(tables: seq<string>)
      requires Closed(deps) && ToSet(tables) == deps.Keys && visited == {} && sorted == []
      modifies this`visited, this`sorted
      ensures Distinct(sorted) && ToSet(sorted) == deps.Keys
      ensures Ordered(deps, sorted)
    {
      for i := 0 to |tables|
        invariant Valid([])
        invariant ToSet(tables[..i]) <= visited
      {
        assert tables[i] in ToSet(tables);
        Visit(tables[i], []);
        assert tables[..i + 1] == tables[..i] + [tables[i]];
      }
      assert tables[..|tables|] == tables;
    }
  }

  /** A table still open on the stack when its child finishes depends on that child. */
  lemma OpenDepends(g: Graph, stack: seq<string>, t: string, p: string)
    requires Chain(g, stack) && t in g && (stack == [] || (stack[|stack| - 1] in g && t in g[stack[|stack| - 1]]))
    requires p in g[t] && (p in stack || p == t)
    ensures Depends(g, p, t)
  {
    if p == t {
      assert Links(g, [t, t], t, t);
    } else {
      var i :| 0 <= i < |stack| && stack[i] == p;
      assert Links(g, stack[i..] + [t], p, t);
    }
  }

  lemma OrderedExtends(g: Graph, sorted: seq<string>, t: string)
    requires Ordered(g, sorted) && t in g
    requires forall p :: p in g[t] ==> p in sorted || Depends(g, p, t)
    ensures Ordered(g, sorted + [t])
  {
    var longer := sorted + [t];
    forall i, p | 0 <= i < |longer| && longer[i] in g && p in g[longer[i]]
      ensures p in longer[..i] || Depends(g, p, longer[i])
    {
      assert longer[..i] == sorted[..i];
    }
  }

  // ── What the order is worth ────────────────────────────────────────────────

  lemma EdgeDepends(g: Graph, a: string, b: string)
    requires a in g && b in g[a]
    ensures Depends(g, a, b)
  {
    assert Links(g, [a, b], a, b);
  }

  /** In a parents-first order every table a table depends on, however far, is not after it. */
  lemma {:induction false} ChainGoesBack(g: Graph, sorted: seq<string>, c: seq<string>, i: nat)
    requires ParentsFirst(g, sorted) && ToSet(sorted) == g.Keys
    requires |c| >= 1 && Chain(g, c) && i < |sorted| && sorted[i] == c[0]
    ensures c[|c| - 1] in sorted[..i + 1]
    decreases |c|
  {
    if |c| > 1 {
      if c[1] == c[0] {
        ChainGoesBack(g, sorted, c[1..], i);
      } else {
        assert c[1] in sorted[..i];
        var j :| 0 <= j < i && sorted[j] == c[1];
        ChainGoesBack(g, sorted, c[1..], j);
        assert sorted[..j + 1] <= sorted[..i + 1];
      }
    }
  }

  lemma DependsGoesBack(g: Graph, sorted: seq<string>, i: nat, b: string)
    requires ParentsFirst(g, sorted) && ToSet(sorted) == g.Keys && i < |sorted| && Depends(g, sorted[i], b)
    ensures b in sorted[..i + 1]
  {
    var c :| Links(g, c, sorted[i], b);
    ChainGoesBack(g, sorted, c, i);
  }

  /** The order the sort outputs puts every parent first exactly when the references have no cycle
      through two or more tables. */
  lemma ParentsFirstIffAcyclic(g: Graph, sorted: seq<string>)
    requires Closed(g) && Distinct(sorted) && ToSet(sorted) == g.Keys && Ordered(g, sorted)
    ensures ParentsFirst(g, sorted) <==> Acyclic(g)
  {
    if Acyclic(g) {
      forall i, p | 0 <= i < |sorted| && sorted[i] in g && p in g[sorted[i]] && p != sorted[i]
        ensures p in sorted[..i]
      {
        EdgeDepends(g, sorted[i], p);
      }
    }
    if ParentsFirst(g, sorted) {
      forall a, b | a != b && Depends(g, a, b)
        ensures !Depends(g, b, a)
      {
        if Depends(g, b, a) {
          DependsInGraph(g, a, b);
          DependsInGraph(g, b, a);
          assert a in ToSet(sorted) && b in ToSet(sorted);
          var i :| 0 <= i < |sorted| && sorted[i] == a;
          var j :| 0 <= j < |sorted| && sorted[j] == b;
          DependsGoesBack(g, sorted, i, b);
          DependsGoesBack(g, sorted, j, a);
        }
      }
    }
  }

  lemma DependsInGraph(g: Graph, a: string, b: string)
    requires Depends(g, a, b)
    ensures a in g
  {
  }

  /** If the tables of `h` have in `g` no reference that `h` has not, a chain of `g` that starts among them
      is a chain of `h`, whatever else `g` holds. */
  lemma {:induction false} ChainStays(g: Graph, h: Graph, c: seq<string>)
    requires Closed(h) && forall t :: t in h && t in g ==> ToSet(g[t]) <= ToSet(h[t])
    requires |c| >= 1 && Chain(g, c) && c[0] in h
    ensures Chain(h, c)
    decreases |c|
  {
    if |c| > 1 {
      assert c[1] in ToSet(g[c[0]]);
      ChainStays(g, h, c[1..]);
      assert forall i :: 1 <= i < |c| ==> c[i] == c[1..][i - 1];
    }
  }

  // ── Building the graph from the foreign keys ───────────────────────────────

  datatype ForeignKey = ForeignKey(child: string, parent: string)

  /** The references among `tables`, each once; `keepSelf` is the refresh script, which keeps a table's
      reference to itself, where the creation script drops it. */
  method BuildDependencies(tables: seq<string>, fks: seq<ForeignKey>, keepSelf: bool) returns (deps: Graph)
    ensures deps.Keys == ToSet(tables) && Closed(deps)
    ensures forall t :: t in deps ==> Distinct(deps[t])
    ensures forall t, p :: t in deps ==>
              (p in deps[t] <==> ForeignKey(t, p) in fks && p in tables && (keepSelf || t != p))
  {
    deps := map t | t in tables :: [];
    for i := 0 to |fks|
      invariant deps.Keys == ToSet(tables)
      invariant forall t :: t in deps ==> Distinct(deps[t])
      invariant forall t, p :: t in deps ==>
                  (p in deps[t] <==> ForeignKey(t, p) in fks[..i] && p in tables && (keepSelf || t != p))
    {
      var child, parent := fks[i].child, fks[i].parent;
      assert fks[..i + 1] == fks[..i] + [ForeignKey(child, parent)];
      if child in deps && parent in deps && (keepSelf || child != parent) && parent !in deps[child] {
        deps := deps[child := deps[child] + [parent]];
      }
    }
    assert fks[..|fks|] == fks;
  }
}
