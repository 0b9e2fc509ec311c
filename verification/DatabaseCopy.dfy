/** The copy loop of `scripts/refreshDevFromProd.js`, whose every step truncates with CASCADE, and the
    creation loop of `scripts/createMissingTablesInDev.js`. */
module DatabaseCopy {
  import opened DependencyOrder

  /** A column value, None for SQL null. */
  datatype Cell = Null | Value(text: string)

  /** A row over the columns the copy uses (those present in both databases). */
  type Record = seq<Cell>

  const CHUNK_SIZE: nat := 500

  // ── One multi-row INSERT ───────────────────────────────────────────────────

  /** Every placeholder `$k` names a parameter. */
  predicate Bound(values: seq<Cell>, placeholders: seq<nat>) {
    forall c :: 0 <= c < |placeholders| ==> 1 <= placeholders[c] <= |values|
  }

  predicate AllBound(values: seq<Cell>, placeholders: seq<seq<nat>>) {
    forall r :: 0 <= r < |placeholders| ==> Bound(values, placeholders[r])
  }

  /** The row one parenthesised group of placeholders adds. */
  function InsertedRow(placeholders: seq<nat>, values: seq<Cell>): (row: Record)
    requires Bound(values, placeholders)
  {
    seq(|placeholders|, c requires 0 <= c < |placeholders| => values[placeholders[c] - 1])
  }

  /** The rows a multi-row INSERT with these placeholders and parameters adds. */
  function Inserted(placeholders: seq<seq<nat>>, values: seq<Cell>): seq<Record>
    requires AllBound(values, placeholders)
  {
    seq(|placeholders|, r requires 0 <= r < |placeholders| => InsertedRow(placeholders[r], values))
  }

  /** The numbering of the placeholders makes the statement add exactly the rows of the chunk. */
  method BuildInsert(chunk: seq<Record>, columns: nat) returns (placeholders: seq<seq<nat>>, values: seq<Cell>)
    requires forall r :: 0 <= r < |chunk| ==> |chunk[r]| == columns
    ensures AllBound(values, placeholders)
    ensures |values| == |chunk| * columns && Inserted(placeholders, values) == chunk
  {
    placeholders, values := [], [];
    for r := 0 to |chunk|
      invariant |placeholders| == r && |values| == r * columns
      invariant AllBound(values, placeholders)
      invariant forall i :: 0 <= i < r ==> InsertedRow(placeholders[i], values) == chunk[i]
    {
      var offset := r * columns;
      var row: seq<nat> := [];
      for c := 0 to columns
        invariant |row| == c && forall j :: 0 <= j < c ==> row[j] == offset + j + 1
      {
        row := row + [offset + c + 1];
      }
      assert offset + columns == (r + 1) * columns;
      RowAppended(placeholders, values, row, chunk[r]);
      placeholders, values := placeholders + [row], values + chunk[r];
    }
  }

  /** Appending a row's parameters leaves what the earlier placeholders stand for, and placeholders that
      continue the numbering stand for that row. */
  lemma RowAppended(placeholders: seq<seq<nat>>, values: seq<Cell>, row: seq<nat>, record: Record)
    requires AllBound(values, placeholders)
    requires |row| == |record| && forall c :: 0 <= c < |row| ==> row[c] == |values| + c + 1
    ensures AllBound(values + record, placeholders + [row])
    ensures forall r :: 0 <= r < |placeholders| ==>
              InsertedRow((placeholders + [row])[r], values + record) == InsertedRow(placeholders[r], values)
    ensures InsertedRow((placeholders + [row])[|placeholders|], values + record) == record
  {
    forall r | 0 <= r < |placeholders|
      ensures Bound(values + record, placeholders[r])
      ensures InsertedRow(placeholders[r], values + record) == InsertedRow(placeholders[r], values)
    {
      assert Bound(values, placeholders[r]);
    }
  }

  // ── The dev database ───────────────────────────────────────────────────────

  /** `x` is emptied when `t` is truncated with CASCADE. */
  ghost predicate Reached(fk: Graph, x: string, t: string) { x == t || Depends(fk, x, t) }

  class DevDatabase {
    const fk: Graph
    var tables: map<string, seq<Record>>

    ghost predicate Valid()
      reads this
    {
      Closed(fk) && tables.Keys == fk.Keys
    }

    constructor (fk: Graph, tables: map<string, seq<Record>>)
      requires Closed(fk) && tables.Keys == fk.Keys
      ensures Valid() && this.fk == fk && this.tables == tables
    {
      this.fk, this.tables := fk, tables;
    }

    /** `TRUNCATE TABLE t CASCADE`: the group grows by every table referencing a table in it. */
    method Truncate(t: string)
      requires Valid() && t in tables
      modifies this`tables
      ensures Valid()
      ensures forall x :: x in tables ==> tables[x] == if Reached(fk, x, t) then [] else old(tables)[x]
    {
      var group := {t};
      var rest := fk.Keys - group;
      while exists x :: x in rest && exists p :: p in fk[x] && p in group
        invariant rest == fk.Keys - group && t in group && group <= fk.Keys
        invariant forall x :: x in group ==> Reached(fk, x, t)
        invariant tables == old(tables)
        decreases rest
      {
        var x :| x in rest && exists p :: p in fk[x] && p in group;
        ghost var p :| p in fk[x] && p in group;
        StepReaches(fk, x, p, t);
        group, rest := group + {x}, rest - {x};
      }
      forall x | x in fk && Reached(fk, x, t)
        ensures x in group
      {
        if x != t {
          var c :| Links(fk, c, x, t);
          ChainStaysInside(fk, group, c);
        }
      }
      tables := map x | x in tables :: if x in group then [] else tables[x];
    }

    method Insert(t: string, placeholders: seq<seq<nat>>, values: seq<Cell>)
      requires Valid() && t in tables
      requires AllBound(values, placeholders)
      modifies this`tables
      ensures Valid() && tables == old(tables)[t := old(tables)[t] + Inserted(placeholders, values)]
    {
      tables := tables[t := tables[t] + Inserted(placeholders, values)];
    }

    /** Copying one table: skip it when no column is shared; otherwise truncate, then insert by chunks. */
    method CopyTable(t: string, rows: seq<Record>, columns: nat)
      requires Valid() && t in tables
      requires forall r :: 0 <= r < |rows| ==> |rows[r]| == columns
      modifies this`tables
      ensures Valid()
      ensures forall x :: x in tables ==>
                tables[x] == if columns == 0 then old(tables)[x]
                             else if x == t then rows
                             else if Reached(fk, x, t) then [] else old(tables)[x]
    {
      if columns == 0 {
        return;
      }
      Truncate(t);
      var start := 0;
      while start < |rows|
        invariant 0 <= start && Valid()
        invariant tables[t] == if start < |rows| then rows[..start] else rows
        invariant forall x :: x in tables && x != t ==> tables[x] == if Reached(fk, x, t) then [] else old(tables)[x]
      {
        var end := if start + CHUNK_SIZE < |rows| then start + CHUNK_SIZE else |rows|;
        var placeholders, values := BuildInsert(rows[start..end], columns);
        Insert(t, placeholders, values);
        assert rows[..start] + rows[start..end] == rows[..end];
        assert rows[..|rows|] == rows;
        start := start + CHUNK_SIZE;
      }
    }

    /** The whole refresh, one transaction: an error on the table at position `failsAt` rolls everything
        back; a position past the end means there is none. */
    method Refresh(order: seq<string>, prod: map<string, seq<Record>>, columns: map<string, nat>, failsAt: nat)
      requires Valid() && Distinct(order) && ToSet(order) <= tables.Keys
      requires forall t :: t in order ==> t in prod && t in columns
      requires forall t, r :: t in order && 0 <= r < |prod[t]| ==> |prod[t][r]| == columns[t]
      modifies this`tables
      ensures Valid()
      ensures failsAt < |order| ==> tables == old(tables)
      ensures failsAt >= |order| ==> forall x :: x in tables ==>
              tables[x] == FinalRows(fk, old(tables), prod, Shared(order, columns), x)
    {
      var begun := tables;
      for i := 0 to |order|
        invariant Valid() && i <= failsAt
        invariant forall x :: x in tables ==>
                  tables[x] == FinalRows(fk, old(tables), prod, Shared(order[..i], columns), x)
      {
        if i == failsAt {
          tables := begun;
          return;
        }
        forall x | x in tables
          ensures FinalRows(fk, old(tables), prod, Shared(order[..i + 1], columns), x)
                  == FinalStep(fk, prod, columns, order[i], x,
                               FinalRows(fk, old(tables), prod, Shared(order[..i], columns), x))
        {
          FinalRowsSnoc(fk, old(tables), prod, columns, order, i, x);
        }
        CopyTable(order[i], prod[order[i]], columns[order[i]]);
      }
      assert order[..|order|] == order;
    }
  }

  lemma StepReaches(fk: Graph, x: string, p: string, t: string)
    requires x in fk && p in fk[x] && Reached(fk, p, t)
    ensures Depends(fk, x, t)
  {
    if p == t {
      EdgeDepends(fk, x, t);
    } else {
      var c :| Links(fk, c, p, t);
      assert Links(fk, [x] + c, x, t);
    }
  }

  /** A group that holds every table referencing one of its own holds every table that reaches it. */
  lemma {:induction false} ChainStaysInside(fk: Graph, group: set<string>, c: seq<string>)
    requires |c| >= 1 && Chain(fk, c) && c[|c| - 1] in group
    requires forall x, p :: x in fk && p in fk[x] && p in group ==> x in group
    ensures c[0] in group
    decreases |c|
  {
    if |c| > 1 {
      ChainStaysInside(fk, group, c[1..]);
    }
  }

  // ── What a refresh leaves ──────────────────────────────────────────────────

  /** The tables that are really copied, in order. */
  function Shared(order: seq<string>, columns: map<string, nat>): (shared: seq<string>)
    requires forall t :: t in order ==> t in columns
    ensures forall t :: t in shared ==> t in order
  {
    if order == [] then []
    else
      var last := order[|order| - 1];
      Shared(order[..|order| - 1], columns) + (if columns[last] == 0 then [] else [last])
  }

  /** A table's rows after copying `order`: the last step that reaches it decides. */
  ghost function FinalRows(fk: Graph, dev: map<string, seq<Record>>, prod: map<string, seq<Record>>, order: seq<string>,
                           x: string): seq<Record>
    requires x in dev && forall t :: t in order ==> t in prod
  {
    if order == [] then dev[x]
    else
      var last := order[|order| - 1];
      if x == last then prod[x]
      else if Reached(fk, x, last) then []
      else FinalRows(fk, dev, prod, order[..|order| - 1], x)
  }

  /** What one step makes of a table's rows. */
  ghost function FinalStep(fk: Graph, prod: map<string, seq<Record>>, columns: map<string, nat>, t: string, x: string,
                           rows: seq<Record>): seq<Record>
    requires t in prod && t in columns
  {
    if columns[t] == 0 then rows else if x == t then prod[t] else if Reached(fk, x, t) then [] else rows
  }

  lemma FinalRowsSnoc(fk: Graph, dev: map<string, seq<Record>>, prod: map<string, seq<Record>>,
                      columns: map<string, nat>,
                      order: seq<string>, i: nat, x: string)
    requires i < |order| && x in dev && forall t :: t in order ==> t in prod && t in columns
    ensures FinalRows(fk, dev, prod, Shared(order[..i + 1], columns), x)
            == FinalStep(fk, prod, columns, order[i], x, FinalRows(fk, dev, prod, Shared(order[..i], columns), x))
  {
    assert order[..i + 1][..i] == order[..i];
    var done, next := Shared(order[..i], columns), Shared(order[..i + 1], columns);
    assert next == if columns[order[i]] == 0 then done else done + [order[i]];
    assert columns[order[i]] != 0 ==> next[..|next| - 1] == done;
  }

  /** A copied table ends with prod's rows exactly when prod has none, or no table copied after it is one
      it references, directly or through others. */
  lemma {:induction false} SurvivesIff(fk: Graph, dev: map<string, seq<Record>>, prod: map<string, seq<Record>>,
                                       order: seq<string>, i: nat)
    requires Distinct(order) && i < |order| && order[i] in dev
    requires forall t :: t in order ==> t in prod
    ensures FinalRows(fk, dev, prod, order, order[i]) == prod[order[i]]
            <==> prod[order[i]] == [] || forall j :: i < j < |order| ==> !Depends(fk, order[i], order[j])
    decreases |order|
  {
    if i < |order| - 1 {
      var shorter := order[..|order| - 1];
      SurvivesIff(fk, dev, prod, shorter, i);
      assert forall j :: i < j < |order| - 1 ==> shorter[j] == order[j];
    }
  }

  /** A table outside the copy keeps its rows exactly when it had none, or it references no copied table:
      the script's own announcement that dev-only tables are left untouched does not hold for the rest. */
  lemma {:induction false} UntouchedIff(fk: Graph, dev: map<string, seq<Record>>, prod: map<string, seq<Record>>,
                                        order: seq<string>, x: string)
    requires x in dev && x !in order
    requires forall t :: t in order ==> t in prod
    ensures FinalRows(fk, dev, prod, order, x) == dev[x]
            <==> dev[x] == [] || forall t :: t in order ==> !Depends(fk, x, t)
  {
    if order != [] {
      var shorter := order[..|order| - 1];
      UntouchedIff(fk, dev, prod, shorter, x);
      assert order == shorter + [order[|order| - 1]];
    }
  }

  /** `u` comes somewhere after `t`. */
  ghost predicate Before(order: seq<string>, t: string, u: string) {
    exists a, b :: 0 <= a < b < |order| && order[a] == t && order[b] == u
  }

  lemma BeforeSnoc(order: seq<string>, last: string, t: string, u: string)
    requires Before(order, t, u) || (t in order && u == last)
    ensures Before(order + [last], t, u)
  {
    var longer := order + [last];
    if Before(order, t, u) {
      var a, b :| 0 <= a < b < |order| && order[a] == t && order[b] == u;
      assert longer[a] == t && longer[b] == u;
    } else {
      var a :| 0 <= a < |order| && order[a] == t;
      assert longer[a] == t && longer[|order|] == u;
    }
  }

  lemma {:induction false} SharedKeepsOrder(order: seq<string>, columns: map<string, nat>)
    requires Distinct(order) && forall t :: t in order ==> t in columns
    ensures Distinct(Shared(order, columns))
    ensures forall t :: t in order && columns[t] != 0 ==> t in Shared(order, columns)
    ensures forall i, j :: 0 <= i < j < |Shared(order, columns)| ==>
              Before(order, Shared(order, columns)[i], Shared(order, columns)[j])
  {
    if order != [] {
      var shorter, last := order[..|order| - 1], order[|order| - 1];
      SharedKeepsOrder(shorter, columns);
      var before, all := Shared(shorter, columns), Shared(order, columns);
      assert order == shorter + [last];
      forall i, j | 0 <= i < j < |all|
        ensures Before(order, all[i], all[j])
      {
        assert j >= |before| ==> all[i] in shorter;
        BeforeSnoc(shorter, last, all[i], all[j]);
      }
    }
  }

  /** Every way a truncate in dev can cascade from one synced table to another is a dependence the sort
      has seen. */
  ghost predicate Visible(fk: Graph, deps: Graph) {
    forall x, t :: x in deps && t in deps && x != t && Depends(fk, x, t) ==> Depends(deps, x, t)
  }

  /** Nothing is hidden as long as each synced table references in dev only what it references in prod among
      the synced tables. What the dev-only tables reference does not matter. */
  lemma SameKeysVisible(fk: Graph, deps: Graph)
    requires Closed(deps) && forall t :: t in deps && t in fk ==> ToSet(fk[t]) <= ToSet(deps[t])
    ensures Visible(fk, deps)
  {
    forall x, t | x in deps && t in deps && x != t && Depends(fk, x, t)
      ensures Depends(deps, x, t)
    {
      var c :| Links(fk, c, x, t);
      ChainStays(fk, deps, c);
      assert Links(deps, c, x, t);
    }
  }

  /** No step of the copy undoes an earlier one. */
  lemma CascadeSafe(fk: Graph, deps: Graph, sorted: seq<string>, columns: map<string, nat>, i: nat, j: nat)
    requires Closed(deps) && Distinct(sorted) && ToSet(sorted) == deps.Keys && Ordered(deps, sorted)
    requires Acyclic(deps) && Visible(fk, deps)
    requires forall t :: t in sorted ==> t in columns
    requires i < j < |Shared(sorted, columns)|
    ensures !Depends(fk, Shared(sorted, columns)[i], Shared(sorted, columns)[j])
  {
    var shared := Shared(sorted, columns);
    ParentsFirstIffAcyclic(deps, sorted);
    SharedKeepsOrder(sorted, columns);
    var a, b :| 0 <= a < b < |sorted| && sorted[a] == shared[i] && sorted[b] == shared[j];
    assert sorted[a] in ToSet(sorted) && sorted[b] in ToSet(sorted);
    if Depends(deps, sorted[a], sorted[b]) {
      DependsGoesBack(deps, sorted, a, sorted[b]);
    }
  }

  /** The i-th copied table holds prod's rows exactly when prod has none there, or no table copied after it is
      one it references, directly or through others. */
  ghost predicate CopiedAt(fk: Graph, tables: map<string, seq<Record>>, prod: map<string, seq<Record>>,
                           shared: seq<string>, i: nat)
    requires i < |shared|
  {
    && shared[i] in tables && shared[i] in prod
    && (tables[shared[i]] == prod[shared[i]]
        <==> prod[shared[i]] == [] || forall j :: i < j < |shared| ==> !Depends(fk, shared[i], shared[j]))
  }

  ghost predicate Copied(fk: Graph, tables: map<string, seq<Record>>, prod: map<string, seq<Record>>,
                         shared: seq<string>) {
    forall i :: 0 <= i < |shared| ==> CopiedAt(fk, tables, prod, shared, i)
  }

  /** The script from discovery to commit. After a refresh without errors each copied table holds prod's rows
      exactly under the condition above, on the order the sort returned; and so they all do if the references
      have no cycle through several tables and the sort saw every cascade. */
  method RefreshDevFromProd(dev: DevDatabase, tables: seq<string>, fks: seq<ForeignKey>,
                            prod: map<string, seq<Record>>, columns: map<string, nat>, failsAt: nat)
    returns (deps: Graph, order: seq<string>)
    requires dev.Valid() && ToSet(tables) <= dev.tables.Keys
    requires forall t :: t in tables ==> t in prod && t in columns
    requires forall t, r :: t in tables && 0 <= r < |prod[t]| ==> |prod[t][r]| == columns[t]
    modifies dev`tables
    ensures dev.Valid() && deps.Keys == ToSet(tables)
    ensures failsAt < |order| ==> dev.tables == old(dev.tables)
    ensures forall t :: t in order ==> t in columns
    ensures failsAt >= |order| ==> Copied(dev.fk, dev.tables, prod, Shared(order, columns))
    ensures failsAt >= |order| && Acyclic(deps) && Visible(dev.fk, deps) ==>
              forall t :: t in tables && columns[t] != 0 ==> dev.tables[t] == prod[t]
  {
    deps := BuildDependencies(tables, fks, true);
    var sorter := new Sorter(deps);
    sorter.Sort(tables);
    order := sorter.sorted;
    assert forall t :: t in order ==> t in ToSet(order);
    assert forall t :: t in ToSet(tables) ==> t in tables;
    dev.Refresh(order, prod, columns, failsAt);
    ghost var shared := Shared(order, columns);
    SharedKeepsOrder(order, columns);
    if failsAt >= |order| {
      forall i | 0 <= i < |shared|
        ensures CopiedAt(dev.fk, dev.tables, prod, shared, i)
      {
        assert shared[i] in order && shared[i] in ToSet(order);
        SurvivesIff(dev.fk, old(dev.tables), prod, shared, i);
      }
    }
    if failsAt >= |order| && Acyclic(deps) && Visible(dev.fk, deps) {
      forall t | t in tables && columns[t] != 0
        ensures dev.tables[t] == prod[t]
      {
        assert t in ToSet(tables) && t in ToSet(order) && t in shared;
        var i :| 0 <= i < |shared| && shared[i] == t;
        forall j | i < j < |shared|
          ensures !Depends(dev.fk, shared[i], shared[j])
        {
          CascadeSafe(dev.fk, deps, order, columns, i, j);
        }
        assert CopiedAt(dev.fk, dev.tables, prod, shared, i);
      }
    }
  }

  /** A dev-only table between two synced ones hides their dependence from the sort, which leaves them in the
      order of their names: the child, "a", is copied first and then emptied by the cascade from "b". */
  lemma HiddenTableLosesRows(row: Record)
    ensures var fk: Graph := map["a" := ["devOnly"], "b" := [], "devOnly" := ["b"]];
            var deps: Graph := map["a" := [], "b" := []];
            && Ordered(deps, ["a", "b"]) && ToSet(["a", "b"]) == deps.Keys && Acyclic(deps)
            && FinalRows(fk, map["a" := [], "b" := []], map["a" := [row], "b" := [row]], ["a", "b"], "a") == []
  {
    var fk: Graph := map["a" := ["devOnly"], "b" := [], "devOnly" := ["b"]];
    assert Links(fk, ["a", "devOnly", "b"], "a", "b");
    var deps: Graph := map["a" := [], "b" := []];
    forall c: seq<string>
      ensures Chain(deps, c) ==> |c| < 2
    {
      assert |c| >= 2 && c[0] in deps ==> c[0 + 1] !in deps[c[0]];
    }
  }

  // ── Creating the missing tables ────────────────────────────────────────────

  /** The dev catalogue while tables are being created, each with its references inline. */
  class Catalogue {
    var existing: set<string>

    constructor (existing: set<string>)
      ensures this.existing == existing
    {
      this.existing := existing;
    }

    /** `CREATE TABLE t` fails unless every table it references, other than itself, is there. */
    method CreateTable(t: string, refs: set<string>) returns (ok: bool)
      modifies this
      ensures ok <==> refs <= old(existing) + {t}
      ensures existing == if ok then old(existing) + {t} else old(existing)
    {
      ok := refs <= existing + {t};
      if ok {
        existing := existing + {t};
      }
    }

    /** The creation loop; the first failure aborts it. */
    method CreateAll(order: seq<string>, refs: map<string, set<string>>) returns (ok: bool)
      requires forall t :: t in order ==> t in refs
      modifies this
      ensures ok <==> forall i :: 0 <= i < |order| ==> Found(old(existing), order, refs, i)
      ensures ok ==> existing == old(existing) + ToSet(order)
    {
      for i := 0 to |order|
        invariant existing == old(existing) + ToSet(order[..i])
        invariant forall k :: 0 <= k < i ==> Found(old(existing), order, refs, k)
      {
        var created := CreateTable(order[i], refs[order[i]]);
        assert created <==> Found(old(existing), order, refs, i);
        if !created {
          return false;
        }
        assert order[..i + 1] == order[..i] + [order[i]];
      }
      assert order[..|order|] == order;
      ok := true;
    }
  }

  /** The references of the i-th table exist before the loop or are created before it. */
  predicate Found(existing: set<string>, order: seq<string>, refs: map<string, set<string>>, i: nat)
    requires i < |order| && order[i] in refs
  {
    refs[order[i]] <= existing + ToSet(order[..i]) + {order[i]}
  }

  lemma FoundIff(existing: set<string>, deps: Graph, order: seq<string>, refs: map<string, set<string>>)
    requires Closed(deps) && Distinct(order) && ToSet(order) == deps.Keys && Ordered(deps, order)
    requires deps.Keys <= refs.Keys && existing !! deps.Keys
    requires forall t, p :: t in deps ==> (p in deps[t] <==> p in refs[t] && p in deps && p != t)
    ensures (forall t :: t in order ==> t in refs) &&
            ((forall i :: 0 <= i < |order| ==> Found(existing, order, refs, i))
             <==> Acyclic(deps) && forall t, p :: t in deps && p in refs[t] ==> p in deps || p in existing)
  {
    assert forall t :: t in order ==> t in ToSet(order);
    ParentsFirstIffAcyclic(deps, order);
    if forall i :: 0 <= i < |order| ==> Found(existing, order, refs, i) {
      forall i, p | 0 <= i < |order| && order[i] in deps && p in deps[order[i]] && p != order[i]
        ensures p in order[..i]
      {
        assert Found(existing, order, refs, i) && p in ToSet(order[..i]);
      }
      forall t, p | t in deps && p in refs[t]
        ensures p in deps || p in existing
      {
        assert t in ToSet(order);
        var i :| 0 <= i < |order| && order[i] == t;
        assert Found(existing, order, refs, i);
        assert p in ToSet(order[..i]) ==> p in ToSet(order);
      }
    }
    if ParentsFirst(deps, order) && forall t, p :: t in deps && p in refs[t] ==> p in deps || p in existing {
      forall i | 0 <= i < |order|
        ensures Found(existing, order, refs, i)
      {
        forall p | p in refs[order[i]] && p != order[i] && p !in existing
          ensures p in ToSet(order[..i])
        {
          assert p in deps[order[i]];
        }
      }
    }
  }

  /** Sorting and then creating the missing tables succeeds exactly when their references have no cycle
      through several tables and every other table they reference is already there. */
  method CreateMissing(dev: Catalogue, missing: seq<string>, fks: seq<ForeignKey>) returns (deps: Graph, ok: bool)
    requires dev.existing !! ToSet(missing)
    modifies dev
    ensures deps.Keys == ToSet(missing)
    ensures ok <==>
              && Acyclic(deps)
              && forall fk :: fk in fks && fk.child in missing ==>
                   fk.parent in missing || fk.parent in old(dev.existing)
    ensures ok ==> dev.existing == old(dev.existing) + ToSet(missing)
  {
    deps := BuildDependencies(missing, fks, false);
    var sorter := new Sorter(deps);
    sorter.Sort(missing);
    var refs := map t | t in missing :: set fk | fk in fks && fk.child == t :: fk.parent;
    assert forall t, p :: t in refs ==> (p in refs[t] <==> ForeignKey(t, p) in fks);
    assert forall t :: t in missing <==> t in ToSet(missing);
    FoundIff(dev.existing, deps, sorter.sorted, refs);
    assert forall fk :: fk in fks ==> fk == ForeignKey(fk.child, fk.parent);
    ok := dev.CreateAll(sorter.sorted, refs);
  }
}
