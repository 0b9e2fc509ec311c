/** What the order of the copy is for: Postgres checks at the end of each INSERT that every row it added finds
    the rows it references (`scripts/refreshDevFromProd.js`, `scripts/createMissingTablesInDev.js`). */
module ForeignKeys {
  import opened DatabaseCopy
  import opened DependencyOrder

  /** A row of prod, by its table and its place among the rows the SELECT returned. */
  datatype Place = Place(table: string, row: nat)

  /** For each table and each of its rows, the rows it references (null references are left out). */
  type References = map<string, seq<seq<Place>>>

  /** In prod every reference is to an existing row of a table that is copied too. */
  ghost predicate Consistent(order: seq<string>, refs: References) {
    && (forall t :: t in order ==> t in refs)
    && forall t, i, p :: t in order && 0 <= i < |refs[t]| && p in refs[t][i] ==>
         p.table in order && p.row < |refs[p.table]|
  }

  /** Every other table that some row references is copied earlier. */
  ghost predicate EarlierParents(order: seq<string>, refs: References)
    requires Consistent(order, refs)
  {
    forall k, i, p :: 0 <= k < |order| && 0 <= i < |refs[order[k]]| && p in refs[order[k]][i] ==>
      p.table == order[k] || p.table in order[..k]
  }

  /** The sort puts parents earlier: what the rows reference, the tables do. */
  lemma SortedParents(deps: Graph, order: seq<string>, refs: References)
    requires Consistent(order, refs) && ParentsFirst(deps, order) && ToSet(order) == deps.Keys
    requires forall t, i, p :: t in order && 0 <= i < |refs[t]| && p in refs[t][i] ==> t in deps && p.table in deps[t]
    ensures EarlierParents(order, refs)
  {
  }

  /** The first row not yet inserted once the chunk of row `i` is. */
  function ChunkEnd(i: nat, rows: nat): nat {
    var end := (i / CHUNK_SIZE + 1) * CHUNK_SIZE;
    if end < rows then end else rows
  }

  /** The references of row `i` of `t` are there when its chunk is, given what was copied before the table. */
  predicate Finds(before: map<string, nat>, t: string, rows: seq<seq<Place>>, i: nat)
    requires i < |rows|
  {
    forall p :: p in rows[i] ==>
      if p.table == t then p.row < ChunkEnd(i, |rows|) else p.table in before && p.row < before[p.table]
  }

  /** `copied` holds, per table, how many of prod's rows are in dev, in prod's order. */
  class CheckedCopy {
    var copied: map<string, nat>

    constructor ()
      ensures copied == map[]
    {
      copied := map[];
    }

    /** One INSERT: rows `start` to `end` of `t` go in unless one of them misses a row it references. */
    method InsertChunk(t: string, rows: seq<seq<Place>>, start: nat, end: nat) returns (ok: bool)
      requires start <= end <= |rows|
      modifies this
      ensures ok <==> forall i, p :: start <= i < end && p in rows[i] ==>
                        p.table in old(copied)[t := end] && p.row < old(copied)[t := end][p.table]
      ensures copied == if ok then old(copied)[t := end] else old(copied)
    {
      var after := copied[t := end];
      ok := forall i, p | start <= i < end && p in rows[i] :: p.table in after && p.row < after[p.table];
      if ok {
        copied := after;
      }
    }

    method CopyTable(t: string, rows: seq<seq<Place>>) returns (ok: bool)
      modifies this
      ensures ok <==> forall i :: 0 <= i < |rows| ==> Finds(old(copied), t, rows, i)
      ensures ok ==> copied == old(copied)[t := |rows|]
    {
      copied := copied[t := 0];
      var start := 0;
      while start < |rows|
        invariant start % CHUNK_SIZE == 0
        invariant copied == old(copied)[t := if start < |rows| then start else |rows|]
        invariant forall i :: 0 <= i < start && i < |rows| ==> Finds(old(copied), t, rows, i)
      {
        var end := if start + CHUNK_SIZE < |rows| then start + CHUNK_SIZE else |rows|;
        assert forall i :: start <= i < end ==> ChunkEnd(i, |rows|) == end;
        ok := InsertChunk(t, rows, start, end);
        ChunkFinds(old(copied), t, rows, start, end);
        if !ok {
          return;
        }
        start := start + CHUNK_SIZE;
      }
      ok := true;
    }
  }

  /** The check of one INSERT, row by row. */
  lemma ChunkFinds(before: map<string, nat>, t: string, rows: seq<seq<Place>>, start: nat, end: nat)
    requires start <= end <= |rows| && forall i :: start <= i < end ==> ChunkEnd(i, |rows|) == end
    ensures (forall i, p :: start <= i < end && p in rows[i] ==>
             p.table in before[t := end] && p.row < before[t := end][p.table])
            <==> forall i :: start <= i < end ==> Finds(before, t, rows, i)
  {
    forall i, p | start <= i < end && p in rows[i]
      ensures p.table in before[t := end] && p.row < before[t := end][p.table]
              <==> if p.table == t then p.row < ChunkEnd(i, |rows|) else p.table in before && p.row < before[p.table]
    {
    }
    if forall i :: start <= i < end ==> Finds(before, t, rows, i) {
      forall i, p | start <= i < end && p in rows[i]
        ensures p.table in before[t := end] && p.row < before[t := end][p.table]
      {
        assert Finds(before, t, rows, i);
      }
    }
  }

  /** No reference within a table points past the chunk of its row. */
  ghost predicate SelfReferencesInReach(order: seq<string>, refs: References)
    requires Consistent(order, refs)
  {
    forall t, i, p :: t in order && 0 <= i < |refs[t]| && p in refs[t][i] && p.table == t ==>
      p.row / CHUNK_SIZE <= i / CHUNK_SIZE
  }

  lemma ReachIsChunk(i: nat, row: nat, rows: nat)
    requires row < rows
    ensures row < ChunkEnd(i, rows) <==> row / CHUNK_SIZE <= i / CHUNK_SIZE
  {
  }

  /** Copying in parents-first order, no INSERT fails a foreign key exactly if every reference of a table to
      itself stays within the rows inserted so far or together: a table of up to one chunk always does. */
  method CopyAll(copy: CheckedCopy, order: seq<string>, refs: References) returns (ok: bool)
    requires Distinct(order) && Consistent(order, refs) && EarlierParents(order, refs) && copy.copied == map[]
    modifies copy
    ensures ok <==> SelfReferencesInReach(order, refs)
  {
    for k := 0 to |order|
      invariant copy.copied.Keys == ToSet(order[..k]) && forall t :: t in copy.copied ==> copy.copied[t] == |refs[t]|
      invariant forall j, i :: 0 <= j < k && 0 <= i < |refs[order[j]]| ==> OwnInReach(order[j], refs[order[j]], i)
    {
      ghost var before := copy.copied;
      var t := order[k];
      ok := copy.CopyTable(t, refs[t]);
      forall i | 0 <= i < |refs[t]|
        ensures Finds(before, t, refs[t], i) <==> OwnInReach(t, refs[t], i)
      {
        FindsIffOwn(before, order, refs, k, i);
      }
      if !ok {
        ghost var i :| 0 <= i < |refs[t]| && !OwnInReach(t, refs[t], i);
        assert t in order;
        return;
      }
      assert order[..k + 1] == order[..k] + [t];
    }
    ok := true;
    forall t | t in order
      ensures forall i :: 0 <= i < |refs[t]| ==> OwnInReach(t, refs[t], i)
    {
      var j :| 0 <= j < |order| && order[j] == t;
    }
    forall t, i, p | t in order && 0 <= i < |refs[t]| && p in refs[t][i] && p.table == t
      ensures p.row / CHUNK_SIZE <= i / CHUNK_SIZE
    {
      assert OwnInReach(t, refs[t], i);
    }
  }

  function LongTable(): seq<seq<Place>> {
    seq(CHUNK_SIZE + 1, i requires 0 <= i <= CHUNK_SIZE => if i == 0 then [Place("t", CHUNK_SIZE)] else [])
  }

  /** A table of 501 rows whose first row references its last cannot be copied. */
  lemma LongSelfReferenceFails()
    ensures var rows := LongTable();
            |rows| == 501 && Consistent(["t"], map["t" := rows]) && !SelfReferencesInReach(["t"], map["t" := rows])
  {
    var rows := LongTable();
    assert Place("t", CHUNK_SIZE) in rows[0] && "t" in ["t"];
  }

  predicate OwnInReach(t: string, rows: seq<seq<Place>>, i: nat)
    requires i < |rows|
  {
    forall p :: p in rows[i] && p.table == t ==> p.row / CHUNK_SIZE <= i / CHUNK_SIZE
  }

  /** With its parents copied whole, a row lacks at most rows of its own table. */
  lemma FindsIffOwn(before: map<string, nat>, order: seq<string>, refs: References, k: nat, i: nat)
    requires Consistent(order, refs) && EarlierParents(order, refs) && k < |order| && i < |refs[order[k]]|
    requires before.Keys == ToSet(order[..k]) && forall t :: t in before ==> before[t] == |refs[t]|
    ensures Finds(before, order[k], refs[order[k]], i) <==> OwnInReach(order[k], refs[order[k]], i)
  {
    var t := order[k];
    forall p | p in refs[t][i]
      ensures p.table != t ==> p.table in before && p.row < before[p.table]
      ensures p.table == t ==> (p.row < ChunkEnd(i, |refs[t]|) <==> p.row / CHUNK_SIZE <= i / CHUNK_SIZE)
    {
      if p.table == t {
        ReachIsChunk(i, p.row, |refs[t]|);
      } else {
        assert p.table in ToSet(order[..k]);
      }
    }
  }
}
