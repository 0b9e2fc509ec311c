/** The All Vehicles mirror of `server/fleet-scope-all-vehicles-mirror.ts`: four Snowflake reads are joined
    per vehicle at refresh time, stored, and taken apart again at read time. */
module FleetMirror {
  import opened Text

  // ── Sources ────────────────────────────────────────────────────────────────

  datatype Odometer = Odometer(reading: Option<string>, date: Option<string>, plate: Option<string>)

  datatype Tech = Tech(fullName: string, techNo: string, phone: string)

  /** A roster row: the two join columns and the other twenty-two. */
  datatype BaseRow = BaseRow(vehicleNumber: Option<string>, vin: Option<string>, rest: seq<Option<string>>)

  datatype OdometerRow = OdometerRow(vin: Option<string>, odometer: Odometer)

  datatype StatusRow = StatusRow(number: Option<string>, status: Option<string>)

  datatype TechRow = TechRow(truck: Option<string>, tech: Tech)

  datatype Sources = Sources(
    base: seq<BaseRow>,
    odometers: seq<OdometerRow>,
    statuses: seq<StatusRow>,
    techs: seq<TechRow>,
    unassigned: seq<Option<string>>)

  predicate Truthy(s: Option<string>) { s.Some? && s.value != "" }

  function OrEmpty(s: Option<string>): string { if s.Some? then s.value else "" }

  function VinOf(b: BaseRow): string { VinKey(OrEmpty(b.vin)) }

  function TruckOf(b: BaseRow): string { NormalizeFleetId(Trim(OrEmpty(b.vehicleNumber))) }

  // ── Maps built from the sources ────────────────────────────────────────────

  function Put<V>(m: map<string, V>, e: Option<(string, V)>): map<string, V> {
    if e.Some? then m[e.value.0 := e.value.1] else m
  }

  /** Setting the entries one by one: the last one under a key wins. */
  function LastWins<V>(entries: seq<Option<(string, V)>>): map<string, V> {
    if entries == [] then map[] else Put(LastWins(entries[..|entries| - 1]), entries[|entries| - 1])
  }

  /** The entry each row contributes, if any. */
  function OdometerEntries(rows: seq<OdometerRow>): seq<Option<(string, Odometer)>> {
    seq(|rows|, i requires 0 <= i < |rows| =>
      if Truthy(rows[i].vin) then Some((VinKey(rows[i].vin.value), rows[i].odometer)) else None)
  }

  function StatusEntries(rows: seq<StatusRow>): seq<Option<(string, string)>> {
    seq(|rows|, i requires 0 <= i < |rows| =>
      if Truthy(rows[i].number) && Truthy(rows[i].status)
      then Some((NormalizeFleetId(rows[i].number.value), Trim(rows[i].status.value))) else None)
  }

  function TechEntries(rows: seq<TechRow>): seq<Option<(string, Tech)>> {
    seq(|rows|, i requires 0 <= i < |rows| =>
      if Truthy(rows[i].truck) then Some((NormalizeFleetId(rows[i].truck.value), rows[i].tech)) else None)
  }

  predicate Under<V>(e: Option<(string, V)>, key: string) { e.Some? && e.value.0 == key }

  /** A built map has exactly the keys of its entries. */
  lemma {:induction false} LastWinsKeys<V>(entries: seq<Option<(string, V)>>, key: string)
    ensures key in LastWins(entries) <==> exists i :: 0 <= i < |entries| && Under(entries[i], key)
  {
    if entries != [] {
      var n := |entries| - 1;
      LastWinsKeys(entries[..n], key);
      assert forall i :: 0 <= i < n ==> entries[..n][i] == entries[i];
    }
  }

  /** Under each key it has the value of the last entry there. */
  lemma {:induction false} LastWinsValues<V>(entries: seq<Option<(string, V)>>, key: string, i: nat)
    requires i < |entries| && Under(entries[i], key) && forall j :: i < j < |entries| ==> !Under(entries[j], key)
    ensures key in LastWins(entries) && LastWins(entries)[key] == entries[i].value.1
  {
    var n := |entries| - 1;
    if i < n {
      assert !Under(entries[n], key);
      LastWinsValues(entries[..n], key, i);
    }
  }

  /** So under each key it has the value of the last entry there, or nothing if there is none. */
  lemma {:induction false} LastIndex<V>(entries: seq<Option<(string, V)>>, key: string) returns (i: nat)
    ensures key in LastWins(entries) ==>
              && i < |entries| && Under(entries[i], key) && LastWins(entries)[key] == entries[i].value.1
              && forall j :: i < j < |entries| ==> !Under(entries[j], key)
    ensures key !in LastWins(entries) ==> forall j :: 0 <= j < |entries| ==> !Under(entries[j], key)
  {
    LastWinsKeys(entries, key);
    i := |entries|;
    while i > 0 && !Under(entries[i - 1], key)
      invariant i <= |entries| && forall j :: i <= j < |entries| ==> !Under(entries[j], key)
    {
      i := i - 1;
    }
    if i > 0 {
      i := i - 1;
      LastWinsValues(entries, key, i);
    }
  }

  /** The row is about this vehicle. */
  predicate IsOdometerOf(r: OdometerRow, vin: string) {
    r.vin.Some? && r.vin.value != "" && Upper(Trim(r.vin.value)) == vin
  }

  predicate IsStatusOf(r: StatusRow, number: string) {
    && r.number.Some? && r.number.value != "" && r.status.Some? && r.status.value != ""
    && NormalizeFleetId(r.number.value) == number
  }

  predicate IsTechOf(r: TechRow, number: string) {
    r.truck.Some? && r.truck.value != "" && NormalizeFleetId(r.truck.value) == number
  }

  /** `found` is what the last row about the vehicle says; None if there is no such row. */
  ghost predicate LastOdometer(rows: seq<OdometerRow>, vin: string, found: Option<Odometer>) {
    if found.None? then forall i :: 0 <= i < |rows| ==> !IsOdometerOf(rows[i], vin)
    else exists i :: 0 <= i < |rows| && IsOdometerOf(rows[i], vin) && rows[i].odometer == found.value
                     && forall j :: i < j < |rows| ==> !IsOdometerOf(rows[j], vin)
  }

  ghost predicate LastStatus(rows: seq<StatusRow>, number: string, found: Option<string>) {
    if found.None? then forall i :: 0 <= i < |rows| ==> !IsStatusOf(rows[i], number)
    else exists i :: 0 <= i < |rows| && IsStatusOf(rows[i], number) && Trim(rows[i].status.value) == found.value
                     && forall j :: i < j < |rows| ==> !IsStatusOf(rows[j], number)
  }

  ghost predicate LastTech(rows: seq<TechRow>, number: string, found: Option<Tech>) {
    if found.None? then forall i :: 0 <= i < |rows| ==> !IsTechOf(rows[i], number)
    else exists i :: 0 <= i < |rows| && IsTechOf(rows[i], number) && rows[i].tech == found.value
                     && forall j :: i < j < |rows| ==> !IsTechOf(rows[j], number)
  }

  lemma OdometersAreLast(rows: seq<OdometerRow>, vin: string)
    ensures LastOdometer(rows, vin, Lookup(LastWins(OdometerEntries(rows)), vin))
  {
    var i := LastIndex(OdometerEntries(rows), vin);
    assert forall j :: 0 <= j < |rows| ==> (IsOdometerOf(rows[j], vin) <==> Under(OdometerEntries(rows)[j], vin));
  }

  lemma StatusesAreLast(rows: seq<StatusRow>, number: string)
    ensures LastStatus(rows, number, Lookup(LastWins(StatusEntries(rows)), number))
  {
    var i := LastIndex(StatusEntries(rows), number);
    assert forall j :: 0 <= j < |rows| ==> (IsStatusOf(rows[j], number) <==> Under(StatusEntries(rows)[j], number));
  }

  lemma TechsAreLast(rows: seq<TechRow>, number: string)
    ensures LastTech(rows, number, Lookup(LastWins(TechEntries(rows)), number))
  {
    var i := LastIndex(TechEntries(rows), number);
    assert forall j :: 0 <= j < |rows| ==> (IsTechOf(rows[j], number) <==> Under(TechEntries(rows)[j], number));
  }

  lemma LastWinsSnoc<V>(entries: seq<Option<(string, V)>>, last: Option<(string, V)>)
    ensures LastWins(entries + [last]) == Put(LastWins(entries), last)
  {
    assert (entries + [last])[..|entries|] == entries;
  }

  method BuildOdometerMap(rows: seq<OdometerRow>) returns (m: map<string, Odometer>)
    ensures m == LastWins(OdometerEntries(rows))
    ensures forall vin :: LastOdometer(rows, vin, Lookup(m, vin))
  {
    m := map[];
    for i := 0 to |rows|
      invariant m == LastWins(OdometerEntries(rows[..i]))
    {
      LastWinsSnoc(OdometerEntries(rows[..i]), OdometerEntries(rows)[i]);
      assert OdometerEntries(rows[..i + 1]) == OdometerEntries(rows[..i]) + [OdometerEntries(rows)[i]];
      if Truthy(rows[i].vin) {
        m := m[VinKey(rows[i].vin.value) := rows[i].odometer];
      }
    }
    assert rows[..|rows|] == rows;
    forall vin
      ensures LastOdometer(rows, vin, Lookup(m, vin))
    {
      OdometersAreLast(rows, vin);
    }
  }

  method BuildStatusMap(rows: seq<StatusRow>) returns (m: map<string, string>)
    ensures m == LastWins(StatusEntries(rows))
    ensures forall number :: LastStatus(rows, number, Lookup(m, number))
  {
    m := map[];
    for i := 0 to |rows|
      invariant m == LastWins(StatusEntries(rows[..i]))
    {
      LastWinsSnoc(StatusEntries(rows[..i]), StatusEntries(rows)[i]);
      assert StatusEntries(rows[..i + 1]) == StatusEntries(rows[..i]) + [StatusEntries(rows)[i]];
      if Truthy(rows[i].number) && Truthy(rows[i].status) {
        m := m[NormalizeFleetId(rows[i].number.value) := Trim(rows[i].status.value)];
      }
    }
    assert rows[..|rows|] == rows;
    forall number
      ensures LastStatus(rows, number, Lookup(m, number))
    {
      StatusesAreLast(rows, number);
    }
  }

  method BuildTechMap(rows: seq<TechRow>) returns (m: map<string, Tech>)
    ensures m == LastWins(TechEntries(rows))
    ensures forall number :: LastTech(rows, number, Lookup(m, number))
  {
    m := map[];
    for i := 0 to |rows|
      invariant m == LastWins(TechEntries(rows[..i]))
    {
      LastWinsSnoc(TechEntries(rows[..i]), TechEntries(rows)[i]);
      assert TechEntries(rows[..i + 1]) == TechEntries(rows[..i]) + [TechEntries(rows)[i]];
      if Truthy(rows[i].truck) {
        m := m[NormalizeFleetId(rows[i].truck.value) := rows[i].tech];
      }
    }
    assert rows[..|rows|] == rows;
    forall number
      ensures LastTech(rows, number, Lookup(m, number))
    {
      TechsAreLast(rows, number);
    }
  }

  // ── The stored mirror ──────────────────────────────────────────────────────

  datatype Stored =
    | BaseRecord(seqNo: nat, key: string, row: BaseRow, odometer: Option<Odometer>, status: Option<string>,
                 techName: Option<string>, techNo: Option<string>, techPhone: Option<string>)
    | UnassignedRecord(seqNo: nat, key: string, number: string)

  /** Joining one roster row with the three maps. */
  function Folded(b: BaseRow, seqNo: nat, odometers: map<string, Odometer>, statuses: map<string, string>,
                  techs: map<string, Tech>): Stored {
    var tech := Lookup(techs, TruckOf(b));
    BaseRecord(seqNo, TruckOf(b), b,
               if VinOf(b) != "" then Lookup(odometers, VinOf(b)) else None,
               Lookup(statuses, TruckOf(b)),
               if tech.Some? then Some(tech.value.fullName) else None,
               if tech.Some? then Some(tech.value.techNo) else None,
               if tech.Some? then Some(tech.value.phone) else None)
  }

  function FoldedRows(base: seq<BaseRow>, o: map<string, Odometer>, s: map<string, string>,
                      t: map<string, Tech>): (rows: seq<Stored>)
    ensures |rows| == |base|
  {
    seq(|base|, i requires 0 <= i < |base| => Folded(base[i], i, o, s, t))
  }

  lemma FoldedRowsSnoc(base: seq<BaseRow>, n: nat, o: map<string, Odometer>, s: map<string, string>,
                       t: map<string, Tech>)
    requires n < |base|
    ensures FoldedRows(base[..n + 1], o, s, t) == FoldedRows(base[..n], o, s, t) + [Folded(base[n], n, o, s, t)]
  {
    assert base[..n + 1] == base[..n] + [base[n]];
  }

  function BaseRecords(src: Sources): seq<Stored> {
    FoldedRows(src.base, LastWins(OdometerEntries(src.odometers)), LastWins(StatusEntries(src.statuses)),
               LastWins(TechEntries(src.techs)))
  }

  function UnassignedRecords(src: Sources): seq<Stored> {
    seq(|src.unassigned|, i requires 0 <= i < |src.unassigned| =>
      UnassignedRecord(i, NormalizeFleetId(OrEmpty(src.unassigned[i])), OrEmpty(src.unassigned[i])))
  }

  predicate AllBase(s: seq<Stored>) { forall i :: 0 <= i < |s| ==> s[i].BaseRecord? }

  predicate AllUnassigned(s: seq<Stored>) { forall i :: 0 <= i < |s| ==> s[i].UnassignedRecord? }

  function Rows(s: seq<Stored>): set<Stored> { set r | r in s }

  function BaseOnly(rows: set<Stored>): set<Stored> { set r | r in rows && r.BaseRecord? }

  function UnassignedOnly(rows: set<Stored>): set<Stored> { set r | r in rows && r.UnassignedRecord? }

  predicate Ascending(s: seq<Stored>) {
    forall i, j :: 0 <= i < j < |s| ==> s[i].seqNo < s[j].seqNo
  }

  /** No two rows share a sequence number. */
  predicate Numbered(rows: set<Stored>) {
    forall a, b :: a in rows && b in rows && a.seqNo == b.seqNo ==> a == b
  }

  lemma RowsEmpty(s: seq<Stored>)
    ensures Rows(s) == {} <==> s == []
  {
    if s != [] {
      assert s[0] in Rows(s);
    }
  }

  lemma RowsTail(s: seq<Stored>)
    requires Ascending(s) && s != []
    ensures Rows(s[1..]) == Rows(s) - {s[0]} && Ascending(s[1..])
  {
    assert s == [s[0]] + s[1..];
  }

  /** A table has one ascending listing. */
  lemma {:induction false} AscendingIsUnique(s: seq<Stored>, t: seq<Stored>)
    requires Ascending(s) && Ascending(t) && Rows(s) == Rows(t)
    ensures s == t
    decreases |s|
  {
    RowsEmpty(s);
    RowsEmpty(t);
    if s != [] && t != [] {
      assert s[0] in Rows(t) && s[0] in t;
      assert t[0] in Rows(s) && t[0] in s;
      RowsTail(s);
      RowsTail(t);
      AscendingIsUnique(s[1..], t[1..]);
      assert s == [s[0]] + s[1..] && t == [t[0]] + t[1..];
    }
  }

  lemma RowsInsert(s: seq<Stored>, k: nat, r: Stored)
    requires k <= |s|
    ensures Rows(s[..k] + [r] + s[k..]) == Rows(s) + {r}
  {
    assert s == s[..k] + s[k..];
  }

  /** A row that is not there yet, put before the first one numbered no lower. */
  lemma InsertAscending(s: seq<Stored>, k: nat, r: Stored)
    requires Ascending(s) && k <= |s| && Numbered(Rows(s) + {r}) && r !in Rows(s)
    requires (forall i :: 0 <= i < k ==> s[i].seqNo < r.seqNo) && (k < |s| ==> s[k].seqNo >= r.seqNo)
    ensures Ascending(s[..k] + [r] + s[k..])
  {
    assert k < |s| ==> s[k] in Rows(s) && s[k].seqNo != r.seqNo;
  }

  method Position(s: seq<Stored>, seqNo: int) returns (k: nat)
    ensures k <= |s| && (forall i :: 0 <= i < k ==> s[i].seqNo < seqNo) && (k < |s| ==> s[k].seqNo >= seqNo)
  {
    k := 0;
    while k < |s| && s[k].seqNo < seqNo
      invariant 0 <= k <= |s| && forall i :: 0 <= i < k ==> s[i].seqNo < seqNo
    {
      k := k + 1;
    }
  }

  /** `ORDER BY seq` */
  method OrderBySeq(rows: set<Stored>) returns (s: seq<Stored>)
    requires Numbered(rows)
    ensures Ascending(s) && Rows(s) == rows
  {
    s := [];
    var rest := rows;
    while exists r :: r in rest
      invariant rest <= rows && Rows(s) == rows - rest && Ascending(s)
      decreases rest
    {
      var r :| r in rest;
      var k := Position(s, r.seqNo);
      InsertAscending(s, k, r);
      RowsInsert(s, k, r);
      s := s[..k] + [r] + s[k..];
      rest := rest - {r};
    }
  }

  // ── Writing ────────────────────────────────────────────────────────────────

  const INSERT_BATCH: nat := 1000

  /** What can go wrong while writing: each attempt may fail, and only a transient drop on the first one
      is retried. */
  datatype WriteWorld = WriteWorld(firstFails: bool, transient: bool, secondFails: bool) {
    predicate Succeeds() { !firstFails || (transient && !secondFails) }
  }

  /** What a refresh finds: the lock, the sources (None when any of the five reads fails), the write. */
  datatype RefreshWorld = RefreshWorld(lockGranted: bool, sources: Option<Sources>, write: WriteWorld)

  datatype RefreshResult = Refreshed | LockHeld | EmptyBase | SuspectShrink | Failed

  /** A roster of `next` rows may replace one of `current`: neither empty nor less than half of it. */
  predicate Plausible(current: nat, next: nat) { next > 0 && !(current > 0 && 2 * next < current) }

  /** The guards, in order: a refused lock, a failed read, an empty or suspiciously small roster, a failed
      write. */
  function RefreshOutcome(currentBase: nat, w: RefreshWorld): RefreshResult {
    if !w.lockGranted then LockHeld
    else if w.sources.None? then Failed
    else if w.sources.value.base == [] then EmptyBase
    else if !Plausible(currentBase, |w.sources.value.base|) then SuspectShrink
    else if w.write.Succeeds() then Refreshed
    else Failed
  }

  /** Joining the roster: every row with what the three maps know of it. */
  method FoldBase(src: Sources) returns (records: seq<Stored>)
    ensures records == BaseRecords(src)
  {
    var odometers := BuildOdometerMap(src.odometers);
    var statuses := BuildStatusMap(src.statuses);
    var techs := BuildTechMap(src.techs);
    records := [];
    for i := 0 to |src.base|
      invariant records == FoldedRows(src.base[..i], odometers, statuses, techs)
    {
      FoldedRowsSnoc(src.base, i, odometers, statuses, techs);
      records := records + [Folded(src.base[i], i, odometers, statuses, techs)];
    }
    assert src.base[..|src.base|] == src.base;
  }

  method FoldRecords(src: Sources) returns (records: seq<Stored>)
    ensures records == BaseRecords(src) + UnassignedRecords(src)
  {
    var base := FoldBase(src);
    var unassigned: seq<Stored> := [];
    for i := 0 to |src.unassigned|
      invariant unassigned == UnassignedRecords(src)[..i]
    {
      var raw := OrEmpty(src.unassigned[i]);
      unassigned := unassigned + [UnassignedRecord(i, NormalizeFleetId(raw), raw)];
    }
    records := base + unassigned;
  }

  class MirrorTable {
    var rows: set<Stored>

    /** Sequence numbers are unique within each record kind. */
    ghost predicate Valid()
      reads this
    {
      Numbered(BaseOnly(rows)) && Numbered(UnassignedOnly(rows))
    }

    constructor ()
      ensures Valid() && rows == {}
    {
      rows := {};
    }

    /** Truncate and refill in one transaction, by batches. */
    method WriteOnce(fresh': seq<Stored>, fails: bool)
      modifies this
      ensures rows == if fails then old(rows) else Rows(fresh')
    {
      var staged: set<Stored> := {};
      var i := 0;
      while i < |fresh'|
        invariant 0 <= i && staged == if i < |fresh'| then Rows(fresh'[..i]) else Rows(fresh')
      {
        var end := if i + INSERT_BATCH < |fresh'| then i + INSERT_BATCH else |fresh'|;
        staged := staged + Rows(fresh'[i..end]);
        assert fresh'[..end] == fresh'[..i] + fresh'[i..end];
        assert fresh'[..|fresh'|] == fresh';
        i := i + INSERT_BATCH;
      }
      if !fails {
        rows := staged;
      }
    }

    method WriteMirror(fresh': seq<Stored>, w: WriteWorld) returns (ok: bool)
      modifies this
      ensures ok == w.Succeeds()
      ensures rows == if ok then Rows(fresh') else old(rows)
    {
      WriteOnce(fresh', w.firstFails);
      if !w.firstFails {
        return true;
      }
      if !w.transient {
        return false;
      }
      WriteOnce(fresh', w.secondFails);
      ok := !w.secondFails;
    }

    method RefreshMirror(w: RefreshWorld) returns (result: RefreshResult)
      requires Valid()
      modifies this
      ensures Valid() && result == RefreshOutcome(old(|BaseOnly(rows)|), w)
      ensures result == LockHeld <==> !w.lockGranted
      ensures result == EmptyBase <==> w.lockGranted && w.sources.Some? && w.sources.value.base == []
      ensures result == SuspectShrink <==>
                && w.lockGranted && w.sources.Some? && w.sources.value.base != []
                && 2 * |w.sources.value.base| < old(|BaseOnly(rows)|)
      ensures result == Refreshed <==>
                && w.lockGranted && w.sources.Some? && w.sources.value.base != []
                && 2 * |w.sources.value.base| >= old(|BaseOnly(rows)|)
                && (!w.write.firstFails || (w.write.transient && !w.write.secondFails))
      ensures result != Refreshed ==> rows == old(rows)
      ensures result == Refreshed ==> rows == Rows(BaseRecords(w.sources.value) + UnassignedRecords(w.sources.value))
    {
      if !w.lockGranted {
        return LockHeld;
      }
      if w.sources.None? {
        return Failed;
      }
      var src := w.sources.value;
      var records := FoldRecords(src);
      if |src.base| == 0 {
        return EmptyBase;
      }
      var current := |BaseOnly(rows)|;
      if current > 0 && 2 * |src.base| < current {
        return SuspectShrink;
      }
      RecordsSplit(src);
      var ok := WriteMirror(records, w.write);
      result := if ok then Refreshed else Failed;
    }
  }

  /** The stored rows of a refresh split back into their two kinds, each listed in order. */
  lemma RecordsSplit(src: Sources)
    ensures var rows := Rows(BaseRecords(src) + UnassignedRecords(src));
            && BaseOnly(rows) == Rows(BaseRecords(src)) && UnassignedOnly(rows) == Rows(UnassignedRecords(src))
            && Numbered(BaseOnly(rows)) && Numbered(UnassignedOnly(rows))
    ensures Ascending(BaseRecords(src)) && Ascending(UnassignedRecords(src))
    ensures |BaseOnly(Rows(BaseRecords(src) + UnassignedRecords(src)))| == |src.base|
  {
    AscendingCount(BaseRecords(src));
    AscendingNumbered(BaseRecords(src));
    AscendingNumbered(UnassignedRecords(src));
    SplitKinds(BaseRecords(src), UnassignedRecords(src));
  }

  lemma SplitKinds(base: seq<Stored>, unassigned: seq<Stored>)
    requires AllBase(base) && AllUnassigned(unassigned)
    ensures BaseOnly(Rows(base + unassigned)) == Rows(base)
            && UnassignedOnly(Rows(base + unassigned)) == Rows(unassigned)
  {
  }

  lemma AscendingNumbered(s: seq<Stored>)
    requires Ascending(s)
    ensures Numbered(Rows(s))
  {
  }

  lemma {:induction false} AscendingCount(s: seq<Stored>)
    requires Ascending(s)
    ensures |Rows(s)| == |s|
  {
    if s != [] {
      var shorter, last := s[..|s| - 1], s[|s| - 1];
      AscendingCount(shorter);
      assert Rows(s) == Rows(shorter) + {last};
      assert last !in shorter;
    }
  }

  // ── Reading ────────────────────────────────────────────────────────────────

  /** What a reader is handed. */
  datatype View = View(
    data: seq<BaseRow>,
    odometerByVin: map<string, Odometer>,
    statusByVehicle: map<string, string>,
    technicians: map<string, Tech>,
    unassigned: seq<string>)

  /** The entry a stored row contributes to each of the reader's three maps, if any. */
  function OdometerEntry(r: Stored): Option<(string, Odometer)>
    requires r.BaseRecord?
  {
    if r.odometer.Some? && VinOf(r.row) != "" then Some((VinOf(r.row), r.odometer.value)) else None
  }

  function StatusEntry(r: Stored): Option<(string, string)>
    requires r.BaseRecord?
  {
    if r.status.Some? then Some((TruckOf(r.row), r.status.value)) else None
  }

  function TechEntry(r: Stored): Option<(string, Tech)>
    requires r.BaseRecord?
  {
    if r.techName.Some? || r.techNo.Some? || r.techPhone.Some?
    then Some((r.key, Tech(OrEmpty(r.techName), OrEmpty(r.techNo), OrEmpty(r.techPhone)))) else None
  }

  /** The view the read loop builds from the ordered rows. */
  function ViewOf(base: seq<Stored>, unassigned: seq<Stored>): View
    requires AllBase(base) && AllUnassigned(unassigned)
  {
    if base == [] then
      View([], map[], map[], map[], seq(|unassigned|, i requires 0 <= i < |unassigned| => unassigned[i].number))
    else
      var before, r := ViewOf(base[..|base| - 1], unassigned), base[|base| - 1];
      View(before.data + [r.row], Put(before.odometerByVin, OdometerEntry(r)),
           Put(before.statusByVehicle, StatusEntry(r)),
           Put(before.technicians, TechEntry(r)), before.unassigned)
  }

  method ReadMirror(table: MirrorTable) returns (view: View)
    requires table.Valid()
    ensures forall base, unassigned ::
              Ascending(base) && Ascending(unassigned) && Rows(base) == BaseOnly(table.rows)
                && Rows(unassigned) == UnassignedOnly(table.rows) ==>
                AllBase(base) && AllUnassigned(unassigned) && view == ViewOf(base, unassigned)
  {
    var base := OrderBySeq(BaseOnly(table.rows));
    var unassigned := OrderBySeq(UnassignedOnly(table.rows));
    assert forall i :: 0 <= i < |base| ==> base[i] in Rows(base);
    assert forall i :: 0 <= i < |unassigned| ==> unassigned[i] in Rows(unassigned);
    var data, odometers, statuses, techs := [], map[], map[], map[];
    var numbers := seq(|unassigned|, i requires 0 <= i < |unassigned| => unassigned[i].number);
    for i := 0 to |base|
      invariant View(data, odometers, statuses, techs, numbers) == ViewOf(base[..i], unassigned)
    {
      assert base[..i + 1][..i] == base[..i];
      data := data + [base[i].row];
      odometers := Put(odometers, OdometerEntry(base[i]));
      statuses := Put(statuses, StatusEntry(base[i]));
      techs := Put(techs, TechEntry(base[i]));
    }
    assert base[..|base|] == base;
    view := View(data, odometers, statuses, techs, numbers);
    forall b, u
      | Ascending(b) && Ascending(u) && Rows(b) == BaseOnly(table.rows) && Rows(u) == UnassignedOnly(table.rows)
      ensures b == base && u == unassigned
    {
      AscendingIsUnique(b, base);
      AscendingIsUnique(u, unassigned);
    }
  }

  // ── The mirror refines the live joins ──────────────────────────────────────

  /** What the handler found when it joined the sources itself. */
  function Live(src: Sources): View {
    View(src.base, LastWins(OdometerEntries(src.odometers)), LastWins(StatusEntries(src.statuses)),
         LastWins(TechEntries(src.techs)),
         seq(|src.unassigned|, i requires 0 <= i < |src.unassigned| => OrEmpty(src.unassigned[i])))
  }

  /** Looking up any of `keys` gives the same answer in both maps, and `m` has nothing `live` has not. */
  ghost predicate Agrees<V>(m: map<string, V>, live: map<string, V>, keys: set<string>) {
    && (forall k :: k in keys ==> Lookup(m, k) == Lookup(live, k))
    && (forall k :: k in m ==> k in live && m[k] == live[k])
  }

  function VinKeys(data: seq<BaseRow>): set<string> { set b | b in data && VinOf(b) != "" :: VinOf(b) }

  function TruckKeys(data: seq<BaseRow>): set<string> { set b | b in data :: TruckOf(b) }

  /** Same rows in the same order, same unassigned list, and for every roster row the same odometer, status
      and technician. */
  ghost predicate Refines(view: View, live: View) {
    && view.data == live.data && view.unassigned == live.unassigned
    && Agrees(view.odometerByVin, live.odometerByVin, VinKeys(live.data))
    && Agrees(view.statusByVehicle, live.statusByVehicle, TruckKeys(live.data))
    && Agrees(view.technicians, live.technicians, TruckKeys(live.data))
  }

  /** Putting what the live map has under one more key extends the agreement to that key. */
  lemma PutAgrees<V>(m: map<string, V>, live: map<string, V>, keys: set<string>, k: string)
    requires Agrees(m, live, keys)
    ensures Agrees(Put(m, if k in live then Some((k, live[k])) else None), live, keys + {k})
  {
  }

  /** A row folded from the live maps gives each of them back its own entry. */
  lemma FoldedEntries(b: BaseRow, i: nat, o: map<string, Odometer>, s: map<string, string>, t: map<string, Tech>)
    ensures var r := Folded(b, i, o, s, t);
            && OdometerEntry(r) == (if VinOf(b) != "" && VinOf(b) in o then Some((VinOf(b), o[VinOf(b)])) else None)
            && StatusEntry(r) == (if TruckOf(b) in s then Some((TruckOf(b), s[TruckOf(b)])) else None)
            && TechEntry(r) == (if TruckOf(b) in t then Some((TruckOf(b), t[TruckOf(b)])) else None)
  {
  }

  lemma KeysSnoc(data: seq<BaseRow>, b: BaseRow)
    ensures VinKeys(data + [b]) == VinKeys(data) + (if VinOf(b) != "" then {VinOf(b)} else {})
    ensures TruckKeys(data + [b]) == TruckKeys(data) + {TruckOf(b)}
  {
    assert forall x :: x in data + [b] <==> x in data || x == b;
  }

  /** One more row read back. */
  lemma RefinesSnoc(view: View, live: View, b: BaseRow, i: nat)
    requires Refines(view, live)
    ensures var r := Folded(b, i, live.odometerByVin, live.statusByVehicle, live.technicians);
            Refines(View(view.data + [b], Put(view.odometerByVin, OdometerEntry(r)),
                         Put(view.statusByVehicle, StatusEntry(r)),
                         Put(view.technicians, TechEntry(r)), view.unassigned),
                    live.(data := live.data + [b]))
  {
    FoldedEntries(b, i, live.odometerByVin, live.statusByVehicle, live.technicians);
    KeysSnoc(live.data, b);
    PutAgrees(view.odometerByVin, live.odometerByVin, VinKeys(live.data), VinOf(b));
    PutAgrees(view.statusByVehicle, live.statusByVehicle, TruckKeys(live.data), TruckOf(b));
    PutAgrees(view.technicians, live.technicians, TruckKeys(live.data), TruckOf(b));
  }

  lemma ViewOfSnoc(base: seq<Stored>, r: Stored, unassigned: seq<Stored>)
    requires AllBase(base) && r.BaseRecord? && AllUnassigned(unassigned)
    ensures AllBase(base + [r])
    ensures ViewOf(base + [r], unassigned)
            == var before := ViewOf(base, unassigned);
               View(before.data + [r.row], Put(before.odometerByVin, OdometerEntry(r)),
                    Put(before.statusByVehicle, StatusEntry(r)),
                    Put(before.technicians, TechEntry(r)), before.unassigned)
  {
    assert (base + [r])[..|base|] == base;
  }

  /** Reading back rows folded from any three maps finds in each of them what the maps hold. */
  lemma {:induction false} ViewOfFolded(base: seq<BaseRow>, live: View, unassigned: seq<Stored>)
    requires live.data == base && AllUnassigned(unassigned)
    requires live.unassigned == seq(|unassigned|, i requires 0 <= i < |unassigned| => unassigned[i].number)
    ensures var rows := FoldedRows(base, live.odometerByVin, live.statusByVehicle, live.technicians);
            AllBase(rows) && Refines(ViewOf(rows, unassigned), live)
  {
    if base != [] {
      var n := |base| - 1;
      var before, last := live.(data := base[..n]), base[n];
      ViewOfFolded(base[..n], before, unassigned);
      FoldedRowsSnoc(base, n, live.odometerByVin, live.statusByVehicle, live.technicians);
      var shorter := FoldedRows(base[..n], live.odometerByVin, live.statusByVehicle, live.technicians);
      assert base[..n + 1] == base == base[..n] + [last];
      ViewOfSnoc(shorter, Folded(last, n, live.odometerByVin, live.statusByVehicle, live.technicians), unassigned);
      RefinesSnoc(ViewOf(shorter, unassigned), before, last, n);
    }
  }

  lemma ViewRefinesLive(src: Sources)
    ensures AllBase(BaseRecords(src)) && AllUnassigned(UnassignedRecords(src))
    ensures Refines(ViewOf(BaseRecords(src), UnassignedRecords(src)), Live(src))
  {
    var unassigned := UnassignedRecords(src);
    assert Live(src).unassigned == seq(|unassigned|, i requires 0 <= i < |unassigned| => unassigned[i].number);
    ViewOfFolded(src.base, Live(src), unassigned);
  }

  /** The i-th row a refresh stores: the roster row under its normalised number, with what the last source rows
      about it say; nothing from the odometers if it has no VIN. */
  lemma StoredTellsSources(src: Sources, i: nat)
    requires i < |src.base|
    ensures var r, b := BaseRecords(src)[i], src.base[i];
            var vin, number := Upper(Trim(OrEmpty(b.vin))), NormalizeFleetId(Trim(OrEmpty(b.vehicleNumber)));
            && r.BaseRecord? && r.seqNo == i && r.key == number && r.row == b
            && LastStatus(src.statuses, number, r.status)
            && (if vin == "" then r.odometer == None else LastOdometer(src.odometers, vin, r.odometer))
            && (r.techName.Some? <==> r.techNo.Some?) && (r.techNo.Some? <==> r.techPhone.Some?)
            && LastTech(src.techs, number,
                        if r.techName.Some? && r.techNo.Some? && r.techPhone.Some?
                        then Some(Tech(r.techName.value, r.techNo.value, r.techPhone.value)) else None)
  {
    OdometersAreLast(src.odometers, VinOf(src.base[i]));
    StatusesAreLast(src.statuses, TruckOf(src.base[i]));
    TechsAreLast(src.techs, TruckOf(src.base[i]));
  }

  /** And the i-th unassigned one, under its raw number. */
  lemma StoredUnassigned(src: Sources, i: nat)
    requires i < |src.unassigned|
    ensures var raw := if src.unassigned[i].Some? then src.unassigned[i].value else "";
            UnassignedRecords(src)[i] == UnassignedRecord(i, NormalizeFleetId(raw), raw)
  {
  }

  /** What the view shows about each roster row is what the last source row about it says. */
  ghost predicate ShowsSources(view: View, src: Sources) {
    && view.data == src.base && |view.unassigned| == |src.unassigned|
    && (forall i :: 0 <= i < |src.unassigned| ==> view.unassigned[i] == OrEmpty(src.unassigned[i]))
    && forall b :: b in src.base ==>
         var vin, number := Upper(Trim(OrEmpty(b.vin))), NormalizeFleetId(Trim(OrEmpty(b.vehicleNumber)));
         && (vin != "" ==> LastOdometer(src.odometers, vin, Lookup(view.odometerByVin, vin)))
         && LastStatus(src.statuses, number, Lookup(view.statusByVehicle, number))
         && LastTech(src.techs, number, Lookup(view.technicians, number))
  }

  lemma RefinedShowsSources(view: View, src: Sources)
    requires Refines(view, Live(src))
    ensures ShowsSources(view, src)
  {
    forall b | b in src.base
      ensures VinOf(b) != "" ==> LastOdometer(src.odometers, VinOf(b), Lookup(view.odometerByVin, VinOf(b)))
      ensures LastStatus(src.statuses, TruckOf(b), Lookup(view.statusByVehicle, TruckOf(b)))
      ensures LastTech(src.techs, TruckOf(b), Lookup(view.technicians, TruckOf(b)))
    {
      assert VinOf(b) != "" ==> VinOf(b) in VinKeys(src.base);
      assert TruckOf(b) in TruckKeys(src.base);
      OdometersAreLast(src.odometers, VinOf(b));
      StatusesAreLast(src.statuses, TruckOf(b));
      TechsAreLast(src.techs, TruckOf(b));
    }
  }

  /** Refreshing and then reading gives the handler what the live joins gave it, duplicates included: for every
      roster row the odometer, status and technician of the last source row with the same VIN or number. */
  method RefreshThenRead(table: MirrorTable, w: RefreshWorld) returns (result: RefreshResult, view: View)
    requires table.Valid()
    modifies table
    ensures result == Refreshed ==>
              w.sources.Some? && Refines(view, Live(w.sources.value)) && ShowsSources(view, w.sources.value)
  {
    result := table.RefreshMirror(w);
    view := ReadMirror(table);
    if result == Refreshed {
      var src := w.sources.value;
      RecordsSplit(src);
      ViewRefinesLive(src);
      RefinedShowsSources(view, src);
    }
  }
}
