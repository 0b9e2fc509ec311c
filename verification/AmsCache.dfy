/** The AMS sweep of `server/ams-truck-status-cache.ts`: a paged walk over the fleet builds the population
    and the status of every VIN, which two more sources then complete. */
module AmsCache {
  import opened Text

  datatype VehicleRow = VehicleRow(number: string, vin: string, sold: bool, status: Option<string>)

  // ── Pages ──────────────────────────────────────────────────────────────────

  /** One property of a response object. */
  datatype Field = Absent | NotAnArray | Rows(rows: seq<VehicleRow>)

  datatype Payload =
    | Bare(rows: seq<VehicleRow>)
    | Object(data: Field, vehicles: Field, results: Field, items: Field)
    | Primitive

  datatype Page = Page(rows: seq<VehicleRow>, malformed: bool)

  /** The rows of the first property that is an array; anything else is a malformed page. */
  function ExtractPage(p: Payload): Page {
    match p
    case Bare(rows) => Page(rows, false)
    case Primitive => Page([], true)
    case Object(data, vehicles, results, items) =>
      if data.Rows? then Page(data.rows, false)
      else if vehicles.Rows? then Page(vehicles.rows, false)
      else if results.Rows? then Page(results.rows, false)
      else if items.Rows? then Page(items.rows, false)
      else Page([], true)
  }

  /** Of an object's four properties in order the first array counts, even an empty one; without any the page
      is malformed. */
  lemma FirstArrayCounts(p: Payload, fields: seq<Field>, k: nat)
    requires p.Object? && fields == [p.data, p.vehicles, p.results, p.items] && k <= |fields|
    requires (k < |fields| ==> fields[k].Rows?) && forall i :: 0 <= i < k ==> !fields[i].Rows?
    ensures ExtractPage(p) == if k < |fields| then Page(fields[k].rows, false) else Page([], true)
  {
    assert (k > 0 ==> !fields[0].Rows?) && (k > 1 ==> !fields[1].Rows?);
    assert (k > 2 ==> !fields[2].Rows?) && (k > 3 ==> !fields[3].Rows?);
  }

  datatype Reply = Throws | Answers(payload: Payload)

  const PAGE_SIZE: nat := 500

  function Least(a: nat, b: nat): nat { if a < b then a else b }

  /** Rows `PAGE_SIZE * k` onwards, at most a page of them. */
  function Slice(fleet: seq<VehicleRow>, k: nat): seq<VehicleRow> {
    fleet[Least(k * PAGE_SIZE, |fleet|)..Least((k + 1) * PAGE_SIZE, |fleet|)]
  }

  predicate Good(r: Reply) { r.Answers? && !ExtractPage(r.payload).malformed }

  /** AMS pages a fixed list: every page it does deliver is that list's, and there are enough of them. */
  ghost predicate Serves(replies: seq<Reply>, fleet: seq<VehicleRow>) {
    && |replies| * PAGE_SIZE > |fleet|
    && forall k :: 0 <= k < |replies| && Good(replies[k]) ==> ExtractPage(replies[k].payload).rows == Slice(fleet, k)
  }

  /** The walk: stop at an error, at a malformed page, or at a short one. A walk that was not cut off has
      seen the whole list; one that was has seen a proper run of pages from its start. */
  method Walk(replies: seq<Reply>, ghost fleet: seq<VehicleRow>) returns (rows: seq<VehicleRow>, failed: bool)
    requires Serves(replies, fleet)
    ensures !failed ==> rows == fleet
    ensures rows <= fleet
    ensures failed ==> exists k :: 0 <= k < |replies| && !Good(replies[k]) && |rows| == k * 500
  {
    rows, failed := [], false;
    var k := 0;
    while true
      invariant k * PAGE_SIZE <= |fleet| && rows == fleet[..k * PAGE_SIZE] && !failed
      decreases |fleet| + 1 - k * PAGE_SIZE
    {
      assert k < |replies|;
      if replies[k].Throws? {
        failed := true;
        return;
      }
      var page := ExtractPage(replies[k].payload);
      if page.malformed {
        failed := true;
      }
      if |page.rows| == 0 {
        return;
      }
      rows := rows + page.rows;
      if |page.rows| < PAGE_SIZE {
        return;
      }
      k := k + 1;
    }
  }

  // ── The fleet population ───────────────────────────────────────────────────

  datatype Entry = Entry(truckNumber: string, vin: Option<string>)

  /** The entry of one row, unless it is sold history or carries no number. */
  function EntryOf(v: VehicleRow): Option<Entry> {
    var number := Digits(v.number);
    if v.sold || number == "" then None
    else Some(Entry(number, if VinKey(v.vin) == "" then None else Some(VinKey(v.vin))))
  }

  /** Where a number stands in the list; its length if nowhere. */
  function Position(pop: seq<Entry>, number: string): (i: nat)
    ensures i <= |pop|
    ensures i < |pop| ==> pop[i].truckNumber == number
    ensures forall j :: 0 <= j < i ==> pop[j].truckNumber != number
  {
    if pop == [] then 0
    else if pop[0].truckNumber == number then 0
    else
      1 + Position(pop[1..], number)
  }

  /** First sighting adds the number; a later one only fills in a missing VIN. */
  function Sighted(pop: seq<Entry>, e: Entry): seq<Entry> {
    var i := Position(pop, e.truckNumber);
    if i == |pop| then pop + [e] else if pop[i].vin.None? then pop[i := e] else pop
  }

  function PopulationOf(rows: seq<VehicleRow>): seq<Entry> {
    if rows == [] then []
    else
      var before, e := PopulationOf(rows[..|rows| - 1]), EntryOf(rows[|rows| - 1]);
      if e.Some? then Sighted(before, e.value) else before
  }

  /** The VIN of the first row for this number that has one. */
  function FirstVin(rows: seq<VehicleRow>, number: string): Option<string> {
    if rows == [] then None
    else
      var before, e := FirstVin(rows[..|rows| - 1], number), EntryOf(rows[|rows| - 1]);
      if before.Some? then before else if e.Some? && e.value.truckNumber == number then e.value.vin else None
  }

  predicate Names(v: VehicleRow, number: string) { EntryOf(v).Some? && EntryOf(v).value.truckNumber == number }

  predicate Lists(pop: seq<Entry>, number: string) { exists i :: 0 <= i < |pop| && pop[i].truckNumber == number }

  predicate Mentions(rows: seq<VehicleRow>, number: string) { exists i :: 0 <= i < |rows| && Names(rows[i], number) }

  predicate Distinct(pop: seq<Entry>) { forall i, j :: 0 <= i < j < |pop| ==> pop[i].truckNumber != pop[j].truckNumber }

  lemma SightingListsOneMore(pop: seq<Entry>, e: Entry, number: string)
    ensures Lists(Sighted(pop, e), number) <==> Lists(pop, number) || number == e.truckNumber
    ensures Distinct(pop) ==> Distinct(Sighted(pop, e))
    ensures |pop| <= |Sighted(pop, e)| && forall i :: 0 <= i < |pop| ==>
            Sighted(pop, e)[i].truckNumber == pop[i].truckNumber
  {
    var i, pop' := Position(pop, e.truckNumber), Sighted(pop, e);
    assert pop'[i].truckNumber == e.truckNumber;
    if Lists(pop, number) {
      var j :| 0 <= j < |pop| && pop[j].truckNumber == number;
      assert pop'[j].truckNumber == number;
    }
    if Lists(pop', number) && number != e.truckNumber {
      var j :| 0 <= j < |pop'| && pop'[j].truckNumber == number;
      assert pop[j].truckNumber == number;
    }
  }

  lemma MentionsSnoc(earlier: seq<VehicleRow>, last: VehicleRow, number: string)
    ensures Mentions(earlier + [last], number) <==> Mentions(earlier, number) || Names(last, number)
  {
    var rows := earlier + [last];
    if Mentions(earlier, number) {
      var i :| 0 <= i < |earlier| && Names(earlier[i], number);
      assert Names(rows[i], number);
    }
    assert rows[|earlier|] == last;
  }

  /** The numbers listed are exactly those of the unsold rows, each once. */
  lemma {:induction false} PopulationNumbers(rows: seq<VehicleRow>, number: string)
    ensures Distinct(PopulationOf(rows))
    ensures Lists(PopulationOf(rows), number) <==> Mentions(rows, number)
  {
    if rows != [] {
      var earlier, last := rows[..|rows| - 1], rows[|rows| - 1];
      PopulationNumbers(earlier, number);
      if EntryOf(last).Some? {
        SightingListsOneMore(PopulationOf(earlier), EntryOf(last).value, number);
      }
      MentionsSnoc(earlier, last, number);
      assert rows == earlier + [last];
    }
  }

  lemma {:induction false} AbsentHasNoVin(rows: seq<VehicleRow>, number: string)
    requires !Mentions(rows, number)
    ensures FirstVin(rows, number) == None
  {
    if rows != [] {
      var n := |rows| - 1;
      assert forall i :: 0 <= i < n ==> rows[..n][i] == rows[i];
      AbsentHasNoVin(rows[..n], number);
      assert !Names(rows[n], number);
    }
  }

  /** Each listed number carries its first non-null VIN. */
  lemma {:induction false} PopulationVins(rows: seq<VehicleRow>, i: nat)
    requires i < |PopulationOf(rows)|
    ensures PopulationOf(rows)[i].vin == FirstVin(rows, PopulationOf(rows)[i].truckNumber)
  {
    if rows != [] {
      var earlier, last := rows[..|rows| - 1], rows[|rows| - 1];
      var before, number := PopulationOf(earlier), PopulationOf(rows)[i].truckNumber;
      PopulationNumbers(earlier, number);
      if EntryOf(last).Some? {
        SightingListsOneMore(before, EntryOf(last).value, number);
      }
      if i < |before| {
        assert before[i].truckNumber == number;
        PopulationVins(earlier, i);
        if Names(last, number) {
          var j := Position(before, number);
          assert before[j].truckNumber == number && j == i;
        }
      } else {
        assert Names(last, number);
        assert !Lists(before, number);
        AbsentHasNoVin(earlier, number);
      }
    }
  }

  /** `vin` is that of the first unsold row with this number that has one; None if none has. */
  ghost predicate FirstVinIs(rows: seq<VehicleRow>, number: string, vin: Option<string>) {
    if vin.None? then forall j :: 0 <= j < |rows| ==> !HasVin(rows[j], number)
    else exists j :: 0 <= j < |rows| && HasVin(rows[j], number) && VinKey(rows[j].vin) == vin.value
                     && forall k :: 0 <= k < j ==> !HasVin(rows[k], number)
  }

  predicate HasVin(r: VehicleRow, number: string) { !r.sold && Digits(r.number) == number && VinKey(r.vin) != "" }

  predicate HasUnsold(rows: seq<VehicleRow>, number: string) {
    exists j :: 0 <= j < |rows| && !rows[j].sold && Digits(rows[j].number) == number != ""
  }

  /** The list has the digits of every unsold row's number, if it has any, each once, with its first VIN. */
  ghost predicate IsFleetOf(trucks: seq<Entry>, rows: seq<VehicleRow>) {
    && (forall i, j :: 0 <= i < j < |trucks| ==> trucks[i].truckNumber != trucks[j].truckNumber)
    && (forall number ::
          (exists i :: 0 <= i < |trucks| && trucks[i].truckNumber == number) <==> HasUnsold(rows, number))
    && forall i :: 0 <= i < |trucks| ==> FirstVinIs(rows, trucks[i].truckNumber, trucks[i].vin)
  }

  lemma {:induction false} FirstVinIsFirst(rows: seq<VehicleRow>, number: string)
    requires number != ""
    ensures FirstVinIs(rows, number, FirstVin(rows, number))
  {
    if rows != [] {
      var n := |rows| - 1;
      FirstVinIsFirst(rows[..n], number);
      FirstVinSnoc(rows[..n], rows[n], number);
      MoreVins(rows[..n], rows[n], number, FirstVin(rows[..n], number));
      assert rows[..n] + [rows[n]] == rows;
    }
  }

  lemma FirstVinSnoc(earlier: seq<VehicleRow>, last: VehicleRow, number: string)
    requires number != ""
    ensures FirstVin(earlier + [last], number)
            == if FirstVin(earlier, number).Some? then FirstVin(earlier, number)
               else if HasVin(last, number) then Some(VinKey(last.vin)) else None
  {
    assert (earlier + [last])[..|earlier|] == earlier;
  }

  lemma MoreVins(earlier: seq<VehicleRow>, last: VehicleRow, number: string, vin: Option<string>)
    requires FirstVinIs(earlier, number, vin)
    ensures FirstVinIs(earlier + [last], number,
                       if vin.Some? then vin else if HasVin(last, number) then Some(VinKey(last.vin)) else None)
  {
    var rows := earlier + [last];
    assert rows[|earlier|] == last && forall j :: 0 <= j < |earlier| ==> rows[j] == earlier[j];
  }

  lemma PopulationIsFleet(rows: seq<VehicleRow>)
    ensures IsFleetOf(PopulationOf(rows), rows)
  {
    var pop := PopulationOf(rows);
    forall number
      ensures Lists(pop, number) <==> HasUnsold(rows, number)
      ensures Distinct(pop)
    {
      PopulationNumbers(rows, number);
      assert forall j :: 0 <= j < |rows| ==>
               (Names(rows[j], number) <==> !rows[j].sold && Digits(rows[j].number) == number != "");
    }
    forall i | 0 <= i < |pop|
      ensures FirstVinIs(rows, pop[i].truckNumber, pop[i].vin)
    {
      assert Lists(pop, pop[i].truckNumber);
      PopulationVins(rows, i);
      FirstVinIsFirst(rows, pop[i].truckNumber);
    }
  }

  // ── Labels ─────────────────────────────────────────────────────────────────

  const LABELS: map<string, string> := map[
    "1" := "Assigned to Tech", "2" := "In Use", "3" := "Tech On LOA", "4" := "Spare", "5" := "Declined Repair",
    "6" := "In Repair", "7" := "Reserved For New Hire", "8" := "Sent To Auction", "10" := "Unknown",
    "11" := "Transport", "12" := "BYOV"]

  /** `/^\d+$/` */
  predicate Numeric(s: string) { s != "" && AllDigits(s) }

  /** The live lookup's label, then the canonical one, then the text itself; a bare number is "Unknown". */
  function ResolveLabel(status: Option<string>, lookup: map<string, string>): Option<string> {
    if status.None? || Trim(status.value) == "" then None
    else
      var raw := Trim(status.value);
      if raw in lookup && Trim(lookup[raw]) != "" && !Numeric(Trim(lookup[raw])) then Some(Trim(lookup[raw]))
      else if raw in LABELS then Some(LABELS[raw])
      else if !Numeric(raw) then Some(raw)
      else Some("Unknown")
  }

  /** Whatever the live lookup holds, a label is never empty and never a number, and there is one exactly
      when there is a status. */
  lemma LabelsAreNeverNumbers(status: Option<string>, lookup: map<string, string>)
    ensures ResolveLabel(status, lookup).Some? <==> status.Some? && Trim(status.value) != ""
    ensures ResolveLabel(status, lookup).Some? ==>
              ResolveLabel(status, lookup).value != "" && !Numeric(ResolveLabel(status, lookup).value)
  {
    if status.Some? && Trim(status.value) in LABELS {
      LabelsAreText(Trim(status.value));
    }
    assert "Unknown"[0] == 'U' && !IsDigit("Unknown"[0]);
  }

  /** Some character is no digit. */
  predicate IsText(s: string) { exists i :: 0 <= i < |s| && !IsDigit(s[i]) }

  /** Which label a status gets: that of the live lookup if it is text; else the canonical one of a known code;
      else the status itself if it is text; and "Unknown" for any other number. */
  lemma LabelPrecedence(status: string, lookup: map<string, string>)
    requires Trim(status) != ""
    ensures var raw := Trim(status);
            ResolveLabel(Some(status), lookup)
            == if raw in lookup && IsText(Trim(lookup[raw])) then Some(Trim(lookup[raw]))
               else if raw in LABELS then Some(LABELS[raw])
               else if IsText(raw) then Some(raw) else Some("Unknown")
  {
    var raw := Trim(status);
    NumericIsNotText(raw);
    if raw in lookup {
      NumericIsNotText(Trim(lookup[raw]));
    }
  }

  lemma KnownCodes(code: string)
    ensures code in LABELS <==> code in {"1", "2", "3", "4", "5", "6", "7", "8", "10", "11", "12"}
  {
  }

  lemma NumericIsNotText(s: string)
    ensures s != "" ==> (Numeric(s) <==> !IsText(s))
    ensures s == "" ==> !IsText(s)
  {
    assert forall i :: 0 <= i < |s| ==> s[i] in s;
  }

  lemma LabelsAreText(code: string)
    requires code in LABELS
    ensures LABELS[code] != "" && !IsDigit(LABELS[code][0])
  {
  }

  // ── Merging the three sources ──────────────────────────────────────────────

  datatype DbRow = DbRow(vin: string, text: Option<string>)

  datatype SnowflakeRow = SnowflakeRow(vin: string, status: string)

  type StatusMap = map<string, Option<string>>

  function Known(m: StatusMap, vin: string): Option<string> { if vin in m then m[vin] else None }

  /** Later AMS rows overwrite earlier ones, even with nothing. */
  function FromAms(rows: seq<VehicleRow>, lookup: map<string, string>): StatusMap {
    if rows == [] then map[]
    else
      var before, last := FromAms(rows[..|rows| - 1], lookup), rows[|rows| - 1];
      if VinKey(last.vin) == "" then before else before[VinKey(last.vin) := ResolveLabel(last.status, lookup)]
  }

  function DbAdded(m: StatusMap, r: DbRow): StatusMap {
    var vin := VinKey(r.vin);
    if vin != "" && Known(m, vin).None? && r.text.Some? && r.text.value != "" then m[vin := r.text] else m
  }

  function WithDb(m: StatusMap, rows: seq<DbRow>): StatusMap {
    if rows == [] then m else DbAdded(WithDb(m, rows[..|rows| - 1]), rows[|rows| - 1])
  }

  function SnowflakeAdded(m: StatusMap, r: SnowflakeRow, lookup: map<string, string>): StatusMap {
    var vin := VinKey(r.vin);
    if r.vin != "" && Trim(r.status) != "" && Known(m, vin).None?
    then m[vin := ResolveLabel(Some(Trim(r.status)), lookup)] else m
  }

  function WithSnowflake(m: StatusMap, rows: seq<SnowflakeRow>, lookup: map<string, string>): StatusMap {
    if rows == [] then m else SnowflakeAdded(WithSnowflake(m, rows[..|rows| - 1], lookup), rows[|rows| - 1], lookup)
  }

  /** Each AMS row's VIN and label. */
  function AmsLabels(rows: seq<VehicleRow>, lookup: map<string, string>): seq<(string, Option<string>)> {
    seq(|rows|, i requires 0 <= i < |rows| => (VinKey(rows[i].vin), ResolveLabel(rows[i].status, lookup)))
  }

  function LastOf(labels: seq<(string, Option<string>)>, vin: string): Option<string> {
    if labels == [] then None
    else if labels[|labels| - 1].0 == vin then labels[|labels| - 1].1
    else LastOf(labels[..|labels| - 1], vin)
  }

  /** The label of the last AMS row for this VIN. */
  function LastAms(rows: seq<VehicleRow>, vin: string, lookup: map<string, string>): Option<string> {
    LastOf(AmsLabels(rows, lookup), vin)
  }

  /** The non-empty label a database row has for this VIN. */
  function DbLabel(row: DbRow, vin: string): Option<string> {
    if VinKey(row.vin) == vin && row.text.Some? && row.text.value != "" then row.text else None
  }

  function DbLabels(rows: seq<DbRow>, vin: string): seq<Option<string>> {
    seq(|rows|, i requires 0 <= i < |rows| => DbLabel(rows[i], vin))
  }

  /** The label a Snowflake row with a status has for this VIN. */
  function SnowflakeLabel(row: SnowflakeRow, vin: string, lookup: map<string, string>): Option<string> {
    if VinKey(row.vin) == vin && row.vin != "" && Trim(row.status) != ""
    then ResolveLabel(Some(Trim(row.status)), lookup) else None
  }

  function SnowflakeLabels(rows: seq<SnowflakeRow>, vin: string, lookup: map<string, string>): seq<Option<string>> {
    seq(|rows|, i requires 0 <= i < |rows| => SnowflakeLabel(rows[i], vin, lookup))
  }

  function FirstSome(labels: seq<Option<string>>): Option<string> {
    if labels == [] then None else Or(labels[0], FirstSome(labels[1..]))
  }

  lemma {:induction false} FirstSomeSnoc(labels: seq<Option<string>>, last: Option<string>)
    ensures FirstSome(labels + [last]) == Or(FirstSome(labels), last)
  {
    if labels == [] {
      assert ([last])[1..] == [];
    } else {
      assert (labels + [last])[1..] == labels[1..] + [last];
      FirstSomeSnoc(labels[1..], last);
    }
  }

  function Or(a: Option<string>, b: Option<string>): Option<string> { if a.Some? then a else b }

  /** What should be known of a VIN: its last AMS row, else its first database label, else its first
      Snowflake label. */
  function FirstKnown(rows: seq<VehicleRow>, db: seq<DbRow>, sf: seq<SnowflakeRow>, lookup: map<string, string>,
                      vin: string): Option<string> {
    Or(Or(LastAms(rows, vin, lookup), FirstSome(DbLabels(db, vin))), FirstSome(SnowflakeLabels(sf, vin, lookup)))
  }

  lemma AmsLabelsSnoc(rows: seq<VehicleRow>, lookup: map<string, string>)
    requires rows != []
    ensures var n := |rows| - 1;
            AmsLabels(rows, lookup)
            == AmsLabels(rows[..n], lookup) + [(VinKey(rows[n].vin), ResolveLabel(rows[n].status, lookup))]
  {
  }

  lemma {:induction false} AmsIsLast(rows: seq<VehicleRow>, vin: string, lookup: map<string, string>)
    requires vin != ""
    ensures Known(FromAms(rows, lookup), vin) == LastAms(rows, vin, lookup)
  {
    if rows != [] {
      var n := |rows| - 1;
      AmsIsLast(rows[..n], vin, lookup);
      AmsLabelsSnoc(rows, lookup);
      assert AmsLabels(rows, lookup)[..n] == AmsLabels(rows[..n], lookup);
    }
  }

  lemma DbFillsGap(m: StatusMap, row: DbRow, vin: string)
    requires vin != ""
    ensures Known(DbAdded(m, row), vin) == Or(Known(m, vin), DbLabel(row, vin))
  {
  }

  lemma DbLabelsSnoc(rows: seq<DbRow>, last: DbRow, vin: string)
    ensures DbLabels(rows + [last], vin) == DbLabels(rows, vin) + [DbLabel(last, vin)]
  {
  }

  lemma {:induction false} DbFillsGaps(m: StatusMap, rows: seq<DbRow>, vin: string)
    requires vin != ""
    ensures Known(WithDb(m, rows), vin) == Or(Known(m, vin), FirstSome(DbLabels(rows, vin)))
  {
    if rows != [] {
      var before, last := rows[..|rows| - 1], rows[|rows| - 1];
      assert rows == before + [last];
      DbFillsGaps(m, before, vin);
      DbFillsGap(WithDb(m, before), last, vin);
      DbLabelsSnoc(before, last, vin);
      FirstSomeSnoc(DbLabels(before, vin), DbLabel(last, vin));
    }
  }

  lemma SnowflakeFillsGap(m: StatusMap, row: SnowflakeRow, vin: string, lookup: map<string, string>)
    ensures Known(SnowflakeAdded(m, row, lookup), vin) == Or(Known(m, vin), SnowflakeLabel(row, vin, lookup))
  {
  }

  lemma SnowflakeLabelsSnoc(rows: seq<SnowflakeRow>, last: SnowflakeRow, vin: string, lookup: map<string, string>)
    ensures SnowflakeLabels(rows + [last], vin, lookup)
            == SnowflakeLabels(rows, vin, lookup) + [SnowflakeLabel(last, vin, lookup)]
  {
  }

  lemma {:induction false} SnowflakeFillsGaps(m: StatusMap, rows: seq<SnowflakeRow>, vin: string,
                                              lookup: map<string, string>)
    ensures Known(WithSnowflake(m, rows, lookup), vin)
            == Or(Known(m, vin), FirstSome(SnowflakeLabels(rows, vin, lookup)))
  {
    if rows != [] {
      var before, last := rows[..|rows| - 1], rows[|rows| - 1];
      assert rows == before + [last];
      SnowflakeFillsGaps(m, before, vin, lookup);
      SnowflakeFillsGap(WithSnowflake(m, before, lookup), last, vin, lookup);
      SnowflakeLabelsSnoc(before, last, vin, lookup);
      FirstSomeSnoc(SnowflakeLabels(before, vin, lookup), SnowflakeLabel(last, vin, lookup));
    }
  }

  /** When AMS answered, a VIN's status is the first non-null of its last AMS row, its first database label
      and its first Snowflake label; no source replaces what an earlier one knew. */
  lemma StatusPrecedence(rows: seq<VehicleRow>, db: seq<DbRow>, sf: seq<SnowflakeRow>, lookup: map<string, string>,
                         vin: string)
    requires vin != ""
    ensures Known(WithSnowflake(WithDb(FromAms(rows, lookup), db), sf, lookup), vin)
            == FirstKnown(rows, db, sf, lookup, vin)
  {
    AmsIsLast(rows, vin, lookup);
    DbFillsGaps(FromAms(rows, lookup), db, vin);
    SnowflakeFillsGaps(WithDb(FromAms(rows, lookup), db), sf, vin, lookup);
  }

  // ── Which row the label comes from ─────────────────────────────────────────

  /** The last AMS row of the VIN has this label. */
  ghost predicate AmsSays(rows: seq<VehicleRow>, lookup: map<string, string>, vin: string, text: string) {
    exists i :: 0 <= i < |rows| && VinKey(rows[i].vin) == vin && ResolveLabel(rows[i].status, lookup) == Some(text)
      && forall j :: i < j < |rows| ==> VinKey(rows[j].vin) != vin
  }

  /** The first database row of the VIN that has a label has this one. */
  ghost predicate DbSays(rows: seq<DbRow>, vin: string, text: string) {
    exists i :: 0 <= i < |rows| && VinKey(rows[i].vin) == vin && rows[i].text.Some? && rows[i].text.value == text != ""
      && forall j :: 0 <= j < i && VinKey(rows[j].vin) == vin ==> rows[j].text.None? || rows[j].text.value == ""
  }

  /** The first Snowflake row of the VIN that has a status has this label. */
  ghost predicate SnowflakeSays(rows: seq<SnowflakeRow>, lookup: map<string, string>, vin: string, text: string) {
    exists i :: 0 <= i < |rows| && rows[i].vin != "" && VinKey(rows[i].vin) == vin && Trim(rows[i].status) != ""
      && ResolveLabel(Some(Trim(rows[i].status)), lookup) == Some(text)
      && forall j :: 0 <= j < i && rows[j].vin != "" && VinKey(rows[j].vin) == vin ==> Trim(rows[j].status) == ""
  }

  lemma {:induction false} LastOfIs(labels: seq<(string, Option<string>)>, vin: string, text: string)
    ensures LastOf(labels, vin) == Some(text) <==>
            exists i :: 0 <= i < |labels| && labels[i] == (vin, Some(text))
                        && forall j :: i < j < |labels| ==> labels[j].0 != vin
  {
    if labels != [] {
      var n := |labels| - 1;
      LastOfIs(labels[..n], vin, text);
      assert forall i :: 0 <= i < n ==> labels[..n][i] == labels[i];
    }
  }

  lemma LastAmsSays(rows: seq<VehicleRow>, lookup: map<string, string>, vin: string, text: string)
    ensures LastAms(rows, vin, lookup) == Some(text) <==> AmsSays(rows, lookup, vin, text)
  {
    var labels := AmsLabels(rows, lookup);
    LastOfIs(labels, vin, text);
    assert forall i :: 0 <= i < |rows| ==> labels[i] == (VinKey(rows[i].vin), ResolveLabel(rows[i].status, lookup));
  }

  lemma {:induction false} FirstSomeIs(labels: seq<Option<string>>, text: string)
    ensures FirstSome(labels) == Some(text) <==>
            exists i :: 0 <= i < |labels| && labels[i] == Some(text) && forall j :: 0 <= j < i ==> labels[j].None?
  {
    if labels != [] {
      FirstSomeIs(labels[1..], text);
      if labels[0].None? {
        if i :| 0 <= i < |labels| && labels[i] == Some(text) && forall j :: 0 <= j < i ==> labels[j].None? {
          assert labels[1..][i - 1] == labels[i];
        }
        if i :| 0 <= i < |labels| - 1 && labels[1..][i] == Some(text)
                && forall j :: 0 <= j < i ==> labels[1..][j].None?
        {
          assert labels[i + 1] == labels[1..][i];
          assert forall j :: 0 < j < i + 1 ==> labels[j] == labels[1..][j - 1];
        }
      }
    }
  }

  lemma FirstDbSays(rows: seq<DbRow>, vin: string, text: string)
    ensures FirstSome(DbLabels(rows, vin)) == Some(text) <==> DbSays(rows, vin, text)
  {
    var labels := DbLabels(rows, vin);
    FirstSomeIs(labels, text);
    assert forall i :: 0 <= i < |rows| ==> labels[i] == DbLabel(rows[i], vin);
  }

  lemma FirstSnowflakeSays(rows: seq<SnowflakeRow>, lookup: map<string, string>, vin: string, text: string)
    ensures FirstSome(SnowflakeLabels(rows, vin, lookup)) == Some(text) <==> SnowflakeSays(rows, lookup, vin, text)
  {
    var labels := SnowflakeLabels(rows, vin, lookup);
    FirstSomeIs(labels, text);
    forall i | 0 <= i < |rows|
      ensures labels[i] == SnowflakeLabel(rows[i], vin, lookup)
      ensures labels[i].None? <==> !(rows[i].vin != "" && VinKey(rows[i].vin) == vin && Trim(rows[i].status) != "")
    {
      if Trim(rows[i].status) != "" {
        TrimTwice(rows[i].status);
        LabelsAreNeverNumbers(Some(Trim(rows[i].status)), lookup);
      }
    }
  }

  lemma TrimTwice(s: string)
    ensures Trim(Trim(s)) == Trim(s)
  {
    TrimShape(s);
    TrimKeeps(Trim(s));
  }

  /** The label of a VIN is that of its last AMS row; if that has none, that of its first labelled database row;
      if there is none, that of its first Snowflake row with a status. */
  ghost predicate LabelledBy(rows: seq<VehicleRow>, db: seq<DbRow>, sf: seq<SnowflakeRow>, lookup: map<string, string>,
                             vin: string, found: Option<string>) {
    forall text :: found == Some(text) <==>
      || AmsSays(rows, lookup, vin, text)
      || ((forall x :: !AmsSays(rows, lookup, vin, x)) && DbSays(db, vin, text))
      || ((forall x :: !AmsSays(rows, lookup, vin, x) && !DbSays(db, vin, x)) && SnowflakeSays(sf, lookup, vin, text))
  }

  lemma FirstKnownIsLabelled(rows: seq<VehicleRow>, db: seq<DbRow>, sf: seq<SnowflakeRow>, lookup: map<string, string>,
                             vin: string)
    ensures LabelledBy(rows, db, sf, lookup, vin, FirstKnown(rows, db, sf, lookup, vin))
  {
    forall text
      ensures LastAms(rows, vin, lookup) == Some(text) <==> AmsSays(rows, lookup, vin, text)
      ensures FirstSome(DbLabels(db, vin)) == Some(text) <==> DbSays(db, vin, text)
      ensures FirstSome(SnowflakeLabels(sf, vin, lookup)) == Some(text) <==> SnowflakeSays(sf, lookup, vin, text)
    {
      LastAmsSays(rows, lookup, vin, text);
      FirstDbSays(db, vin, text);
      FirstSnowflakeSays(sf, lookup, vin, text);
    }
  }

  // ── The cache over many builds ─────────────────────────────────────────────

  datatype Population = Population(trucks: seq<Entry>, complete: bool)

  predicate ShouldReplace(prev: Option<Population>, nextComplete: bool) { nextComplete || prev.None? }

  function NextPopulation(prev: Option<Population>, rows: seq<VehicleRow>, complete: bool): Option<Population> {
    var pop := PopulationOf(rows);
    if rows != [] && pop != [] && ShouldReplace(prev, complete) then Some(Population(pop, complete)) else prev
  }

  /** What one build meets: the fleet AMS has, its replies, and the two supplements (None when the read
      fails). */
  datatype World = World(
    fleet: seq<VehicleRow>, replies: seq<Reply>, lookup: map<string, string>,
    db: Option<seq<DbRow>>, snowflake: Option<seq<SnowflakeRow>>)

  class SweepCache {
    var population: Option<Population>
    var statuses: Option<StatusMap>

    constructor ()
      ensures population == None && statuses == None
    {
      population, statuses := None, None;
    }

    /** The row loop of the walk: statuses and population together. */
    method Absorb(rows: seq<VehicleRow>, lookup: map<string, string>) returns (result: StatusMap, pop: seq<Entry>)
      ensures result == FromAms(rows, lookup) && pop == PopulationOf(rows)
    {
      result, pop := map[], [];
      for i := 0 to |rows|
        invariant result == FromAms(rows[..i], lookup) && pop == PopulationOf(rows[..i])
      {
        assert rows[..i + 1][..i] == rows[..i];
        var e := EntryOf(rows[i]);
        if e.Some? {
          pop := Sighted(pop, e.value);
        }
        var vin := VinKey(rows[i].vin);
        if vin != "" {
          result := result[vin := ResolveLabel(rows[i].status, lookup)];
        }
      }
      assert rows[..|rows|] == rows;
    }

    method Supplement(m: StatusMap, w: World, amsWorked: bool) returns (result: StatusMap)
      ensures result == WithSnowflake(WithDb(m, if amsWorked && w.db.Some? then w.db.value else []),
                                      if w.snowflake.Some? then w.snowflake.value else [], w.lookup)
    {
      result := m;
      if amsWorked && w.db.Some? {
        for i := 0 to |w.db.value|
          invariant result == WithDb(m, w.db.value[..i])
        {
          assert w.db.value[..i + 1][..i] == w.db.value[..i];
          result := DbAdded(result, w.db.value[i]);
        }
        assert w.db.value[..|w.db.value|] == w.db.value;
      }
      if w.snowflake.Some? {
        ghost var start := result;
        for i := 0 to |w.snowflake.value|
          invariant result == WithSnowflake(start, w.snowflake.value[..i], w.lookup)
        {
          assert w.snowflake.value[..i + 1][..i] == w.snowflake.value[..i];
          result := SnowflakeAdded(result, w.snowflake.value[i], w.lookup);
        }
        assert w.snowflake.value[..|w.snowflake.value|] == w.snowflake.value;
      }
    }

    /** One build. A walk that ended naturally leaves the exact population of the fleet, marked complete; any
        other walk leaves a complete population as it was, and so does one that finds no unsold truck. Labels
        come from AMS, the database unless AMS had nothing, and Snowflake, as far as each could be read. */
    method Build(w: World) returns (rows: seq<VehicleRow>, failed: bool)
      requires Serves(w.replies, w.fleet)
      modifies this
      ensures rows <= w.fleet && (!failed ==> rows == w.fleet)
      ensures population == NextPopulation(old(population), rows, !failed)
      ensures if (exists number :: HasUnsold(rows, number)) && (!failed || old(population).None?)
              then population.Some? && population.value.complete == !failed && IsFleetOf(population.value.trucks, rows)
              else population == old(population)
      ensures statuses.Some?
      ensures forall vin :: vin != "" ==>
                LabelledBy(rows, if rows != [] && w.db.Some? then w.db.value else [],
                           if w.snowflake.Some? then w.snowflake.value else [], w.lookup, vin,
                           Known(statuses.value, vin))
    {
      rows, failed := Walk(w.replies, w.fleet);
      var result, pop := Absorb(rows, w.lookup);
      PopulationIsFleet(rows);
      assert pop != [] <==> exists number :: HasUnsold(rows, number) by {
        if pop != [] {
          assert HasUnsold(rows, pop[0].truckNumber);
        }
      }
      if rows != [] && pop != [] && ShouldReplace(population, !failed) {
        population := Some(Population(pop, !failed));
      }
      result := Supplement(result, w, rows != []);
      statuses := Some(result);
      ghost var db := if rows != [] && w.db.Some? then w.db.value else [];
      ghost var sf := if w.snowflake.Some? then w.snowflake.value else [];
      forall vin | vin != ""
        ensures LabelledBy(rows, db, sf, w.lookup, vin, Known(result, vin))
      {
        StatusPrecedence(rows, db, sf, w.lookup, vin);
        FirstKnownIsLabelled(rows, db, sf, w.lookup, vin);
      }
    }
  }

  datatype WalkResult = WalkResult(rows: seq<VehicleRow>, complete: bool)

  function Builds(prev: Option<Population>, walks: seq<WalkResult>): Option<Population> {
    if walks == [] then prev
    else NextPopulation(Builds(prev, walks[..|walks| - 1]), walks[|walks| - 1].rows, walks[|walks| - 1].complete)
  }

  /** Over any run of builds, once a complete population is held it only ever gives way to the population of
      a later complete walk, and whatever is held is the population of some walk. */
  lemma {:induction false} CompleteIsNeverClobbered(prev: Option<Population>, walks: seq<WalkResult>)
    ensures prev.Some? && prev.value.complete ==> Builds(prev, walks).Some? && Builds(prev, walks).value.complete
    ensures Builds(prev, walks) == prev
            || exists i :: 0 <= i < |walks|
                 && Builds(prev, walks) == Some(Population(PopulationOf(walks[i].rows), walks[i].complete))
                 && (prev.Some? ==> walks[i].complete)
  {
    if walks != [] {
      var n := |walks| - 1;
      CompleteIsNeverClobbered(prev, walks[..n]);
      var before := Builds(prev, walks[..n]);
      if Builds(prev, walks) == before && before != prev {
        var i :| 0 <= i < n && before == Some(Population(PopulationOf(walks[..n][i].rows), walks[..n][i].complete))
                 && (prev.Some? ==> walks[..n][i].complete);
        assert walks[..n][i] == walks[i];
      }
    }
  }
}
