/** The daily check of `server/ams-declined-repair-check.ts`: snapshot every VIN's status, compare with the
    last earlier snapshot, record each newly declined VIN once, and put its truck on the decommissioning
    list unless something else already covers it. */
module DeclinedCheck {
  import opened Text

  type Day = int

  type Labels = map<string, Option<string>>

  datatype Verdict = NoTruckNumber | AlreadyListed | AlreadyExcluded | CoveredByPo | Added

  datatype Finding = Finding(truckNumber: Option<string>, verdict: Verdict)

  /** What one run is given: the status map with its key order, the VIN-to-truck map, and the trucks that
      purchase orders cover, as comparison keys. */
  datatype Inputs = Inputs(today: Day, vins: seq<string>, status: Labels, trucks: map<string, string>,
                           poCovered: set<string>)

  ghost predicate WellFormed(r: Inputs) {
    && (forall v :: v in r.vins <==> v in r.status)
    && forall i, j :: 0 <= i < j < |r.vins| ==> r.vins[i] != r.vins[j]
  }

  predicate IsDeclined(text: Option<string>) { text.Some? && Lower(Trim(text.value)) == "declined repair" }

  function LabelOf(labels: Labels, vin: string): Option<string> { if vin in labels then labels[vin] else None }

  /** Declined now, and not declined in the earlier snapshot (or not in it). */
  predicate NewlyDeclined(now: Labels, earlier: Labels, vin: string) {
    IsDeclined(LabelOf(now, vin)) && !IsDeclined(LabelOf(earlier, vin))
  }

  /** `decommissioning` and `excluded` hold truck numbers as stored; `added` logs the keys this check put on
      the decommissioning list. */
  datatype Books = Books(
    snapshots: map<Day, Labels>,
    findings: map<(Day, string), Finding>,
    decommissioning: set<string>,
    excluded: set<string>,
    added: seq<string>)

  function KeysOf(stored: set<string>): set<string> { set s | s in stored :: TruckKey(s) }

  /** The key a VIN's truck is compared by; "" when it has none. */
  function KeyOf(r: Inputs, vin: string): string { if vin in r.trucks then TruckKey(r.trucks[vin]) else "" }

  function Judge(r: Inputs, listed: set<string>, excluded: set<string>, vin: string): Verdict {
    var key := KeyOf(r, vin);
    if key == "" then NoTruckNumber
    else if key in listed then AlreadyListed
    else if key in excluded then AlreadyExcluded
    else if key in r.poCovered then CoveredByPo
    else Added
  }

  /** One candidate: nothing if it was recorded today already; otherwise the finding, and the truck. */
  function Recorded(b: Books, r: Inputs, vin: string): Books {
    if (r.today, vin) in b.findings then b
    else
      var verdict := Judge(r, KeysOf(b.decommissioning), KeysOf(b.excluded), vin);
      var noted := b.(findings := b.findings[(r.today, vin) := Finding(Lookup(r.trucks, vin), verdict)]);
      if verdict == Added
      then noted.(decommissioning := b.decommissioning + {PadTruck(r.trucks[vin])}, added := b.added + [KeyOf(r, vin)])
      else noted
  }

  function RecordedAll(b: Books, r: Inputs, candidates: seq<string>): Books {
    if candidates == [] then b
    else Recorded(RecordedAll(b, r, candidates[..|candidates| - 1]), r, candidates[|candidates| - 1])
  }

  function Candidates(vins: seq<string>, now: Labels, earlier: Labels): seq<string> {
    if vins == [] then []
    else
      Candidates(vins[..|vins| - 1], now, earlier)
      + if NewlyDeclined(now, earlier, vins[|vins| - 1]) then [vins[|vins| - 1]] else []
  }

  /** The latest snapshot day before `today`, if any. */
  ghost predicate IsPrevious(snapshots: map<Day, Labels>, today: Day, d: Option<Day>) {
    match d
    case None => forall e :: e in snapshots ==> e >= today
    case Some(p) => p in snapshots && p < today && forall e :: e in snapshots && e < today ==> e <= p
  }

  /** Rows already there win over the ones inserted now. */
  function Snapshotted(b: Books, r: Inputs): Books {
    b.(snapshots :=
         b.snapshots[r.today := if r.today in b.snapshots then r.status + b.snapshots[r.today] else r.status])
  }

  /** One run: refused on an empty map, a mere baseline when there is no earlier day. */
  function RunOnce(b: Books, r: Inputs, previous: Option<Day>): Books
    requires previous.Some? ==> previous.value in b.snapshots && previous.value < r.today
  {
    if r.vins == [] then b
    else if previous.None? then Snapshotted(b, r)
    else RecordedAll(Snapshotted(b, r), r, Candidates(r.vins, r.status, b.snapshots[previous.value]))
  }

  class DeclinedRepairCheck {
    var snapshots: map<Day, Labels>
    var findings: map<(Day, string), Finding>
    var decommissioning: set<string>
    var excluded: set<string>
    ghost var added: seq<string>

    ghost function Contents(): Books
      reads this
    {
      Books(snapshots, findings, decommissioning, excluded, added)
    }

    constructor (decommissioning: set<string>, excluded: set<string>)
      ensures Contents() == Books(map[], map[], decommissioning, excluded, [])
    {
      this.snapshots, this.findings, this.added := map[], map[], [];
      this.decommissioning, this.excluded := decommissioning, excluded;
    }

    method PreviousDay(today: Day) returns (d: Option<Day>)
      ensures IsPrevious(snapshots, today, d)
    {
      d := None;
      var rest := snapshots.Keys;
      while exists e :: e in rest
        invariant rest <= snapshots.Keys
        invariant d.Some? ==> d.value in snapshots && d.value < today
        invariant forall e :: e in snapshots && e !in rest && e < today ==> d.Some? && e <= d.value
        decreases |rest|
      {
        var e :| e in rest;
        if e < today && (d.None? || d.value < e) {
          d := Some(e);
        }
        rest := rest - {e};
      }
    }

    method Run(r: Inputs) returns (ok: bool, ghost previous: Option<Day>)
      requires WellFormed(r)
      modifies this
      ensures ok == (r.vins != []) && IsPrevious(old(snapshots), r.today, previous)
      ensures Contents() == RunOnce(old(Contents()), r, previous)
    {
      var prev := PreviousDay(r.today);
      previous := prev;
      if |r.vins| == 0 {
        return false, previous;
      }
      var earlier := if prev.Some? then snapshots[prev.value] else map[];
      snapshots := snapshots[r.today := if r.today in snapshots then r.status + snapshots[r.today] else r.status];
      ok := true;
      if prev.None? {
        return;
      }
      var candidates: seq<string> := [];
      for i := 0 to |r.vins|
        invariant candidates == Candidates(r.vins[..i], r.status, earlier)
        invariant Contents() == Snapshotted(old(Contents()), r)
      {
        assert r.vins[..i + 1][..i] == r.vins[..i];
        if NewlyDeclined(r.status, earlier, r.vins[i]) {
          candidates := candidates + [r.vins[i]];
        }
      }
      assert r.vins[..|r.vins|] == r.vins;
      RecordAll(r, candidates);
    }

    /** The dedup loop; `listed` grows with every truck it adds. */
    method RecordAll(r: Inputs, candidates: seq<string>)
      modifies this`findings, this`decommissioning, this`added
      ensures Contents() == RecordedAll(old(Contents()), r, candidates)
    {
      var listed := set s | s in decommissioning :: TruckKey(s);
      var excused := set s | s in excluded :: TruckKey(s);
      for i := 0 to |candidates|
        invariant listed == KeysOf(decommissioning) && excused == KeysOf(excluded)
        invariant Contents() == RecordedAll(old(Contents()), r, candidates[..i])
      {
        RecordedSnoc(old(Contents()), r, candidates, i);
        var vin := candidates[i];
        var verdict := Judge(r, listed, excused, vin);
        if (r.today, vin) !in findings {
          findings := findings[(r.today, vin) := Finding(Lookup(r.trucks, vin), verdict)];
          if verdict == Added {
            var padded := PadTruck(r.trucks[vin]);
            KeysGrow(decommissioning, padded);
            decommissioning := decommissioning + {padded};
            listed := listed + {TruckKey(padded)};
            added := added + [KeyOf(r, vin)];
          }
        }
      }
      assert candidates[..|candidates|] == candidates;
    }
  }

  lemma RecordedSnoc(b: Books, r: Inputs, candidates: seq<string>, i: nat)
    requires i < |candidates|
    ensures RecordedAll(b, r, candidates[..i + 1]) == Recorded(RecordedAll(b, r, candidates[..i]), r, candidates[i])
  {
    assert candidates[..i + 1][..i] == candidates[..i];
  }

  lemma KeysGrow(stored: set<string>, s: string)
    ensures KeysOf(stored + {s}) == KeysOf(stored) + {TruckKey(s)}
  {
  }

  // ── One run ────────────────────────────────────────────────────────────────

  lemma {:induction false} CandidatesAre(vins: seq<string>, now: Labels, earlier: Labels, vin: string)
    ensures vin in Candidates(vins, now, earlier) <==> vin in vins && NewlyDeclined(now, earlier, vin)
  {
    if vins != [] {
      CandidatesAre(vins[..|vins| - 1], now, earlier, vin);
      assert vins == vins[..|vins| - 1] + [vins[|vins| - 1]];
    }
  }

  /** Recording touches today's candidates only, and leaves every one of them recorded. */
  lemma {:induction false} RecordedAllFindings(b: Books, r: Inputs, candidates: seq<string>, d: Day, vin: string)
    ensures var b' := RecordedAll(b, r, candidates);
            && b'.snapshots == b.snapshots
            && ((d, vin) in b'.findings <==> (d, vin) in b.findings || (d == r.today && vin in candidates))
            && ((d, vin) in b.findings ==> b'.findings[(d, vin)] == b.findings[(d, vin)])
  {
    if candidates != [] {
      var earlier, last := candidates[..|candidates| - 1], candidates[|candidates| - 1];
      RecordedAllFindings(b, r, earlier, d, vin);
      assert candidates == earlier + [last];
    }
  }

  /** If all candidates are recorded, nothing more happens. */
  lemma {:induction false} RecordedAlready(b: Books, r: Inputs, candidates: seq<string>)
    requires forall v :: v in candidates ==> (r.today, v) in b.findings
    ensures RecordedAll(b, r, candidates) == b
  {
    if candidates != [] {
      assert forall v :: v in candidates[..|candidates| - 1] ==> v in candidates;
      RecordedAlready(b, r, candidates[..|candidates| - 1]);
    }
  }

  /** The second snapshot of a day adds no rows to it. */
  lemma SnapshotTwice(b: Books, once: Books, r: Inputs, again: Inputs)
    requires again.today == r.today && again.status == r.status
    requires once.snapshots == Snapshotted(b, r).snapshots
    ensures Snapshotted(once, again) == once
  {
    var kept := if r.today in b.snapshots then b.snapshots[r.today] else map[];
    assert r.status + map[] == r.status;
    assert once.snapshots[r.today] == r.status + kept;
    assert r.status + (r.status + kept) == r.status + kept;
    assert once.snapshots[r.today := r.status + kept] == once.snapshots;
  }

  /** Running again on the same day with the same status map changes nothing, whatever has meanwhile become
      of the two lists, the trucks and the purchase orders. */
  lemma RerunAddsNothing(b: Books, r: Inputs, later: Books, again: Inputs, previous: Option<Day>)
    requires IsPrevious(b.snapshots, r.today, previous) && WellFormed(r) && WellFormed(again)
    requires again.today == r.today && again.status == r.status
    requires later.snapshots == RunOnce(b, r, previous).snapshots && later.findings == RunOnce(b, r, previous).findings
    ensures IsPrevious(later.snapshots, r.today, previous) && RunOnce(later, again, previous) == later
  {
    assert r.vins == [] <==> again.vins == [] by {
      if r.vins != [] { assert r.vins[0] in r.status; }
      if again.vins != [] { assert again.vins[0] in again.status; }
    }
    if r.vins != [] {
      if previous.None? {
        SnapshotTwice(b, later, r, again);
      } else {
        RerunFindsNothing(b, r, later, again, previous.value);
      }
    }
  }

  lemma RerunFindsNothing(b: Books, r: Inputs, later: Books, again: Inputs, p: Day)
    requires IsPrevious(b.snapshots, r.today, Some(p)) && WellFormed(r) && WellFormed(again)
    requires again.today == r.today && again.status == r.status && r.vins != [] && again.vins != []
    requires later.snapshots == RunOnce(b, r, Some(p)).snapshots && later.findings == RunOnce(b, r, Some(p)).findings
    ensures IsPrevious(later.snapshots, r.today, Some(p)) && RunOnce(later, again, Some(p)) == later
  {
    var snapped, earlier := Snapshotted(b, r), b.snapshots[p];
    var first, second := Candidates(r.vins, r.status, earlier), Candidates(again.vins, again.status, earlier);
    RecordedAllFindings(snapped, r, first, r.today, "");
    SnapshotTwice(b, later, r, again);
    forall v | v in second
      ensures (r.today, v) in later.findings
    {
      CandidatesAre(again.vins, again.status, earlier, v);
      CandidatesAre(r.vins, r.status, earlier, v);
      RecordedAllFindings(snapped, r, first, r.today, v);
    }
    RecordedAlready(later, again, second);
  }

  // ── Every run of days ──────────────────────────────────────────────────────

  /** A run of the check, or what others do to the lists: deleting a truck excludes it, restoring it ends
      the exclusion, entering one (by hand or from a purchase order) ends it and lists the truck, and editing
      a listed row can give it another number. */
  datatype Occasion =
    | Check(inputs: Inputs, previous: Option<Day>)
    | Delete(truck: string)
    | Restore(truck: string)
    | Enter(truck: string)
    | Renumber(truck: string, to: string)

  ghost predicate Enabled(b: Books, o: Occasion) {
    match o
    case Check(r, previous) => WellFormed(r) && IsPrevious(b.snapshots, r.today, previous)
    case Delete(truck) => truck in b.decommissioning
    case Renumber(truck, to) => truck in b.decommissioning && (to == truck || to !in b.decommissioning)
    case _ => true
  }

  ghost function After(b: Books, o: Occasion): Books
    requires Enabled(b, o)
  {
    match o
    case Check(r, previous) => RunOnce(b, r, previous)
    case Delete(truck) =>
      b.(decommissioning := b.decommissioning - {truck}, excluded := b.excluded + if truck == "" then {} else {truck})
    case Restore(truck) => b.(excluded := b.excluded - {truck})
    case Enter(truck) => b.(excluded := b.excluded - {truck}, decommissioning := b.decommissioning + {truck})
    case Renumber(truck, to) => b.(decommissioning := b.decommissioning - {truck} + {to})
  }

  /** Deleting a truck excludes it, unless its number is empty. Entering it again leaves both lists as they were;
      restoring it instead only ends the exclusion. Renumbering a row there and back changes nothing. */
  lemma ListsComeBack(b: Books, truck: string, other: string)
    requires truck in b.decommissioning && truck !in b.excluded && other !in b.decommissioning
    ensures var deleted := After(b, Delete(truck));
            && truck !in deleted.decommissioning && (truck in deleted.excluded <==> truck != "")
            && After(deleted, Enter(truck)) == b
            && After(deleted, Restore(truck)) == b.(decommissioning := b.decommissioning - {truck})
    ensures var renumbered := After(b, Renumber(truck, other));
            && truck !in renumbered.decommissioning && other in renumbered.decommissioning
            && After(renumbered, Renumber(other, truck)) == b
  {
    var gone := b.decommissioning - {truck};
    assert gone + {truck} == b.decommissioning;
    assert b.excluded + {truck} - {truck} == b.excluded == b.excluded + {} - {truck};
    assert gone + {other} - {other} == gone;
  }

  ghost predicate Possible(b: Books, occasions: seq<Occasion>)
    decreases |occasions|
  {
    occasions == [] || (Enabled(b, occasions[0]) && Possible(After(b, occasions[0]), occasions[1..]))
  }

  ghost function Reach(b: Books, occasions: seq<Occasion>): Books
    requires Possible(b, occasions)
    decreases |occasions|
  {
    if occasions == [] then b else Reach(After(b, occasions[0]), occasions[1..])
  }

  // ── Adding a truck ─────────────────────────────────────────────────────────

  /** The truck is on one of the two lists, however it is spelled there. */
  ghost predicate Covered(b: Books, key: string) { key in KeysOf(b.decommissioning) || key in KeysOf(b.excluded) }

  lemma AllCandidates(r: Inputs, earlier: Labels, vin: string)
    requires WellFormed(r)
    ensures vin in Candidates(r.vins, r.status, earlier) <==> NewlyDeclined(r.status, earlier, vin)
  {
    CandidatesAre(r.vins, r.status, earlier, vin);
  }

  /** How often the check added the truck. */
  ghost function Times(b: Books, key: string): nat { multiset(b.added)[key] }

  ghost function One(p: bool): nat { if p then 1 else 0 }

  /** What recording does to one truck: nothing if it is covered; otherwise it may be added, once, and is
      covered from then on. */
  ghost predicate AddsOnce(b: Books, b': Books, r: Inputs, key: string) {
    && (Covered(b, key) ==> Covered(b', key) && Times(b', key) == Times(b, key))
    && (Times(b', key) == Times(b, key)
        || (Times(b', key) == Times(b, key) + 1 && Covered(b', key) && key !in r.poCovered && key != ""))
  }

  lemma RecordingAddsOnce(b: Books, r: Inputs, vin: string, key: string)
    ensures AddsOnce(b, Recorded(b, r, vin), r, key)
  {
    if vin in r.trucks {
      StoredTruckKey(r.trucks[vin]);
      KeysGrow(b.decommissioning, PadTruck(r.trucks[vin]));
    }
  }

  lemma {:induction false} RecordingAllAddsOnce(b: Books, r: Inputs, candidates: seq<string>, key: string)
    ensures AddsOnce(b, RecordedAll(b, r, candidates), r, key)
  {
    if candidates != [] {
      var n := |candidates| - 1;
      RecordingAllAddsOnce(b, r, candidates[..n], key);
      RecordingAddsOnce(RecordedAll(b, r, candidates[..n]), r, candidates[n], key);
    }
  }

  /** A run adds a truck at most once, and only if it is on neither list and no purchase order covers it. */
  lemma RunAddsOnce(b: Books, r: Inputs, previous: Option<Day>, key: string)
    requires IsPrevious(b.snapshots, r.today, previous)
    ensures AddsOnce(b, RunOnce(b, r, previous), r, key)
  {
    if r.vins != [] && previous.Some? {
      RecordingAllAddsOnce(Snapshotted(b, r), r, Candidates(r.vins, r.status, b.snapshots[previous.value]), key);
    }
  }

  // ── Which trucks a run adds ────────────────────────────────────────────────

  /** The VIN was not found today yet, and its truck is this one. */
  ghost predicate Brings(b: Books, r: Inputs, vin: string, key: string) {
    (r.today, vin) !in b.findings && vin in r.trucks && TruckKey(r.trucks[vin]) == key
  }

  ghost predicate Brought(b: Books, r: Inputs, vins: seq<string>, key: string) {
    exists i :: 0 <= i < |vins| && Brings(b, r, vins[i], key)
  }

  lemma BroughtSnoc(b: Books, r: Inputs, vins: seq<string>, last: string, key: string)
    ensures Brought(b, r, vins + [last], key) <==> Brought(b, r, vins, key) || Brings(b, r, last, key)
  {
    var longer := vins + [last];
    assert longer[|vins|] == last;
    if i :| 0 <= i < |vins| && Brings(b, r, vins[i], key) {
      assert longer[i] == vins[i];
    }
  }

  /** One more candidate adds its truck if that is covered by nothing yet. */
  lemma RecordingAdds(b: Books, r: Inputs, vin: string, key: string)
    requires key != ""
    ensures var b', adds := Recorded(b, r, vin), Brings(b, r, vin, key) && !Covered(b, key) && key !in r.poCovered;
            && Times(b', key) == Times(b, key) + One(adds) && b'.excluded == b.excluded
            && (key in KeysOf(b'.decommissioning) <==> key in KeysOf(b.decommissioning) || adds)
  {
    if vin in r.trucks {
      StoredTruckKey(r.trucks[vin]);
      KeysGrow(b.decommissioning, PadTruck(r.trucks[vin]));
    }
  }

  lemma {:induction false} RecordingAllAdds(b: Books, r: Inputs, vins: seq<string>, key: string)
    requires key != ""
    ensures var b' := RecordedAll(b, r, vins);
            var adds := Brought(b, r, vins, key) && !Covered(b, key) && key !in r.poCovered;
            && Times(b', key) == Times(b, key) + One(adds) && b'.excluded == b.excluded
            && (key in KeysOf(b'.decommissioning) <==> key in KeysOf(b.decommissioning) || adds)
  {
    if vins != [] {
      var n := |vins| - 1;
      var before := RecordedAll(b, r, vins[..n]);
      RecordingAllAdds(b, r, vins[..n], key);
      RecordingAdds(before, r, vins[n], key);
      RecordedAllFindings(b, r, vins[..n], r.today, vins[n]);
      BroughtSnoc(b, r, vins[..n], vins[n], key);
      assert vins == vins[..n] + [vins[n]];
      if Brings(b, r, vins[n], key) && !Brings(before, r, vins[n], key) {
        var i :| 0 <= i < n && vins[..n][i] == vins[n];
        assert Brings(b, r, vins[..n][i], key);
      }
    }
  }

  /** A VIN of the truck is declined now, was not declined earlier, and was not found today before. */
  ghost predicate NewlyBrought(b: Books, r: Inputs, earlier: Labels, key: string) {
    exists vin :: IsDeclined(LabelOf(r.status, vin)) && !IsDeclined(LabelOf(earlier, vin))
      && (r.today, vin) !in b.findings && vin in r.trucks && TruckKey(r.trucks[vin]) == key
  }

  lemma BroughtIff(b: Books, r: Inputs, earlier: Labels, key: string)
    requires WellFormed(r)
    ensures Brought(Snapshotted(b, r), r, Candidates(r.vins, r.status, earlier), key)
            <==> NewlyBrought(b, r, earlier, key)
  {
    var snapped, vins := Snapshotted(b, r), Candidates(r.vins, r.status, earlier);
    if Brought(snapped, r, vins, key) {
      var i :| 0 <= i < |vins| && Brings(snapped, r, vins[i], key);
      AllCandidates(r, earlier, vins[i]);
    }
    if NewlyBrought(b, r, earlier, key) {
      var vin :| IsDeclined(LabelOf(r.status, vin)) && !IsDeclined(LabelOf(earlier, vin))
        && (r.today, vin) !in b.findings && vin in r.trucks && TruckKey(r.trucks[vin]) == key;
      AllCandidates(r, earlier, vin);
      var i :| 0 <= i < |vins| && vins[i] == vin;
      assert Brings(snapped, r, vins[i], key);
    }
  }

  /** A run adds a truck, once, exactly if it is on neither list, no purchase order covers it, and a VIN of it is
      newly declined since the last earlier day. */
  lemma AddsExactly(b: Books, r: Inputs, previous: Option<Day>, key: string)
    requires WellFormed(r) && IsPrevious(b.snapshots, r.today, previous) && key != ""
    ensures var adds := previous.Some? && key !in KeysOf(b.decommissioning) + KeysOf(b.excluded) + r.poCovered
                        && NewlyBrought(b, r, b.snapshots[previous.value], key);
            Times(RunOnce(b, r, previous), key) == Times(b, key) + if adds then 1 else 0
  {
    if previous.Some? {
      BroughtIff(b, r, b.snapshots[previous.value], key);
      if r.vins != [] {
        RecordingAllAdds(Snapshotted(b, r), r, Candidates(r.vins, r.status, b.snapshots[previous.value]), key);
      }
    }
  }

  predicate Stores(b: Books, b': Books, r: Inputs, vin: string, s: string) {
    && vin in r.trucks && (r.today, vin) in b'.findings && (r.today, vin) !in b.findings
    && s == PadSix(TruckKey(r.trucks[vin])) && TruckKey(s) != ""
  }

  /** What a run puts on the list is stored padded to six, and is the truck of a VIN it found. */
  ghost predicate StoresPadded(b: Books, b': Books, r: Inputs) {
    && b.decommissioning <= b'.decommissioning && b'.excluded == b.excluded
    && forall s :: s in b'.decommissioning && s !in b.decommissioning ==>
         exists vin :: Stores(b, b', r, vin, s)
  }

  lemma {:induction false} RecordingStoresPadded(b: Books, r: Inputs, vins: seq<string>)
    ensures StoresPadded(b, RecordedAll(b, r, vins), r)
  {
    if vins != [] {
      var n := |vins| - 1;
      var before, b' := RecordedAll(b, r, vins[..n]), RecordedAll(b, r, vins);
      RecordingStoresPadded(b, r, vins[..n]);
      forall s | s in b'.decommissioning && s !in b.decommissioning
        ensures exists vin :: Stores(b, b', r, vin, s)
      {
        if s in before.decommissioning {
          var vin :| Stores(b, before, r, vin, s);
          assert Stores(b, b', r, vin, s);
        } else {
          RecordedAllFindings(b, r, vins[..n], r.today, vins[n]);
          StoredTruckKey(r.trucks[vins[n]]);
          assert Stores(b, b', r, vins[n], s);
        }
      }
    }
  }

  lemma RunStoresPadded(b: Books, r: Inputs, previous: Option<Day>)
    requires IsPrevious(b.snapshots, r.today, previous)
    ensures StoresPadded(b, RunOnce(b, r, previous), r)
  {
    if r.vins != [] && previous.Some? {
      var snapped, b' := Snapshotted(b, r), RunOnce(b, r, previous);
      RecordingStoresPadded(snapped, r, Candidates(r.vins, r.status, b.snapshots[previous.value]));
      assert forall vin, s :: Stores(snapped, b', r, vin, s) ==> Stores(b, b', r, vin, s);
    }
  }

  /** What a finding says about a VIN found now: its truck, if it has one, and why the truck was added or not.
      An exclusion goes before a purchase order and the list before both. */
  ghost predicate Explains(b: Books, r: Inputs, earlier: seq<string>, vin: string, f: Finding) {
    var key := if vin in r.trucks then TruckKey(r.trucks[vin]) else "";
    var listed, excluded := key in KeysOf(b.decommissioning), key in KeysOf(b.excluded);
    && f.truckNumber == (if vin in r.trucks then Some(r.trucks[vin]) else None)
    && (f.verdict == NoTruckNumber <==> key == "")
    && (f.verdict == AlreadyExcluded <==> key != "" && !listed && excluded)
    && (f.verdict == CoveredByPo <==> key != "" && !listed && !excluded && key in r.poCovered)
    && (f.verdict == AlreadyListed <==>
          key != "" && (listed || (!excluded && key !in r.poCovered && Brought(b, r, earlier, key))))
  }

  lemma NextFindingExplains(b: Books, before: Books, r: Inputs, earlier: seq<string>, vin: string)
    requires before == RecordedAll(b, r, earlier) && (r.today, vin) !in before.findings
    ensures (r.today, vin) in Recorded(before, r, vin).findings
    ensures Explains(b, r, earlier, vin, Recorded(before, r, vin).findings[(r.today, vin)])
  {
    if KeyOf(r, vin) != "" {
      RecordingAllAdds(b, r, earlier, KeyOf(r, vin));
    }
  }

  /** Every candidate not found before gets its finding, in the light of the candidates before it. */
  lemma {:induction false} FindingsExplain(b: Books, r: Inputs, vins: seq<string>, i: nat)
    requires i < |vins| && (r.today, vins[i]) !in b.findings
    requires forall j, k :: 0 <= j < k < |vins| ==> vins[j] != vins[k]
    ensures (r.today, vins[i]) in RecordedAll(b, r, vins).findings
    ensures Explains(b, r, vins[..i], vins[i], RecordedAll(b, r, vins).findings[(r.today, vins[i])])
  {
    var n := |vins| - 1;
    var before := RecordedAll(b, r, vins[..n]);
    RecordedAllFindings(b, r, vins[..n], r.today, vins[i]);
    if i < n {
      FindingsExplain(b, r, vins[..n], i);
      assert vins[..n][..i] == vins[..i];
    } else {
      NextFindingExplains(b, before, r, vins[..n], vins[n]);
    }
  }

  /** Candidates come in the order of the status map. */
  lemma {:induction false} CandidatesInOrder(a: seq<string>, b: seq<string>, now: Labels, earlier: Labels)
    ensures Candidates(a + b, now, earlier) == Candidates(a, now, earlier) + Candidates(b, now, earlier)
  {
    if b == [] {
      assert a + b == a;
    } else {
      var n := |b| - 1;
      assert (a + b)[..|a + b| - 1] == a + b[..n];
      CandidatesInOrder(a, b[..n], now, earlier);
    }
  }

  lemma {:induction false} CandidatesDistinct(vins: seq<string>, now: Labels, earlier: Labels)
    requires forall i, j :: 0 <= i < j < |vins| ==> vins[i] != vins[j]
    ensures var c := Candidates(vins, now, earlier); forall i, j :: 0 <= i < j < |c| ==> c[i] != c[j]
  {
    if vins != [] {
      var n := |vins| - 1;
      CandidatesDistinct(vins[..n], now, earlier);
      CandidatesAre(vins[..n], now, earlier, vins[n]);
      assert vins[n] !in vins[..n];
    }
  }

  /** A whole run: every VIN newly declined and not found today yet gets its finding, in the light of those before
      it in the status map. */
  lemma RunExplains(b: Books, r: Inputs, p: Day, i: nat)
    requires WellFormed(r) && IsPrevious(b.snapshots, r.today, Some(p)) && i < |r.vins|
    requires IsDeclined(LabelOf(r.status, r.vins[i])) && !IsDeclined(LabelOf(b.snapshots[p], r.vins[i]))
    requires (r.today, r.vins[i]) !in b.findings
    ensures var found := RunOnce(b, r, Some(p)).findings;
            && (r.today, r.vins[i]) in found
            && Explains(b, r, Candidates(r.vins[..i], r.status, b.snapshots[p]), r.vins[i],
                        found[(r.today, r.vins[i])])
  {
    var earlier, all := b.snapshots[p], Candidates(r.vins, r.status, b.snapshots[p]);
    var before := Candidates(r.vins[..i], r.status, earlier);
    CandidatesSplit(r.vins, i, r.status, earlier);
    CandidatesDistinct(r.vins, r.status, earlier);
    FindingsExplain(Snapshotted(b, r), r, all, |before|);
    SameLists(b, Snapshotted(b, r), r, before, r.vins[i], RunOnce(b, r, Some(p)).findings[(r.today, r.vins[i])]);
  }

  lemma CandidatesSplit(vins: seq<string>, i: nat, now: Labels, earlier: Labels)
    requires i < |vins| && NewlyDeclined(now, earlier, vins[i])
    ensures var all, before := Candidates(vins, now, earlier), Candidates(vins[..i], now, earlier);
            |before| < |all| && all[..|before|] == before && all[|before|] == vins[i]
  {
    var rest := vins[i + 1..];
    assert vins == vins[..i] + ([vins[i]] + rest) && [vins[i]][..0] == [];
    CandidatesInOrder(vins[..i], [vins[i]] + rest, now, earlier);
    CandidatesInOrder([vins[i]], rest, now, earlier);
    assert Candidates([vins[i]], now, earlier) == [vins[i]];
  }

  lemma SameLists(b: Books, c: Books, r: Inputs, earlier: seq<string>, vin: string, f: Finding)
    requires b.decommissioning == c.decommissioning && b.excluded == c.excluded && b.findings == c.findings
    ensures Explains(b, r, earlier, vin, f) <==> Explains(c, r, earlier, vin, f)
  {
    forall key
      ensures Brought(b, r, earlier, key) <==> Brought(c, r, earlier, key)
    {
      assert forall i :: 0 <= i < |earlier| ==> (Brings(b, r, earlier[i], key) <==> Brings(c, r, earlier[i], key));
    }
  }

  /** The operator takes the truck off a list without putting it on the other. */
  predicate Frees(o: Occasion, key: string) { (o.Restore? || o.Renumber?) && TruckKey(o.truck) == key }

  function Freed(occasions: seq<Occasion>, key: string): nat {
    if occasions == [] then 0 else (if Frees(occasions[0], key) then 1 else 0) + Freed(occasions[1..], key)
  }

  /** The lists without one of their entries. */
  lemma KeysShrink(stored: set<string>, s: string)
    ensures KeysOf(stored - {s}) <= KeysOf(stored) <= KeysOf(stored - {s}) + {TruckKey(s)}
  {
    forall k | k in KeysOf(stored) && k != TruckKey(s)
      ensures k in KeysOf(stored - {s})
    {
      var x :| x in stored && TruckKey(x) == k;
      assert x in stored - {s};
    }
  }

  lemma OccasionCovers(b: Books, o: Occasion, key: string)
    requires Enabled(b, o) && key != ""
    ensures Times(After(b, o), key) + One(Covered(b, key))
            <= Times(b, key) + One(Covered(After(b, o), key)) + One(Frees(o, key))
    ensures Covered(b, key) && !Frees(o, key) ==> Covered(After(b, o), key) && Times(After(b, o), key) == Times(b, key)
  {
    match o
    case Check(r, previous) => RunAddsOnce(b, r, previous, key);
    case Delete(truck) =>
      KeysShrink(b.decommissioning, truck);
      KeysGrow(b.excluded, truck);
      assert TruckKey("") == "";
    case Restore(truck) => KeysShrink(b.excluded, truck);
    case Enter(truck) =>
      KeysShrink(b.excluded, truck);
      KeysGrow(b.decommissioning, truck);
    case Renumber(truck, to) =>
      KeysShrink(b.decommissioning, truck);
      KeysGrow(b.decommissioning - {truck}, to);
  }

  /** A truck on either list stays on one of them, and is not added again, until an operator restores it or
      gives its row another number. */
  lemma {:induction false} StaysCovered(b: Books, occasions: seq<Occasion>, key: string)
    requires Possible(b, occasions) && key != "" && Covered(b, key) && Freed(occasions, key) == 0
    ensures Covered(Reach(b, occasions), key) && Times(Reach(b, occasions), key) == Times(b, key)
    decreases |occasions|
  {
    if occasions != [] {
      OccasionCovers(b, occasions[0], key);
      StaysCovered(After(b, occasions[0]), occasions[1..], key);
    }
  }

  /** Over any sequence of runs, deletions, restorations, entries and edits, a truck is added at most once
      more than it was freed, and not even that often if it was on a list to begin with. */
  lemma {:induction false} AddedOncePerFreeing(b: Books, occasions: seq<Occasion>, key: string)
    requires Possible(b, occasions) && key != ""
    ensures Times(Reach(b, occasions), key) + One(Covered(b, key))
            <= Times(b, key) + One(Covered(Reach(b, occasions), key)) + Freed(occasions, key)
    decreases |occasions|
  {
    if occasions != [] {
      OccasionCovers(b, occasions[0], key);
      AddedOncePerFreeing(After(b, occasions[0]), occasions[1..], key);
    }
  }

  // ── The findings ───────────────────────────────────────────────────────────

  /** On each snapshot day but the first, the findings are exactly the VINs declined that day and not
      declined on the snapshot day before; there are none on other days. */
  ghost predicate FindingsExact(b: Books) {
    && (forall d, p, vin :: d in b.snapshots && IsPrevious(b.snapshots, d, Some(p)) ==>
          ((d, vin) in b.findings <==> NewlyDeclined(b.snapshots[d], b.snapshots[p], vin)))
    && (forall d, vin :: (d, vin) in b.findings ==> d in b.snapshots && !IsPrevious(b.snapshots, d, None))
  }

  /** A snapshot added or grown on the last day does not change which day came before which. */
  lemma PreviousIsStable(snapshots: map<Day, Labels>, today: Day, labels: Labels, d: Day, p: Option<Day>)
    requires forall e :: e in snapshots ==> e <= today
    requires d <= today
    ensures IsPrevious(snapshots[today := labels], d, p) <==> IsPrevious(snapshots, d, p)
  {
    assert forall e :: e in snapshots ==> e in snapshots[today := labels];
  }

  /** Today's findings are exactly today's differences. */
  ghost predicate TodayExact(b: Books, r: Inputs, previous: Option<Day>)
    requires r.today in b.snapshots && (previous.Some? ==> previous.value in b.snapshots)
  {
    forall vin :: (r.today, vin) in b.findings <==>
                    previous.Some? && NewlyDeclined(b.snapshots[r.today], b.snapshots[previous.value], vin)
  }

  /** Only today's findings can go wrong in a run. */
  lemma ExactIffTodayExact(b: Books, r: Inputs, previous: Option<Day>)
    requires FindingsExact(b) && WellFormed(r) && IsPrevious(b.snapshots, r.today, previous) && r.vins != []
    requires forall d :: d in b.snapshots ==> d <= r.today
    ensures r.today in RunOnce(b, r, previous).snapshots
    ensures previous.Some? ==> previous.value in RunOnce(b, r, previous).snapshots
    ensures FindingsExact(RunOnce(b, r, previous)) <==> TodayExact(RunOnce(b, r, previous), r, previous)
  {
    var b', labels := RunOnce(b, r, previous), Snapshotted(b, r).snapshots[r.today];
    var candidates := if previous.Some? then Candidates(r.vins, r.status, b.snapshots[previous.value]) else [];
    forall d, vin
      ensures b'.snapshots == b.snapshots[r.today := labels]
      ensures (d, vin) in b'.findings <==> (d, vin) in b.findings || (d == r.today && vin in candidates)
    {
      RecordedAllFindings(Snapshotted(b, r), r, candidates, d, vin);
    }
    forall d, p | d <= r.today
      ensures IsPrevious(b'.snapshots, d, p) <==> IsPrevious(b.snapshots, d, p)
    {
      PreviousIsStable(b.snapshots, r.today, labels, d, p);
    }
    assert IsPrevious(b'.snapshots, r.today, previous);
    if TodayExact(b', r, previous) {
      forall d, p, vin | d in b'.snapshots && IsPrevious(b'.snapshots, d, Some(p))
        ensures (d, vin) in b'.findings <==> NewlyDeclined(b'.snapshots[d], b'.snapshots[p], vin)
      {
        assert d == r.today ==> previous == Some(p);
      }
    }
  }

  /** What a run's status map may say about the day's VINs that are already snapshotted: newly declined only
      where the snapshot says declined too. On a new day it may say anything. */
  ghost predicate Harmless(b: Books, r: Inputs, previous: Option<Day>)
    requires previous.Some? ==> previous.value in b.snapshots
  {
    r.today in b.snapshots && previous.Some? ==>
      forall vin :: vin in b.snapshots[r.today] && NewlyDeclined(r.status, b.snapshots[previous.value], vin) ==>
                      IsDeclined(b.snapshots[r.today][vin])
  }

  /** A run on the last day or a new one leaves the findings exact exactly when its status map is harmless:
      the snapshot keeps the first label of the day, so a VIN that only a later map declines is found
      against a snapshot that denies it. */
  lemma RunKeepsExactIff(b: Books, r: Inputs, previous: Option<Day>)
    requires FindingsExact(b) && WellFormed(r) && IsPrevious(b.snapshots, r.today, previous) && r.vins != []
    requires forall d :: d in b.snapshots ==> d <= r.today
    ensures FindingsExact(RunOnce(b, r, previous)) <==> Harmless(b, r, previous)
  {
    ExactIffTodayExact(b, r, previous);
    var b' := RunOnce(b, r, previous);
    if previous.Some? {
      var earlier := b.snapshots[previous.value];
      var candidates := Candidates(r.vins, r.status, earlier);
      forall vin
        ensures (r.today, vin) in b'.findings <==> (r.today, vin) in b.findings || NewlyDeclined(r.status, earlier, vin)
        ensures b'.snapshots == Snapshotted(b, r).snapshots
      {
        RecordedAllFindings(Snapshotted(b, r), r, candidates, r.today, vin);
        AllCandidates(r, earlier, vin);
      }
      SnapshotLabels(b, r);
    } else if r.today in b.snapshots {
      assert forall vin :: (r.today, vin) !in b.findings;
    }
  }

  /** The day's labels after a run: those there already, and the map's for the other VINs. */
  lemma SnapshotLabels(b: Books, r: Inputs)
    ensures forall vin :: LabelOf(Snapshotted(b, r).snapshots[r.today], vin)
                          == if r.today in b.snapshots && vin in b.snapshots[r.today] then b.snapshots[r.today][vin]
                             else LabelOf(r.status, vin)
  {
  }

  /** The days run come in order. */
  ghost predicate DaysInOrder(b: Books, occasions: seq<Occasion>)
    requires Possible(b, occasions)
    decreases |occasions|
  {
    occasions == [] ||
    (&& (occasions[0].Check? ==> forall d :: d in b.snapshots ==> d <= occasions[0].inputs.today)
     && DaysInOrder(After(b, occasions[0]), occasions[1..]))
  }

  ghost predicate AllHarmless(b: Books, occasions: seq<Occasion>)
    requires Possible(b, occasions)
    decreases |occasions|
  {
    occasions == [] ||
    (&& (occasions[0].Check? && occasions[0].inputs.vins != [] ==>
         Harmless(b, occasions[0].inputs, occasions[0].previous))
     && AllHarmless(After(b, occasions[0]), occasions[1..]))
  }

  ghost predicate AlwaysExact(b: Books, occasions: seq<Occasion>)
    requires Possible(b, occasions)
    decreases |occasions|
  {
    FindingsExact(b) && (occasions == [] || AlwaysExact(After(b, occasions[0]), occasions[1..]))
  }

  /** Over any number of days and any number of runs a day, with anything done to the lists in between, the
      findings are always exactly the day-over-day differences, exactly when every re-run was harmless. */
  lemma {:induction false} FindingsStayExactIff(b: Books, occasions: seq<Occasion>)
    requires FindingsExact(b) && Possible(b, occasions) && DaysInOrder(b, occasions)
    ensures AlwaysExact(b, occasions) <==> AllHarmless(b, occasions)
    decreases |occasions|
  {
    if occasions != [] {
      var o, b' := occasions[0], After(b, occasions[0]);
      if o.Check? && o.inputs.vins != [] {
        RunKeepsExactIff(b, o.inputs, o.previous);
      } else {
        assert b'.snapshots == b.snapshots && b'.findings == b.findings;
      }
      if FindingsExact(b') {
        FindingsStayExactIff(b', occasions[1..]);
      } else {
        assert !AlwaysExact(b', occasions[1..]);
      }
    }
  }

  /** In particular when each day has one status map. */
  lemma OneMapIsHarmless(b: Books, r: Inputs, previous: Option<Day>)
    requires previous.Some? ==> previous.value in b.snapshots
    requires r.today in b.snapshots ==> b.snapshots[r.today] == r.status
    ensures Harmless(b, r, previous)
  {
  }

  /** A second map that is not harmless. */
  lemma SecondMapOfTheDayDisagrees(vin: string, declined: Option<string>, other: Option<string>)
    requires IsDeclined(declined) && !IsDeclined(other)
    ensures var b := Books(map[1 := map[vin := other], 2 := map[vin := other]], map[], {}, {}, []);
            var r := Inputs(2, [vin], map[vin := declined], map[], {});
            && FindingsExact(b) && WellFormed(r) && IsPrevious(b.snapshots, 2, Some(1))
            && !Harmless(b, r, Some(1)) && !FindingsExact(RunOnce(b, r, Some(1)))
  {
    var b := Books(map[1 := map[vin := other], 2 := map[vin := other]], map[], {}, {}, []);
    var r := Inputs(2, [vin], map[vin := declined], map[], {});
    assert forall d, v :: d in b.snapshots ==> !IsDeclined(LabelOf(b.snapshots[d], v));
    assert vin in b.snapshots[2] && NewlyDeclined(r.status, b.snapshots[1], vin);
    RunKeepsExactIff(b, r, Some(1));
  }

  // ── The label ──────────────────────────────────────────────────────────────

  predicate Blank(s: string) { forall c :: c in s ==> IsSpace(c) }

  /** A label means the same in any case and with any space around it. */
  lemma DeclinedSpellings(s: string, before: string, after: string)
    requires Blank(before) && Blank(after)
    ensures IsDeclined(Some(s)) <==> IsDeclined(Some(Upper(s)))
    ensures IsDeclined(Some(s)) <==> IsDeclined(Some(before + s + after))
  {
    TrimOfUpper(s);
    LowerOfUpper(Trim(s));
    TrimOfPadded(before, s, after);
  }
}
