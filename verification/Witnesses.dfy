/** Inputs at which the code does less than it says, and one at which it does all; the lemmas named in each comment
    say exactly when. */
module Witnesses {
  import opened AssignmentRuns
  import opened Assignments
  import opened DependencyOrder
  import opened FleetOperations
  import opened Mirrors
  import opened Text
  import opened WriteThrough
  import WholeRuns
  import DatabaseCopy
  import QuietHours
  import Refresh = TruckDrivenRefresh

  const CARRIED_OUT := SystemResult(Success, false, "", false, false, NoPayload)

  const REFUSED := SystemResult(Failed, false, "", false, false, NoPayload)

  const ELSEWHERE := SystemResult(Skipped, false, "", true, false, NoPayload)

  lemma Truck61385()
    ensures ToCanonical("61385") == "61385" && ToTpmsRef("61385") == "061385" && Names("61385")
    ensures ToCanonical("061385") == "61385" && IsRef("061385")
  {
    NumericRoundTrips("61385");
    TrimKeeps("61385");
    assert Zeros(1) == "0" by { assert Zeros(0) == ""; }
    PaddedRoundTrip("61385");
    PaddedIsRef("61385");
  }

  lemma LowerCaseIds()
    ensures NormalizeEnterpriseId("a") == "a" && NormalizeEnterpriseId("b") == "b" && NormalizeEnterpriseId("") == ""
  {
    TrimKeeps("a");
    TrimKeeps("b");
    assert "a"[1..] == "" && "b"[1..] == "";
  }

  function AssignB(): Args { Args(Assign, "b", "61385", CARRIED_OUT, CARRIED_OUT, CARRIED_OUT, "", "", "manual", None) }

  /** A run for a technician who is on no truck, with an occupant lookup that finds nobody; all succeeds. */
  function NobodyFound(): AssignWorld {
    var legs := Legs(CARRIED_OUT, CARRIED_OUT, CARRIED_OUT);
    AssignWorld(false, "", legs, true, "", legs, true, legs, true)
  }

  /** `b` takes the truck of `a`, whom the lookup missed, and the run completes: both hold it
      (AssignRunExclusiveIff). */
  lemma MissedOccupantSharesTruck()
    ensures var t := Tables(map["a" := Row(Some("061385"), true)], [], map[], map[], map[], map[], []);
            && Exclusive(t.assignments) && AssignOutcome("61385", "b", NobodyFound()) == Done
            && !Exclusive(AssignRun(t, "61385", "b", NobodyFound()).assignments)
  {
    var t := Tables(map["a" := Row(Some("061385"), true)], [], map[], map[], map[], map[], []);
    Truck61385();
    LowerCaseIds();
    assert BeforeMain(t, "61385", "b", NobodyFound()) == t;
    AssignRunExclusiveIff(t, "61385", "b", NobodyFound());
    assert Claim(t.assignments, "a") == "61385";
  }

  function MirrorsOfA(): Tables {
    Tables(map[], [], map["a" := Some("061385")], map["061385" := "a"], map[], map[], [])
  }

  /** The same at the mirrors: `a` keeps the profile (AssignKeepsMirrors). */
  lemma MissedOccupantBreaksMirrors()
    ensures Mirrored(MirrorsOfA()) && !Mirrored(Committed(MirrorsOfA(), AssignB()))
  {
    Truck61385();
    LowerCaseIds();
    AssignKeepsMirrors(MirrorsOfA(), AssignB());
  }

  /** TPMS refuses an unassign after the purge: the write-through commits and the last-known row stays, with
      nobody's profile behind it (UnassignRunKeepsMirrors). */
  lemma RefusedUnassignBreaksMirrors()
    ensures var w := UnassignWorld(false, true, Legs(REFUSED, REFUSED, REFUSED), true);
            Mirrored(MirrorsOfA()) && !Mirrored(UnassignRun(MirrorsOfA(), "61385", "a", w))
  {
    Truck61385();
    UnassignRunKeepsMirrors(MirrorsOfA(), "61385", "a",
                            UnassignWorld(false, true, Legs(REFUSED, REFUSED, REFUSED), true));
  }

  lemma PreservedIsLabelledUnassigned(m: map<string, Row>, args: Args)
    requires args.Ldap() != "" && args.action == Unassign && !args.Blocked() && Preserved(m, args)
    ensures var truck := TruckOf(m, args.Ldap());
            AssignmentsAfter(m, args) == m
              && RecordsOf(m, args) == [HistoryRow(args.Ldap(), truck, truck, Unassigned, args.source)]
  {
  }

  /** TPMS has the technician on another truck, as the row says: the history row is labelled "unassigned" and
      carries the truck the technician keeps (LabelsTellTheMove). */
  lemma CrossTruckIsLabelledUnassigned()
    ensures var m := map["a" := Row(Some("061385"), true)];
            var args := Args(Unassign, "a", "71000", ELSEWHERE, ELSEWHERE, ELSEWHERE, "", "", "manual", None);
            && AssignmentsAfter(m, args) == m
            && RecordsOf(m, args) == [HistoryRow("a", Some("061385"), Some("061385"), Unassigned, "manual")]
  {
    var m := map["a" := Row(Some("061385"), true)];
    var args := Args(Unassign, "a", "71000", ELSEWHERE, ELSEWHERE, ELSEWHERE, "", "", "manual", None);
    Truck61385();
    Truck71000();
    LowerCaseIds();
    assert args.Ldap() == "a" && args.Canonical() == "71000";
    PreservedIsLabelledUnassigned(m, args);
  }

  lemma Truck71000()
    ensures ToCanonical("71000") == "71000" && ToTpmsRef("71000") == "071000" && IsRef("071000")
  {
    NumericRoundTrips("71000");
    TrimKeeps("71000");
    assert Zeros(1) == "0" by { assert Zeros(0) == ""; }
    PaddedIsRef("71000");
  }

  function OnTheOtherTruck(): AssignWorld { NobodyFound().(currentTruck := "71000") }

  function MirrorsOfB(): Tables {
    Tables(map[], [], map["b" := Some("071000")], map["071000" := "b"], map[], map[], [])
  }

  lemma LookupsOfB()
    ensures WholeRuns.LooksUp(MirrorsOfB(), "61385", "b", OnTheOtherTruck())
  {
    Truck61385();
    Truck71000();
    LowerCaseIds();
  }

  lemma GoesWellForB()
    ensures WholeRuns.GoesWell("61385", "b", OnTheOtherTruck())
  {
    LowerCaseIds();
  }

  /** Where all is well: `b`, recorded on truck 71000, is assigned to the empty 61385 and moves in both mirrors
      (AssignFollowsTheMirrors). */
  lemma MovesInBothMirrors()
    ensures var t' := AssignRun(MirrorsOfB(), "61385", "b", OnTheOtherTruck());
            && AssignOutcome("61385", "b", OnTheOtherTruck()) == Done && Mirrored(MirrorsOfB()) && Mirrored(t')
            && t'.lastKnown == map["061385" := "b"] && t'.profiles == map["b" := Some("061385")]
  {
    Truck61385();
    Truck71000();
    LowerCaseIds();
    LookupsOfB();
    GoesWellForB();
    assert Mirrored(MirrorsOfB());
    WholeRuns.AssignFollowsTheMirrors(MirrorsOfB(), "61385", "b", OnTheOtherTruck());
    MovedB(AssignRun(MirrorsOfB(), "61385", "b", OnTheOtherTruck()));
  }

  lemma MovedB(t': Tables)
    requires WholeRuns.Moved(MirrorsOfB(), t', "b", "", "061385", "071000")
    ensures t'.lastKnown == map["061385" := "b"] && t'.profiles == map["b" := Some("061385")]
  {
  }

  /** A dev-only table that references a copied one ends empty (UntouchedIff). */
  lemma DevOnlyTableIsEmptied(row: DatabaseCopy.Record)
    ensures var fk: Graph := map["a" := [], "devOnly" := ["a"]];
            DatabaseCopy.FinalRows(fk, map["a" := [], "devOnly" := [row]], map["a" := [row]], ["a"], "devOnly") == []
  {
    var fk: Graph := map["a" := [], "devOnly" := ["a"]];
    EdgeDepends(fk, "devOnly", "a");
  }

  /** Twelve hours ahead of UTC the answer is the next day's (LocalHourToUtc). */
  method TwelveHoursAheadIsADayLate(day: int, hour: int) returns (t: int)
    requires 0 <= hour < 24
    ensures t == QuietHours.WallClock(12 * QuietHours.HOUR, day, hour) + QuietHours.DAY
  {
    t := QuietHours.LocalHourToUtc(12 * QuietHours.HOUR, day, hour);
  }

  lemma ReportOfA()
    ensures var s := Refresh.Step("61385", Refresh.Info("A", "061385"), 3);
            s.Eid() == "A" && s.Stored() == "061385" && Upper("a") == "A" == Upper("A")
  {
    TrimKeeps("A");
    TrimKeeps("061385");
    assert "A"[1..] == "" && "a"[1..] == "";
  }

  /** A write-through stored the technician under the lower-case id; the pass adds an upper-case row beside
      it, for the same truck (AloneIff). */
  lemma OneTechnicianTwoRows()
    ensures var m := Refresh.Mirror(map["a" := Some("061385")], map[]);
            var steps := [Refresh.Step("61385", Refresh.Info("A", "061385"), 3)];
            Refresh.Pass(m, steps).profiles == map["a" := Some("061385"), "A" := Some("061385")]
  {
    var m := Refresh.Mirror(map["a" := Some("061385")], map[]);
    var s := Refresh.Step("61385", Refresh.Info("A", "061385"), 3);
    ReportOfA();
    var added := m.profiles["A" := Some("061385")];
    NothingStale(added, s.Key(), "A");
    assert Refresh.Confirmed(m, s).profiles == added;
    assert [s][..0] == [] && Refresh.Pass(m, [s]) == Refresh.Confirmed(m, s);
  }

  lemma NothingStale(profiles: map<string, Option<string>>, key: string, eid: string)
    requires forall e :: e in profiles ==> Upper(e) == eid
    ensures Refresh.Clear(profiles, Refresh.Stale(profiles, key, eid)) == profiles
  {
  }
}
