/** What every write-through keeps on `tech_vehicle_assignments` and its history. */
module Assignments {
  import opened Text
  import opened WriteThrough

  // ── Truck exclusivity ──────────────────────────────────────────────────────

  /** No two assignment rows claim the same physical truck. */
  ghost predicate Exclusive(m: map<string, Row>) {
    forall a, b :: a in m && b in m && Claim(m, a) != "" && Claim(m, a) == Claim(m, b) ==> a == b
  }

  /** Every row claiming `truck` belongs to `tech` or to the named `holder` ("" names nobody). */
  ghost predicate OnlyHeldBy(m: map<string, Row>, truck: string, tech: string, holder: string) {
    forall h :: h in m && Claim(m, h) == truck ==> h == tech || (h == holder && h != "")
  }

  /** A truck number the routes accept: it names a truck, and padding it does not lose which. */
  predicate Names(truck: string) {
    ToCanonical(truck) != "" && RoundTrips(truck)
  }

  /** An assign that TPMS did not block puts the technician, active, on the truck, takes the truck from
      the previous holder if that holder claimed it, and touches no other row. */
  lemma AssignMoves(m: map<string, Row>, args: Args)
    requires args.action == Assign && args.Ldap() != "" && !args.Blocked() && Names(args.truckNumber)
    ensures var m' := AssignmentsAfter(m, args);
            && m'.Keys == m.Keys + {args.Ldap()}
            && m'[args.Ldap()] == Row(Some(args.Padded()), true)
            && Claim(m', args.Ldap()) == args.Canonical()
            && forall e :: e in m && e != args.Ldap() ==>
                 m'[e] == if e == args.PrevHolder() && e != "" && Claim(m, e) == args.Canonical()
                          then Row(None, false) else m[e]
  {
    PaddedRoundTrip(args.truckNumber);
  }

  /** An unassign can only clear the row of the technician it acts on; every other row stays. */
  lemma UnassignOnlyClears(m: map<string, Row>, args: Args)
    requires args.action == Unassign
    ensures var m' := AssignmentsAfter(m, args);
            && m.Keys <= m'.Keys <= m.Keys + {args.Ldap()}
            && (forall e :: e in m && e != args.Ldap() ==> m'[e] == m[e])
            && (args.Ldap() in m' && (args.Ldap() !in m || m'[args.Ldap()] != m[args.Ldap()]) ==>
                  m'[args.Ldap()] == Row(None, false))
  {
  }

  /** An assign keeps trucks exclusive exactly when the caller's previous holder is the real one. */
  lemma AssignKeepsExclusive(m: map<string, Row>, args: Args)
    requires Exclusive(m)
    requires args.action == Assign && args.Ldap() != "" && !args.Blocked() && Names(args.truckNumber)
    ensures Exclusive(AssignmentsAfter(m, args)) <==> OnlyHeldBy(m, args.Canonical(), args.Ldap(), args.PrevHolder())
  {
    AssignMoves(m, args);
    var m', ldap := AssignmentsAfter(m, args), args.Ldap();
    if !OnlyHeldBy(m, args.Canonical(), ldap, args.PrevHolder()) {
      var h :| h in m && Claim(m, h) == args.Canonical() && h != ldap && (h != args.PrevHolder() || h == "");
      assert m'[h] == m[h] && Claim(m', h) == Claim(m', ldap);
    } else {
      forall a, b | a in m' && b in m' && Claim(m', a) != "" && Claim(m', a) == Claim(m', b)
        ensures a == b
      {
        assert a != ldap ==> Claim(m', a) == Claim(m, a) != args.Canonical();
        assert b != ldap ==> Claim(m', b) == Claim(m, b) != args.Canonical();
      }
    }
  }

  /** Anything that is not an unblocked assign keeps trucks exclusive, whatever the systems answered. */
  lemma OtherwiseKeepsExclusive(m: map<string, Row>, args: Args)
    requires Exclusive(m)
    requires args.action == Unassign || args.Ldap() == "" || args.Blocked()
    ensures Exclusive(AssignmentsAfter(m, args))
    ensures forall e :: e in AssignmentsAfter(m, args) && Claim(AssignmentsAfter(m, args), e) != "" ==>
              e in m && Claim(m, e) == Claim(AssignmentsAfter(m, args), e)
  {
    var m' := AssignmentsAfter(m, args);
    if args.action == Unassign {
      UnassignOnlyClears(m, args);
    }
    forall e | e in m' && Claim(m', e) != ""
      ensures e in m && Claim(m, e) == Claim(m', e)
    {
      assert e in m && m'[e] == m[e];
    }
  }

  // ── Whole runs: history, activity ──────────────────────────────────────────

  /** A row is active exactly when it has a truck. */
  ghost predicate ActiveIffTruck(m: map<string, Row>) {
    forall e :: e in m ==> (m[e].active <==> m[e].truckNo.Some?)
  }

  /** The truck a technician is on according to the history alone, starting from the rows `m0`. */
  function Replayed(m0: map<string, Row>, history: seq<HistoryRow>, tech: string): Option<string> {
    if history == [] then TruckOf(m0, tech)
    else
      var last := history[|history| - 1];
      if last.tech == tech then last.truckNo else Replayed(m0, history[..|history| - 1], tech)
  }

  /** Each entry starts where that technician's previous entry ended. */
  ghost predicate Chained(m0: map<string, Row>, history: seq<HistoryRow>) {
    history == [] ||
    var earlier, last := history[..|history| - 1], history[|history| - 1];
    Chained(m0, earlier) && last.previous == Replayed(m0, earlier, last.tech)
  }

  /** The history explains the rows: it is chained, and replaying it gives every technician's truck. */
  ghost predicate Explains(m0: map<string, Row>, history: seq<HistoryRow>, m: map<string, Row>) {
    Chained(m0, history) && forall e :: Replayed(m0, history, e) == TruckOf(m, e)
  }

  /** Appending one entry that starts at the current truck re-explains exactly that one move. */
  lemma Extends(m0: map<string, Row>, history: seq<HistoryRow>, m: map<string, Row>, h: HistoryRow,
                m': map<string, Row>)
    requires Explains(m0, history, m)
    requires h.previous == TruckOf(m, h.tech) && h.truckNo == TruckOf(m', h.tech)
    requires forall e :: e != h.tech ==> TruckOf(m', e) == TruckOf(m, e)
    ensures Explains(m0, history + [h], m')
  {
    assert (history + [h])[..|history|] == history;
  }

  /** The operation's own entry records exactly the move of the operation's own row. */
  lemma OperationEntry(m: map<string, Row>, args: Args)
    requires args.Ldap() != ""
    ensures var h := OperationRecord(m, args);
            && h.tech == args.Ldap() && h.previous == TruckOf(m, h.tech)
            && h.truckNo == TruckOf(MovedRows(m, args), h.tech)
            && forall e :: e != h.tech ==> TruckOf(MovedRows(m, args), e) == TruckOf(m, e)
  {
  }

  /** The displacement entry records exactly the displaced row's loss of the truck. */
  lemma DisplacementEntry(m: map<string, Row>, args: Args)
    requires Displaces(m, args)
    ensures |RecordsOf(m, args)| == 2
    ensures var h := RecordsOf(m, args)[1];
            && h.tech == args.PrevHolder() && h.previous == TruckOf(MovedRows(m, args), h.tech)
            && h.truckNo == None == TruckOf(AssignmentsAfter(m, args), h.tech)
            && forall e :: e != h.tech ==> TruckOf(AssignmentsAfter(m, args), e) == TruckOf(MovedRows(m, args), e)
  {
  }

  lemma MoveExplains(m0: map<string, Row>, history: seq<HistoryRow>, m: map<string, Row>, args: Args)
    requires Explains(m0, history, m) && args.Ldap() != ""
    ensures Explains(m0, history + [OperationRecord(m, args)], MovedRows(m, args))
  {
    OperationEntry(m, args);
    Extends(m0, history, m, OperationRecord(m, args), MovedRows(m, args));
  }

  lemma DisplacementExplains(m0: map<string, Row>, history: seq<HistoryRow>, m: map<string, Row>, args: Args)
    requires Displaces(m, args) && |RecordsOf(m, args)| == 2
    requires Explains(m0, history, MovedRows(m, args))
    ensures Explains(m0, history + [RecordsOf(m, args)[1]], AssignmentsAfter(m, args))
  {
    DisplacementEntry(m, args);
    Extends(m0, history, MovedRows(m, args), RecordsOf(m, args)[1], AssignmentsAfter(m, args));
  }

  lemma WriteThroughExplains(m0: map<string, Row>, history: seq<HistoryRow>, m: map<string, Row>, args: Args)
    requires Explains(m0, history, m)
    ensures Explains(m0, history + RecordsOf(m, args), AssignmentsAfter(m, args))
  {
    var records := RecordsOf(m, args);
    if args.Ldap() == "" {
      assert history + records == history;
    } else {
      MoveExplains(m0, history, m, args);
      if Displaces(m, args) {
        DisplacementEntry(m, args);
        DisplacementExplains(m0, history + [records[0]], m, args);
        assert history + records == history + [records[0]] + [records[1]];
      }
    }
  }

  lemma WriteThroughKeepsActivity(m: map<string, Row>, args: Args)
    requires ActiveIffTruck(m)
    ensures ActiveIffTruck(AssignmentsAfter(m, args))
  {
  }

  /** Over any sequence of write-throughs, committed or not, blocked or not, with any arguments, the
      history stays a complete account of the assignment table and activity stays tied to trucks. */
  lemma {:induction false} RunExplains(m0: map<string, Row>, t: Tables, attempts: seq<Attempt>)
    requires Explains(m0, t.history, t.assignments) && ActiveIffTruck(t.assignments)
    ensures Explains(m0, Run(t, attempts).history, Run(t, attempts).assignments)
    ensures ActiveIffTruck(Run(t, attempts).assignments)
  {
    if attempts != [] {
      var last := attempts[|attempts| - 1];
      RunExplains(m0, t, attempts[..|attempts| - 1]);
      var before := Run(t, attempts[..|attempts| - 1]);
      if last.commits {
        WriteThroughExplains(m0, before.history, before.assignments, last.args);
        WriteThroughKeepsActivity(before.assignments, last.args);
        assert Run(t, attempts) == Committed(before, last.args);
      }
    }
  }

  /** Trucks are stored padded. */
  ghost predicate Padded(m: map<string, Row>) {
    forall e :: e in m && m[e].truckNo.Some? ==> ToTpmsRef(m[e].truckNo.value) == m[e].truckNo.value
  }

  lemma WriteThroughKeepsPadded(m: map<string, Row>, args: Args)
    requires Padded(m) && (args.action == Assign ==> Names(args.truckNumber))
    ensures Padded(AssignmentsAfter(m, args))
  {
    if args.action == Assign {
      PaddedRoundTrip(args.truckNumber);
      SameKeySameTruck(ToTpmsRef(args.truckNumber), args.truckNumber);
    }
  }

  /** On padded rows an assign is labelled "changed" exactly if the technician comes from another truck. */
  lemma ChangedTellsTheTruck(m: map<string, Row>, args: Args)
    requires Padded(m) && args.action == Assign && args.Ldap() != "" && !args.Blocked() && Names(args.truckNumber)
    ensures OperationRecord(m, args).changeType == Changed <==> Claim(m, args.Ldap()) !in {"", args.Canonical()}
  {
    var previous := TruckOf(m, args.Ldap());
    if previous.Some? && previous.value != "" {
      SameKeySameTruck(previous.value, args.truckNumber);
      assert ToCanonical(previous.value) != "";
    }
  }

  /** What the label of an operation's own entry says: a conflict and a failure at TPMS are told apart and keep
      the truck, "changed" and "assigned" say whether the truck number is another one, and "unassigned" leaves
      the technician on a truck exactly for a preserved cross-truck row. */
  lemma LabelsTellTheMove(m: map<string, Row>, args: Args)
    requires args.Ldap() != "" && (args.action == Assign ==> args.Padded() != "")
    ensures var h := OperationRecord(m, args);
            && h.tech == args.Ldap() && h.source == args.source
            && (h.changeType == ConflictLogged <==> args.tpms.status == Conflict)
            && (h.changeType == FailureLogged <==> args.tpms.status == Failed)
            && (args.tpms.status in {Conflict, Failed} ==> h.truckNo == h.previous)
            && (h.changeType == Unassigned <==> args.action == Unassign && args.tpms.status !in {Conflict, Failed})
            && (h.changeType == Changed ==>
                h.previous !in {None, Some("")} && h.truckNo.Some? && h.truckNo != h.previous)
            && (h.changeType == Assigned ==>
                h.truckNo.Some? && (h.previous in {None, Some("")} || h.previous == h.truckNo))
            && (h.changeType == Unassigned ==>
                  (h.truckNo.Some? <==> args.CrossTruck() && h.previous.Some? && Preserved(m, args)))
  {
  }

  /** A step of a run that keeps trucks exclusive: not an unblocked assign, or one that names the truck
      and the true holder at the moment it runs. */
  ghost predicate HonestStep(m: map<string, Row>, args: Args) {
    args.action == Assign && args.Ldap() != "" && !args.Blocked() ==>
      Names(args.truckNumber) && OnlyHeldBy(m, args.Canonical(), args.Ldap(), args.PrevHolder())
  }

  /** Any run of honest write-throughs keeps every truck with at most one technician. */
  lemma {:induction false} RunKeepsExclusive(t: Tables, attempts: seq<Attempt>)
    requires Exclusive(t.assignments)
    requires forall i :: 0 <= i < |attempts| ==> HonestStep(Run(t, attempts[..i]).assignments, attempts[i].args)
    ensures Exclusive(Run(t, attempts).assignments)
  {
    if attempts != [] {
      var shorter, last := attempts[..|attempts| - 1], attempts[|attempts| - 1];
      forall i | 0 <= i < |shorter|
        ensures HonestStep(Run(t, shorter[..i]).assignments, shorter[i].args)
      {
        assert shorter[..i] == attempts[..i];
      }
      RunKeepsExclusive(t, shorter);
      var m := Run(t, shorter).assignments;
      if last.args.action == Assign && last.args.Ldap() != "" && !last.args.Blocked() {
        AssignKeepsExclusive(m, last.args);
      } else {
        OtherwiseKeepsExclusive(m, last.args);
      }
    }
  }
}
