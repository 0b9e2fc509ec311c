/** One write-through of `server/fleet-operations-service.ts` as a function on the local tables: the
    planner for the TPMS mirrors, the Holman and AMS caches, the canonical assignment row with its
    history, and the operation-log row, all in one transaction. */
module WriteThrough {
  import opened Text

  datatype Status = Success | Failed | Skipped | Pending | Conflict

  datatype Action = Assign | Unassign

  /** What a downstream leg wants cached. `key` is a Holman vehicle number or a VIN; "" means no key. */
  datatype Payload =
    | NoPayload
    | HolmanPayload(key: string, holder: Option<string>)
    | AmsPayload(key: string, holder: Option<string>)

  /** A downstream leg's answer. `saysAlreadyAssigned` is the outcome of the message test `/already
      assigned/i`, and `effectiveLdap` is "" when the leg names nobody. */
  datatype SystemResult = SystemResult(
    status: Status,
    saysAlreadyAssigned: bool,
    effectiveLdap: string,
    crossTruck: bool,
    skipVerified: bool,
    payload: Payload)

  /** Absent optional strings are "", which the source treats the same way. */
  datatype Args = Args(
    action: Action,
    ldapId: string,
    truckNumber: string,
    tpms: SystemResult,
    holman: SystemResult,
    ams: SystemResult,
    previousHolder: string,
    previousTechTruck: string,
    source: string,
    logId: Option<nat>)
  {
    /** Whom the operation acts on: for an unassign, the technician TPMS says it acted on. */
    function Ldap(): string {
      var effective := NormalizeEnterpriseId(tpms.effectiveLdap);
      if action == Unassign && effective != "" then effective else NormalizeEnterpriseId(ldapId)
    }

    function Canonical(): string { ToCanonical(truckNumber) }

    function Padded(): string {
      var p := ToTpmsRef(truckNumber);
      if p == "" then truckNumber else p
    }

    function PrevHolder(): string { NormalizeEnterpriseId(previousHolder) }

    /** TPMS refused: the canonical row must not move. */
    predicate Blocked() { tpms.status == Conflict || tpms.status == Failed }

    /** TPMS already shows the technician on this truck. */
    predicate SkipConfirmed() {
      tpms.status == Skipped && action == Assign && (tpms.skipVerified || tpms.saysAlreadyAssigned)
    }

    /** TPMS shows the technician on another truck, and left that alone. */
    predicate CrossTruck() { action == Unassign && tpms.crossTruck }

    predicate CrossTruckSkip() { tpms.status == Skipped && CrossTruck() }

    predicate Plans() { tpms.status == Success || SkipConfirmed() || CrossTruckSkip() }
  }

  datatype Row = Row(truckNo: Option<string>, active: bool)

  datatype ChangeType = Assigned | Changed | Unassigned | ConflictLogged | FailureLogged

  datatype HistoryRow = HistoryRow(
    tech: string, truckNo: Option<string>, previous: Option<string>, changeType: ChangeType, source: string)

  datatype LogRow = LogRow(tpms: Status, holman: Status, ams: Status, completed: bool)

  /** The local tables. `profiles` is keyed by technician (None: the row exists, its truck is null),
      `lastKnown` by truck. */
  datatype Tables = Tables(
    assignments: map<string, Row>,
    history: seq<HistoryRow>,
    profiles: map<string, Option<string>>,
    lastKnown: map<string, string>,
    holman: map<string, Option<string>>,
    ams: map<string, Option<string>>,
    log: seq<LogRow>)

  // ── Planning the TPMS mirrors ──────────────────────────────────────────────

  datatype Plan = Plan(
    upserts: seq<(string, string)>,
    deletes: seq<string>,
    profileSets: seq<(string, Option<string>)>)

  /** The distinct non-empty spellings a truck-keyed row may be stored under. */
  function Variants(padded: string, canonical: string): seq<string> {
    (if padded == "" then [] else [padded])
    + (if canonical == "" || canonical == padded then [] else [canonical])
  }

  function VacatedVariants(args: Args): seq<string> {
    var prev := args.previousTechTruck;
    if prev == "" then [] else
      var p := ToTpmsRef(prev);
      Variants(if p == "" then prev else p, ToCanonical(prev))
  }

  function PlanTpmsCacheWrites(args: Args): Plan {
    var ldap, prev := args.Ldap(), args.PrevHolder();
    if !args.Plans() then Plan([], [], [])
    else if args.action == Assign then
      if ldap == "" then Plan([], [], []) else
        Plan([(args.Padded(), ldap)],
             VacatedVariants(args),
             [(ldap, Some(args.Padded()))] + (if prev != "" && prev != ldap then [(prev, None)] else []))
    else
      Plan([],
           if ldap == "" && args.truckNumber == "" then [] else Variants(args.Padded(), args.Canonical()),
           if ldap != "" && !args.CrossTruckSkip() then [(ldap, None)] else [])
  }

  function Upserted(m: map<string, string>, us: seq<(string, string)>): map<string, string> {
    if us == [] then m else Upserted(m, us[..|us| - 1])[us[|us| - 1].0 := us[|us| - 1].1]
  }

  function Deleted(m: map<string, string>, ds: seq<string>): map<string, string> {
    if ds == [] then m else Deleted(m, ds[..|ds| - 1]) - {ds[|ds| - 1]}
  }

  /** A non-empty truck upserts the technician's row; otherwise an existing row's truck is nulled. */
  function ProfileSet(m: map<string, Option<string>>, tech: string,
                      truck: Option<string>): map<string, Option<string>> {
    if truck.Some? && truck.value != "" then m[tech := truck]
    else if tech in m then m[tech := None] else m
  }

  function ProfilesSet(m: map<string, Option<string>>, ps: seq<(string, Option<string>)>): map<string, Option<string>> {
    if ps == [] then m else ProfileSet(ProfilesSet(m, ps[..|ps| - 1]), ps[|ps| - 1].0, ps[|ps| - 1].1)
  }

  function ApplyPlan(t: Tables, plan: Plan): Tables {
    t.(lastKnown := Deleted(Upserted(t.lastKnown, plan.upserts), plan.deletes),
       profiles := ProfilesSet(t.profiles, plan.profileSets))
  }

  // ── The Holman and AMS caches ──────────────────────────────────────────────

  function HolmanCached(m: map<string, Option<string>>, r: SystemResult): map<string, Option<string>> {
    if (r.status == Success || r.status == Pending || (r.status == Skipped && r.skipVerified))
       && r.payload.HolmanPayload? && r.payload.key != ""
    then m[r.payload.key := r.payload.holder] else m
  }

  function AmsCached(m: map<string, Option<string>>, r: SystemResult): map<string, Option<string>> {
    if (r.status == Success || r.status == Pending) && r.payload.AmsPayload? && r.payload.key != ""
    then m[r.payload.key := r.payload.holder] else m
  }

  // ── The canonical assignment row ───────────────────────────────────────────

  function TruckOf(m: map<string, Row>, tech: string): Option<string> {
    if tech in m then m[tech].truckNo else None
  }

  /** The truck a technician's row claims, stripped; "" when it claims none. */
  function Claim(m: map<string, Row>, tech: string): string {
    var truck := TruckOf(m, tech);
    if truck.Some? && truck.value != "" then ToCanonical(truck.value) else ""
  }

  /** A cross-truck unassign touches the row only when the row (wrongly) names this very truck. */
  predicate Preserved(m: map<string, Row>, args: Args) {
    var truck := TruckOf(m, args.Ldap());
    args.CrossTruck() && (truck.None? || truck.value == "" || ToCanonical(truck.value) != args.Canonical())
  }

  predicate Moves(m: map<string, Row>, args: Args) {
    args.Ldap() != "" && !args.Blocked() && !Preserved(m, args)
  }

  function NewRow(args: Args): Row {
    if args.action == Assign then Row(Some(args.Padded()), true) else Row(None, false)
  }

  function MovedRows(m: map<string, Row>, args: Args): map<string, Row> {
    if Moves(m, args) then m[args.Ldap() := NewRow(args)] else m
  }

  function OperationRecord(m: map<string, Row>, args: Args): HistoryRow
    requires args.Ldap() != ""
  {
    var previous := TruckOf(m, args.Ldap());
    HistoryRow(
      args.Ldap(),
      if Moves(m, args) then NewRow(args).truckNo else previous,
      previous,
      if args.tpms.status == Conflict then ConflictLogged
      else if args.Blocked() then FailureLogged
      else if args.action == Unassign then Unassigned
      else if previous.Some? && previous.value != "" && previous != NewRow(args).truckNo then Changed
      else Assigned,
      args.source)
  }

  /** The previous holder's row is cleared if, after the move, it still claims the truck. */
  predicate Displaces(m: map<string, Row>, args: Args) {
    var prev := args.PrevHolder();
    var truck := TruckOf(MovedRows(m, args), prev);
    && args.action == Assign && args.Ldap() != "" && prev != "" && prev != args.Ldap() && !args.Blocked()
    && truck.Some? && truck.value != "" && ToCanonical(truck.value) == args.Canonical()
  }

  function AssignmentsAfter(m: map<string, Row>, args: Args): map<string, Row> {
    if Displaces(m, args) then MovedRows(m, args)[args.PrevHolder() := Row(None, false)] else MovedRows(m, args)
  }

  function RecordsOf(m: map<string, Row>, args: Args): seq<HistoryRow> {
    if args.Ldap() == "" then [] else
      [OperationRecord(m, args)]
      + if Displaces(m, args)
        then [HistoryRow(args.PrevHolder(), None, TruckOf(m, args.PrevHolder()), Unassigned, "displacement")]
        else []
  }

  // ── The transaction ────────────────────────────────────────────────────────

  function LogAfter(log: seq<LogRow>, args: Args): seq<LogRow> {
    if args.logId.Some? && args.logId.value < |log|
    then log[args.logId.value := LogRow(args.tpms.status, args.holman.status, args.ams.status, true)]
    else log
  }

  function Committed(t: Tables, args: Args): Tables {
    var planned := ApplyPlan(t, PlanTpmsCacheWrites(args));
    planned.(holman := HolmanCached(t.holman, args.holman),
             ams := AmsCached(t.ams, args.ams),
             assignments := AssignmentsAfter(t.assignments, args),
             history := t.history + RecordsOf(t.assignments, args),
             log := LogAfter(t.log, args))
  }

  /** A transaction that does not commit leaves every table as it was. */
  function Transact(t: Tables, args: Args, commits: bool): Tables {
    if commits then Committed(t, args) else t
  }

  datatype Attempt = Attempt(args: Args, commits: bool)

  /** The tables after any sequence of write-throughs, each committed or rolled back. */
  function Run(t: Tables, attempts: seq<Attempt>): Tables {
    if attempts == [] then t
    else Transact(Run(t, attempts[..|attempts| - 1]), attempts[|attempts| - 1].args, attempts[|attempts| - 1].commits)
  }
}
