/** What one operation of the service leaves in every table, said in the terms of the request, of what the
    lookups returned and of what TPMS answered. */
module WholeRuns {
  import opened Text
  import opened WriteThrough
  import opened Assignments
  import opened FleetOperations
  import opened Mirrors
  import opened LegCaches
  import AssignmentRuns

  // ── The stages of assignTech ───────────────────────────────────────────────

  /** The technician was found on another truck. */
  predicate Leaves(truck: string, w: AssignWorld) { ToTpmsRef(w.currentTruck) !in {"", ToTpmsRef(truck)} }

  /** Somebody else was found on the truck. */
  predicate Occupied(ldapId: string, w: AssignWorld) {
    NormalizeEnterpriseId(w.occupant) !in {"", NormalizeEnterpriseId(ldapId)}
  }

  /** Each stage that is reached commits or ends the run. */
  predicate Left(truck: string, w: AssignWorld) { !w.locked && Leaves(truck, w) && w.preCommits }

  predicate PastLeaving(truck: string, w: AssignWorld) { !w.locked && (Leaves(truck, w) ==> w.preCommits) }

  predicate Displaced(truck: string, ldapId: string, w: AssignWorld) {
    PastLeaving(truck, w) && Occupied(ldapId, w) && w.displacedCommits
  }

  predicate PastDisplacing(truck: string, ldapId: string, w: AssignWorld) {
    PastLeaving(truck, w) && (Occupied(ldapId, w) ==> w.displacedCommits)
  }

  predicate Completed(truck: string, ldapId: string, w: AssignWorld) {
    PastDisplacing(truck, ldapId, w) && w.mainCommits
  }

  lemma StagesAre(truck: string, ldapId: string, w: AssignWorld)
    requires Names(truck)
    ensures Relocates(truck, w) <==> Leaves(truck, w)
    ensures Evicts(NormalizeEnterpriseId(ldapId), w) <==> Occupied(ldapId, w)
    ensures AssignOutcome(truck, NormalizeEnterpriseId(ldapId), w) == Done <==> Completed(truck, ldapId, w)
  {
    SameKeySameTruck(w.currentTruck, truck);
  }

  /** The technician an unassign acts on: the one TPMS names, or else the one it was asked about. */
  function ActedOn(tpms: SystemResult, asked: string): string {
    if NormalizeEnterpriseId(tpms.effectiveLdap) != "" then NormalizeEnterpriseId(tpms.effectiveLdap)
    else NormalizeEnterpriseId(asked)
  }

  // ── The mirrors after assignTech ───────────────────────────────────────────

  /** TPMS did the unassign, or found the technician on another truck; either takes the truck's row. */
  predicate TakesTruck(tpms: SystemResult) { tpms.status == Success || (tpms.status == Skipped && tpms.crossTruck) }

  /** TPMS shows the technician on the truck, by its answer or already before it is asked. */
  predicate Confirms(truck: string, w: AssignWorld) {
    || ToTpmsRef(w.currentTruck) == ToTpmsRef(truck)
    || w.main.tpms.status == Success
    || (w.main.tpms.status == Skipped && (w.main.tpms.skipVerified || w.main.tpms.saysAlreadyAssigned))
  }

  predicate Placed(truck: string, ldapId: string, w: AssignWorld) {
    Completed(truck, ldapId, w) && Confirms(truck, w)
  }

  /** The trucks whose last-known rows a run takes away or writes. */
  function TrucksTaken(truck: string, ldapId: string, w: AssignWorld): set<string> {
    var p, q := ToTpmsRef(truck), ToTpmsRef(w.currentTruck);
    If(Left(truck, w) && TakesTruck(w.pre.tpms), {q})
    + If(Displaced(truck, ldapId, w) && TakesTruck(w.displaced.tpms), {p})
    + If(Placed(truck, ldapId, w), {p}) + If(Placed(truck, ldapId, w) && Leaves(truck, w), {q})
  }

  /** The technicians whose profiles a run takes the truck from, or writes. */
  function TechsTaken(truck: string, ldapId: string, w: AssignWorld): set<string> {
    If(Left(truck, w) && w.pre.tpms.status == Success, {ActedOn(w.pre.tpms, ldapId)})
    + If(Displaced(truck, ldapId, w) && w.displaced.tpms.status == Success, {ActedOn(w.displaced.tpms, w.occupant)})
    + If(Placed(truck, ldapId, w), {NormalizeEnterpriseId(ldapId), NormalizeEnterpriseId(w.occupant)} - {""})
  }

  lemma PlacedIs(truck: string, ldapId: string, w: AssignWorld)
    requires Names(truck)
    ensures MainDone(truck, NormalizeEnterpriseId(ldapId), w) <==> Placed(truck, ldapId, w)
  {
    StagesAre(truck, ldapId, w);
    SameKeySameTruck(w.currentTruck, truck);
  }

  lemma TrucksTakenAre(truck: string, ldapId: string, w: AssignWorld)
    requires Names(truck)
    ensures CutTrucks(truck, NormalizeEnterpriseId(ldapId), w) - {""} == TrucksTaken(truck, ldapId, w) - {""}
  {
    StagesAre(truck, ldapId, w);
    PlacedIs(truck, ldapId, w);
  }

  lemma TechsTakenAre(truck: string, ldapId: string, w: AssignWorld)
    requires Names(truck) && NormalizeEnterpriseId(ldapId) != ""
    ensures CutTechs(truck, NormalizeEnterpriseId(ldapId), w) == TechsTaken(truck, ldapId, w)
  {
    StagesAre(truck, ldapId, w);
    PlacedIs(truck, ldapId, w);
    NormalizeIsIdempotent(ldapId);
    NormalizeIsIdempotent(w.occupant);
  }

  lemma SameCut(lk: map<string, string>, trucks: set<string>, taken: set<string>)
    requires KeysPadded(lk) && trucks - {""} == taken - {""}
    ensures lk - trucks == lk - taken
  {
    assert !IsRef("");
    assert forall k :: k in lk ==> (k in trucks <==> k in trucks - {""}) && (k in taken <==> k in taken - {""});
  }

  /** `l` is put on `p`, if at all, after the cuts. */
  predicate Leave(t: Tables, t': Tables, trucks: set<string>, techs: set<string>, placed: bool, l: string, p: string) {
    && t'.lastKnown == (if placed then (t.lastKnown - trucks)[p := l] else t.lastKnown - trucks)
    && t'.profiles == (if placed then Nulled(t.profiles, techs)[l := Some(p)] else Nulled(t.profiles, techs))
  }

  lemma AssignCuts(t: Tables, truck: string, ldapId: string, w: AssignWorld)
    requires KeysPadded(t.lastKnown) && Names(truck) && NormalizeEnterpriseId(ldapId) != ""
    ensures var ldap := NormalizeEnterpriseId(ldapId);
            Leave(t, AssignRun(t, truck, ldap, w), CutTrucks(truck, ldap, w), CutTechs(truck, ldap, w),
                  MainDone(truck, ldap, w), ldap, ToTpmsRef(truck))
  {
    AssignRunMirrors(t, truck, ldapId, w);
  }

  /** After any assign, wherever it stops and whatever TPMS answers. */
  lemma AssignLeavesMirrors(t: Tables, truck: string, ldapId: string, w: AssignWorld)
    requires KeysPadded(t.lastKnown) && Names(truck) && NormalizeEnterpriseId(ldapId) != ""
    ensures Leave(t, AssignRun(t, truck, NormalizeEnterpriseId(ldapId), w), TrucksTaken(truck, ldapId, w),
                  TechsTaken(truck, ldapId, w), Placed(truck, ldapId, w), NormalizeEnterpriseId(ldapId),
                  ToTpmsRef(truck))
  {
    var ldap := NormalizeEnterpriseId(ldapId);
    AssignCuts(t, truck, ldapId, w);
    TrucksTakenAre(truck, ldapId, w);
    TechsTakenAre(truck, ldapId, w);
    PlacedIs(truck, ldapId, w);
    SameCut(t.lastKnown, CutTrucks(truck, ldap, w), TrucksTaken(truck, ldapId, w));
  }

  /** The lookups return exactly what the mirrors record: the technician's truck, and the truck's keeper. */
  ghost predicate LooksUp(t: Tables, truck: string, ldapId: string, w: AssignWorld) {
    var ldap, p := NormalizeEnterpriseId(ldapId), ToTpmsRef(truck);
    && ToTpmsRef(w.currentTruck)
       == (if ldap in t.profiles && t.profiles[ldap].Some? then t.profiles[ldap].value else "")
    && if p in t.lastKnown then NormalizeEnterpriseId(w.occupant) == t.lastKnown[p] != ""
       else NormalizeEnterpriseId(w.occupant) == ""
  }

  /** The lock is granted, every step that is reached commits, and TPMS does what it is asked to whom it is
      asked. */
  predicate GoesWell(truck: string, ldapId: string, w: AssignWorld) {
    && Completed(truck, ldapId, w)
    && (Leaves(truck, w) ==>
          && w.pre.tpms.status == Success && !w.pre.tpms.crossTruck
          && NormalizeEnterpriseId(w.pre.tpms.effectiveLdap) in {"", NormalizeEnterpriseId(ldapId)})
    && (Occupied(ldapId, w) ==>
          && w.displaced.tpms.status == Success && !w.displaced.tpms.crossTruck
          && NormalizeEnterpriseId(w.displaced.tpms.effectiveLdap) in {"", NormalizeEnterpriseId(w.occupant)})
    && Confirms(truck, w)
  }

  lemma WellTakes(truck: string, ldapId: string, w: AssignWorld)
    requires GoesWell(truck, ldapId, w) && NormalizeEnterpriseId(ldapId) != ""
    ensures TrucksTaken(truck, ldapId, w) - {""} == {ToTpmsRef(truck), ToTpmsRef(w.currentTruck)} - {""}
    ensures TechsTaken(truck, ldapId, w) == {NormalizeEnterpriseId(ldapId), NormalizeEnterpriseId(w.occupant)} - {""}
  {
  }

  /** Technician `l` has moved from `q` ("" for none) to `p`, where `g` was ("" for nobody). */
  ghost predicate Moved(t: Tables, t': Tables, l: string, g: string, p: string, q: string) {
    && t'.lastKnown == (t.lastKnown - {q})[p := l]
    && t'.profiles.Keys == t.profiles.Keys + {l} && t'.profiles[l] == Some(p)
    && forall e :: e in t.profiles && e != l ==> t'.profiles[e] == if e == g != "" then None else t.profiles[e]
  }

  lemma LeaveMoves(t: Tables, t': Tables, trucks: set<string>, l: string, g: string, p: string, q: string)
    requires KeysPadded(t.lastKnown) && l != "" && trucks - {""} == {p, q} - {""}
    requires Leave(t, t', trucks, {l, g} - {""}, true, l, p)
    ensures Moved(t, t', l, g, p, q)
  {
    SameCut(t.lastKnown, trucks, {p, q});
    assert (t.lastKnown - {p, q})[p := l] == (t.lastKnown - {q})[p := l];
    NulledMoves(t.profiles, l, g, p);
  }

  lemma NulledMoves(pf: map<string, Option<string>>, l: string, g: string, p: string)
    requires l != ""
    ensures var pf' := Nulled(pf, {l, g} - {""})[l := Some(p)];
            && pf'.Keys == pf.Keys + {l} && pf'[l] == Some(p)
            && forall e :: e in pf && e != l ==> pf'[e] == if e == g != "" then None else pf[e]
  {
  }

  /** If `q` and `g` are what the mirrors have, nobody else is affected. */
  lemma MovedStaysMirrored(t: Tables, t': Tables, l: string, g: string, p: string, q: string)
    requires Mirrored(t) && Moved(t, t', l, g, p, q) && IsRef(p)
    requires q == if l in t.profiles && t.profiles[l].Some? then t.profiles[l].value else ""
    requires if p in t.lastKnown then g == t.lastKnown[p] != "" else g == ""
    ensures Mirrored(t') && forall k :: k in t'.lastKnown && t'.lastKnown[k] == l <==> k == p
  {
    forall k | k in t'.lastKnown && k != p
      ensures t'.lastKnown[k] != l && t'.profiles[t'.lastKnown[k]] == Some(k)
    {
      assert t.profiles[t.lastKnown[k]] == Some(k);
    }
    forall e | e in t'.profiles && e != l && t'.profiles[e].Some?
      ensures t'.profiles[e].value in t'.lastKnown && t'.lastKnown[t'.profiles[e].value] == e
    {
      assert t'.profiles[e] == t.profiles[e];
    }
  }

  /** If the lookups return exactly what the mirrors record and all goes well, the run ends with inverse
      mirrors that have the technician on the truck and on no other, nobody on the truck left, the former
      keeper on none, and everything else as it was. */
  lemma AssignFollowsTheMirrors(t: Tables, truck: string, ldapId: string, w: AssignWorld)
    requires Mirrored(t) && Names(truck) && NormalizeEnterpriseId(ldapId) != ""
    requires LooksUp(t, truck, ldapId, w) && GoesWell(truck, ldapId, w)
    ensures var ldap, p, t' := NormalizeEnterpriseId(ldapId), ToTpmsRef(truck),
                               AssignRun(t, truck, NormalizeEnterpriseId(ldapId), w);
            && AssignOutcome(truck, ldap, w) == Done && Mirrored(t')
            && Moved(t, t', ldap, NormalizeEnterpriseId(w.occupant), p, ToTpmsRef(w.currentTruck))
            && forall k :: k in t'.lastKnown && t'.lastKnown[k] == ldap <==> k == p
  {
    var ldap, g, p := NormalizeEnterpriseId(ldapId), NormalizeEnterpriseId(w.occupant), ToTpmsRef(truck);
    var t', trucks := AssignRun(t, truck, ldap, w), TrucksTaken(truck, ldapId, w);
    WellTakes(truck, ldapId, w);
    StagesAre(truck, ldapId, w);
    AssignLeavesMirrors(t, truck, ldapId, w);
    LeaveMoves(t, t', trucks, ldap, g, p, ToTpmsRef(w.currentTruck));
    PaddedIsRef(truck);
    MovedStaysMirrored(t, t', ldap, g, p, ToTpmsRef(w.currentTruck));
  }

  // ── The log and the caches after assignTech ────────────────────────────────

  function LogOf(tpms: Status, legs: Legs, commits: bool): LogRow {
    if commits then LogRow(tpms, legs.holman.status, legs.ams.status, true)
    else LogRow(Pending, Pending, Pending, false)
  }

  lemma LoggedAppends(t: Tables, args: Args, commits: bool)
    ensures Logged(t, args, commits).log
            == t.log + [if commits then LogRow(args.tpms.status, args.holman.status, args.ams.status, true)
                        else LogRow(Pending, Pending, Pending, false)]
  {
  }

  /** A run logs each stage it reaches, with what that stage was answered if its transaction went in; an assign
      of the technician's own truck is logged as skipped at TPMS. */
  lemma AssignLogs(t: Tables, truck: string, ldapId: string, w: AssignWorld)
    requires Names(truck)
    ensures AssignRun(t, truck, NormalizeEnterpriseId(ldapId), w).log
            == t.log
               + (if !w.locked && Leaves(truck, w) then [LogOf(w.pre.tpms.status, w.pre, w.preCommits)] else [])
               + (if PastLeaving(truck, w) && Occupied(ldapId, w)
                  then [LogOf(w.displaced.tpms.status, w.displaced, w.displacedCommits)] else [])
               + (if PastDisplacing(truck, ldapId, w)
                  then [LogOf(if ToTpmsRef(w.currentTruck) == ToTpmsRef(truck) then Skipped else w.main.tpms.status,
                              w.main, w.mainCommits)] else [])
  {
    var ldap := NormalizeEnterpriseId(ldapId);
    var t1 := AfterPre(t, truck, ldap, w);
    StagesAre(truck, ldapId, w);
    EarlierLogs(t, t1, truck, ldapId, w);
    LoggedAppends(AfterEviction(t1, truck, ldap, w), MainArgs(truck, ldap, w), w.mainCommits);
    MainStatus(truck, ldap, w);
  }

  lemma EarlierLogs(t: Tables, t1: Tables, truck: string, ldapId: string, w: AssignWorld)
    requires Names(truck)
    ensures AfterPre(t, truck, NormalizeEnterpriseId(ldapId), w).log
            == t.log + if Leaves(truck, w) then [LogOf(w.pre.tpms.status, w.pre, w.preCommits)] else []
    ensures AfterEviction(t1, truck, NormalizeEnterpriseId(ldapId), w).log
            == t1.log + if Occupied(ldapId, w)
                        then [LogOf(w.displaced.tpms.status, w.displaced, w.displacedCommits)] else []
  {
    StagesAre(truck, ldapId, w);
    LoggedAppends(t, PreArgs(NormalizeEnterpriseId(ldapId), w), w.preCommits);
    LoggedAppends(t1, EvictArgs(truck, w), w.displacedCommits);
  }

  lemma MainStatus(truck: string, ldap: string, w: AssignWorld)
    requires Names(truck)
    ensures MainArgs(truck, ldap, w).tpms.status
            == if ToTpmsRef(w.currentTruck) == ToTpmsRef(truck) then Skipped else w.main.tpms.status
  {
    SameKeySameTruck(w.currentTruck, truck);
  }

  function First<T>(a: Option<T>, b: Option<T>): Option<T> { if a.Some? then a else b }

  function SaysIf(p: bool, legs: Legs, leg: Leg, key: string): Option<Option<string>> {
    if p then Says(legs.holman, legs.ams, leg, key) else None
  }

  lemma LoggedCaches(t: Tables, args: Args, commits: bool, leg: Leg, key: string)
    ensures Lookup(CacheOf(Logged(t, args, commits), leg), key)
            == First(if commits then Says(args.holman, args.ams, leg, key) else None, Lookup(CacheOf(t, leg), key))
  {
  }

  /** Under each key the Holman and AMS caches show what the last stage that committed was told, the assign
      before the displacement before the leaving, or what they showed before. */
  lemma AssignCaches(t: Tables, truck: string, ldapId: string, w: AssignWorld, leg: Leg, key: string)
    requires Names(truck)
    ensures Lookup(CacheOf(AssignRun(t, truck, NormalizeEnterpriseId(ldapId), w), leg), key)
            == First(SaysIf(Completed(truck, ldapId, w), w.main, leg, key),
               First(SaysIf(Displaced(truck, ldapId, w), w.displaced, leg, key),
               First(SaysIf(Left(truck, w), w.pre, leg, key), Lookup(CacheOf(t, leg), key))))
  {
    var ldap := NormalizeEnterpriseId(ldapId);
    var t1 := AfterPre(t, truck, ldap, w);
    StagesAre(truck, ldapId, w);
    LoggedCaches(t, PreArgs(ldap, w), w.preCommits, leg, key);
    LoggedCaches(t1, EvictArgs(truck, w), w.displacedCommits, leg, key);
    LoggedCaches(AfterEviction(t1, truck, ldap, w), MainArgs(truck, ldap, w), w.mainCommits, leg, key);
  }

  // ── The canonical rows ─────────────────────────────────────────────────────

  /** The technician a write-through acts on, if any. */
  function Acted(args: Args): string {
    if args.action == Assign then NormalizeEnterpriseId(args.ldapId) else ActedOn(args.tpms, args.ldapId)
  }

  /** The technician's row has this truck. */
  predicate RowHas(m: map<string, Row>, tech: string, truck: string) {
    var has := TruckOf(m, tech);
    has.Some? && has.value != "" && ToCanonical(has.value) == ToCanonical(truck)
  }

  /** TPMS has the technician on another truck, and the row has not this one. */
  predicate Elsewhere(m: map<string, Row>, args: Args) {
    args.action == Unassign && args.tpms.crossTruck && !RowHas(m, Acted(args), args.truckNumber)
  }

  /** The row of the previous holder has the truck that another technician takes. */
  predicate Displacing(m: map<string, Row>, args: Args) {
    && args.action == Assign && Acted(args) != "" && args.tpms.status !in {Conflict, Failed}
    && NormalizeEnterpriseId(args.previousHolder) !in {"", Acted(args)}
    && RowHas(m, NormalizeEnterpriseId(args.previousHolder), args.truckNumber)
  }

  lemma ActedIs(args: Args)
    ensures args.Ldap() == Acted(args)
  {
  }

  lemma ElsewhereIs(m: map<string, Row>, args: Args)
    ensures Preserved(m, args) <==> Elsewhere(m, args)
  {
    ActedIs(args);
  }

  lemma DisplacingIs(m: map<string, Row>, args: Args)
    ensures Displaces(m, args) <==> Displacing(m, args)
  {
    ActedIs(args);
    if Acted(args) != "" && args.action == Assign && args.PrevHolder() != args.Ldap() {
      assert TruckOf(MovedRows(m, args), args.PrevHolder()) == TruckOf(m, args.PrevHolder());
    }
  }

  /** Refused by TPMS: no row moves, and the entry says which refusal it was. */
  lemma RefusalWrites(m: map<string, Row>, args: Args)
    requires args.tpms.status in {Conflict, Failed} && Acted(args) != ""
    ensures AssignmentsAfter(m, args) == m
    ensures var was := TruckOf(m, Acted(args));
            RecordsOf(m, args) == [HistoryRow(Acted(args), was, was,
                                              if args.tpms.status == Conflict then ConflictLogged else FailureLogged,
                                              args.source)]
  {
    ActedIs(args);
  }

  lemma UnassignMoves(m: map<string, Row>, args: Args)
    requires args.action == Unassign && args.tpms.status !in {Conflict, Failed} && args.Ldap() != ""
    requires !Preserved(m, args)
    ensures AssignmentsAfter(m, args) == m[args.Ldap() := Row(None, false)]
    ensures RecordsOf(m, args) == [HistoryRow(args.Ldap(), None, TruckOf(m, args.Ldap()), Unassigned, args.source)]
  {
  }

  /** Carried out: the technician acted on has no truck. */
  lemma UnassignWrites(m: map<string, Row>, args: Args)
    requires args.action == Unassign && args.tpms.status !in {Conflict, Failed} && Acted(args) != ""
    requires !Elsewhere(m, args)
    ensures AssignmentsAfter(m, args) == m[Acted(args) := Row(None, false)]
    ensures RecordsOf(m, args) == [HistoryRow(Acted(args), None, TruckOf(m, Acted(args)), Unassigned, args.source)]
  {
    ActedIs(args);
    ElsewhereIs(m, args);
    UnassignMoves(m, args);
  }

  /** Found elsewhere: the row stays, and the entry keeps its truck. */
  lemma CrossTruckWrites(m: map<string, Row>, args: Args)
    requires Elsewhere(m, args) && args.tpms.status !in {Conflict, Failed} && Acted(args) != ""
    ensures AssignmentsAfter(m, args) == m
    ensures var was := TruckOf(m, Acted(args));
            RecordsOf(m, args) == [HistoryRow(Acted(args), was, was, Unassigned, args.source)]
  {
    ActedIs(args);
    ElsewhereIs(m, args);
  }

  /** A move from another stored truck number is a change. */
  function LabelOf(was: Option<string>, p: string): ChangeType {
    if was.None? || was.value == "" || was.value == p then Assigned else Changed
  }

  lemma AssignTakes(m: map<string, Row>, args: Args, p: string)
    requires args.action == Assign && args.tpms.status !in {Conflict, Failed} && args.Ldap() != ""
    requires p == args.Padded()
    ensures MovedRows(m, args) == m[args.Ldap() := Row(Some(p), true)]
    ensures var was := TruckOf(m, args.Ldap());
            OperationRecord(m, args) == HistoryRow(args.Ldap(), Some(p), was, LabelOf(was, p), args.source)
  {
  }

  /** The technician takes the truck, and the previous holder's row loses it if it has it. */
  lemma AssignWrites(m: map<string, Row>, args: Args)
    requires args.action == Assign && args.tpms.status !in {Conflict, Failed} && Acted(args) != ""
    requires ToCanonical(args.truckNumber) != ""
    ensures var e, g, p, was := Acted(args), NormalizeEnterpriseId(args.previousHolder), ToTpmsRef(args.truckNumber),
                                TruckOf(m, Acted(args));
            && AssignmentsAfter(m, args)
               == (if Displacing(m, args) then m[e := Row(Some(p), true)][g := Row(None, false)]
                   else m[e := Row(Some(p), true)])
            && RecordsOf(m, args)
               == [HistoryRow(e, Some(p), was, LabelOf(was, p), args.source)]
                  + if Displacing(m, args) then [HistoryRow(g, None, TruckOf(m, g), Unassigned, "displacement")] else []
  {
    ActedIs(args);
    DisplacingIs(m, args);
    RefsNameTrucks(args.truckNumber);
    AssignTakes(m, args, ToTpmsRef(args.truckNumber));
  }

  // ── The rows and the history after assignTech ──────────────────────────────

  /** The rows and the history move together. */
  ghost predicate Writes(t: Tables, t': Tables, m: map<string, Row>, records: seq<HistoryRow>) {
    t'.assignments == m && t'.history == t.history + records
  }

  lemma LoggedWrites(t: Tables, args: Args)
    ensures var logged := args.(logId := Some(|t.log|));
            && Writes(t, Logged(t, args, true), AssignmentsAfter(t.assignments, logged),
                      RecordsOf(t.assignments, logged))
            && Acted(logged) == Acted(args)
  {
  }

  lemma LoggedUnassignWrites(t: Tables, args: Args)
    requires args.action == Unassign && args.tpms.status !in {Conflict, Failed} && !args.tpms.crossTruck
    requires Acted(args) != ""
    ensures Writes(t, Logged(t, args, true), t.assignments[Acted(args) := Row(None, false)],
                   [HistoryRow(Acted(args), None, TruckOf(t.assignments, Acted(args)), Unassigned, args.source)])
  {
    LoggedWrites(t, args);
    UnassignWrites(t.assignments, args.(logId := Some(|t.log|)));
  }

  lemma LoggedAssignWrites(t: Tables, args: Args, e: string, p: string)
    requires args.action == Assign && args.tpms.status !in {Conflict, Failed} && e == Acted(args) != ""
    requires ToCanonical(args.truckNumber) != "" && p == ToTpmsRef(args.truckNumber)
    requires !Displacing(t.assignments, args)
    ensures Writes(t, Logged(t, args, true), t.assignments[e := Row(Some(p), true)],
                   [HistoryRow(e, Some(p), TruckOf(t.assignments, e), LabelOf(TruckOf(t.assignments, e), p),
                               args.source)])
  {
    var logged := args.(logId := Some(|t.log|));
    LoggedWrites(t, args);
    AssignWrites(t.assignments, logged);
    assert Displacing(t.assignments, logged) == Displacing(t.assignments, args);
  }

  lemma LeavingWrites(t: Tables, truck: string, ldapId: string, w: AssignWorld)
    requires GoesWell(truck, ldapId, w) && Leaves(truck, w) && NormalizeEnterpriseId(ldapId) != "" && Names(truck)
    ensures var ldap := NormalizeEnterpriseId(ldapId);
            Writes(t, AfterPre(t, truck, ldap, w), t.assignments[ldap := Row(None, false)],
                   [HistoryRow(ldap, None, TruckOf(t.assignments, ldap), Unassigned, "auto_unassign")])
  {
    NormalizeIsIdempotent(ldapId);
    StagesAre(truck, ldapId, w);
    LoggedUnassignWrites(t, PreArgs(NormalizeEnterpriseId(ldapId), w));
  }

  lemma DisplacingWrites(t: Tables, truck: string, ldapId: string, w: AssignWorld)
    requires GoesWell(truck, ldapId, w) && Occupied(ldapId, w) && Names(truck)
    ensures var g := NormalizeEnterpriseId(w.occupant);
            Writes(t, AfterEviction(t, truck, NormalizeEnterpriseId(ldapId), w), t.assignments[g := Row(None, false)],
                   [HistoryRow(g, None, TruckOf(t.assignments, g), Unassigned, "displacement")])
  {
    NormalizeIsIdempotent(w.occupant);
    StagesAre(truck, ldapId, w);
    LoggedUnassignWrites(t, EvictArgs(truck, w));
  }

  lemma PlacingWrites(t: Tables, truck: string, ldapId: string, w: AssignWorld)
    requires GoesWell(truck, ldapId, w) && NormalizeEnterpriseId(ldapId) != "" && Names(truck)
    requires Occupied(ldapId, w) ==> TruckOf(t.assignments, NormalizeEnterpriseId(w.occupant)) == None
    ensures var ldap, p := NormalizeEnterpriseId(ldapId), ToTpmsRef(truck);
            Writes(t, Logged(t, MainArgs(truck, ldap, w), true), t.assignments[ldap := Row(Some(p), true)],
                   [HistoryRow(ldap, Some(p), TruckOf(t.assignments, ldap), LabelOf(TruckOf(t.assignments, ldap), p),
                               "manual")])
  {
    NormalizeIsIdempotent(ldapId);
    NormalizeIsIdempotent(w.occupant);
    SameKeySameTruck(w.currentTruck, truck);
    LoggedAssignWrites(t, MainArgs(truck, NormalizeEnterpriseId(ldapId), w), NormalizeEnterpriseId(ldapId),
                       ToTpmsRef(truck));
  }

  lemma StagesCompose(t: Tables, truck: string, ldapId: string, w: AssignWorld)
    requires Names(truck) && Completed(truck, ldapId, w)
    ensures var ldap := NormalizeEnterpriseId(ldapId);
            var t1 := AfterPre(t, truck, ldap, w);
            var t2 := AfterEviction(t1, truck, ldap, w);
            && (!Leaves(truck, w) ==> t1 == t) && (!Occupied(ldapId, w) ==> t2 == t1)
            && AssignRun(t, truck, ldap, w) == Logged(t2, MainArgs(truck, ldap, w), true)
  {
    StagesAre(truck, ldapId, w);
  }

  lemma StagesWrite(t: Tables, t1: Tables, t2: Tables, t3: Tables, leaves: bool, occupied: bool, l: string, g: string,
                    p: string)
    requires if leaves then Writes(t, t1, t.assignments[l := Row(None, false)],
                                   [HistoryRow(l, None, TruckOf(t.assignments, l), Unassigned, "auto_unassign")])
             else t1 == t
    requires if occupied then Writes(t1, t2, t1.assignments[g := Row(None, false)],
                                     [HistoryRow(g, None, TruckOf(t1.assignments, g), Unassigned, "displacement")])
             else t2 == t1
    requires Writes(t2, t3, t2.assignments[l := Row(Some(p), true)],
                    [HistoryRow(l, Some(p), TruckOf(t2.assignments, l), LabelOf(TruckOf(t2.assignments, l), p),
                                "manual")])
    requires occupied ==> g != l
    ensures var m, was := t.assignments, TruckOf(t.assignments, l);
            Writes(t, t3, (if occupied then m[g := Row(None, false)] else m)[l := Row(Some(p), true)],
                   (if leaves then [HistoryRow(l, None, was, Unassigned, "auto_unassign")] else [])
                   + (if occupied then [HistoryRow(g, None, TruckOf(m, g), Unassigned, "displacement")] else [])
                   + [if leaves then HistoryRow(l, Some(p), None, Assigned, "manual")
                      else HistoryRow(l, Some(p), was, LabelOf(was, p), "manual")])
  {
  }

  /** When all goes well the technician ends active on the truck, the one found on it inactive, and every other
      row is as it was; and the history tells each stage in order: leaving the old truck, the displacement, the
      assign. A technician who left another truck first comes from none, so that such a move is labelled
      "assigned". */
  lemma AssignTellsTheStages(t: Tables, truck: string, ldapId: string, w: AssignWorld)
    requires GoesWell(truck, ldapId, w) && NormalizeEnterpriseId(ldapId) != "" && Names(truck)
    ensures var ldap, g, p := NormalizeEnterpriseId(ldapId), NormalizeEnterpriseId(w.occupant), ToTpmsRef(truck);
            var m, was := t.assignments, TruckOf(t.assignments, ldap);
            Writes(t, AssignRun(t, truck, ldap, w),
                   (if Occupied(ldapId, w) then m[g := Row(None, false)] else m)[ldap := Row(Some(p), true)],
                   (if Leaves(truck, w) then [HistoryRow(ldap, None, was, Unassigned, "auto_unassign")] else [])
                   + (if Occupied(ldapId, w) then [HistoryRow(g, None, TruckOf(m, g), Unassigned, "displacement")]
                      else [])
                   + [if Leaves(truck, w) then HistoryRow(ldap, Some(p), None, Assigned, "manual")
                      else HistoryRow(ldap, Some(p), was, LabelOf(was, p), "manual")])
  {
    var ldap, g, p := NormalizeEnterpriseId(ldapId), NormalizeEnterpriseId(w.occupant), ToTpmsRef(truck);
    var t1 := AfterPre(t, truck, ldap, w);
    var t2 := AfterEviction(t1, truck, ldap, w);
    if Leaves(truck, w) {
      LeavingWrites(t, truck, ldapId, w);
    }
    if Occupied(ldapId, w) {
      DisplacingWrites(t1, truck, ldapId, w);
    }
    StagesCompose(t, truck, ldapId, w);
    PlacingWrites(t2, truck, ldapId, w);
    StagesWrite(t, t1, t2, AssignRun(t, truck, ldap, w), Leaves(truck, w), Occupied(ldapId, w), ldap, g, p);
  }

  // ── A whole unassignTech ───────────────────────────────────────────────────

  ghost predicate ProfilesPadded(pf: map<string, Option<string>>) {
    forall e :: e in pf && pf[e].Some? ==> IsRef(pf[e].value)
  }

  /** An unassign that TPMS does not refuse and whose technician it finds on no other truck takes the truck from
      the technician TPMS names, or if it names nobody from the one asked about, and from nobody else's row;
      the history and the log say so. */
  lemma UnassignActs(t: Tables, truck: string, ldapId: string, w: UnassignWorld, acted: string)
    requires !w.locked && w.commits && w.legs.tpms.status !in {Conflict, Failed} && !w.legs.tpms.crossTruck
    requires acted == (if NormalizeEnterpriseId(w.legs.tpms.effectiveLdap) != ""
                       then NormalizeEnterpriseId(w.legs.tpms.effectiveLdap) else NormalizeEnterpriseId(ldapId))
    requires acted != ""
    ensures Writes(t, UnassignRun(t, truck, NormalizeEnterpriseId(ldapId), w),
                   t.assignments[acted := Row(None, false)],
                   [HistoryRow(acted, None, TruckOf(t.assignments, acted), Unassigned, "manual")])
    ensures UnassignRun(t, truck, NormalizeEnterpriseId(ldapId), w).log
            == t.log + [LogRow(w.legs.tpms.status, w.legs.holman.status, w.legs.ams.status, true)]
  {
    var ldap := NormalizeEnterpriseId(ldapId);
    var purged := if w.purges then t.(profiles := Purged(t.profiles, truck)) else t;
    NormalizeIsIdempotent(ldapId);
    LoggedUnassignWrites(purged, UnassignArgs(truck, ldap, w.legs, "manual"));
    LoggedAppends(purged, UnassignArgs(truck, ldap, w.legs, "manual"), true);
  }

  /** If TPMS refuses, or has the technician on a truck other than this one and so has the row, no row moves. */
  lemma UnassignSpares(t: Tables, truck: string, ldapId: string, w: UnassignWorld, acted: string)
    requires !w.locked && w.commits && acted == ActedOn(w.legs.tpms, ldapId) != ""
    requires w.legs.tpms.status in {Conflict, Failed}
             || (w.legs.tpms.crossTruck && !RowHas(t.assignments, acted, truck))
    ensures var was := TruckOf(t.assignments, acted);
            Writes(t, UnassignRun(t, truck, NormalizeEnterpriseId(ldapId), w), t.assignments,
                   [HistoryRow(acted, was, was,
                               if w.legs.tpms.status == Conflict then ConflictLogged
                               else if w.legs.tpms.status == Failed then FailureLogged else Unassigned, "manual")])
  {
    var args := UnassignArgs(truck, NormalizeEnterpriseId(ldapId), w.legs, "manual");
    var purged := if w.purges then t.(profiles := Purged(t.profiles, truck)) else t;
    NormalizeIsIdempotent(ldapId);
    LoggedWrites(purged, args);
    if w.legs.tpms.status in {Conflict, Failed} {
      RefusalWrites(t.assignments, args.(logId := Some(|t.log|)));
    } else {
      CrossTruckWrites(t.assignments, args.(logId := Some(|t.log|)));
    }
  }

  /** The caches show what the legs of a committed unassign confirmed, or what they showed before. */
  lemma UnassignCaches(t: Tables, truck: string, ldapId: string, w: UnassignWorld, leg: Leg, key: string)
    ensures Lookup(CacheOf(UnassignRun(t, truck, NormalizeEnterpriseId(ldapId), w), leg), key)
            == First(SaysIf(!w.locked && w.commits, w.legs, leg, key), Lookup(CacheOf(t, leg), key))
  {
    var purged := if w.purges then t.(profiles := Purged(t.profiles, truck)) else t;
    LoggedCaches(purged, UnassignArgs(truck, NormalizeEnterpriseId(ldapId), w.legs, "manual"), w.commits, leg, key);
  }

  /** Which profiles the purge empties. */
  lemma PurgesPadded(pf: map<string, Option<string>>, truck: string)
    requires ProfilesPadded(pf) && Names(truck)
    ensures Purged(pf, truck)
            == map e | e in pf ::
                 if pf[e] == Some(ToTpmsRef(truck)) && ToCanonical(truck) != "0" then None else pf[e]
  {
    forall e | e in pf && pf[e].Some?
      ensures StripZeros(BTrim(pf[e].value)) == ToCanonical(truck)
              <==> ToTpmsRef(truck) == pf[e].value && ToCanonical(truck) != "0"
    {
      PurgeRecognises(pf[e].value, truck);
    }
  }

  lemma CarriedOut(t: Tables, truck: string, ldapId: string, w: UnassignWorld, acted: string)
    requires KeysPadded(t.lastKnown) && Names(truck) && !w.locked && w.commits
    requires w.legs.tpms.status == Success && acted == ActedOn(w.legs.tpms, ldapId)
    ensures var t' := UnassignRun(t, truck, NormalizeEnterpriseId(ldapId), w);
            && t'.lastKnown == t.lastKnown - {ToTpmsRef(truck)}
            && t'.profiles == Released(if w.purges then Purged(t.profiles, truck) else t.profiles, acted)
  {
    NormalizeIsIdempotent(ldapId);
    ActedIs(UnassignArgs(truck, NormalizeEnterpriseId(ldapId), w.legs, "manual"));
    UnassignRunMirrors(t, truck, NormalizeEnterpriseId(ldapId), w);
  }

  /** And if TPMS did it, the last-known row of the truck goes, and so does the truck of the profile of the
      technician acted on, whatever truck that is. The purge, if it succeeds, empties every profile that has
      the truck (but never for truck "0"). */
  lemma UnassignClears(t: Tables, truck: string, ldapId: string, w: UnassignWorld, acted: string)
    requires KeysPadded(t.lastKnown) && ProfilesPadded(t.profiles) && Names(truck) && !w.locked && w.commits
    requires w.legs.tpms.status == Success && acted == ActedOn(w.legs.tpms, ldapId) != ""
    ensures var t', p := UnassignRun(t, truck, NormalizeEnterpriseId(ldapId), w), ToTpmsRef(truck);
            && t'.lastKnown == t.lastKnown - {p} && t'.profiles.Keys == t.profiles.Keys
            && forall e :: e in t.profiles ==>
                 t'.profiles[e]
                 == if e == acted || (w.purges && t.profiles[e] == Some(p) && ToCanonical(truck) != "0")
                    then None else t.profiles[e]
  {
    CarriedOut(t, truck, ldapId, w, acted);
    PurgesPadded(t.profiles, truck);
  }
}
