/** What whole runs of the orchestrators keep. */
module AssignmentRuns {
  import opened Text
  import opened WriteThrough
  import opened Assignments
  import opened FleetOperations

  // ── One run of assignTech ──────────────────────────────────────────────────

  /** The technicians a run of assignTech may touch: the incoming one, the occupant found on the truck,
      and whoever TPMS reports to have acted on in the two unassigns. */
  function Touched(truck: string, ldap: string, w: AssignWorld): set<string> {
    {ldap, NormalizeEnterpriseId(w.occupant), PreArgs(ldap, w).Ldap(), EvictArgs(truck, w).Ldap()} - {""}
  }

  /** The two preparatory unassigns only take trucks away, and only from touched technicians. */
  ghost predicate OnlyTakesAway(m: map<string, Row>, m': map<string, Row>, touched: set<string>) {
    && (forall e :: e in m' && Claim(m', e) != "" ==> e in m && m'[e] == m[e])
    && (forall e :: e in m && (e !in m' || m'[e] != m[e]) ==> e in touched && e in m' && m'[e] == Row(None, false))
    && m'.Keys <= m.Keys + touched
  }

  lemma LoggedUnassign(t: Tables, args: Args, commits: bool, touched: set<string>)
    requires args.action == Unassign && (args.Ldap() in touched || args.Ldap() == "")
    ensures OnlyTakesAway(t.assignments, Logged(t, args, commits).assignments, touched)
  {
    UnassignOnlyClears(t.assignments, args.(logId := Some(|t.log|)));
    assert args.(logId := Some(|t.log|)).Ldap() == args.Ldap();
  }

  lemma TakingAwayTwice(m: map<string, Row>, m': map<string, Row>, m'': map<string, Row>, touched: set<string>)
    requires OnlyTakesAway(m, m', touched) && OnlyTakesAway(m', m'', touched)
    ensures OnlyTakesAway(m, m'', touched)
  {
  }

  lemma TakingAwayKeepsExclusive(m: map<string, Row>, m': map<string, Row>, touched: set<string>)
    requires OnlyTakesAway(m, m', touched) && Exclusive(m)
    ensures Exclusive(m')
  {
    forall a, b | a in m' && b in m' && Claim(m', a) != "" && Claim(m', a) == Claim(m', b)
      ensures a == b
    {
      assert Claim(m, a) == Claim(m', a) && Claim(m, b) == Claim(m', b);
    }
  }

  lemma TakingAwayKeeps(m: map<string, Row>, m': map<string, Row>, truck: string, ldap: string, holder: string,
                        touched: set<string>)
    requires OnlyTakesAway(m, m', touched) && Exclusive(m) && Names(truck)
    requires OnlyHeldBy(m, ToCanonical(truck), ldap, holder)
    ensures Exclusive(m') && OnlyHeldBy(m', ToCanonical(truck), ldap, holder)
  {
    TakingAwayKeepsExclusive(m, m', touched);
    forall h | h in m' && Claim(m', h) == ToCanonical(truck)
      ensures h == ldap || (h == holder && h != "")
    {
      assert Claim(m, h) == Claim(m', h);
    }
  }

  /** The tables on which the run's main assign acts. */
  function BeforeMain(t: Tables, truck: string, ldap: string, w: AssignWorld): Tables {
    AfterEviction(AfterPre(t, truck, ldap, w), truck, ldap, w)
  }

  lemma Preparation(t: Tables, truck: string, ldap: string, w: AssignWorld)
    ensures OnlyTakesAway(t.assignments, AfterPre(t, truck, ldap, w).assignments, Touched(truck, ldap, w))
    ensures OnlyTakesAway(t.assignments, BeforeMain(t, truck, ldap, w).assignments, Touched(truck, ldap, w))
  {
    var touched := Touched(truck, ldap, w);
    LoggedUnassign(t, PreArgs(ldap, w), w.preCommits, touched);
    var t1 := AfterPre(t, truck, ldap, w);
    LoggedUnassign(t1, EvictArgs(truck, w), w.displacedCommits, touched);
    TakingAwayTwice(t.assignments, t1.assignments, BeforeMain(t, truck, ldap, w).assignments, touched);
  }

  lemma MainSpeaksOf(truck: string, ldapId: string, w: AssignWorld, id: nat)
    ensures var ldap := NormalizeEnterpriseId(ldapId);
            var main := MainArgs(truck, ldap, w).(logId := Some(id));
            && main.Ldap() == ldap && main.PrevHolder() == NormalizeEnterpriseId(w.occupant)
            && main.Canonical() == ToCanonical(truck) && main.Padded() == MainArgs(truck, ldap, w).Padded()
            && main.truckNumber == truck && main.action == Assign
            && main.Blocked() == MainArgs(truck, ldap, w).Blocked()
  {
    NormalizeIsIdempotent(ldapId);
    NormalizeIsIdempotent(w.occupant);
  }

  lemma MainKeepsExclusive(t: Tables, truck: string, ldapId: string, w: AssignWorld, commits: bool)
    requires Exclusive(t.assignments) && NormalizeEnterpriseId(ldapId) != "" && Names(truck)
    requires OnlyHeldBy(t.assignments, ToCanonical(truck), NormalizeEnterpriseId(ldapId),
                        NormalizeEnterpriseId(w.occupant))
    ensures Exclusive(Logged(t, MainArgs(truck, NormalizeEnterpriseId(ldapId), w), commits).assignments)
  {
    var main := MainArgs(truck, NormalizeEnterpriseId(ldapId), w).(logId := Some(|t.log|));
    MainSpeaksOf(truck, ldapId, w, |t.log|);
    if main.Blocked() {
      OtherwiseKeepsExclusive(t.assignments, main);
    } else {
      AssignKeepsExclusive(t.assignments, main);
    }
  }

  /** If the occupant the run finds is the one who really holds the truck (or nobody does), a run of
      assignTech keeps every truck with at most one technician: blocked or not, committed or not, and
      whomever TPMS says it acted on in the preparatory unassigns. */
  lemma AssignRunKeepsExclusive(t: Tables, truck: string, ldapId: string, w: AssignWorld)
    requires Exclusive(t.assignments) && NormalizeEnterpriseId(ldapId) != "" && Names(truck)
    requires OnlyHeldBy(t.assignments, ToCanonical(truck), NormalizeEnterpriseId(ldapId),
                        NormalizeEnterpriseId(w.occupant))
    ensures Exclusive(AssignRun(t, truck, NormalizeEnterpriseId(ldapId), w).assignments)
  {
    var ldap, occupant := NormalizeEnterpriseId(ldapId), NormalizeEnterpriseId(w.occupant);
    var touched := Touched(truck, ldap, w);
    var t1, t2 := AfterPre(t, truck, ldap, w), BeforeMain(t, truck, ldap, w);
    Preparation(t, truck, ldap, w);
    TakingAwayKeeps(t.assignments, t1.assignments, truck, ldap, occupant, touched);
    TakingAwayKeeps(t.assignments, t2.assignments, truck, ldap, occupant, touched);
    MainKeepsExclusive(t2, truck, ldapId, w, w.mainCommits);
  }

  /** Exactly so, for a run that completes unrefused: it keeps trucks exclusive if and only if, when the main
      assign is reached, nobody but the incoming technician and the occupant found claims the truck. */
  lemma AssignRunExclusiveIff(t: Tables, truck: string, ldapId: string, w: AssignWorld)
    requires Exclusive(t.assignments) && NormalizeEnterpriseId(ldapId) != "" && Names(truck)
    requires AssignOutcome(truck, NormalizeEnterpriseId(ldapId), w) == Done
    requires !MainArgs(truck, NormalizeEnterpriseId(ldapId), w).Blocked()
    ensures var ldap := NormalizeEnterpriseId(ldapId);
            Exclusive(AssignRun(t, truck, ldap, w).assignments) <==>
            OnlyHeldBy(BeforeMain(t, truck, ldap, w).assignments, ToCanonical(truck), ldap,
                       NormalizeEnterpriseId(w.occupant))
  {
    var ldap := NormalizeEnterpriseId(ldapId);
    var t2 := BeforeMain(t, truck, ldap, w);
    Preparation(t, truck, ldap, w);
    TakingAwayKeepsExclusive(t.assignments, t2.assignments, Touched(truck, ldap, w));
    MainSpeaksOf(truck, ldapId, w, |t2.log|);
    AssignKeepsExclusive(t2.assignments, MainArgs(truck, ldap, w).(logId := Some(|t2.log|)));
  }

  /** If TPMS acted on the technicians it was asked to, that is decided by the rows before the run. */
  lemma AssignRunExclusiveIffTrueHolder(t: Tables, truck: string, ldapId: string, w: AssignWorld)
    requires Exclusive(t.assignments) && NormalizeEnterpriseId(ldapId) != "" && Names(truck)
    requires AssignOutcome(truck, NormalizeEnterpriseId(ldapId), w) == Done
    requires !MainArgs(truck, NormalizeEnterpriseId(ldapId), w).Blocked()
    requires PreArgs(NormalizeEnterpriseId(ldapId), w).Ldap() == NormalizeEnterpriseId(ldapId)
    requires EvictArgs(truck, w).Ldap() == NormalizeEnterpriseId(w.occupant)
    ensures var ldap := NormalizeEnterpriseId(ldapId);
            Exclusive(AssignRun(t, truck, ldap, w).assignments) <==>
            OnlyHeldBy(t.assignments, ToCanonical(truck), ldap, NormalizeEnterpriseId(w.occupant))
  {
    var ldap, occupant := NormalizeEnterpriseId(ldapId), NormalizeEnterpriseId(w.occupant);
    var m, m2 := t.assignments, BeforeMain(t, truck, ldap, w).assignments;
    AssignRunExclusiveIff(t, truck, ldapId, w);
    Preparation(t, truck, ldap, w);
    StrangersStay(m, m2, ToCanonical(truck), ldap, occupant);
  }

  /** Taking trucks away from the two named technicians does not change who else claims one. */
  lemma StrangersStay(m: map<string, Row>, m': map<string, Row>, truck: string, ldap: string, holder: string)
    requires OnlyTakesAway(m, m', {ldap, holder} - {""}) && ldap != "" && truck != ""
    ensures OnlyHeldBy(m', truck, ldap, holder) <==> OnlyHeldBy(m, truck, ldap, holder)
  {
    forall h | h !in {ldap, holder} - {""}
      ensures h in m' && Claim(m', h) == truck <==> h in m && Claim(m, h) == truck
    {
      assert h in m ==> h in m' && m'[h] == m[h];
    }
  }

  /** `ldap` is active on the truck, the claim of `occupant` on it is gone, and nobody else's row moved. */
  ghost predicate Placed(m: map<string, Row>, m': map<string, Row>, truck: string, ldap: string, occupant: string,
                         touched: set<string>) {
    && ldap in m' && m'[ldap] == Row(Some(ToTpmsRef(truck)), true)
    && (occupant in m && occupant != ldap && occupant != "" && Claim(m, occupant) == ToCanonical(truck) ==>
          occupant in m' && m'[occupant] == Row(None, false))
    && (forall e :: e in m && e !in touched ==> e in m' && m'[e] == m[e])
  }

  /** What the main assign does when it commits unrefused. */
  lemma MainPlaces(t: Tables, truck: string, ldapId: string, w: AssignWorld)
    requires NormalizeEnterpriseId(ldapId) != "" && Names(truck)
    requires !MainArgs(truck, NormalizeEnterpriseId(ldapId), w).Blocked()
    ensures var ldap, occupant := NormalizeEnterpriseId(ldapId), NormalizeEnterpriseId(w.occupant);
            var m' := Logged(t, MainArgs(truck, ldap, w), true).assignments;
            && Placed(t.assignments, m', truck, ldap, occupant, {ldap, occupant} - {""})
            && (occupant in t.assignments && t.assignments[occupant] == Row(None, false) && occupant != ldap ==>
                  occupant in m' && m'[occupant] == Row(None, false))
  {
    MainSpeaksOf(truck, ldapId, w, |t.log|);
    AssignMoves(t.assignments, MainArgs(truck, NormalizeEnterpriseId(ldapId), w).(logId := Some(|t.log|)));
  }

  lemma TakenThenPlaced(m: map<string, Row>, m2: map<string, Row>, m': map<string, Row>, truck: string, ldap: string,
                        occupant: string, touched: set<string>)
    requires {ldap, occupant} - {""} <= touched && ldap != "" && OnlyTakesAway(m, m2, touched)
    requires Placed(m2, m', truck, ldap, occupant, {ldap, occupant} - {""})
    requires occupant in m2 && m2[occupant] == Row(None, false) && occupant != ldap ==>
               occupant in m' && m'[occupant] == Row(None, false)
    ensures Placed(m, m', truck, ldap, occupant, touched)
  {
    if occupant in m && occupant != ldap && occupant != "" && Claim(m, occupant) == ToCanonical(truck) {
      assert occupant in m2 && (m2[occupant] == m[occupant] || m2[occupant] == Row(None, false));
    }
  }

  /** A run that completes without TPMS refusing ends with the incoming technician active on the truck,
      the technician who held it inactive, and the rows of everybody untouched as they were. */
  lemma AssignRunPlaces(t: Tables, truck: string, ldapId: string, w: AssignWorld)
    requires NormalizeEnterpriseId(ldapId) != "" && Names(truck)
    requires AssignOutcome(truck, NormalizeEnterpriseId(ldapId), w) == Done
    requires !MainArgs(truck, NormalizeEnterpriseId(ldapId), w).Blocked()
    ensures var ldap, occupant := NormalizeEnterpriseId(ldapId), NormalizeEnterpriseId(w.occupant);
            Placed(t.assignments, AssignRun(t, truck, ldap, w).assignments, truck, ldap, occupant,
                   Touched(truck, ldap, w))
  {
    var ldap, occupant := NormalizeEnterpriseId(ldapId), NormalizeEnterpriseId(w.occupant);
    var t2 := BeforeMain(t, truck, ldap, w);
    Preparation(t, truck, ldap, w);
    MainPlaces(t2, truck, ldapId, w);
    assert AssignRun(t, truck, ldap, w) == Logged(t2, MainArgs(truck, ldap, w), true);
    TakenThenPlaced(t.assignments, t2.assignments, AssignRun(t, truck, ldap, w).assignments, truck, ldap, occupant,
                    Touched(truck, ldap, w));
  }

  /** A run that is locked out, rolls back, or that TPMS refuses never puts anyone on a truck: the rows
      it changes are touched rows losing theirs. */
  lemma FailedAssignOnlyTakesAway(t: Tables, truck: string, ldapId: string, w: AssignWorld)
    requires AssignOutcome(truck, NormalizeEnterpriseId(ldapId), w) != Done
             || MainArgs(truck, NormalizeEnterpriseId(ldapId), w).Blocked()
    ensures OnlyTakesAway(t.assignments, AssignRun(t, truck, NormalizeEnterpriseId(ldapId), w).assignments,
                          Touched(truck, NormalizeEnterpriseId(ldapId), w))
  {
    Preparation(t, truck, NormalizeEnterpriseId(ldapId), w);
  }

  // ── The whole service ──────────────────────────────────────────────────────

  datatype Operation =
    | AssignOp(truck: string, ldapId: string, assign: AssignWorld)
    | UnassignOp(truck: string, ldapId: string, unassign: UnassignWorld)

  function Performed(t: Tables, op: Operation): Tables {
    match op
    case AssignOp(truck, ldapId, w) => AssignRun(t, truck, NormalizeEnterpriseId(ldapId), w)
    case UnassignOp(truck, ldapId, w) => UnassignRun(t, truck, NormalizeEnterpriseId(ldapId), w)
  }

  function Service(t: Tables, ops: seq<Operation>): Tables {
    if ops == [] then t else Performed(Service(t, ops[..|ops| - 1]), ops[|ops| - 1])
  }

  /** An assign whose route validation passed and whose occupant lookup told the truth about the rows;
      unassigns are unrestricted. */
  ghost predicate Truthful(m: map<string, Row>, op: Operation) {
    op.AssignOp? ==>
      && NormalizeEnterpriseId(op.ldapId) != "" && Names(op.truck)
      && OnlyHeldBy(m, ToCanonical(op.truck), NormalizeEnterpriseId(op.ldapId),
                    NormalizeEnterpriseId(op.assign.occupant))
  }

  lemma LoggedExplains(m0: map<string, Row>, t: Tables, args: Args, commits: bool)
    requires Explains(m0, t.history, t.assignments) && ActiveIffTruck(t.assignments)
    ensures Explains(m0, Logged(t, args, commits).history, Logged(t, args, commits).assignments)
    ensures ActiveIffTruck(Logged(t, args, commits).assignments)
  {
    if commits {
      var logged := args.(logId := Some(|t.log|));
      WriteThroughExplains(m0, t.history, t.assignments, logged);
      WriteThroughKeepsActivity(t.assignments, logged);
    }
  }

  lemma PerformedExplains(m0: map<string, Row>, t: Tables, op: Operation)
    requires Explains(m0, t.history, t.assignments) && ActiveIffTruck(t.assignments)
    ensures Explains(m0, Performed(t, op).history, Performed(t, op).assignments)
    ensures ActiveIffTruck(Performed(t, op).assignments)
  {
    match op
    case AssignOp(truck, ldapId, w) =>
      var ldap := NormalizeEnterpriseId(ldapId);
      var t1, t2 := AfterPre(t, truck, ldap, w), BeforeMain(t, truck, ldap, w);
      LoggedExplains(m0, t, PreArgs(ldap, w), w.preCommits);
      LoggedExplains(m0, t1, EvictArgs(truck, w), w.displacedCommits);
      LoggedExplains(m0, t2, MainArgs(truck, ldap, w), w.mainCommits);
    case UnassignOp(truck, ldapId, w) =>
      var purged := if w.purges then t.(profiles := Purged(t.profiles, truck)) else t;
      LoggedExplains(m0, purged, UnassignArgs(truck, NormalizeEnterpriseId(ldapId), w.legs, "manual"), w.commits);
  }

  /** Over the whole life of the service, whatever the downstream systems answer,
      the history replays to the assignment table and a row is active exactly when it has a truck. */
  lemma {:induction false} ServiceExplains(m0: map<string, Row>, t: Tables, ops: seq<Operation>)
    requires Explains(m0, t.history, t.assignments) && ActiveIffTruck(t.assignments)
    ensures Explains(m0, Service(t, ops).history, Service(t, ops).assignments)
    ensures ActiveIffTruck(Service(t, ops).assignments)
  {
    if ops != [] {
      ServiceExplains(m0, t, ops[..|ops| - 1]);
      PerformedExplains(m0, Service(t, ops[..|ops| - 1]), ops[|ops| - 1]);
    }
  }

  lemma PerformedKeepsExclusive(t: Tables, op: Operation)
    requires Exclusive(t.assignments) && Truthful(t.assignments, op)
    ensures Exclusive(Performed(t, op).assignments)
  {
    match op
    case AssignOp(truck, ldapId, w) => AssignRunKeepsExclusive(t, truck, ldapId, w);
    case UnassignOp(truck, ldapId, w) =>
      OtherwiseKeepsExclusive(t.assignments,
        UnassignArgs(truck, NormalizeEnterpriseId(ldapId), w.legs, "manual").(logId := Some(|t.log|)));
  }

  /** As long as each assign learns the true holder of its truck, no truck ever has two technicians. */
  lemma {:induction false} ServiceKeepsExclusive(t: Tables, ops: seq<Operation>)
    requires Exclusive(t.assignments)
    requires forall i :: 0 <= i < |ops| ==> Truthful(Service(t, ops[..i]).assignments, ops[i])
    ensures Exclusive(Service(t, ops).assignments)
  {
    if ops != [] {
      var shorter := ops[..|ops| - 1];
      forall i | 0 <= i < |shorter|
        ensures Truthful(Service(t, shorter[..i]).assignments, shorter[i])
      {
        assert shorter[..i] == ops[..i];
      }
      ServiceKeepsExclusive(t, shorter);
      PerformedKeepsExclusive(Service(t, shorter), ops[|ops| - 1]);
    }
  }
}
