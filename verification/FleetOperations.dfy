/** The orchestrators of `server/fleet-operations-service.ts` over the mutable tables: `assignTech` makes
    up to three write-throughs, `unassignTech` one after a purge. What the downstream systems answer,
    whether each transaction commits, and whether the vehicle lock is granted are inputs. */
module FleetOperations {
  import opened Text
  import opened WriteThrough
  import opened Assignments

  datatype Legs = Legs(tpms: SystemResult, holman: SystemResult, ams: SystemResult)

  /** Everything an assign finds out from outside, in the order it finds it out. "" is "nobody". */
  datatype AssignWorld = AssignWorld(
    locked: bool,
    currentTruck: string,
    pre: Legs, preCommits: bool,
    occupant: string,
    displaced: Legs, displacedCommits: bool,
    main: Legs, mainCommits: bool)

  datatype UnassignWorld = UnassignWorld(locked: bool, purges: bool, legs: Legs, commits: bool)

  datatype Outcome = LockHeld | Threw | Done

  const VERIFIED_SKIP := SystemResult(Skipped, true, "", false, true, NoPayload)

  const NEW_LOG := LogRow(Pending, Pending, Pending, false)

  // ── What a run of assignTech does to the tables ────────────────────────────

  /** Creating the operation-log row and then the write-through that completes it. */
  function Logged(t: Tables, args: Args, commits: bool): Tables {
    Transact(t.(log := t.log + [NEW_LOG]), args.(logId := Some(|t.log|)), commits)
  }

  function UnassignArgs(truck: string, ldap: string, legs: Legs, source: string): Args {
    Args(Unassign, ldap, truck, legs.tpms, legs.holman, legs.ams, "", "", source, None)
  }

  /** The technician is on another truck, which is given up first. */
  predicate Relocates(truck: string, w: AssignWorld) {
    w.currentTruck != "" && ToCanonical(w.currentTruck) != "" && ToCanonical(w.currentTruck) != ToCanonical(truck)
  }

  predicate Evicts(ldap: string, w: AssignWorld) {
    NormalizeEnterpriseId(w.occupant) != "" && NormalizeEnterpriseId(w.occupant) != ldap
  }

  function PreArgs(ldap: string, w: AssignWorld): Args {
    UnassignArgs(w.currentTruck, ldap, w.pre, "auto_unassign")
  }

  function EvictArgs(truck: string, w: AssignWorld): Args {
    UnassignArgs(truck, NormalizeEnterpriseId(w.occupant), w.displaced, "displacement")
  }

  function MainArgs(truck: string, ldap: string, w: AssignWorld): Args {
    var current := w.currentTruck != "" && ToCanonical(w.currentTruck) == ToCanonical(truck);
    Args(Assign, ldap, truck,
         if current then VERIFIED_SKIP else w.main.tpms, w.main.holman, w.main.ams,
         NormalizeEnterpriseId(w.occupant),
         if Relocates(truck, w) then w.currentTruck else "",
         "manual", None)
  }

  function AfterPre(t: Tables, truck: string, ldap: string, w: AssignWorld): Tables {
    if Relocates(truck, w) then Logged(t, PreArgs(ldap, w), w.preCommits) else t
  }

  function AfterEviction(t: Tables, truck: string, ldap: string, w: AssignWorld): Tables {
    if Evicts(ldap, w) then Logged(t, EvictArgs(truck, w), w.displacedCommits) else t
  }

  function AssignOutcome(truck: string, ldap: string, w: AssignWorld): Outcome {
    if w.locked then LockHeld
    else if (Relocates(truck, w) && !w.preCommits) || (Evicts(ldap, w) && !w.displacedCommits) || !w.mainCommits
      then Threw
    else Done
  }

  function AssignRun(t: Tables, truck: string, ldap: string, w: AssignWorld): Tables {
    if w.locked then t else
      var t1 := AfterPre(t, truck, ldap, w);
      if Relocates(truck, w) && !w.preCommits then t1 else
        var t2 := AfterEviction(t1, truck, ldap, w);
        if Evicts(ldap, w) && !w.displacedCommits then t2 else
          Logged(t2, MainArgs(truck, ldap, w), w.mainCommits)
  }

  // ── What a run of unassignTech does ────────────────────────────────────────

  /** `btrim`: spaces only. */
  function BTrim(s: string): string {
    if s != "" && s[0] == ' ' then BTrim(s[1..])
    else if s != "" && s[|s| - 1] == ' ' then BTrim(s[..|s| - 1])
    else s
  }

  function Purged(profiles: map<string, Option<string>>, truck: string): map<string, Option<string>> {
    map e | e in profiles ::
      if profiles[e].Some? && StripZeros(BTrim(profiles[e].value)) == ToCanonical(truck) then None else profiles[e]
  }

  function UnassignRun(t: Tables, truck: string, ldap: string, w: UnassignWorld): Tables {
    if w.locked then t else
      Logged(if w.purges then t.(profiles := Purged(t.profiles, truck)) else t,
             UnassignArgs(truck, ldap, w.legs, "manual"), w.commits)
  }

  // ── The tables themselves ──────────────────────────────────────────────────

  class NexusTables {
    var assignments: map<string, Row>
    var history: seq<HistoryRow>
    var profiles: map<string, Option<string>>
    var lastKnown: map<string, string>
    var holman: map<string, Option<string>>
    var ams: map<string, Option<string>>
    var log: seq<LogRow>

    ghost function Contents(): Tables
      reads this
    {
      Tables(assignments, history, profiles, lastKnown, holman, ams, log)
    }

    constructor ()
      ensures Contents() == Tables(map[], [], map[], map[], map[], map[], [])
    {
      assignments, history, profiles, lastKnown, holman, ams, log := map[], [], map[], map[], map[], map[], [];
    }

    method ApplyTpmsPlan(plan: Plan)
      modifies this`lastKnown, this`profiles
      ensures Contents() == ApplyPlan(old(Contents()), plan)
    {
      for i := 0 to |plan.upserts|
        invariant lastKnown == Upserted(old(lastKnown), plan.upserts[..i])
        invariant profiles == old(profiles)
      {
        assert plan.upserts[..i + 1][..i] == plan.upserts[..i];
        lastKnown := lastKnown[plan.upserts[i].0 := plan.upserts[i].1];
      }
      assert plan.upserts[..|plan.upserts|] == plan.upserts;
      for i := 0 to |plan.deletes|
        invariant lastKnown == Deleted(Upserted(old(lastKnown), plan.upserts), plan.deletes[..i])
        invariant profiles == old(profiles)
      {
        assert plan.deletes[..i + 1][..i] == plan.deletes[..i];
        lastKnown := lastKnown - {plan.deletes[i]};
      }
      assert plan.deletes[..|plan.deletes|] == plan.deletes;
      for i := 0 to |plan.profileSets|
        invariant profiles == ProfilesSet(old(profiles), plan.profileSets[..i])
        invariant lastKnown == Deleted(Upserted(old(lastKnown), plan.upserts), plan.deletes)
      {
        assert plan.profileSets[..i + 1][..i] == plan.profileSets[..i];
        var (tech, truck) := plan.profileSets[i];
        if truck.Some? && truck.value != "" {
          profiles := profiles[tech := truck];
        } else if tech in profiles {
          profiles := profiles[tech := None];
        }
      }
      assert plan.profileSets[..|plan.profileSets|] == plan.profileSets;
    }

    method WriteAssignment(args: Args)
      modifies this`assignments, this`history
      ensures assignments == AssignmentsAfter(old(assignments), args)
      ensures history == old(history) + RecordsOf(old(assignments), args)
    {
      var ldap := args.Ldap();
      if ldap == "" {
        return;
      }
      var record := OperationRecord(assignments, args);
      if Moves(assignments, args) {
        assignments := assignments[ldap := NewRow(args)];
      }
      history := history + [record];
      var prev := args.PrevHolder();
      if args.action == Assign && prev != "" && prev != ldap && !args.Blocked() && prev in assignments {
        var stale := assignments[prev].truckNo;
        if stale.Some? && stale.value != "" && ToCanonical(stale.value) == args.Canonical() {
          assignments := assignments[prev := Row(None, false)];
          history := history + [HistoryRow(prev, None, stale, Unassigned, "displacement")];
        }
      }
    }

    /** One write-through: every table moves to the committed value, or none does. */
    method WriteThroughCaches(args: Args, commits: bool)
      modifies this
      ensures Contents() == Transact(old(Contents()), args, commits)
    {
      if !commits {
        return;
      }
      ApplyTpmsPlan(PlanTpmsCacheWrites(args));
      holman := HolmanCached(holman, args.holman);
      ams := AmsCached(ams, args.ams);
      WriteAssignment(args);
      log := LogAfter(log, args);
    }

    method CreateLog() returns (id: nat)
      modifies this`log
      ensures id == old(|log|) && log == old(log) + [NEW_LOG]
    {
      id := |log|;
      log := log + [NEW_LOG];
    }

    method AssignTech(truck: string, ldapId: string, w: AssignWorld) returns (outcome: Outcome)
      modifies this
      ensures Contents() == AssignRun(old(Contents()), truck, NormalizeEnterpriseId(ldapId), w)
      ensures outcome == AssignOutcome(truck, NormalizeEnterpriseId(ldapId), w)
    {
      if w.locked {
        return LockHeld;
      }
      var ldap := NormalizeEnterpriseId(ldapId);
      if Relocates(truck, w) {
        var id := CreateLog();
        WriteThroughCaches(PreArgs(ldap, w).(logId := Some(id)), w.preCommits);
        if !w.preCommits {
          return Threw;
        }
      }
      assert Contents() == AfterPre(old(Contents()), truck, ldap, w);
      if Evicts(ldap, w) {
        var id := CreateLog();
        WriteThroughCaches(EvictArgs(truck, w).(logId := Some(id)), w.displacedCommits);
        if !w.displacedCommits {
          return Threw;
        }
      }
      var id := CreateLog();
      WriteThroughCaches(MainArgs(truck, ldap, w).(logId := Some(id)), w.mainCommits);
      outcome := if w.mainCommits then Done else Threw;
    }

    method UnassignTech(truck: string, ldapId: string, w: UnassignWorld) returns (outcome: Outcome)
      modifies this
      ensures Contents() == UnassignRun(old(Contents()), truck, NormalizeEnterpriseId(ldapId), w)
      ensures outcome == if w.locked then LockHeld else if w.commits then Done else Threw
    {
      if w.locked {
        return LockHeld;
      }
      if w.purges {
        profiles := Purged(profiles, truck);
      }
      var id := CreateLog();
      WriteThroughCaches(UnassignArgs(truck, NormalizeEnterpriseId(ldapId), w.legs, "manual").(logId := Some(id)),
                         w.commits);
      outcome := if w.commits then Done else Threw;
    }
  }
}
