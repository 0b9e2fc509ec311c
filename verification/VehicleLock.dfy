/** The leased operation lock on a Holman cache row (`acquireVehicleLock`, `releaseVehicleLock`): taken by
    compare-and-set on a timestamp, free again after two minutes, and released without asking whose it is. */
module VehicleLock {
  import opened Text

  type Vehicle = string

  type Operation = nat

  const LEASE: int := 2 * 60 * 1000

  /** The row's `operationLockAt`; a vehicle outside the map has no cache row. */
  type LockRows = map<Vehicle, Option<int>>

  predicate Free(rows: LockRows, v: Vehicle, now: int) {
    v in rows && (rows[v].None? || rows[v].value < now - LEASE)
  }

  function Acquired(rows: LockRows, v: Vehicle, now: int): LockRows {
    if Free(rows, v, now) then rows[v := Some(now)] else rows
  }

  function Released(rows: LockRows, v: Vehicle): LockRows {
    if v in rows then rows[v := None] else rows
  }

  // ── Operations in parallel ─────────────────────────────────────────────────

  /** An operation between a granted acquire and its release. */
  datatype Critical = Critical(vehicle: Vehicle, since: int)

  datatype State = State(rows: LockRows, now: int, inside: map<Operation, Critical>)

  datatype Step = TryAcquire(op: Operation, vehicle: Vehicle) | Release(op: Operation) | Tick(ms: nat)

  predicate Enabled(st: State, step: Step) {
    match step
    case TryAcquire(op, _) => op !in st.inside
    case Release(op) => op in st.inside
    case Tick(_) => true
  }

  function After(st: State, step: Step): State
    requires Enabled(st, step)
  {
    match step
    case TryAcquire(op, v) =>
      if Free(st.rows, v, st.now)
      then State(Acquired(st.rows, v, st.now), st.now, st.inside[op := Critical(v, st.now)]) else st
    case Release(op) => State(Released(st.rows, st.inside[op].vehicle), st.now, st.inside - {op})
    case Tick(ms) => st.(now := st.now + ms)
  }

  ghost predicate Exclusive(st: State) {
    forall a, b :: a in st.inside && b in st.inside && st.inside[a].vehicle == st.inside[b].vehicle ==> a == b
  }

  /** Each row still carries the timestamp of the operation inside. */
  ghost predicate Inv(st: State) {
    && Exclusive(st)
    && forall op :: op in st.inside ==>
         && st.inside[op].vehicle in st.rows && st.rows[st.inside[op].vehicle] == Some(st.inside[op].since)
  }

  predicate Overrun(st: State, op: Operation) { op in st.inside && st.now > st.inside[op].since + LEASE }

  /** An acquire of a vehicle whose holder has overrun. */
  predicate Steals(st: State, step: Step) {
    step.TryAcquire? && exists op :: op in st.inside && st.inside[op].vehicle == step.vehicle && Overrun(st, op)
  }

  // ── The rows ───────────────────────────────────────────────────────────────

  class VehicleLocks {
    var rows: LockRows
    var now: int
    ghost var inside: map<Operation, Critical>

    ghost function Contents(): State
      reads this
    {
      State(rows, now, inside)
    }

    constructor (vehicles: set<Vehicle>)
      ensures Contents() == State(map v | v in vehicles :: None, 0, map[]) && Inv(Contents())
    {
      rows, now, inside := map v | v in vehicles :: None, 0, map[];
    }

    /** One conditional UPDATE: granted when it touched a row. Nobody else is inside then, exactly if nobody
        on this vehicle had overrun. */
    method Acquire(ghost op: Operation, v: Vehicle) returns (granted: bool)
      requires op !in inside
      modifies this
      ensures Contents() == After(old(Contents()), Step.TryAcquire(op, v)) && (granted <==> op in inside)
      ensures old(Inv(Contents())) && granted ==>
                (Exclusive(Contents()) <==> !old(Steals(Contents(), Step.TryAcquire(op, v))))
    {
      ghost var before := Contents();
      granted := v in rows && (rows[v].None? || rows[v].value < now - LEASE);
      if granted {
        rows := rows[v := Some(now)];
        inside := inside[op := Critical(v, now)];
      }
      if Inv(before) {
        StepKeepsInvIff(before, Step.TryAcquire(op, v));
      }
    }

    method Release(ghost op: Operation, v: Vehicle)
      requires op in inside && inside[op].vehicle == v
      modifies this
      ensures Contents() == After(old(Contents()), Step.Release(op))
      ensures old(Inv(Contents())) ==> Inv(Contents())
    {
      ghost var before := Contents();
      if v in rows {
        rows := rows[v := None];
      }
      inside := inside - {op};
      if Inv(before) {
        StepKeepsInvIff(before, Step.Release(op));
      }
    }

    method Wait(ms: nat)
      modifies this
      ensures Contents() == After(old(Contents()), Step.Tick(ms))
    {
      now := now + ms;
    }
  }

  // ── Every interleaving ─────────────────────────────────────────────────────

  /** An acquire is granted over a holder's head exactly when that holder has overrun. */
  lemma GrantedOverHolderIff(st: State, holder: Operation)
    requires Inv(st) && holder in st.inside
    ensures Free(st.rows, st.inside[holder].vehicle, st.now) <==> st.now > st.inside[holder].since + 120_000
  {
    assert st.rows[st.inside[holder].vehicle] == Some(st.inside[holder].since);
  }

  /** A step breaks exclusion exactly when it takes a vehicle from a holder that has overrun. */
  lemma StepKeepsInvIff(st: State, step: Step)
    requires Inv(st) && Enabled(st, step)
    ensures Inv(After(st, step)) <==> !Steals(st, step)
    ensures Exclusive(After(st, step)) <==> !Steals(st, step)
  {
    if Steals(st, step) {
      var op :| op in st.inside && st.inside[op].vehicle == step.vehicle && Overrun(st, op);
      GrantedOverHolderIff(st, op);
      assert op in After(st, step).inside && step.op in After(st, step).inside;
    } else if step.TryAcquire? && Free(st.rows, step.vehicle, st.now) {
      forall a | a in st.inside
        ensures st.inside[a].vehicle != step.vehicle
      {
        GrantedOverHolderIff(st, a);
      }
    }
  }

  ghost predicate Possible(st: State, steps: seq<Step>)
    decreases |steps|
  {
    steps == [] || (Enabled(st, steps[0]) && Possible(After(st, steps[0]), steps[1..]))
  }

  ghost function Reach(st: State, steps: seq<Step>): State
    requires Possible(st, steps)
    decreases |steps|
  {
    if steps == [] then st else Reach(After(st, steps[0]), steps[1..])
  }

  ghost predicate AlwaysExclusive(st: State, steps: seq<Step>)
    requires Possible(st, steps)
    decreases |steps|
  {
    Exclusive(st) && (steps == [] || AlwaysExclusive(After(st, steps[0]), steps[1..]))
  }

  ghost predicate NeverSteals(st: State, steps: seq<Step>)
    requires Possible(st, steps)
    decreases |steps|
  {
    steps == [] || (!Steals(st, steps[0]) && NeverSteals(After(st, steps[0]), steps[1..]))
  }

  /** In every interleaving of acquires, unconditional releases and time passing, no vehicle ever has two
      operations inside exactly if no vehicle is acquired while its holder has overrun. An overrun nobody
      comes upon does no harm. */
  lemma {:induction false} ExclusiveIffNeverSteals(st: State, steps: seq<Step>)
    requires Inv(st) && Possible(st, steps)
    ensures AlwaysExclusive(st, steps) <==> NeverSteals(st, steps)
    decreases |steps|
  {
    if steps != [] {
      StepKeepsInvIff(st, steps[0]);
      if !Steals(st, steps[0]) {
        ExclusiveIffNeverSteals(After(st, steps[0]), steps[1..]);
      }
    }
  }

  /** Every timestamp on a row was put there by an operation still inside. */
  ghost predicate RowsAreHeld(st: State) {
    forall v :: v in st.rows && st.rows[v].Some? ==>
      exists op :: op in st.inside && st.inside[op] == Critical(v, st.rows[v].value)
  }

  lemma StepKeepsRowsHeld(st: State, step: Step)
    requires RowsAreHeld(st) && Enabled(st, step)
    ensures RowsAreHeld(After(st, step)) && After(st, step).rows.Keys == st.rows.Keys
  {
    var st' := After(st, step);
    forall v | v in st'.rows && st'.rows[v].Some?
      ensures exists op :: op in st'.inside && st'.inside[op] == Critical(v, st'.rows[v].value)
    {
      if v in st.rows && st.rows[v] == st'.rows[v] && !(step.TryAcquire? && step.vehicle == v && st' != st) {
        var op :| op in st.inside && st.inside[op] == Critical(v, st.rows[v].value);
        assert op in st'.inside && st'.inside[op] == st.inside[op];
      } else {
        assert step.op in st'.inside;
      }
    }
  }

  /** In every run, stolen leases or not, an acquire of a cached vehicle is refused only while some operation is
      inside on that vehicle and within its lease: a release frees it at once, and time does in the end. */
  lemma {:induction false} RefusedOnlyWhileHeld(st: State, steps: seq<Step>, v: Vehicle)
    requires RowsAreHeld(st) && Possible(st, steps) && v in st.rows
    ensures var st' := Reach(st, steps);
            Free(st'.rows, v, st'.now)
            || exists op :: op in st'.inside && st'.inside[op].vehicle == v && !Overrun(st', op)
    decreases |steps|
  {
    if steps == [] {
      if !Free(st.rows, v, st.now) {
        var op :| op in st.inside && st.inside[op] == Critical(v, st.rows[v].value);
        assert !Overrun(st, op);
      }
    } else {
      StepKeepsRowsHeld(st, steps[0]);
      RefusedOnlyWhileHeld(After(st, steps[0]), steps[1..], v);
    }
  }

  /** Nobody is inside beyond their lease. */
  predicate Prompt(st: State) { forall op :: op in st.inside ==> !Overrun(st, op) }

  ghost predicate AlwaysPrompt(st: State, steps: seq<Step>)
    requires Possible(st, steps)
    decreases |steps|
  {
    Prompt(st) && (steps == [] || AlwaysPrompt(After(st, steps[0]), steps[1..]))
  }

  /** So it is enough that every holder releases within the lease. */
  lemma {:induction false} PromptRunsExclude(st: State, steps: seq<Step>)
    requires Inv(st) && Possible(st, steps) && AlwaysPrompt(st, steps)
    ensures AlwaysExclusive(st, steps)
    decreases |steps|
  {
    if steps != [] {
      StepKeepsInvIff(st, steps[0]);
      PromptRunsExclude(After(st, steps[0]), steps[1..]);
    }
  }

  /** One overrun is enough: when the late holder releases, it frees the lock of its successor, and then
      two operations are inside although both are well within their own lease. */
  lemma OverrunBreaksSuccessors(v: Vehicle)
    ensures var st0 := State(map[v := None], 0, map[]);
            var st1 := After(st0, TryAcquire(1, v));
            var st2 := After(st1, Tick(120_001));
            var st3 := After(st2, TryAcquire(2, v));
            var st4 := After(st3, Release(1));
            var st5 := After(st4, TryAcquire(3, v));
            && Prompt(st1) && !Prompt(st2)
            && Prompt(st5) && st5.inside == map[2 := Critical(v, 120_001), 3 := Critical(v, 120_001)]
            && !Exclusive(st5)
  {
    var st0 := State(map[v := None], 0, map[]);
    var st1 := After(st0, TryAcquire(1, v));
    var st2 := After(st1, Tick((LEASE + 1) as nat));
    var st3 := After(st2, TryAcquire(2, v));
    assert st3.inside == map[1 := Critical(v, 0), 2 := Critical(v, LEASE + 1)];
    var st4 := After(st3, Release(1));
    assert st4.inside == map[2 := Critical(v, LEASE + 1)];
    var st5 := After(st4, TryAcquire(3, v));
    assert 2 in st5.inside && 3 in st5.inside;
  }
}
