/** Refreshers on many instances replacing one mirror table under a session-level Postgres advisory lock
    (`server/fleetscope-snowflake-sync-lock.ts`, `server/fleet-scope-all-vehicles-mirror.ts`), with readers
    reading it meanwhile. A session is a pooled database connection. */
module MirrorSwap {
  import opened Arithmetic
  import FleetMirror
  import opened Text

  type Session = nat

  type Reader = nat

  /** The two lists a refresh installs together. */
  datatype Roster = Roster(base: seq<string>, unassigned: seq<string>)

  /** Where a refresh on a session stands. `Ready` has read the sources, passed both guards and is about to
      write; `Leaving` is in its finally block; `CutOff` runs on, but its connection and with it the lock are
      gone, so that all it can still do is fail. */
  datatype Phase = Outside | Locked | Ready(next: Roster) | Leaving | CutOff

  /** A read takes two queries: what each returned, and from which of the `installed` rosters. */
  datatype Reading =
    | NotReading
    | HasBase(base: seq<string>, baseAt: nat)
    | HasBoth(base: seq<string>, baseAt: nat, unassigned: seq<string>, unassignedAt: nat)

  /** `lock` is the holding session and how often it has locked (the lock is re-entrant within a session);
      `installed` lists every roster the table has held, the last one being its content. */
  datatype State = State(
    lock: Option<(Session, nat)>,
    phases: map<Session, Phase>,
    installed: seq<Roster>,
    readers: map<Reader, Reading>)
  {
    function PhaseOf(s: Session): Phase { if s in phases then phases[s] else Outside }

    function ReadingOf(r: Reader): Reading { if r in readers then readers[r] else NotReading }

    function Table(): Roster
      requires installed != []
    {
      installed[|installed| - 1]
    }

    function Swaps(): nat
      requires installed != []
    {
      |installed| - 1
    }

    /** Past acquire, on a living connection. */
    predicate Inside(s: Session) { PhaseOf(s) != Outside && PhaseOf(s) != CutOff }
  }

  datatype Step =
    | TryAcquire(s: Session)
    | Measure(s: Session, next: Roster)
    | Swap(s: Session)
    | Fail(s: Session)
    | Release(s: Session)
    | ReleaseLost(s: Session)
    | Drop(s: Session)
    | ReadBase(r: Reader)
    | ReadUnassigned(r: Reader)

  /** `pg_try_advisory_lock` on session `s`. */
  function Granted(lock: Option<(Session, nat)>, s: Session): Option<(Session, nat)> {
    if lock.None? then Some((s, 1)) else if lock.value.0 == s then Some((s, lock.value.1 + 1)) else lock
  }

  /** `pg_advisory_unlock` on session `s`. */
  function Unlocked(lock: Option<(Session, nat)>, s: Session): Option<(Session, nat)> {
    if lock.Some? && lock.value.0 == s then if lock.value.1 <= 1 then None else Some((s, lock.value.1 - 1)) else lock
  }

  predicate Plausible(current: Roster, next: Roster) { FleetMirror.Plausible(|current.base|, |next.base|) }

  predicate Enabled(st: State, step: Step)
    requires st.installed != []
  {
    match step
    case TryAcquire(s) => st.PhaseOf(s) == Outside
    case Measure(s, next) => st.PhaseOf(s) == Locked && Plausible(st.Table(), next)
    case Swap(s) => st.PhaseOf(s).Ready?
    case Fail(s) => st.PhaseOf(s).Locked? || st.PhaseOf(s).Ready? || st.PhaseOf(s).CutOff?
    case Release(s) => st.PhaseOf(s) == Leaving
    case ReleaseLost(s) => st.PhaseOf(s) == Leaving
    case Drop(s) => true
    case ReadBase(r) => !st.ReadingOf(r).HasBase?
    case ReadUnassigned(r) => st.ReadingOf(r).HasBase?
  }

  /** One step. `Fail` covers a failed read, a tripped guard and a failed write: the transaction leaves the
      table alone. `ReleaseLost` is an unlock query that fails quietly while its session lives on, and
      `Drop` a connection that dies, with which Postgres lets the lock go; a refresh on it runs on until it
      fails, and then has nothing to release. */
  function After(st: State, step: Step): State
    requires st.installed != [] && Enabled(st, step)
  {
    match step
    case TryAcquire(s) =>
      var lock := Granted(st.lock, s);
      if lock.value.0 == s then st.(lock := lock, phases := st.phases[s := Locked]) else st
    case Measure(s, next) => st.(phases := st.phases[s := Ready(next)])
    case Swap(s) => st.(phases := st.phases[s := Leaving], installed := st.installed + [st.PhaseOf(s).next])
    case Fail(s) => st.(phases := st.phases[s := if st.PhaseOf(s).CutOff? then Outside else Leaving])
    case Release(s) => st.(lock := Unlocked(st.lock, s), phases := st.phases[s := Outside])
    case ReleaseLost(s) => st.(phases := st.phases[s := Outside])
    case Drop(s) =>
      st.(lock := if st.lock.Some? && st.lock.value.0 == s then None else st.lock,
          phases := st.phases[s := if st.PhaseOf(s) == Outside then Outside else CutOff])
    case ReadBase(r) => st.(readers := st.readers[r := HasBase(st.Table().base, st.Swaps())])
    case ReadUnassigned(r) =>
      var HasBase(base, baseAt) := st.ReadingOf(r);
      st.(readers := st.readers[r := HasBoth(base, baseAt, st.Table().unassigned, st.Swaps())])
  }

  /** The lists a reader has are those of the rosters it saw them in, the second no older than the first. */
  predicate Faithful(installed: seq<Roster>, reading: Reading) {
    match reading
    case NotReading => true
    case HasBase(base, baseAt) => baseAt < |installed| && base == installed[baseAt].base
    case HasBoth(base, baseAt, unassigned, unassignedAt) =>
      && baseAt <= unassignedAt < |installed|
      && base == installed[baseAt].base && unassigned == installed[unassignedAt].unassigned
  }

  /** Every living session past acquire holds the lock, and a session about to write has measured the table
      it is about to replace. */
  ghost predicate Inv(st: State) {
    && st.installed != []
    && (st.lock.Some? ==> st.lock.value.1 >= 1)
    && (forall s :: st.Inside(s) ==> st.lock.Some? && st.lock.value.0 == s)
    && (forall s :: st.PhaseOf(s).Ready? ==> Plausible(st.Table(), st.PhaseOf(s).next))
    && (forall i :: 0 < i < |st.installed| ==> Plausible(st.installed[i - 1], st.installed[i]))
    && (forall r :: Faithful(st.installed, st.ReadingOf(r)))
  }

  predicate Init(st: State) {
    st.lock == None && st.phases == map[] && |st.installed| == 1 && st.readers == map[]
  }

  predicate IsRead(step: Step) { step.ReadBase? || step.ReadUnassigned? }

  /** A step leaves every session and reader but its own alone. */
  lemma OthersStay(st: State, step: Step)
    requires st.installed != [] && Enabled(st, step)
    ensures var st' := After(st, step);
            && (forall x :: IsRead(step) || x != step.s ==>
                  st'.PhaseOf(x) == st.PhaseOf(x) && (st'.Inside(x) <==> st.Inside(x)))
            && (forall x :: !IsRead(step) || x != step.r ==> st'.ReadingOf(x) == st.ReadingOf(x))
  {
  }

  lemma StepKeepsLock(st: State, step: Step)
    requires Inv(st) && Enabled(st, step)
    ensures var st' := After(st, step);
            && (st'.lock.Some? ==> st'.lock.value.1 >= 1)
            && (forall x :: st'.Inside(x) ==> st'.lock.Some? && st'.lock.value.0 == x)
  {
    OthersStay(st, step);
    var st' := After(st, step);
    forall x | st'.Inside(x)
      ensures st'.lock.Some? && st'.lock.value.0 == x
    {
      if !st.Inside(x) {
        assert step == TryAcquire(x);
      }
    }
  }

  lemma StepKeepsInv(st: State, step: Step)
    requires Inv(st) && Enabled(st, step)
    ensures Inv(After(st, step))
  {
    var st' := After(st, step);
    OthersStay(st, step);
    StepKeepsLock(st, step);
    if step.Swap? {
      assert st.Inside(step.s);
      assert forall x :: x != step.s ==> !st.Inside(x) && !st'.PhaseOf(x).Ready?;
    }
  }

  // ── Every run ──────────────────────────────────────────────────────────────

  /** The steps can be taken one after another from `st`, in any interleaving of sessions and readers. */
  ghost predicate Possible(st: State, steps: seq<Step>)
    decreases |steps|
  {
    st.installed != [] && (steps == [] || (Enabled(st, steps[0]) && Possible(After(st, steps[0]), steps[1..])))
  }

  ghost function Reach(st: State, steps: seq<Step>): State
    requires Possible(st, steps)
    decreases |steps|
  {
    if steps == [] then st else Reach(After(st, steps[0]), steps[1..])
  }

  /** Rosters are only ever appended. */
  lemma {:induction false} RunKeepsInv(st: State, steps: seq<Step>)
    requires Inv(st) && Possible(st, steps)
    ensures Inv(Reach(st, steps)) && st.installed <= Reach(st, steps).installed
    decreases |steps|
  {
    if steps != [] {
      StepKeepsInv(st, steps[0]);
      RunKeepsInv(After(st, steps[0]), steps[1..]);
    }
  }

  /** From the start, in every run, at most one session whose connection lives is past acquire, and only
      that one can swap: a refresh that was cut off runs on beside it but never writes. */
  lemma MutualExclusion(st: State, steps: seq<Step>, a: Session, b: Session)
    requires Init(st) && Possible(st, steps)
    ensures var st' := Reach(st, steps);
            && (st'.Inside(a) && st'.Inside(b) ==> a == b)
            && (st'.installed != [] && Enabled(st', Swap(a)) && st'.Inside(b) ==> a == b)
  {
    RunKeepsInv(st, steps);
  }

  /** A refresh whose connection dies can only fail, which touches neither table nor lock, and no new one starts
      on its session before. */
  lemma CutOffOnlyFails(st: State, s: Session, step: Step)
    requires Inv(st) && st.PhaseOf(s) != Outside && !IsRead(step) && step.s == s
    ensures Enabled(After(st, Drop(s)), step) <==> step.Fail? || step.Drop?
    ensures step.Fail? ==>
              var dropped, failed := After(st, Drop(s)), After(After(st, Drop(s)), step);
              failed.installed == st.installed && failed.lock == dropped.lock && failed.PhaseOf(s) == Outside
  {
  }

  function StepsOf(steps: seq<Step>, wanted: Step -> bool): nat {
    if steps == [] then 0 else (if wanted(steps[0]) then 1 else 0) + StepsOf(steps[1..], wanted)
  }

  /** A session replaces the table at most once for each time it asks for the lock. */
  lemma {:induction false} OneSwapPerAcquire(st: State, steps: seq<Step>, s: Session)
    requires Possible(st, steps)
    ensures StepsOf(steps, (x: Step) => x == Swap(s))
            <= StepsOf(steps, (x: Step) => x == TryAcquire(s))
               + if st.PhaseOf(s).Locked? || st.PhaseOf(s).Ready? then 1 else 0
    decreases |steps|
  {
    if steps != [] {
      OneSwapPerAcquire(After(st, steps[0]), steps[1..], s);
      OthersStay(st, steps[0]);
    }
  }

  // ── When the lock is free ──────────────────────────────────────────────────

  /** How many unlocks of session `s` were lost on its present connection. */
  function LostAfter(lost: nat, step: Step, s: Session): nat {
    if step == Drop(s) then 0 else if step == ReleaseLost(s) then lost + 1 else lost
  }

  function Lost(lost: nat, steps: seq<Step>, s: Session): nat
    decreases |steps|
  {
    if steps == [] then lost else Lost(LostAfter(lost, steps[0], s), steps[1..], s)
  }

  /** How often session `s` holds the lock. */
  function Holds(st: State, s: Session): nat {
    if st.lock.Some? && st.lock.value.0 == s then st.lock.value.1 else 0
  }

  /** The lock is held once for the session inside and once for each lost unlock, and by nobody else. */
  ghost predicate HeldExactly(st: State, lost: Session -> nat) {
    forall s: Session :: (if st.Inside(s) then 1 else 0) + lost(s) == Holds(st, s)
  }

  lemma OthersHold(st: State, step: Step, s: Session)
    requires Inv(st) && Enabled(st, step) && (IsRead(step) || step.s != s)
    ensures Holds(After(st, step), s) == Holds(st, s) && (After(st, step).Inside(s) <==> st.Inside(s))
  {
    OthersStay(st, step);
  }

  lemma OwnHolds(st: State, step: Step)
    requires Inv(st) && Enabled(st, step) && !IsRead(step)
    ensures var st', s := After(st, step), step.s;
            Holds(st', s) + (if st.Inside(s) then 1 else 0)
            == if step.Drop? then (if st.Inside(s) then 1 else 0)
               else Holds(st, s) + (if st'.Inside(s) then 1 else 0) + if step.ReleaseLost? then 1 else 0
  {
  }

  lemma StepHolds(st: State, step: Step, lost: Session -> nat)
    requires Inv(st) && Enabled(st, step) && HeldExactly(st, lost)
    ensures HeldExactly(After(st, step), s => LostAfter(lost(s), step, s))
  {
    forall s: Session
      ensures (if After(st, step).Inside(s) then 1 else 0) + LostAfter(lost(s), step, s) == Holds(After(st, step), s)
    {
      assert (if st.Inside(s) then 1 else 0) + lost(s) == Holds(st, s);
      if IsRead(step) || step.s != s {
        OthersHold(st, step, s);
      } else {
        OwnHolds(st, step);
      }
    }
  }

  lemma {:induction false} RunHolds(st: State, steps: seq<Step>, lost: Session -> nat)
    requires Inv(st) && Possible(st, steps) && HeldExactly(st, lost)
    ensures HeldExactly(Reach(st, steps), s => Lost(lost(s), steps, s))
    decreases |steps|
  {
    if steps != [] {
      var next: Session -> nat := (s: Session) => LostAfter(lost(s), steps[0], s);
      StepKeepsInv(st, steps[0]);
      StepHolds(st, steps[0], lost);
      RunHolds(After(st, steps[0]), steps[1..], next);
      assert forall s: Session :: Lost(next(s), steps[1..], s) == Lost(lost(s), steps, s);
    }
  }

  /** From the start, in every run, a session that asks for the lock gets it exactly if no other one is past
      acquire on a living connection or has lost an unlock on one: every other release frees the lock. */
  lemma GrantedIff(st: State, steps: seq<Step>, s: Session)
    requires Init(st) && Possible(st, steps) && Reach(st, steps).PhaseOf(s) == Outside
    ensures Reach(st, steps).installed != []
    ensures After(Reach(st, steps), TryAcquire(s)).Inside(s)
            <==> forall x :: x != s ==> !Reach(st, steps).Inside(x) && Lost(0, steps, x) == 0
  {
    RunKeepsInv(st, steps);
    RunHolds(st, steps, (x: Session) => 0);
    var st' := Reach(st, steps);
    forall x: Session
      ensures !st'.Inside(x) && Lost(0, steps, x) == 0 <==> !(st'.lock.Some? && st'.lock.value.0 == x)
    {
      assert (if st'.Inside(x) then 1 else 0) + Lost(0, steps, x) == Holds(st', x);
    }
    assert After(st', TryAcquire(s)).Inside(s) <==> st'.lock.None? || st'.lock.value.0 == s;
    if st'.lock.Some? {
      var holder := st'.lock.value.0;
      assert st'.Inside(holder) || Lost(0, steps, holder) != 0;
    }
  }

  /** A refresh whose unlock is lost leaves the lock with its session: no other gets it, the same one does, and
      the end of the connection frees it. */
  lemma LostUnlockLingers(st: State, s: Session, other: Session)
    requires Inv(st) && st.PhaseOf(s) == Leaving && other != s && st.PhaseOf(other) == Outside
    ensures Enabled(st, ReleaseLost(s))
    ensures var lost := After(st, ReleaseLost(s));
            && !lost.Inside(s) && !After(lost, TryAcquire(other)).Inside(other)
            && After(lost, TryAcquire(s)).Inside(s)
            && After(After(lost, Drop(s)), TryAcquire(other)).Inside(other)
  {
    assert st.Inside(s);
  }

  /** Rosters shrink by at most half at each swap. */
  lemma {:induction false} ShrinksByHalves(st: State, i: nat, j: nat)
    requires Inv(st) && i <= j < |st.installed|
    ensures |st.installed[j].base| * Pow2(j - i) >= |st.installed[i].base|
    decreases j - i
  {
    if i < j {
      ShrinksByHalves(st, i, j - 1);
      assert Plausible(st.installed[j - 1], st.installed[j]);
      HalfStep(|st.installed[j].base|, |st.installed[j - 1].base|, Pow2(j - i - 1));
    }
  }

  /** Over any run, k successful swaps leave at least the initial size divided by 2^k, and a mirror that was
      ever non-empty is never empty again. */
  lemma NeverWiped(st: State, steps: seq<Step>)
    requires Inv(st) && Possible(st, steps)
    ensures var st' := Reach(st, steps);
            && st'.installed != [] && st'.Swaps() >= st.Swaps()
            && |st'.Table().base| * Pow2(st'.Swaps() - st.Swaps()) >= |st.Table().base|
            && (st.Table().base != [] ==> st'.Table().base != [])
  {
    var st' := Reach(st, steps);
    RunKeepsInv(st, steps);
    ShrinksByHalves(st', st.Swaps(), st'.Swaps());
    if st'.Swaps() > 0 {
      assert Plausible(st'.installed[st'.Swaps() - 1], st'.installed[st'.Swaps()]);
    }
  }

  // ── Readers ────────────────────────────────────────────────────────────────

  predicate Touches(step: Step, r: Reader) { (step.ReadBase? || step.ReadUnassigned?) && step.r == r }

  function SwapsIn(steps: seq<Step>): nat {
    if steps == [] then 0 else (if steps[0].Swap? then 1 else 0) + SwapsIn(steps[1..])
  }

  /** Between a reader's queries the table moves on by as many rosters as there are swaps. */
  lemma {:induction false} SwapsCount(st: State, steps: seq<Step>, r: Reader)
    requires Inv(st) && Possible(st, steps) && forall i :: 0 <= i < |steps| ==> !Touches(steps[i], r)
    ensures var st' := Reach(st, steps);
            Inv(st') && st'.Swaps() == st.Swaps() + SwapsIn(steps) && st'.ReadingOf(r) == st.ReadingOf(r)
    decreases |steps|
  {
    if steps != [] {
      StepKeepsInv(st, steps[0]);
      SwapsCount(After(st, steps[0]), steps[1..], r);
    }
  }

  /** A read from query to query, whatever the refreshers and other readers do in between: each list is the
      whole list of an installed roster, the second as many rosters later as swaps fell in between. So the
      two belong to one roster exactly if none did. */
  lemma ReadsOneRosterIff(st: State, steps: seq<Step>, r: Reader)
    requires Inv(st) && Enabled(st, ReadBase(r)) && Possible(After(st, ReadBase(r)), steps)
    requires forall i :: 0 <= i < |steps| ==> !Touches(steps[i], r)
    ensures var st' := Reach(After(st, ReadBase(r)), steps);
            && st'.installed != [] && Enabled(st', ReadUnassigned(r))
            && var end := After(st', ReadUnassigned(r));
               var got := end.ReadingOf(r);
               && got.HasBoth? && got.baseAt <= got.unassignedAt < |end.installed|
               && got.base == end.installed[got.baseAt].base == st.Table().base
               && got.unassigned == end.installed[got.unassignedAt].unassigned
               && got.unassignedAt == got.baseAt + SwapsIn(steps)
               && (got.baseAt == got.unassignedAt <==> forall i :: 0 <= i < |steps| ==> !steps[i].Swap?)
  {
    StepKeepsInv(st, ReadBase(r));
    SwapsCount(After(st, ReadBase(r)), steps, r);
    StepKeepsInv(Reach(After(st, ReadBase(r)), steps), ReadUnassigned(r));
    NoSwaps(steps);
  }

  lemma {:induction false} NoSwaps(steps: seq<Step>)
    ensures SwapsIn(steps) == 0 <==> forall i :: 0 <= i < |steps| ==> !steps[i].Swap?
  {
    if steps != [] {
      NoSwaps(steps[1..]);
      assert forall i :: 1 <= i < |steps| ==> steps[i] == steps[1..][i - 1];
    }
  }

  /** A read can pair the base list of one refresh with the unassigned list of the next. */
  lemma TornRead(old': Roster, next: Roster)
    requires Plausible(old', next)
    ensures var st := State(None, map[], [old'], map[]);
            var steps := [TryAcquire(1), Measure(1, next), ReadBase(7), Swap(1), ReadUnassigned(7)];
            && Init(st) && Possible(st, steps)
            && Reach(st, steps).ReadingOf(7) == HasBoth(old'.base, 0, next.unassigned, 1)
            && Reach(st, steps).installed == [old', next]
  {
    var st := State(None, map[], [old'], map[]);
    var st1 := After(st, TryAcquire(1));
    var st2 := After(st1, Measure(1, next));
    var st3 := After(st2, ReadBase(7));
    var st4 := After(st3, Swap(1));
    var st5 := After(st4, ReadUnassigned(7));
    var steps := [TryAcquire(1), Measure(1, next), ReadBase(7), Swap(1), ReadUnassigned(7)];
    assert steps[1..][1..] == [ReadBase(7), Swap(1), ReadUnassigned(7)];
    assert steps[1..][1..][1..] == [Swap(1), ReadUnassigned(7)];
    assert steps[1..][1..][1..][1..] == [ReadUnassigned(7)];
    assert steps[1..][1..][1..][1..][1..] == [];
    assert Possible(st4, [ReadUnassigned(7)]) && Reach(st4, [ReadUnassigned(7)]) == st5;
    assert Possible(st3, steps[3..]) && Reach(st3, steps[3..]) == st5;
    assert Possible(st2, steps[2..]) && Reach(st2, steps[2..]) == st5;
    assert Possible(st1, steps[1..]) && Reach(st1, steps[1..]) == st5;
  }
}
