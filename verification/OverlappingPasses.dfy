/** Retry passes and clean-ups over `operation_events` side by side. Each first reads the rows it is about and
    then writes them one by one, from what it read; nothing keeps two passes, two clean-ups, or one of each
    apart, since the scheduler, the drain route and the manual retry all start them. */
module OverlappingPasses {
  import opened OperationEvents
  import opened Text
  import opened WriteThrough

  /** A pass: when it began, and the rows it has read and not yet written, as it read them. */
  datatype Pass = Pass(at: int, rows: map<nat, Event>)

  /** A clean-up, and the rows it has selected and not yet written off. */
  datatype CleanUp = CleanUp(at: int, rows: set<nat>)

  datatype State = State(events: seq<Event>, passes: map<nat, Pass>, cleanUps: map<nat, CleanUp>) {
    predicate Pending(p: nat, k: nat) { p in passes && k in passes[p].rows }

    /** Row `k` as pass `p` read it. */
    function Read(p: nat, k: nat): Event
      requires Pending(p, k)
    {
      passes[p].rows[k]
    }

    predicate Selected(c: nat, k: nat) { c in cleanUps && k in cleanUps[c].rows }
  }

  /** `Lose` is a downstream call whose row update then throws, which ends the pass; `Quit` ends it between
      rows, as a restart or a failing log update does; `Stop` ends a clean-up. */
  datatype Step =
    | Log(system: System, status: Status, logId: Option<nat>, at: int)
    | ReadDue(p: nat, chosen: seq<nat>, at: int)
    | Write(p: nat, k: nat, answer: Answer)
    | Lose(p: nat, k: nat)
    | Quit(p: nat)
    | ReadStale(c: nat, chosen: seq<nat>, at: int)
    | ReadTerminal(c: nat, chosen: seq<nat>, terminal: set<nat>, at: int)
    | WriteOff(c: nat, k: nat)
    | Stop(c: nat)

  predicate Enabled(st: State, step: Step) {
    match step
    case Log(system, _, _, _) => system != UnknownSystem
    case ReadDue(p, chosen, at) =>
      && p !in st.passes && Selection(st.events, chosen)
      && forall i :: 0 <= i < |chosen| ==> Due(st.events[chosen[i]], at)
    case Write(p, k, _) => st.Pending(p, k) && k < |st.events|
    case Lose(p, k) => st.Pending(p, k) && Calls(st.Read(p, k))
    case Quit(p) => p in st.passes
    case ReadStale(c, chosen, at) =>
      && c !in st.cleanUps && Selection(st.events, chosen)
      && forall i :: 0 <= i < |chosen| ==> Stale(st.events[chosen[i]], at)
    case ReadTerminal(c, chosen, terminal, at) =>
      && c !in st.cleanUps && Selection(st.events, chosen)
      && forall i :: 0 <= i < |chosen| ==> ParentTerminal(st.events[chosen[i]], terminal)
    case WriteOff(c, k) => st.Selected(c, k) && k < |st.events|
    case Stop(c) => c in st.cleanUps
  }

  function ToSet(chosen: seq<nat>): set<nat> { set k | k in chosen }

  function After(st: State, step: Step): State
    requires Enabled(st, step)
  {
    match step
    case Log(system, status, logId, at) => st.(events := st.events + [LoggedEvent(system, status, logId, at)])
    case ReadDue(p, chosen, at) => st.(passes := st.passes[p := Pass(at, map k: nat | k in chosen :: st.events[k])])
    case Write(p, k, answer) =>
      st.(events := st.events[k := RetryUpdate(st.events[k], st.Read(p, k), st.passes[p].at, answer)],
          passes := st.passes[p := st.passes[p].(rows := st.passes[p].rows - {k})])
    case Lose(p, _) => st.(passes := st.passes[p := st.passes[p].(rows := map[])])
    case Quit(p) => st.(passes := st.passes[p := st.passes[p].(rows := map[])])
    case ReadStale(c, chosen, at) => st.(cleanUps := st.cleanUps[c := CleanUp(at, ToSet(chosen))])
    case ReadTerminal(c, chosen, _, at) => st.(cleanUps := st.cleanUps[c := CleanUp(at, ToSet(chosen))])
    case WriteOff(c, k) =>
      st.(events := st.events[k := GivenUp(st.events[k], st.cleanUps[c].at)],
          cleanUps := st.cleanUps[c := st.cleanUps[c].(rows := st.cleanUps[c].rows - {k})])
    case Stop(c) => st.(cleanUps := st.cleanUps[c := st.cleanUps[c].(rows := {})])
  }

  ghost predicate Possible(st: State, steps: seq<Step>)
    decreases |steps|
  {
    steps == [] || (Enabled(st, steps[0]) && Possible(After(st, steps[0]), steps[1..]))
  }

  ghost function Reach(st: State, steps: seq<Step>): State
    requires Possible(st, steps)
    decreases |steps|
  {
    if steps == [] then st else Reach(After(st, steps[0]), steps[1..])
  }

  /** Along the run no step is a bad one. */
  ghost predicate Never(bad: (State, Step) -> bool, st: State, steps: seq<Step>)
    requires Possible(st, steps)
    decreases |steps|
  {
    steps == [] || (!bad(st, steps[0]) && Never(bad, After(st, steps[0]), steps[1..]))
  }

  /** Every pass writes all it read. */
  ghost predicate PassesFinish(st: State, steps: seq<Step>)
    requires Possible(st, steps)
    decreases |steps|
  {
    if steps == [] then forall p, k: nat :: !st.Pending(p, k)
    else !steps[0].Lose? && !steps[0].Quit? && PassesFinish(After(st, steps[0]), steps[1..])
  }

  ghost predicate CleanUpsFinish(st: State, steps: seq<Step>)
    requires Possible(st, steps)
    decreases |steps|
  {
    if steps == [] then forall c, k: nat :: !st.Selected(c, k)
    else !steps[0].Stop? && CleanUpsFinish(After(st, steps[0]), steps[1..])
  }

  // ── What every run keeps ───────────────────────────────────────────────────

  /** What no update changes. */
  predicate SameEvent(e: Event, f: Event) { e.system == f.system && e.maxRetries == f.maxRetries }

  ghost predicate Inv(st: State) {
    && (forall k :: 0 <= k < |st.events| ==> Bounded(st.events[k]))
    && (forall p, k: nat :: st.Pending(p, k) ==>
          && k < |st.events| && SameEvent(st.events[k], st.Read(p, k))
          && Bounded(st.Read(p, k)) && Due(st.Read(p, k), st.passes[p].at))
    && (forall c, k: nat :: st.Selected(c, k) ==> k < |st.events|)
  }

  ghost predicate AllSound(events: seq<Event>) { forall k :: 0 <= k < |events| ==> Sound(events[k]) }

  predicate WrittenOff(e: Event) { e.outcome == Exhausted }

  predicate Resolved(e: Event) { e.outcome == Succeeded || e.outcome == WasSkipped }

  predicate Refuses(answer: Answer) { answer.status == Failed || answer.status == Conflict }

  /** A due event always has an attempt left, so its retry calls downstream, and the branch that would write
      it off without resolving it is never taken. Whatever the row has become, the write leaves the answer's
      outcome and the attempts read plus one; a sound row stays sound unless it is terminal and refused. */
  lemma RetryUses(row: Event, read: Event, now: int, answer: Answer)
    requires Bounded(row) && Bounded(read) && Due(read, now) && SameEvent(row, read)
    ensures var e := RetryUpdate(row, read, now, answer);
            && Calls(read) && Bounded(e) && SameEvent(e, row) && e.attemptCount == read.attemptCount + 1
            && e.outcome != Exhausted && (Terminal(e) <==> Resolves(answer.status))
            && (Sound(row) ==> (Sound(e) <==> !(Terminal(row) && Refuses(answer))))
  {
  }

  /** For every event and every answer: a write over a write-off undoes it, and leaves an event that is
      resolved without being terminal exactly when the answer is a refusal. */
  lemma OverlapUndoesWriteOff(e: Event, now: int, cleaned: int, answer: Answer)
    requires Sound(e) && Due(e, now)
    ensures var row := RetryUpdate(GivenUp(e, cleaned), e, now, answer);
            Terminal(GivenUp(e, cleaned)) && row.outcome != Exhausted && (Sound(row) <==> !Refuses(answer))
  {
    RetryUses(GivenUp(e, cleaned), e, now, answer);
  }

  /** A step writes at most one row, and what no update changes stays. */
  lemma StepWritesOne(st: State, step: Step)
    requires Inv(st) && Enabled(st, step)
    ensures |After(st, step).events| >= |st.events|
    ensures forall k :: 0 <= k < |st.events| ==>
              && Bounded(After(st, step).events[k]) && SameEvent(After(st, step).events[k], st.events[k])
              && (!((step.Write? || step.WriteOff?) && step.k == k) ==> After(st, step).events[k] == st.events[k])
  {
    if step.Write? {
      RetryUses(st.events[step.k], st.Read(step.p, step.k), st.passes[step.p].at, step.answer);
    }
  }

  /** What is pending or selected after a step was so before, unless the step read it. */
  lemma StepReads(st: State, step: Step)
    requires Inv(st) && Enabled(st, step)
    ensures forall p, k: nat :: After(st, step).Pending(p, k) ==>
              if st.Pending(p, k)
              then After(st, step).Read(p, k) == st.Read(p, k) && After(st, step).passes[p].at == st.passes[p].at
              else
                && step.ReadDue? && step.p == p && k in step.chosen && k < |st.events|
                && After(st, step).Read(p, k) == st.events[k] && Due(st.events[k], After(st, step).passes[p].at)
    ensures forall c, k: nat :: After(st, step).Selected(c, k) ==>
            st.Selected(c, k) || (k < |st.events| && Open(st.events[k]))
  {
  }

  lemma StepKeepsInv(st: State, step: Step)
    requires Inv(st) && Enabled(st, step)
    ensures Inv(After(st, step))
  {
    StepWritesOne(st, step);
    StepReads(st, step);
  }

  /** What a step leaves pending or selected. */
  lemma StepLeaves(st: State, step: Step)
    requires Enabled(st, step)
    ensures forall p, k: nat :: st.Pending(p, k) && !After(st, step).Pending(p, k) ==>
              step.Lose? || step.Quit? || (step.Write? && step.p == p && step.k == k)
    ensures step.Lose? || step.Quit? ==> forall k: nat :: !After(st, step).Pending(step.p, k)
    ensures forall c, k: nat :: st.Selected(c, k) && !After(st, step).Selected(c, k) ==>
              step.Stop? || (step.WriteOff? && step.c == c && step.k == k)
  {
  }

  /** An event can be written off as stale exactly if it is pending or failed, and a day old. */
  lemma StaleIff(st: State, c: nat, k: nat, at: int)
    requires c !in st.cleanUps && k < |st.events|
    ensures var steps := [ReadStale(c, [k], at), WriteOff(c, k)];
            && (Possible(st, steps) <==>
                  st.events[k].outcome in {Waiting, HasFailed} && st.events[k].createdAt + 86_400_000 <= at)
            && (Possible(st, steps) ==> Reach(st, steps).events == GivenUpAll(st.events, [k], at))
  {
    var steps := [ReadStale(c, [k], at), WriteOff(c, k)];
    assert steps[1..] == [WriteOff(c, k)] && steps[1..][1..] == [];
    assert [k][0] == k && k in [k];
    if Enabled(st, steps[0]) {
      var selected := After(st, steps[0]);
      assert selected.Selected(c, k) && selected.events == st.events;
      assert Possible(selected, [WriteOff(c, k)]);
      assert Reach(selected, [WriteOff(c, k)]) == After(selected, WriteOff(c, k));
    }
  }

  /** And because of its operation exactly if it is pending or failed, and that operation has ended. */
  lemma ParentTerminalIff(st: State, c: nat, k: nat, terminal: set<nat>, at: int)
    requires c !in st.cleanUps && k < |st.events|
    ensures var steps := [ReadTerminal(c, [k], terminal, at), WriteOff(c, k)];
            && (Possible(st, steps) <==>
                  && st.events[k].outcome in {Waiting, HasFailed}
                  && exists id :: id in terminal && st.events[k].logId == Some(id))
            && (Possible(st, steps) ==> Reach(st, steps).events == GivenUpAll(st.events, [k], at))
  {
    var steps := [ReadTerminal(c, [k], terminal, at), WriteOff(c, k)];
    assert steps[1..] == [WriteOff(c, k)] && steps[1..][1..] == [];
    assert [k][0] == k && k in [k];
    if Enabled(st, steps[0]) {
      var selected := After(st, steps[0]);
      assert selected.Selected(c, k) && selected.events == st.events;
      assert Possible(selected, [WriteOff(c, k)]);
      assert Reach(selected, [WriteOff(c, k)]) == After(selected, WriteOff(c, k));
    }
  }

  /** A pass can end before any of its writes, by losing the call or between rows; the rows keep what they had,
      and are due again. */
  lemma PassesMayEnd(st: State, p: nat, k: nat, step: Step)
    requires Inv(st) && st.Pending(p, k) && step in {Lose(p, k), Quit(p)}
    ensures Possible(st, [step]) && Reach(st, [step]).events == st.events
    ensures forall j: nat :: !Reach(st, [step]).Pending(p, j)
    ensures st.events[k] == st.Read(p, k) ==> Due(Reach(st, [step]).events[k], st.passes[p].at)
  {
    assert [step][1..] == [];
    assert Reach(st, [step]) == After(st, step);
  }

  // ── Counting attempts ──────────────────────────────────────────────────────

  /** The row update of this step, if it is one, raises the row's attempts by one. */
  predicate Counts(st: State, step: Step)
    requires Enabled(st, step)
  {
    step.Write? ==> After(st, step).events[step.k].attemptCount == st.events[step.k].attemptCount + 1
  }

  ghost predicate AlwaysCounts(st: State, steps: seq<Step>)
    requires Possible(st, steps)
    decreases |steps|
  {
    steps == [] || (Counts(st, steps[0]) && AlwaysCounts(After(st, steps[0]), steps[1..]))
  }

  /** A pass reads a row that another has read and not yet written. */
  ghost predicate ReadsPending(st: State, step: Step) {
    step.ReadDue? && exists q, k: nat :: k in step.chosen && st.Pending(q, k)
  }

  /** No row is pending twice, and none has been retried since it was read. */
  ghost predicate Apart(st: State) {
    && (forall p, q, k: nat :: st.Pending(p, k) && st.Pending(q, k) ==> p == q)
    && forall p, k: nat :: st.Pending(p, k) && k < |st.events| ==>
         st.Read(p, k).attemptCount == st.events[k].attemptCount
  }

  lemma CountsIffFresh(st: State, step: Step)
    requires Inv(st) && Enabled(st, step)
    ensures Counts(st, step) <==>
            (step.Write? ==> st.Read(step.p, step.k).attemptCount == st.events[step.k].attemptCount)
  {
    if step.Write? {
      RetryUses(st.events[step.k], st.Read(step.p, step.k), st.passes[step.p].at, step.answer);
    }
  }

  /** Only a retry changes attempts. */
  lemma AttemptsAfter(st: State, step: Step, k: nat)
    requires Inv(st) && Enabled(st, step) && k < |st.events|
    ensures k < |After(st, step).events|
    ensures After(st, step).events[k].attemptCount
            == if step.Write? && step.k == k then st.Read(step.p, k).attemptCount + 1 else st.events[k].attemptCount
  {
    if step.Write? {
      RetryUses(st.events[step.k], st.Read(step.p, step.k), st.passes[step.p].at, step.answer);
    }
  }

  lemma ApartStep(st: State, step: Step)
    requires Inv(st) && Enabled(st, step) && Apart(st) && !ReadsPending(st, step)
    ensures Counts(st, step) && Apart(After(st, step))
  {
    CountsIffFresh(st, step);
    StepReads(st, step);
    var st' := After(st, step);
    forall p, k: nat | st'.Pending(p, k) && k < |st'.events|
      ensures st'.Read(p, k).attemptCount == st'.events[k].attemptCount
    {
      StepKeepsInv(st, step);
      AttemptsAfter(st, step, k);
    }
  }

  /** Passes that keep off each other's rows count every row update, finished or not. */
  lemma {:induction false} ApartCounts(st: State, steps: seq<Step>)
    requires Inv(st) && Apart(st) && Possible(st, steps) && Never(ReadsPending, st, steps)
    ensures AlwaysCounts(st, steps)
    decreases |steps|
  {
    if steps != [] {
      StepKeepsInv(st, steps[0]);
      ApartStep(st, steps[0]);
      ApartCounts(After(st, steps[0]), steps[1..]);
    }
  }

  /** A row retried since the pass read it is counted wrong when the pass writes it, if not before. */
  lemma {:induction false} StaleLoses(st: State, steps: seq<Step>, p: nat, k: nat)
    requires Inv(st) && Possible(st, steps) && PassesFinish(st, steps)
    requires st.Pending(p, k) && st.Read(p, k).attemptCount < st.events[k].attemptCount
    ensures !AlwaysCounts(st, steps)
    decreases |steps|
  {
    var step := steps[0];
    CountsIffFresh(st, step);
    if Counts(st, step) {
      StepKeepsInv(st, step);
      StepReads(st, step);
      StepLeaves(st, step);
      AttemptsAfter(st, step, k);
      StaleLoses(After(st, step), steps[1..], p, k);
    }
  }

  /** Of two passes with the same row pending the later to write it counts wrong. */
  lemma {:induction false} TwinLoses(st: State, steps: seq<Step>, p: nat, q: nat, k: nat)
    requires Inv(st) && Possible(st, steps) && PassesFinish(st, steps) && p != q
    requires st.Pending(p, k) && st.Read(p, k).attemptCount == st.events[k].attemptCount
    requires st.Pending(q, k) && st.Read(q, k).attemptCount == st.events[k].attemptCount
    ensures !AlwaysCounts(st, steps)
    decreases |steps|
  {
    var step := steps[0];
    CountsIffFresh(st, step);
    if Counts(st, step) {
      StepKeepsInv(st, step);
      StepReads(st, step);
      StepLeaves(st, step);
      AttemptsAfter(st, step, k);
      if step.Write? && step.k == k {
        StaleLoses(After(st, step), steps[1..], if step.p == p then q else p, k);
      } else {
        TwinLoses(After(st, step), steps[1..], p, q, k);
      }
    }
  }

  /** Over any run whose passes finish, beside any clean-ups: every row update raises the row's attempts by
      one exactly when no pass reads a row that another has read and not yet written. */
  lemma {:induction false} CountsIffApart(st: State, steps: seq<Step>)
    requires Inv(st) && Apart(st) && Possible(st, steps) && PassesFinish(st, steps)
    ensures AlwaysCounts(st, steps) <==> Never(ReadsPending, st, steps)
    decreases |steps|
  {
    if steps != [] {
      var step, st' := steps[0], After(st, steps[0]);
      StepKeepsInv(st, step);
      if ReadsPending(st, step) {
        var q, k :| k in step.chosen && st.Pending(q, k);
        assert st'.Pending(step.p, k) && st'.Read(step.p, k) == st.events[k] == st'.events[k];
        assert st'.Pending(q, k) && st'.Read(q, k) == st.Read(q, k);
        TwinLoses(st', steps[1..], step.p, q, k);
      } else {
        ApartStep(st, step);
        CountsIffApart(st', steps[1..]);
      }
    }
  }

  function CallsFor(steps: seq<Step>, k: nat): nat {
    if steps == [] then 0
    else (if (steps[0].Write? || steps[0].Lose?) && steps[0].k == k then 1 else 0) + CallsFor(steps[1..], k)
  }

  function LossesFor(steps: seq<Step>, k: nat): nat {
    if steps == [] then 0 else (if steps[0].Lose? && steps[0].k == k then 1 else 0) + LossesFor(steps[1..], k)
  }

  /** As long as row updates count, downstream is called for an event once for each attempt counted, plus
      once for each row update lost: without losses a fresh event is retried at most maxRetries - 1 times. */
  lemma {:induction false} RetriesAreBounded(st: State, steps: seq<Step>, k: nat)
    requires Inv(st) && Possible(st, steps) && AlwaysCounts(st, steps) && k < |st.events|
    ensures Inv(Reach(st, steps)) && k < |Reach(st, steps).events|
    ensures Reach(st, steps).events[k].attemptCount + LossesFor(steps, k)
            == st.events[k].attemptCount + CallsFor(steps, k)
    ensures CallsFor(steps, k) <= st.events[k].maxRetries - st.events[k].attemptCount + LossesFor(steps, k)
    decreases |steps|
  {
    if steps != [] {
      StepKeepsInv(st, steps[0]);
      StepWritesOne(st, steps[0]);
      CountsIffFresh(st, steps[0]);
      AttemptsAfter(st, steps[0], k);
      RetriesAreBounded(After(st, steps[0]), steps[1..], k);
    }
  }

  /** Attempts the retry machine may still make. */
  function Remaining(events: seq<Event>): nat {
    if events == [] then 0
    else
      var e := events[|events| - 1];
      Remaining(events[..|events| - 1]) + if e.attemptCount < e.maxRetries then e.maxRetries - e.attemptCount else 0
  }

  lemma {:induction false} RemainingAfter(events: seq<Event>, k: nat, e: Event)
    requires k < |events| && SameEvent(e, events[k]) && Bounded(events[k]) && Bounded(e)
    ensures Remaining(events[k := e]) + e.attemptCount == Remaining(events) + events[k].attemptCount
  {
    var n := |events| - 1;
    if k < n {
      assert events[k := e][..n] == events[..n][k := e];
      RemainingAfter(events[..n], k, e);
    } else {
      assert events[k := e][..n] == events[..n];
    }
  }

  /** A row update takes one from the attempts left in the table exactly if it counts, and nothing else but
      logging changes them: retrying ends once logging does, as long as row updates go in and count. */
  lemma WritesMakeProgress(st: State, step: Step)
    requires Inv(st) && Enabled(st, step) && !step.Log?
    ensures step.Write? ==> (Remaining(After(st, step).events) + 1 == Remaining(st.events) <==> Counts(st, step))
    ensures !step.Write? ==> Remaining(After(st, step).events) == Remaining(st.events)
  {
    if step.Write? || step.WriteOff? {
      StepWritesOne(st, step);
      RemainingAfter(st.events, step.k, After(st, step).events[step.k]);
    }
  }

  // ── When terminal outcomes stay ────────────────────────────────────────────

  predicate Stays(p: Event -> bool, events: seq<Event>, events': seq<Event>) {
    |events| <= |events'| && forall k :: 0 <= k < |events| && p(events[k]) ==> p(events'[k])
  }

  /** Along the run no event that has the outcome ever loses it. */
  ghost predicate Keeps(p: Event -> bool, st: State, steps: seq<Step>)
    requires Possible(st, steps)
    decreases |steps|
  {
    steps == [] || (Stays(p, st.events, After(st, steps[0]).events) && Keeps(p, After(st, steps[0]), steps[1..]))
  }

  /** Exactly which step takes a write-off away: writing a row that is written off. */
  lemma WriteOffLost(st: State, step: Step)
    requires Inv(st) && Enabled(st, step)
    ensures Stays(WrittenOff, st.events, After(st, step).events) <==> !(step.Write? && WrittenOff(st.events[step.k]))
  {
    if step.Write? {
      RetryUses(st.events[step.k], st.Read(step.p, step.k), st.passes[step.p].at, step.answer);
    }
  }

  /** Exactly which step takes a success away: writing it off, or writing another answer over it. */
  lemma SuccessLost(st: State, step: Step)
    requires Inv(st) && Enabled(st, step)
    ensures Stays(Resolved, st.events, After(st, step).events) <==>
            !((step.WriteOff? || (step.Write? && !Resolves(step.answer.status))) && Resolved(st.events[step.k]))
  {
    if step.Write? {
      RetryUses(st.events[step.k], st.Read(step.p, step.k), st.passes[step.p].at, step.answer);
    }
  }

  /** A clean-up writes off a row that a pass has read and not yet written. */
  ghost predicate CleansPending(st: State, step: Step) { step.WriteOff? && exists p :: st.Pending(p, step.k) }

  ghost predicate NoPendingWrittenOff(st: State) {
    forall p, k: nat :: st.Pending(p, k) && k < |st.events| ==> !WrittenOff(st.events[k])
  }

  /** A written-off row that a pass still has to write loses its write-off before that pass is over. */
  lemma {:induction false} PendingLoses(st: State, steps: seq<Step>, p: nat, k: nat)
    requires Inv(st) && Possible(st, steps) && PassesFinish(st, steps) && st.Pending(p, k) && WrittenOff(st.events[k])
    ensures !Keeps(WrittenOff, st, steps)
    decreases |steps|
  {
    StepKeepsInv(st, steps[0]);
    WriteOffLost(st, steps[0]);
    StepLeaves(st, steps[0]);
    if Stays(WrittenOff, st.events, After(st, steps[0]).events) {
      PendingLoses(After(st, steps[0]), steps[1..], p, k);
    }
  }

  lemma CleanStep(st: State, step: Step)
    requires Inv(st) && Enabled(st, step) && NoPendingWrittenOff(st) && !CleansPending(st, step)
    ensures NoPendingWrittenOff(After(st, step)) && Stays(WrittenOff, st.events, After(st, step).events)
  {
    WriteOffLost(st, step);
    StepReads(st, step);
    StepWritesOne(st, step);
    StepKeepsInv(st, step);
    var st' := After(st, step);
    forall p, k: nat | st'.Pending(p, k) && k < |st'.events|
      ensures !WrittenOff(st'.events[k])
    {
      if step.Write? && step.k == k {
        RetryUses(st.events[k], st.Read(step.p, k), st.passes[step.p].at, step.answer);
      }
    }
  }

  /** Over any run whose passes finish, write-offs stay exactly when no clean-up writes off a row that a pass
      has read and not yet written. */
  lemma {:induction false} WriteOffsStayIff(st: State, steps: seq<Step>)
    requires Inv(st) && Possible(st, steps) && PassesFinish(st, steps) && NoPendingWrittenOff(st)
    ensures Keeps(WrittenOff, st, steps) <==> Never(CleansPending, st, steps)
    decreases |steps|
  {
    if steps != [] {
      var st' := After(st, steps[0]);
      StepKeepsInv(st, steps[0]);
      if CleansPending(st, steps[0]) {
        var p :| st.Pending(p, steps[0].k);
        PendingLoses(st', steps[1..], p, steps[0].k);
      } else {
        CleanStep(st, steps[0]);
        WriteOffsStayIff(st', steps[1..]);
      }
    }
  }

  /** A pass resolves a row that a clean-up has selected and not yet written off. */
  ghost predicate ResolvesSelected(st: State, step: Step) {
    step.Write? && Resolves(step.answer.status) && exists c :: st.Selected(c, step.k)
  }

  /** `step` is pass `p` writing row `k` from an answer that does not resolve it. */
  predicate Unresolves(step: Step, p: nat, k: nat) {
    step.Write? && step.p == p && step.k == k && !Resolves(step.answer.status)
  }

  /** The first step resolves a row that another pass has read, and that pass later writes it unresolved. */
  ghost predicate Contradicted(st: State, steps: seq<Step>) {
    && steps != [] && steps[0].Write? && Resolves(steps[0].answer.status)
    && exists q, j :: q != steps[0].p && st.Pending(q, steps[0].k) && 1 <= j < |steps|
         && Unresolves(steps[j], q, steps[0].k)
  }

  ghost predicate NeverContradicted(st: State, steps: seq<Step>)
    requires Possible(st, steps)
    decreases |steps|
  {
    steps == [] || (!Contradicted(st, steps) && NeverContradicted(After(st, steps[0]), steps[1..]))
  }

  ghost predicate NoSelectedResolved(st: State) {
    forall c, k: nat :: st.Selected(c, k) && k < |st.events| ==> !Resolved(st.events[k])
  }

  ghost predicate NoPendingResolved(st: State) {
    forall p, k: nat :: st.Pending(p, k) && k < |st.events| ==> !Resolved(st.events[k])
  }

  /** Pending rows that are resolved by now will be written resolved. */
  ghost predicate AgreesLater(st: State, steps: seq<Step>) {
    forall p, k: nat, j :: st.Pending(p, k) && k < |st.events| && Resolved(st.events[k]) && 0 <= j < |steps| ==>
      !Unresolves(steps[j], p, k)
  }

  lemma {:induction false} SelectedLoses(st: State, steps: seq<Step>, c: nat, k: nat)
    requires Inv(st) && Possible(st, steps) && CleanUpsFinish(st, steps) && st.Selected(c, k) && Resolved(st.events[k])
    ensures !Keeps(Resolved, st, steps)
    decreases |steps|
  {
    StepKeepsInv(st, steps[0]);
    SuccessLost(st, steps[0]);
    StepLeaves(st, steps[0]);
    if Stays(Resolved, st.events, After(st, steps[0]).events) {
      SelectedLoses(After(st, steps[0]), steps[1..], c, k);
    }
  }

  lemma {:induction false} ContradictionLoses(st: State, steps: seq<Step>, q: nat, k: nat, j: nat)
    requires Inv(st) && Possible(st, steps) && k < |st.events| && Resolved(st.events[k])
    requires j < |steps| && Unresolves(steps[j], q, k)
    ensures !Keeps(Resolved, st, steps)
    decreases |steps|
  {
    StepKeepsInv(st, steps[0]);
    SuccessLost(st, steps[0]);
    if j > 0 && Stays(Resolved, st.events, After(st, steps[0]).events) {
      ContradictionLoses(After(st, steps[0]), steps[1..], q, k, j - 1);
    }
  }

  /** Only a pass resolves a row, and it does with exactly the resolving answers. */
  lemma ResolvedBy(st: State, step: Step, k: nat)
    requires Inv(st) && Enabled(st, step) && k < |st.events|
    ensures k < |After(st, step).events|
    ensures step.Write? && step.k == k ==> (Resolved(After(st, step).events[k]) <==> Resolves(step.answer.status))
    ensures !(step.Write? && step.k == k) && Resolved(After(st, step).events[k]) ==> Resolved(st.events[k])
  {
    if step.Write? {
      RetryUses(st.events[step.k], st.Read(step.p, step.k), st.passes[step.p].at, step.answer);
    }
  }

  lemma SelectedStep(st: State, step: Step)
    requires Inv(st) && Enabled(st, step) && NoSelectedResolved(st) && !ResolvesSelected(st, step)
    ensures NoSelectedResolved(After(st, step))
  {
    StepReads(st, step);
    var st' := After(st, step);
    forall c, k: nat | st'.Selected(c, k) && k < |st'.events|
      ensures !Resolved(st'.events[k])
    {
      StepKeepsInv(st, step);
      assert k < |st.events|;
      ResolvedBy(st, step, k);
    }
  }

  lemma AgreesStep(st: State, steps: seq<Step>)
    requires Inv(st) && Possible(st, steps) && steps != [] && AgreesLater(st, steps) && !Contradicted(st, steps)
    ensures AgreesLater(After(st, steps[0]), steps[1..])
  {
    var step, st' := steps[0], After(st, steps[0]);
    StepReads(st, step);
    forall p, k: nat, j | st'.Pending(p, k) && k < |st'.events| && Resolved(st'.events[k]) && 0 <= j < |steps| - 1
      ensures !Unresolves(steps[1..][j], p, k)
    {
      StepKeepsInv(st, step);
      assert k < |st.events| && steps[1..][j] == steps[j + 1];
      ResolvedBy(st, step, k);
      assert st.Pending(p, k);
    }
  }

  lemma {:induction false} SuccessesStayFrom(st: State, steps: seq<Step>)
    requires Inv(st) && Possible(st, steps) && CleanUpsFinish(st, steps)
    requires NoSelectedResolved(st) && AgreesLater(st, steps)
    ensures Keeps(Resolved, st, steps) <==> Never(ResolvesSelected, st, steps) && NeverContradicted(st, steps)
    decreases |steps|
  {
    if steps != [] {
      var step, st' := steps[0], After(st, steps[0]);
      StepKeepsInv(st, step);
      SuccessLost(st, step);
      if step.Write? || step.WriteOff? {
        ResolvedBy(st, step, step.k);
      }
      if ResolvesSelected(st, step) {
        var c :| st.Selected(c, step.k);
        SelectedLoses(st', steps[1..], c, step.k);
      } else if Contradicted(st, steps) {
        var q, j :| q != step.p && st.Pending(q, step.k) && 1 <= j < |steps| && Unresolves(steps[j], q, step.k);
        ContradictionLoses(st', steps[1..], q, step.k, j - 1);
      } else {
        SelectedStep(st, step);
        AgreesStep(st, steps);
        SuccessesStayFrom(st', steps[1..]);
      }
    }
  }

  /** Over any run whose clean-ups finish, resolved outcomes stay exactly when no pass resolves a row that a
      clean-up has selected and not yet written off, or that another pass has read and then writes
      unresolved. */
  lemma SuccessesStayIff(st: State, steps: seq<Step>)
    requires Inv(st) && Possible(st, steps) && CleanUpsFinish(st, steps) && NoSelectedResolved(st)
             && NoPendingResolved(st)
    ensures Keeps(Resolved, st, steps) <==> Never(ResolvesSelected, st, steps) && NeverContradicted(st, steps)
  {
    SuccessesStayFrom(st, steps);
  }

  // ── When events stay sound ─────────────────────────────────────────────────

  /** A pass writes a refusal over a row that is terminal by now. */
  predicate RefusesTerminal(st: State, step: Step) {
    step.Write? && Refuses(step.answer) && step.k < |st.events| && Terminal(st.events[step.k])
  }

  ghost predicate AlwaysSound(st: State, steps: seq<Step>)
    requires Possible(st, steps)
    decreases |steps|
  {
    AllSound(st.events) && (steps == [] || AlwaysSound(After(st, steps[0]), steps[1..]))
  }

  lemma SoundStep(st: State, step: Step)
    requires Inv(st) && Enabled(st, step) && AllSound(st.events)
    ensures AllSound(After(st, step).events) <==> !RefusesTerminal(st, step)
  {
    StepWritesOne(st, step);
    if step.Write? {
      RetryUses(st.events[step.k], st.Read(step.p, step.k), st.passes[step.p].at, step.answer);
    }
  }

  /** Over any run, every event is always resolved exactly when it is terminal, exactly when no refusal is
      written over a terminal row. */
  lemma {:induction false} AlwaysSoundIff(st: State, steps: seq<Step>)
    requires Inv(st) && Possible(st, steps) && AllSound(st.events)
    ensures AlwaysSound(st, steps) <==> Never(RefusesTerminal, st, steps)
    decreases |steps|
  {
    if steps != [] {
      StepKeepsInv(st, steps[0]);
      SoundStep(st, steps[0]);
      if !RefusesTerminal(st, steps[0]) {
        AlwaysSoundIff(After(st, steps[0]), steps[1..]);
      }
    }
  }

  // ── Processes that keep off each other's rows ──────────────────────────────

  /** Nothing pending or selected has been touched by another process. */
  ghost predicate Untouched(st: State) {
    Apart(st) && NoPendingWrittenOff(st) && NoPendingResolved(st) && NoSelectedResolved(st)
  }

  lemma UntouchedStep(st: State, step: Step)
    requires Inv(st) && Enabled(st, step) && Untouched(st)
    requires !ReadsPending(st, step) && !CleansPending(st, step) && !ResolvesSelected(st, step)
    ensures Untouched(After(st, step)) && !RefusesTerminal(st, step)
  {
    ApartStep(st, step);
    CleanStep(st, step);
    SelectedStep(st, step);
    StepReads(st, step);
    var st' := After(st, step);
    forall p, k: nat | st'.Pending(p, k) && k < |st'.events|
      ensures !Resolved(st'.events[k])
    {
      StepKeepsInv(st, step);
      assert k < |st.events|;
      ResolvedBy(st, step, k);
    }
  }

  /** Passes and clean-ups that touch no row another has in hand, finished or not, keep every terminal
      outcome, and every event resolved exactly when terminal. */
  lemma {:induction false} ApartKeepsTerminal(st: State, steps: seq<Step>)
    requires Inv(st) && Possible(st, steps) && AllSound(st.events) && Untouched(st)
    requires Never(ReadsPending, st, steps) && Never(CleansPending, st, steps) && Never(ResolvesSelected, st, steps)
    ensures Keeps(Terminal, st, steps) && AlwaysSound(st, steps)
    decreases |steps|
  {
    if steps != [] {
      var st' := After(st, steps[0]);
      StepKeepsInv(st, steps[0]);
      UntouchedStep(st, steps[0]);
      SoundStep(st, steps[0]);
      WriteOffLost(st, steps[0]);
      SuccessLost(st, steps[0]);
      BothStay(st.events, st'.events);
      ApartKeepsTerminal(st', steps[1..]);
    }
  }

  lemma BothStay(events: seq<Event>, events': seq<Event>)
    requires Stays(WrittenOff, events, events') && Stays(Resolved, events, events')
    ensures Stays(Terminal, events, events')
  {
    forall k | 0 <= k < |events| && Terminal(events[k])
      ensures Terminal(events'[k])
    {
      assert WrittenOff(events[k]) || Resolved(events[k]);
    }
  }

  // ── Two passes on one event ────────────────────────────────────────────────

  /** Both passes read the due event before either writes it. */
  function TwoPasses(now: int, first: Answer, second: Answer): seq<Step> {
    [ReadDue(1, [0], now), ReadDue(2, [0], now), Write(1, 0, first), Write(2, 0, second)]
  }

  /** Downstream is called twice and one attempt is counted, for every due event and all answers; and if the
      second is refused after the first succeeded, the event is open again and still resolved. */
  lemma OverlappingPassesLoseCount(e: Event, now: int, first: Answer, second: Answer)
    requires Sound(e) && Due(e, now)
    ensures var st, steps := State([e], map[], map[]), TwoPasses(now, first, second);
            && Possible(st, steps) && CallsFor(steps, 0) == 2
            && |Reach(st, steps).events| == 1 && Reach(st, steps).events[0].attemptCount == e.attemptCount + 1
            && (Resolves(first.status) && Refuses(second) ==>
                  Reach(st, steps).events[0].outcome == HasFailed && !Sound(Reach(st, steps).events[0]))
  {
    var steps := TwoPasses(now, first, second);
    var st0 := State([e], map[], map[]);
    var st1 := After(st0, steps[0]);
    var st2 := After(st1, steps[1]);
    var st3 := After(st2, steps[2]);
    var st4 := After(st3, steps[3]);
    assert st2.Read(1, 0) == e && st3.Read(2, 0) == e;
    RetryUses(e, e, now, first);
    RetryUses(st3.events[0], e, now, second);
    assert steps[1..][1..] == [steps[2], steps[3]] && steps[1..][1..][1..] == [steps[3]];
    assert steps[1..][1..][1..][1..] == [];
    assert Possible(st3, [steps[3]]) && Reach(st3, [steps[3]]) == st4;
    assert Possible(st2, steps[2..]) && Reach(st2, steps[2..]) == st4;
    assert Possible(st1, steps[1..]) && Reach(st1, steps[1..]) == st4;
    TwoCalls(now, first, second);
  }

  lemma TwoCalls(now: int, first: Answer, second: Answer)
    ensures CallsFor(TwoPasses(now, first, second), 0) == 2
  {
    var steps := TwoPasses(now, first, second);
    var last := [steps[3]];
    assert last[1..] == [] && CallsFor(last, 0) == 1;
    assert [steps[2], steps[3]][1..] == last && CallsFor([steps[2], steps[3]], 0) == 2;
    assert steps[1..][1..] == [steps[2], steps[3]];
  }

  // ── One process at a time ──────────────────────────────────────────────────

  function Writes(p: nat, chosen: seq<nat>, answers: seq<Answer>, n: nat): seq<Step>
    requires n <= |answers| == |chosen|
    decreases |chosen| - n
  {
    if n == |chosen| then [] else [Write(p, chosen[n], answers[n])] + Writes(p, chosen, answers, n + 1)
  }

  /** The pass after its first `n` writes. */
  function Unfinished(read: seq<Event>, chosen: seq<nat>, at: int, n: nat): Pass
    requires Selection(read, chosen) && n <= |chosen|
  {
    Pass(at, map k: nat | k in chosen[n..] :: read[k])
  }

  lemma NextWrite(read: seq<Event>, chosen: seq<nat>, at: int, n: nat)
    requires Selection(read, chosen) && n < |chosen|
    ensures var rest := Unfinished(read, chosen, at, n).rows;
            && chosen[n] in rest && rest[chosen[n]] == read[chosen[n]]
            && rest - {chosen[n]} == Unfinished(read, chosen, at, n + 1).rows
  {
    assert chosen[n..] == [chosen[n]] + chosen[n + 1..];
    assert chosen[n] !in chosen[n + 1..];
  }

  lemma WriteIs(st: State, p: nat, read: seq<Event>, chosen: seq<nat>, at: int, answers: seq<Answer>, n: nat)
    requires Selection(read, chosen) && n < |answers| == |chosen|
             && RetriedFirst(read, st.events, chosen, at, answers, n)
    requires p in st.passes && st.passes[p] == Unfinished(read, chosen, at, n)
    ensures Enabled(st, Write(p, chosen[n], answers[n]))
    ensures var st' := After(st, Write(p, chosen[n], answers[n]));
            && RetriedFirst(read, st'.events, chosen, at, answers, n + 1)
            && p in st'.passes && st'.passes[p] == Unfinished(read, chosen, at, n + 1)
  {
    NextWrite(read, chosen, at, n);
    RetriedOneMore(read, st.events, chosen, at, answers, n);
  }

  lemma {:induction false} WritesAre(st: State, p: nat, read: seq<Event>, chosen: seq<nat>, at: int,
                                     answers: seq<Answer>, n: nat)
    requires Selection(read, chosen) && n <= |answers| == |chosen|
             && RetriedFirst(read, st.events, chosen, at, answers, n)
    requires p in st.passes && st.passes[p] == Unfinished(read, chosen, at, n)
    ensures Possible(st, Writes(p, chosen, answers, n))
    ensures RetriedFirst(read, Reach(st, Writes(p, chosen, answers, n)).events, chosen, at, answers, |chosen|)
    decreases |chosen| - n
  {
    if n < |chosen| {
      WriteIs(st, p, read, chosen, at, answers, n);
      assert Writes(p, chosen, answers, n)[1..] == Writes(p, chosen, answers, n + 1);
      WritesAre(After(st, Write(p, chosen[n], answers[n])), p, read, chosen, at, answers, n + 1);
    }
  }

  /** A pass alone, reading any due events and then writing row by row, is the pass as a whole. */
  lemma PassAlone(st: State, p: nat, chosen: seq<nat>, at: int, answers: seq<Answer>)
    requires p !in st.passes && Selection(st.events, chosen) && |answers| == |chosen|
    requires forall k :: k in chosen ==>
               && st.events[k].outcome == HasFailed && st.events[k].nextRetryAt.Some?
               && st.events[k].nextRetryAt.value <= at
    ensures var steps := [ReadDue(p, chosen, at)] + Writes(p, chosen, answers, 0);
            Possible(st, steps) && Reach(st, steps).events == RetriedAll(st.events, chosen, at, answers)
  {
    var started := After(st, ReadDue(p, chosen, at));
    assert chosen[0..] == chosen;
    WritesAre(started, p, st.events, chosen, at, answers, 0);
    var steps := [ReadDue(p, chosen, at)] + Writes(p, chosen, answers, 0);
    assert steps[1..] == Writes(p, chosen, answers, 0);
    RetriedPointwise(st.events, Reach(st, steps).events, chosen, at, answers);
  }

  function WriteOffs(c: nat, chosen: seq<nat>, n: nat): seq<Step>
    requires n <= |chosen|
    decreases |chosen| - n
  {
    if n == |chosen| then [] else [WriteOff(c, chosen[n])] + WriteOffs(c, chosen, n + 1)
  }

  lemma GivenUpOneMore(read: seq<Event>, chosen: seq<nat>, n: nat, at: int)
    requires Selection(read, chosen) && n < |chosen|
    ensures var before := GivenUpAll(read, chosen[..n], at);
            before[chosen[n]] == read[chosen[n]]
            && before[chosen[n] := GivenUp(before[chosen[n]], at)] == GivenUpAll(read, chosen[..n + 1], at)
  {
    assert chosen[..n + 1] == chosen[..n] + [chosen[n]];
    assert chosen[n] !in chosen[..n];
  }

  lemma {:induction false} WriteOffsAre(st: State, c: nat, read: seq<Event>, chosen: seq<nat>, at: int, n: nat)
    requires Selection(read, chosen) && n <= |chosen| && c in st.cleanUps
    requires st.events == GivenUpAll(read, chosen[..n], at) && st.cleanUps[c] == CleanUp(at, ToSet(chosen[n..]))
    ensures Possible(st, WriteOffs(c, chosen, n))
    ensures Reach(st, WriteOffs(c, chosen, n)).events == GivenUpAll(read, chosen, at)
    decreases |chosen| - n
  {
    if n < |chosen| {
      GivenUpOneMore(read, chosen, n, at);
      assert chosen[n..] == [chosen[n]] + chosen[n + 1..];
      assert WriteOffs(c, chosen, n)[1..] == WriteOffs(c, chosen, n + 1);
      WriteOffsAre(After(st, WriteOff(c, chosen[n])), c, read, chosen, at, n + 1);
    } else {
      assert chosen[..n] == chosen;
    }
  }

  /** So is a clean-up of any stale events. */
  lemma CleanUpAlone(st: State, c: nat, chosen: seq<nat>, at: int)
    requires c !in st.cleanUps && Selection(st.events, chosen)
    requires forall k :: k in chosen ==>
               st.events[k].outcome in {Waiting, HasFailed} && st.events[k].createdAt + 86_400_000 <= at
    ensures var steps := [ReadStale(c, chosen, at)] + WriteOffs(c, chosen, 0);
            Possible(st, steps) && Reach(st, steps).events == GivenUpAll(st.events, chosen, at)
  {
    assert chosen[0..] == chosen && chosen[..0] == [];
    WriteOffsAre(After(st, ReadStale(c, chosen, at)), c, st.events, chosen, at, 0);
    assert ([ReadStale(c, chosen, at)] + WriteOffs(c, chosen, 0))[1..] == WriteOffs(c, chosen, 0);
  }
}
