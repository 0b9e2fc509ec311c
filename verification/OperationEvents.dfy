/** The retry machine for `operation_events`: an event is logged per downstream leg, failed ones are retried
    with backoff by sequential passes, and two janitors give up on the rest. Times are in milliseconds. */
module OperationEvents {
  import opened Arithmetic
  import opened Text
  import opened WriteThrough

  datatype System = Tpms | Holman | Ams | Wms | UnknownSystem

  datatype Outcome = Waiting | Succeeded | WasSkipped | HasFailed | Conflicted | Exhausted

  datatype Event = Event(
    system: System,
    outcome: Outcome,
    attemptCount: nat,
    maxRetries: nat,
    nextRetryAt: Option<int>,
    resolvedAt: Option<int>,
    createdAt: int,
    logId: Option<nat>)

  const MINUTE: int := 60 * 1000

  function OutcomeOf(status: Status): Outcome {
    match status
    case Success => Succeeded
    case Failed => HasFailed
    case Skipped => WasSkipped
    case Pending => Waiting
    case Conflict => Conflicted
  }

  predicate Resolves(status: Status) { status == Success || status == Skipped }

  /** `logOperationEvent` */
  function LoggedEvent(system: System, status: Status, logId: Option<nat>, now: int): Event {
    Event(system, OutcomeOf(status), 1, 3,
          if status == Failed then Some(now + 5 * MINUTE) else None,
          if Resolves(status) then Some(now) else None,
          now, logId)
  }

  function Backoff(attempts: nat): int {
    if 5 * MINUTE * Pow2(attempts) < 60 * MINUTE then 5 * MINUTE * Pow2(attempts) else 60 * MINUTE
  }

  predicate Due(e: Event, now: int) {
    e.outcome == HasFailed && e.nextRetryAt.Some? && e.nextRetryAt.value <= now
  }

  /** What the downstream leg answered and the clock when its update was written. */
  datatype Answer = Answer(status: Status, clock: int)

  /** Whether the pass calls downstream for the event it read. */
  predicate Calls(read: Event) { read.attemptCount < read.maxRetries && read.system != UnknownSystem }

  /** The update a pass applies to the row, computed from the event it read when the pass began. */
  function RetryUpdate(row: Event, read: Event, now: int, answer: Answer): Event {
    if read.attemptCount >= read.maxRetries then row.(outcome := Exhausted, nextRetryAt := None)
    else if read.system == UnknownSystem then row
    else
      var attempts := read.attemptCount + 1;
      if answer.status == Success || answer.status == Pending || answer.status == Skipped then
        row.(outcome := OutcomeOf(answer.status), attemptCount := attempts, nextRetryAt := None,
             resolvedAt := if Resolves(answer.status) then Some(now) else None)
      else
        row.(outcome := HasFailed, attemptCount := attempts,
             nextRetryAt := if attempts >= read.maxRetries then None else Some(answer.clock + Backoff(attempts)))
  }

  predicate Terminal(e: Event) { e.outcome == Succeeded || e.outcome == WasSkipped || e.outcome == Exhausted }

  /** A pending retry always has an attempt left. */
  predicate Bounded(e: Event) {
    && e.system != UnknownSystem && 1 <= e.attemptCount <= e.maxRetries
    && (e.nextRetryAt.Some? ==> e.outcome == HasFailed && e.attemptCount < e.maxRetries)
  }

  /** Besides, an event is resolved exactly when it is terminal. */
  predicate Sound(e: Event) { Bounded(e) && (e.resolvedAt.Some? <==> Terminal(e)) }

  predicate Open(e: Event) { e.outcome == Waiting || e.outcome == HasFailed }

  predicate Stale(e: Event, now: int) { Open(e) && e.createdAt <= now - 24 * 60 * MINUTE }

  predicate ParentTerminal(e: Event, terminal: set<nat>) { Open(e) && e.logId.Some? && e.logId.value in terminal }

  /** What both janitors write. */
  function GivenUp(e: Event, now: int): Event {
    e.(outcome := Exhausted, nextRetryAt := None, resolvedAt := Some(now))
  }

  // ── Passes over the table ──────────────────────────────────────────────────

  /** The rows a pass selected: their positions, each once. */
  predicate Selection(events: seq<Event>, chosen: seq<nat>) {
    && (forall i :: 0 <= i < |chosen| ==> chosen[i] < |events|)
    && forall i, j :: 0 <= i < j < |chosen| ==> chosen[i] != chosen[j]
  }

  function RetriedAll(events: seq<Event>, chosen: seq<nat>, now: int, answers: seq<Answer>): (r: seq<Event>)
    requires Selection(events, chosen) && |answers| == |chosen|
    ensures |r| == |events|
  {
    seq(|events|, k requires 0 <= k < |events| =>
      if k in chosen then RetryUpdate(events[k], events[k], now, AnswerFor(chosen, answers, k)) else events[k])
  }

  function AnswerFor(chosen: seq<nat>, answers: seq<Answer>, k: nat): Answer
    requires |answers| == |chosen| && k in chosen
  {
    if chosen[0] == k then answers[0] else AnswerFor(chosen[1..], answers[1..], k)
  }

  lemma {:induction false} AnswerAt(chosen: seq<nat>, answers: seq<Answer>, i: nat)
    requires |answers| == |chosen| && i < |chosen| && forall a, b :: 0 <= a < b < |chosen| ==> chosen[a] != chosen[b]
    ensures AnswerFor(chosen, answers, chosen[i]) == answers[i]
  {
    if i > 0 {
      AnswerAt(chosen[1..], answers[1..], i - 1);
    }
  }

  /** How many of a pass's first `n` events have an attempt left, and of these, of a known system, how many get
      an answer that is not a refusal and how many one that is. */
  function Counters(events: seq<Event>, chosen: seq<nat>, answers: seq<Answer>, n: nat): (nat, nat, nat)
    requires n <= |answers| == |chosen| && forall i :: 0 <= i < |chosen| ==> chosen[i] < |events|
  {
    if n == 0 then (0, 0, 0)
    else
      var (retried, succeeded, failed) := Counters(events, chosen, answers, n - 1);
      var e, refused := events[chosen[n - 1]], answers[n - 1].status in {Failed, Conflict};
      if e.attemptCount >= e.maxRetries then (retried, succeeded, failed)
      else if e.system == UnknownSystem then (retried + 1, succeeded, failed)
      else if refused then (retried + 1, succeeded, failed + 1) else (retried + 1, succeeded + 1, failed)
  }

  /** If every event can be called, as every due one can, the counters account for all. */
  lemma {:induction false} CountersAccount(events: seq<Event>, chosen: seq<nat>, answers: seq<Answer>, n: nat)
    requires n <= |answers| == |chosen| && forall i :: 0 <= i < |chosen| ==> chosen[i] < |events|
    ensures var (retried, succeeded, failed) := Counters(events, chosen, answers, n);
            && succeeded + failed <= retried <= n
            && ((forall i :: 0 <= i < n ==> Calls(events[chosen[i]])) ==> succeeded + failed == retried == n)
  {
    if n > 0 {
      CountersAccount(events, chosen, answers, n - 1);
    }
  }

  function GivenUpAll(events: seq<Event>, chosen: seq<nat>, now: int): (r: seq<Event>)
    ensures |r| == |events|
  {
    seq(|events|, k requires 0 <= k < |events| => if k in chosen then GivenUp(events[k], now) else events[k])
  }

  /** The state after the first `n` rows of a pass over `read`. */
  ghost predicate RetriedFirst(read: seq<Event>, events: seq<Event>, chosen: seq<nat>, now: int, answers: seq<Answer>,
                               n: nat)
    requires Selection(read, chosen) && n <= |answers| == |chosen|
  {
    && |events| == |read|
    && (forall j :: 0 <= j < |chosen| ==>
          events[chosen[j]] == if j < n then RetryUpdate(read[chosen[j]], read[chosen[j]], now, answers[j])
            else read[chosen[j]])
    && forall k :: 0 <= k < |read| && k !in chosen ==> events[k] == read[k]
  }

  lemma RetriedOneMore(read: seq<Event>, events: seq<Event>, chosen: seq<nat>, now: int, answers: seq<Answer>, n: nat)
    requires Selection(read, chosen) && n < |answers| == |chosen| && RetriedFirst(read, events, chosen, now, answers, n)
    ensures var row := RetryUpdate(events[chosen[n]], read[chosen[n]], now, answers[n]);
            RetriedFirst(read, events[chosen[n] := row], chosen, now, answers, n + 1)
  {
  }

  lemma RetriedPointwise(read: seq<Event>, events: seq<Event>, chosen: seq<nat>, now: int, answers: seq<Answer>)
    requires Selection(read, chosen) && |answers| == |chosen|
             && RetriedFirst(read, events, chosen, now, answers, |chosen|)
    ensures events == RetriedAll(read, chosen, now, answers)
  {
    forall k | 0 <= k < |read|
      ensures events[k] == RetriedAll(read, chosen, now, answers)[k]
    {
      if k in chosen {
        var i :| 0 <= i < |chosen| && chosen[i] == k;
        AnswerAt(chosen, answers, i);
      }
    }
  }

  class EventTable {
    var events: seq<Event>

    constructor ()
      ensures events == []
    {
      events := [];
    }

    /** The new event is sound, has one of its three attempts behind it, is resolved now if it succeeded or was
        skipped, and is due in five minutes exactly if it failed. */
    method LogOperationEvent(system: System, status: Status, logId: Option<nat>, now: int)
      requires system != UnknownSystem
      modifies this
      ensures |events| == |old(events)| + 1 && events[..|old(events)|] == old(events)
      ensures var e := events[|old(events)|];
              && Sound(e) && e.system == system && e.logId == logId && e.createdAt == now
              && e.attemptCount == 1 && e.maxRetries == 3
              && e.resolvedAt == (if status in {Success, Skipped} then Some(now) else None)
              && (e.outcome == Succeeded <==> status == Success) && (e.outcome == WasSkipped <==> status == Skipped)
              && (e.outcome == Waiting <==> status == Pending) && (e.outcome == Conflicted <==> status == Conflict)
              && forall t :: Due(e, t) <==> status == Failed && t >= now + 300_000
    {
      events := events + [LoggedEvent(system, status, logId, now)];
    }

    /** The loop body: the event as the pass read it, the row as it is now. */
    method RetryOne(id: nat, read: Event, now: int, answer: Answer) returns (called: bool, accepted: bool)
      requires id < |events|
      modifies this
      ensures events == old(events)[id := RetryUpdate(old(events)[id], read, now, answer)]
      ensures called == (read.attemptCount < read.maxRetries)
      ensures accepted <==> called && read.system != UnknownSystem && answer.status in {Success, Pending, Skipped}
    {
      called, accepted := read.attemptCount < read.maxRetries, false;
      if !called {
        events := events[id := events[id].(outcome := Exhausted, nextRetryAt := None)];
      } else if read.system != UnknownSystem {
        accepted := answer.status == Success || answer.status == Pending || answer.status == Skipped;
        events := events[id := RetryUpdate(events[id], read, now, answer)];
      }
    }

    /** One sequential pass over up to twenty due events. */
    method RetryFailed(chosen: seq<nat>, now: int, answers: seq<Answer>)
      returns (retried: nat, succeeded: nat, failed: nat)
      requires Selection(events, chosen) && |answers| == |chosen| && |chosen| <= 20
      requires forall i :: 0 <= i < |chosen| ==> Due(events[chosen[i]], now)
      modifies this
      ensures events == RetriedAll(old(events), chosen, now, answers)
      ensures (retried, succeeded, failed) == Counters(old(events), chosen, answers, |chosen|)
      ensures succeeded + failed <= retried <= |chosen|
      ensures (forall i :: 0 <= i < |chosen| ==> Calls(old(events)[chosen[i]])) ==>
              succeeded + failed == retried == |chosen|
    {
      retried, succeeded, failed := 0, 0, 0;
      var read := events;
      for i := 0 to |chosen|
        invariant RetriedFirst(read, events, chosen, now, answers, i)
        invariant (retried, succeeded, failed) == Counters(read, chosen, answers, i)
      {
        RetriedOneMore(read, events, chosen, now, answers, i);
        var called, accepted := RetryOne(chosen[i], read[chosen[i]], now, answers[i]);
        retried := retried + if called then 1 else 0;
        succeeded := succeeded + if accepted then 1 else 0;
        failed := failed + if Calls(read[chosen[i]]) && !accepted then 1 else 0;
      }
      RetriedPointwise(read, events, chosen, now, answers);
      CountersAccount(read, chosen, answers, |chosen|);
    }

    /** `resolveStaleOperationEvents` and `autoResolveTerminalOpEvents` after their selects. */
    method GiveUp(chosen: seq<nat>, now: int) returns (resolved: nat)
      requires Selection(events, chosen) && |chosen| <= 200
      modifies this
      ensures events == GivenUpAll(old(events), chosen, now) && resolved == |chosen|
      ensures forall k :: 0 <= k < |events| ==>
                if k in chosen then
                  && events[k].outcome == Exhausted && events[k].resolvedAt == Some(now)
                  && forall t :: !Due(events[k].(outcome := HasFailed), t)
                else events[k] == old(events)[k]
    {
      var read := events;
      for i := 0 to |chosen|
        invariant |events| == |read|
        invariant forall k :: 0 <= k < |read| ==>
                  events[k] == if k in chosen[..i] then GivenUp(read[k], now) else read[k]
      {
        assert chosen[i] !in chosen[..i];
        events := events[chosen[i] := GivenUp(events[chosen[i]], now)];
      }
      assert chosen[..|chosen|] == chosen;
      resolved := |chosen|;
    }
  }

  // ── Backoff ────────────────────────────────────────────────────────────────

  /** Later attempts wait at least as long, never more than an hour. */
  lemma BackoffGrows(m: nat, n: nat)
    requires m <= n
    ensures 5 * MINUTE <= Backoff(m) <= Backoff(n) <= 60 * MINUTE
  {
    Pow2Grows(m, n);
  }

  // ── What a retry leaves ────────────────────────────────────────────────────

  /** When a due event is retried the answer decides what becomes of it. A refused one is due again, if it has
      attempts left, from the moment of its update plus five minutes times two to the attempts made, but an
      hour at most; otherwise never. Any other answer ends it: success, skipped and pending are told apart, and
      the first two resolve it as of the start of the pass. */
  lemma RetryReschedules(row: Event, read: Event, now: int, answer: Answer)
    requires Bounded(row) && Bounded(read) && Due(read, now)
    ensures var e, attempts := RetryUpdate(row, read, now, answer), read.attemptCount + 1;
            && e.attemptCount == attempts
            && match answer.status
               case Success => e.outcome == Succeeded && e.resolvedAt == Some(now) && forall t :: !Due(e, t)
               case Skipped => e.outcome == WasSkipped && e.resolvedAt == Some(now) && forall t :: !Due(e, t)
               case Pending => e.outcome == Waiting && e.resolvedAt == None && forall t :: !Due(e, t)
               case _ =>
                 && e.outcome == HasFailed && e.resolvedAt == row.resolvedAt
                 && forall t :: Due(e, t) <==>
                      && attempts < read.maxRetries
                      && (t >= answer.clock + 300_000 * Pow2(attempts) || t >= answer.clock + 3_600_000)
  {
  }

  /** An event that came due with no attempt left, which none logged here does, would be written off without a
      call and without being resolved. */
  lemma NoAttemptsLeft(row: Event, read: Event, now: int, answer: Answer)
    requires read.attemptCount >= read.maxRetries
    ensures var e := RetryUpdate(row, read, now, answer);
            && !Calls(read) && e.attemptCount == row.attemptCount && e.outcome == Exhausted && e.nextRetryAt == None
            && (Sound(e) ==> row.resolvedAt.Some?)
  {
  }

  /** The event after a series of retries, each with the start of its pass. */
  function Retried(e: Event, retries: seq<(int, Answer)>): Event {
    if retries == [] then e
    else
      var before, last := Retried(e, retries[..|retries| - 1]), retries[|retries| - 1];
      RetryUpdate(before, before, last.0, last.1)
  }

  /** A failed event that keeps being refused is retried until its attempts are used up: not once more, since
      it is never due again then, and not once less, since until then it is. */
  lemma {:induction false} RefusedUntilUsedUp(e: Event, retries: seq<(int, Answer)>)
    requires Bounded(e) && e.nextRetryAt.Some?
    requires forall i :: 0 <= i < |retries| ==> Due(Retried(e, retries[..i]), retries[i].0)
    requires forall i :: 0 <= i < |retries| ==> retries[i].1.status in {Failed, Conflict}
    ensures var last := Retried(e, retries);
            && Bounded(last) && last.maxRetries == e.maxRetries && last.outcome == HasFailed
            && last.attemptCount == e.attemptCount + |retries| <= e.maxRetries
            && (last.nextRetryAt.Some? <==> e.attemptCount + |retries| < e.maxRetries)
            && ((exists t :: Due(last, t)) <==> e.attemptCount + |retries| < e.maxRetries)
  {
    if retries != [] {
      var n := |retries| - 1;
      forall i | 0 <= i < n
        ensures Due(Retried(e, retries[..n][..i]), retries[..n][i].0)
      {
        assert retries[..n][..i] == retries[..i];
      }
      RefusedUntilUsedUp(e, retries[..n]);
      var before := Retried(e, retries[..n]);
      assert Due(before, retries[n].0);
      RetryReschedules(before, before, retries[n].0, retries[n].1);
    }
    var last := Retried(e, retries);
    if last.nextRetryAt.Some? {
      assert Due(last, last.nextRetryAt.value);
    }
  }
}
