/** The re-verification sweep of `server/ams-mismatch-reverify.ts`: a few workers share a queue of flagged
    trucks, ask live AMS about each, and swap the cached technician only if it is still the listed one,
    while other writers change the same cache. */
module AmsReverify {
  import opened Text

  /** A flagged truck with the technician the mismatch list showed for it. */
  datatype Target = Target(vin: string, truckNumber: string, listed: string) {
    function Key(): string { Trim(vin) }

    function Cached(): Option<string> { NormTech(listed) }
  }

  function NormTech(s: string): Option<string> {
    if Trim(s) == "" then None else Some(Trim(s))
  }

  function Canonical(s: string): string { Upper(StripZeros(Trim(s))) }

  /** The candidates a sweep looks at: a VIN and a real technician. */
  predicate Eligible(t: Target) {
    Trim(t.vin) != "" && t.Cached().Some? && Upper(Trim(t.listed)) != "UNKNOWN"
  }

  function TargetsOf(candidates: seq<Target>): seq<Target> {
    if candidates == [] then []
    else
      var last := candidates[|candidates| - 1];
      TargetsOf(candidates[..|candidates| - 1]) + if Eligible(last) then [last] else []
  }

  /** A sweep's targets are exactly the candidates with a VIN and a technician other than "unknown". */
  lemma {:induction false} TargetsAre(candidates: seq<Target>, t: Target)
    ensures t in TargetsOf(candidates) <==>
              && t in candidates && Trim(t.vin) != "" && Trim(t.listed) != ""
              && Upper(Trim(t.listed)) != "UNKNOWN"
  {
    if candidates != [] {
      var n := |candidates| - 1;
      TargetsAre(candidates[..n], t);
      assert candidates == candidates[..n] + [candidates[n]];
    }
  }

  datatype Action = Refreshed | WouldRefresh | Unchanged | Fenced | Errored | CasLost

  datatype Summary = Summary(checked: nat, refreshed: nat, wouldRefresh: nat, same: nat, fenced: nat, errors: nat)

  /** Where a worker stands with the target it took, by the target's position in the list. A worker whose
      UPDATE throws is `Crashed`: it ends there, with its target counted but not reported. */
  datatype Phase =
    | Idle
    | Asking(i: nat)
    | Swapping(i: nat, live: Option<string>)
    | Reporting(i: nat, won: bool)
    | Crashed(i: nat)
    | Finished

  /** `next` is how many targets have left the queue; `details` lists target and action in report order. */
  datatype State = State(
    targets: seq<Target>,
    fences: set<string>,
    apply: bool,
    next: nat,
    workers: seq<Phase>,
    cache: map<string, Option<string>>,
    summary: Summary,
    details: seq<(nat, Action)>)
  {
    predicate FencedOff(i: nat) {
      i < |targets| && Canonical(targets[i].truckNumber) in fences
    }

    predicate Holds(w: nat, i: nat) {
      w < |workers| && Busy(workers[w]) && workers[w].i == i
    }

    predicate Reported(i: nat) { exists d :: d in details && d.0 == i }
  }

  /** The worker has a target in hand. */
  predicate Busy(p: Phase) { p.Asking? || p.Swapping? || p.Reporting? || p.Crashed? }

  datatype Answer = Failure | Live(tech: string)

  datatype Step =
    | Take(w: nat)
    | Hear(w: nat, answer: Answer)
    | Swap(w: nat)
    | Throw(w: nat)
    | Report(w: nat)
    | Outside(vin: string, value: Option<string>)

  predicate Enabled(st: State, step: Step) {
    match step
    case Take(w) => w < |st.workers| && st.workers[w].Idle?
    case Hear(w, _) => w < |st.workers| && st.workers[w].Asking? && st.workers[w].i < |st.targets|
    case Swap(w) => w < |st.workers| && st.workers[w].Swapping? && st.workers[w].i < |st.targets|
    case Throw(w) => w < |st.workers| && st.workers[w].Swapping?
    case Report(w) => w < |st.workers| && st.workers[w].Reporting?
    case Outside(_, _) => true
  }

  function Counted(s: Summary, a: Action): Summary {
    match a
    case Refreshed => s.(refreshed := s.refreshed + 1)
    case WouldRefresh => s.(wouldRefresh := s.wouldRefresh + 1)
    case Unchanged => s.(same := s.same + 1)
    case Fenced => s.(fenced := s.fenced + 1)
    case Errored => s.(errors := s.errors + 1)
    case CasLost => s
  }

  /** The worker is done with target `i`. */
  function Closed(st: State, w: nat, i: nat, a: Action): State
    requires w < |st.workers|
  {
    st.(workers := st.workers[w := Idle], summary := Counted(st.summary, a), details := st.details + [(i, a)])
  }

  /** The row still carries the listed technician. */
  predicate StillListed(cache: map<string, Option<string>>, t: Target) {
    t.Key() in cache && cache[t.Key()] == Some(t.listed)
  }

  /** What hearing the live answer decides at once; None sends the worker on to swap. */
  function Verdict(st: State, i: nat, answer: Answer): Option<Action>
    requires i < |st.targets|
  {
    if answer.Failure? then Some(Errored)
    else if NormTech(answer.tech) == st.targets[i].Cached() then Some(Unchanged)
    else if !st.apply then Some(WouldRefresh)
    else None
  }

  function After(st: State, step: Step): State
    requires Enabled(st, step)
  {
    match step
    case Take(w) =>
      if st.next >= |st.targets| then st.(workers := st.workers[w := Finished])
      else
        var taken := st.(next := st.next + 1, summary := st.summary.(checked := st.summary.checked + 1));
        if st.FencedOff(st.next) then Closed(taken, w, st.next, Fenced)
        else taken.(workers := st.workers[w := Asking(st.next)])
    case Hear(w, answer) =>
      var i := st.workers[w].i;
      var verdict := Verdict(st, i, answer);
      if verdict.Some? then Closed(st, w, i, verdict.value)
      else st.(workers := st.workers[w := Swapping(i, NormTech(answer.tech))])
    case Swap(w) =>
      var Swapping(i, live) := st.workers[w];
      var won := StillListed(st.cache, st.targets[i]);
      st.(cache := if won then st.cache[st.targets[i].Key() := live] else st.cache,
          workers := st.workers[w := Reporting(i, won)])
    case Throw(w) => st.(workers := st.workers[w := Crashed(st.workers[w].i)])
    case Report(w) => Closed(st, w, st.workers[w].i, if st.workers[w].won then Refreshed else CasLost)
    case Outside(vin, value) => st.(cache := st.cache[vin := value])
  }

  // ── What every step keeps ──────────────────────────────────────────────────

  function Count(details: seq<(nat, Action)>, a: Action): nat {
    if details == [] then 0
    else Count(details[..|details| - 1], a) + if details[|details| - 1].1 == a then 1 else 0
  }

  function BusyCount(workers: seq<Phase>): nat {
    if workers == [] then 0
    else BusyCount(workers[..|workers| - 1]) + if Busy(workers[|workers| - 1]) then 1 else 0
  }

  ghost predicate Agree(s: Summary, details: seq<(nat, Action)>) {
    && s.refreshed == Count(details, Refreshed) && s.wouldRefresh == Count(details, WouldRefresh)
    && s.same == Count(details, Unchanged) && s.fenced == Count(details, Fenced) && s.errors == Count(details, Errored)
  }

  /** The counters agree with the details, and every target taken is in hand or in the details. */
  ghost predicate Tallied(st: State) {
    && Agree(st.summary, st.details)
    && st.summary.checked == st.next == |st.details| + BusyCount(st.workers) <= |st.targets|
  }

  /** Nobody works on a target that was reported, that another worker holds, or that is fenced off. */
  ghost predicate Separate(st: State) {
    && (forall w: nat, i: nat :: st.Holds(w, i) ==> i < st.next && !st.FencedOff(i))
    && (forall w: nat, i: nat :: st.Holds(w, i) ==> forall d :: d in st.details ==> d.0 != i)
    && (forall v: nat, w: nat, i: nat :: st.Holds(v, i) && st.Holds(w, i) ==> v == w)
    && (forall d :: d in st.details ==> d.0 < st.next)
    && (forall j, k :: 0 <= j < k < |st.details| ==> st.details[j].0 != st.details[k].0)
    && (forall w: nat :: w < |st.workers| && (st.workers[w].Swapping? || st.workers[w].Reporting?) ==> st.apply)
    && (forall w: nat :: w < |st.workers| && st.workers[w].Finished? ==> st.next >= |st.targets|)
  }

  ghost predicate Init(st: State, workers: nat) {
    && st.next == 0 && st.details == [] && st.summary == Summary(0, 0, 0, 0, 0, 0)
    && (exists candidates :: st.targets == TargetsOf(candidates))
    && |st.workers| == workers && forall w :: 0 <= w < workers ==> st.workers[w] == Idle
  }

  lemma {:induction false} BusyAfter(workers: seq<Phase>, w: nat, p: Phase)
    requires w < |workers|
    ensures BusyCount(workers[w := p]) + (if Busy(workers[w]) then 1 else 0)
            == BusyCount(workers) + if Busy(p) then 1 else 0
  {
    var n := |workers| - 1;
    if w < n {
      assert workers[w := p][..n] == workers[..n][w := p];
      BusyAfter(workers[..n], w, p);
    } else {
      assert workers[w := p][..n] == workers[..n];
    }
  }

  lemma CountedAgrees(s: Summary, details: seq<(nat, Action)>, i: nat, a: Action)
    requires Agree(s, details)
    ensures Agree(Counted(s, a), details + [(i, a)]) && Counted(s, a).checked == s.checked
  {
    assert (details + [(i, a)])[..|details|] == details;
  }

  lemma ClosingTallies(st: State, w: nat, i: nat, a: Action)
    requires Tallied(st) && st.Holds(w, i)
    ensures Tallied(Closed(st, w, i, a))
  {
    BusyAfter(st.workers, w, Idle);
    CountedAgrees(st.summary, st.details, i, a);
  }

  lemma ClosingSeparates(st: State, w: nat, i: nat, a: Action)
    requires Separate(st) && st.Holds(w, i)
    ensures Separate(Closed(st, w, i, a))
  {
    var st' := Closed(st, w, i, a);
    assert forall v: nat, j: nat :: st'.Holds(v, j) <==> st.Holds(v, j) && v != w;
    assert forall d :: d in st'.details <==> d in st.details || d == (i, a);
  }

  lemma TakingTallies(st: State, w: nat)
    requires Tallied(st) && Enabled(st, Take(w))
    ensures Tallied(After(st, Take(w)))
  {
    var i := st.next;
    BusyAfter(st.workers, w, Finished);
    BusyAfter(st.workers, w, Idle);
    BusyAfter(st.workers, w, Asking(i));
    CountedAgrees(st.summary.(checked := st.summary.checked + 1), st.details, i, Fenced);
  }

  lemma TakingSeparates(st: State, w: nat)
    requires Separate(st) && Enabled(st, Take(w))
    ensures Separate(After(st, Take(w)))
  {
    var st' := After(st, Take(w));
    if st.next < |st.targets| && !st.FencedOff(st.next) {
      assert forall v: nat, j: nat :: st'.Holds(v, j) <==> st.Holds(v, j) || (v == w && j == st.next);
    } else {
      assert forall v: nat, j: nat :: st'.Holds(v, j) <==> st.Holds(v, j);
      assert forall d :: d in st'.details ==> d in st.details || d == (st.next, Fenced);
    }
  }

  /** A worker moving on with the target it holds, whatever the cache becomes. */
  lemma HoldingOn(st: State, w: nat, p: Phase, cache: map<string, Option<string>>)
    requires Inv(st) && w < |st.workers| && Busy(st.workers[w]) && Busy(p) && p.i == st.workers[w].i
    requires p.Swapping? || p.Reporting? ==> st.apply
    ensures Inv(st.(workers := st.workers[w := p], cache := cache))
  {
    var st' := st.(workers := st.workers[w := p], cache := cache);
    BusyAfter(st.workers, w, p);
    assert forall v: nat, j: nat :: st'.Holds(v, j) <==> st.Holds(v, j);
  }

  ghost predicate Inv(st: State) { Tallied(st) && Separate(st) }

  lemma CacheIsFree(st: State, cache: map<string, Option<string>>)
    requires Inv(st)
    ensures Inv(st.(cache := cache))
  {
    assert forall v: nat, j: nat :: st.(cache := cache).Holds(v, j) <==> st.Holds(v, j);
  }

  lemma ClosingKeepsInv(st: State, w: nat, i: nat, a: Action)
    requires Inv(st) && st.Holds(w, i)
    ensures Inv(Closed(st, w, i, a))
  {
    ClosingTallies(st, w, i, a);
    ClosingSeparates(st, w, i, a);
  }

  lemma StepKeepsInv(st: State, step: Step)
    requires Inv(st) && Enabled(st, step)
    ensures Inv(After(st, step))
  {
    match step
    case Take(w) =>
      TakingTallies(st, w);
      TakingSeparates(st, w);
    case Hear(w, answer) =>
      var i := st.workers[w].i;
      var verdict := Verdict(st, i, answer);
      if verdict.Some? {
        ClosingKeepsInv(st, w, i, verdict.value);
      } else {
        HoldingOn(st, w, Swapping(i, NormTech(answer.tech)), st.cache);
      }
    case Swap(w) =>
      HoldingOn(st, w, After(st, step).workers[w], After(st, step).cache);
    case Throw(w) =>
      HoldingOn(st, w, Crashed(st.workers[w].i), st.cache);
    case Report(w) =>
      ClosingKeepsInv(st, w, st.workers[w].i, if st.workers[w].won then Refreshed else CasLost);
    case Outside(vin, value) =>
      CacheIsFree(st, st.cache[vin := value]);
  }

  /** The sweep changes the cache in one way only: on the row of an unfenced target, in apply mode, and only
      while the row still shows the technician that was listed. */
  lemma OnlyListedValuesReplaced(st: State, step: Step)
    requires Inv(st) && Enabled(st, step) && !step.Outside? && After(st, step).cache != st.cache
    ensures step.Swap? && st.apply
    ensures var t := st.targets[st.workers[step.w].i];
            && Canonical(t.truckNumber) !in st.fences && StillListed(st.cache, t)
            && After(st, step).cache == st.cache[t.Key() := st.workers[step.w].live]
  {
    assert st.Holds(step.w, st.workers[step.w].i);
  }

  // ── Every interleaving ─────────────────────────────────────────────────────

  ghost predicate Possible(st: State, steps: seq<Step>)
    decreases |steps|
  {
    steps == [] || (Enabled(st, steps[0]) && Possible(After(st, steps[0]), steps[1..]))
  }

  ghost function Reach(st: State, steps: seq<Step>): State
    requires Possible(st, steps)
    decreases |steps|
  {
    if steps == [] then st else Reach(After(st, steps[0]), steps[1..])
  }

  lemma StepKeepsSetup(st: State, step: Step)
    requires Enabled(st, step)
    ensures var st' := After(st, step);
            st'.targets == st.targets && |st'.workers| == |st.workers| && st'.apply == st.apply
              && st'.fences == st.fences
  {
  }

  lemma {:induction false} RunKeepsInv(st: State, steps: seq<Step>)
    requires Inv(st) && Possible(st, steps)
    ensures Inv(Reach(st, steps))
    ensures Reach(st, steps).targets == st.targets && |Reach(st, steps).workers| == |st.workers|
    decreases |steps|
  {
    if steps != [] {
      StepKeepsInv(st, steps[0]);
      StepKeepsSetup(st, steps[0]);
      RunKeepsInv(After(st, steps[0]), steps[1..]);
    }
  }

  lemma {:induction false} IdleMeansNotBusy(workers: seq<Phase>)
    requires forall w :: 0 <= w < |workers| ==> !Busy(workers[w])
    ensures BusyCount(workers) == 0
  {
    if workers != [] {
      IdleMeansNotBusy(workers[..|workers| - 1]);
    }
  }

  /** The six actions classify the details. */
  lemma {:induction false} CountsPartition(details: seq<(nat, Action)>)
    ensures Count(details, Refreshed) + Count(details, WouldRefresh) + Count(details, Unchanged)
            + Count(details, Fenced)
            + Count(details, Errored) + Count(details, CasLost) == |details|
  {
    if details != [] {
      CountsPartition(details[..|details| - 1]);
    }
  }

  function Below(n: nat): set<nat> { if n == 0 then {} else Below(n - 1) + {n - 1} }

  lemma {:induction false} BelowCount(n: nat)
    ensures |Below(n)| == n && forall i: nat :: i in Below(n) <==> i < n
  {
    if n > 0 {
      BelowCount(n - 1);
    }
  }

  lemma {:induction false} DistinctCount(details: seq<(nat, Action)>)
    requires forall j, k :: 0 <= j < k < |details| ==> details[j].0 != details[k].0
    ensures |set d | d in details :: d.0| == |details|
  {
    if details != [] {
      var n := |details| - 1;
      DistinctCount(details[..n]);
      assert details == details[..n] + [details[n]];
      assert (set d | d in details :: d.0) == (set d | d in details[..n] :: d.0) + {details[n].0};
    }
  }

  lemma SubsetOfSameSize(a: set<nat>, b: set<nat>)
    requires a <= b && |a| == |b|
    ensures a == b
  {
    assert b == a + (b - a);
  }

  function HeldIn(workers: seq<Phase>): set<nat> {
    if workers == [] then {}
    else HeldIn(workers[..|workers| - 1]) + if Busy(workers[|workers| - 1]) then {workers[|workers| - 1].i} else {}
  }

  lemma {:induction false} HeldMeans(workers: seq<Phase>, i: nat)
    ensures i in HeldIn(workers) <==> exists w :: 0 <= w < |workers| && Busy(workers[w]) && workers[w].i == i
  {
    if workers != [] {
      var n := |workers| - 1;
      HeldMeans(workers[..n], i);
      assert forall w :: 0 <= w < n ==> workers[..n][w] == workers[w];
    }
  }

  predicate HandsApart(workers: seq<Phase>) {
    forall v, w :: 0 <= v < w < |workers| && Busy(workers[v]) && Busy(workers[w]) ==> workers[v].i != workers[w].i
  }

  lemma {:induction false} HeldCount(workers: seq<Phase>)
    requires HandsApart(workers)
    ensures |HeldIn(workers)| == BusyCount(workers)
  {
    if workers != [] {
      var n := |workers| - 1;
      HeldCount(workers[..n]);
      if Busy(workers[n]) {
        HeldMeans(workers[..n], workers[n].i);
        assert workers[n].i !in HeldIn(workers[..n]);
      }
    }
  }

  lemma HeldIsHolds(st: State, i: nat)
    ensures i in HeldIn(st.workers) <==> exists w: nat :: st.Holds(w, i)
  {
    HeldMeans(st.workers, i);
    if w :| 0 <= w < |st.workers| && Busy(st.workers[w]) && st.workers[w].i == i {
      assert st.Holds(w, i);
    }
  }

  lemma HandsAreApart(st: State)
    requires Inv(st)
    ensures HandsApart(st.workers)
  {
    assert forall w: nat :: w < |st.workers| && Busy(st.workers[w]) ==> st.Holds(w, st.workers[w].i);
  }

  /** Two disjoint sets of numbers below `n`, with `n` members together, are all of them. */
  lemma TogetherAll(a: set<nat>, b: set<nat>, n: nat, i: nat)
    requires a !! b && |a| + |b| == n && i < n && forall j :: j in a + b ==> j < n
    ensures i in a <==> i !in b
  {
    BelowCount(n);
    assert a + b <= Below(n) && |a + b| == |a| + |b|;
    SubsetOfSameSize(a + b, Below(n));
    assert i in a + b;
  }

  /** If as many targets were taken as there are, each is reported or in some worker's hands, and not both. */
  lemma AllCovered(st: State, i: nat)
    requires Inv(st) && st.next == |st.targets| && i < |st.targets|
    ensures st.Reported(i) <==> !exists w: nat :: st.Holds(w, i)
  {
    var reported, held := set d | d in st.details :: d.0, HeldIn(st.workers);
    DistinctCount(st.details);
    HandsAreApart(st);
    HeldCount(st.workers);
    forall j | j in held
      ensures j < |st.targets| && j !in reported
    {
      HeldIsHolds(st, j);
    }
    TogetherAll(reported, held, |st.targets|, i);
    HeldIsHolds(st, i);
    assert st.Reported(i) <==> i in reported;
  }

  /** When every worker has ended, one of them naturally, in whatever order their steps and the outside
      writers' fell: each target was taken exactly once, and is either reported, once, or was in the hands
      of a worker that crashed. The counters account for all of them. */
  lemma SweepAccountsForAll(st: State, workers: nat, steps: seq<Step>, last: nat)
    requires Init(st, workers) && Possible(st, steps)
    requires forall w :: 0 <= w < |Reach(st, steps).workers| ==>
               Reach(st, steps).workers[w].Finished? || Reach(st, steps).workers[w].Crashed?
    requires last < |Reach(st, steps).workers| && Reach(st, steps).workers[last].Finished?
    ensures var end := Reach(st, steps);
            var crashed := BusyCount(end.workers);
            && end.summary.checked == |end.details| + crashed == |st.targets|
            && (forall j, k :: 0 <= j < k < |end.details| ==> end.details[j].0 != end.details[k].0)
            && (forall i: nat :: i < |st.targets| ==> (end.Reported(i) <==> !exists w: nat :: end.Holds(w, i)))
            && end.summary.checked == end.summary.refreshed + end.summary.wouldRefresh + end.summary.same
                                      + end.summary.fenced + end.summary.errors + Count(end.details, CasLost) + crashed
  {
    IdleMeansNotBusy(st.workers);
    RunKeepsInv(st, steps);
    var end := Reach(st, steps);
    CountsPartition(end.details);
    forall i: nat | i < |st.targets|
      ensures end.Reported(i) <==> !exists w: nat :: end.Holds(w, i)
    {
      AllCovered(end, i);
    }
  }

  /** If no worker crashed, every target is reported, exactly once, and checked is the sum of the six
      actions. */
  lemma SweepReportsAll(st: State, workers: nat, steps: seq<Step>)
    requires Init(st, workers) && workers > 0 && Possible(st, steps)
    requires forall w :: 0 <= w < |Reach(st, steps).workers| ==> Reach(st, steps).workers[w].Finished?
    ensures var end := Reach(st, steps);
            && end.summary.checked == |end.details| == |st.targets|
            && (forall j, k :: 0 <= j < k < |end.details| ==> end.details[j].0 != end.details[k].0)
            && (forall i: nat :: i < |st.targets| ==> end.Reported(i))
            && end.summary.checked == end.summary.refreshed + end.summary.wouldRefresh + end.summary.same
                                      + end.summary.fenced + end.summary.errors + Count(end.details, CasLost)
  {
    IdleMeansNotBusy(st.workers);
    RunKeepsInv(st, steps);
    SweepAccountsForAll(st, workers, steps, 0);
    IdleMeansNotBusy(Reach(st, steps).workers);
    assert forall w: nat, i: nat :: !Reach(st, steps).Holds(w, i);
  }

  /** In a dry run, and for a VIN all of whose trucks are fenced, the sweep itself leaves the row alone. */
  lemma {:induction false} QuietRunsWriteNothing(st: State, steps: seq<Step>, vin: string)
    requires Inv(st) && Possible(st, steps) && forall i :: 0 <= i < |steps| ==> !steps[i].Outside?
    requires !st.apply || forall t :: t in st.targets && t.Key() == vin ==> Canonical(t.truckNumber) in st.fences
    ensures vin in Reach(st, steps).cache <==> vin in st.cache
    ensures vin in st.cache ==> Reach(st, steps).cache[vin] == st.cache[vin]
    decreases |steps|
  {
    if steps != [] {
      var st' := After(st, steps[0]);
      StepKeepsInv(st, steps[0]);
      StepKeepsSetup(st, steps[0]);
      if st'.cache != st.cache {
        OnlyListedValuesReplaced(st, steps[0]);
        assert st.targets[st.workers[steps[0].w].i] in st.targets;
      }
      QuietRunsWriteNothing(st', steps[1..], vin);
    }
  }

  // ── What one target goes through ───────────────────────────────────────────

  /** Taking the next target reports it at once if its number, without leading zeros and in any case, is fenced
      off; otherwise the worker asks AMS about it. */
  lemma TakingDecides(st: State, w: nat)
    requires Enabled(st, Take(w)) && st.next < |st.targets|
    ensures var st', fenced := After(st, Take(w)),
                               Upper(StripZeros(Trim(st.targets[st.next].truckNumber))) in st.fences;
            && st'.details == (if fenced then st.details + [(st.next, Fenced)] else st.details)
            && st'.workers[w] == (if fenced then Idle else Asking(st.next)) && st'.cache == st.cache
  {
  }

  /** Hearing the answer reports the target at once if there was none, if it names the listed technician, or in
      a dry run; otherwise the worker goes on to swap. */
  lemma HearingDecides(st: State, w: nat, answer: Answer)
    requires Enabled(st, Hear(w, answer)) && Eligible(st.targets[st.workers[w].i])
    ensures var st', i := After(st, Hear(w, answer)), st.workers[w].i;
            var other := answer.Live? && Trim(answer.tech) != Trim(st.targets[i].listed);
            && st'.cache == st.cache && (Enabled(st', Swap(w)) <==> other && st.apply)
            && st'.details == if answer.Failure? then st.details + [(i, Errored)]
                              else if !other then st.details + [(i, Unchanged)]
                              else if !st.apply then st.details + [(i, WouldRefresh)] else st.details
  {
  }

  /** None of the steps is worker `w`'s. */
  predicate OthersOnly(steps: seq<Step>, w: nat) {
    forall i :: 0 <= i < |steps| ==> steps[i].Outside? || steps[i].w != w
  }

  lemma {:induction false} OthersLeave(st: State, steps: seq<Step>, w: nat)
    requires Possible(st, steps) && OthersOnly(steps, w) && w < |st.workers|
    ensures var st' := Reach(st, steps);
            st'.targets == st.targets && |st'.workers| == |st.workers| && st'.workers[w] == st.workers[w]
    decreases |steps|
  {
    if steps != [] {
      StepKeepsSetup(st, steps[0]);
      OthersLeave(After(st, steps[0]), steps[1..], w);
    }
  }

  /** From the answer to the report, whatever the other workers and writers do in between: what is swapped in is
      the technician this answer named (or nobody), exactly if the row then shows the listed one, and the
      target is reported refreshed exactly in that case. */
  lemma SwapsWhatWasHeard(st: State, w: nat, answer: Answer, between: seq<Step>, later: seq<Step>)
    requires Enabled(st, Hear(w, answer)) && OthersOnly(between, w) && OthersOnly(later, w)
    requires Possible(After(st, Hear(w, answer)), between)
    requires Enabled(Reach(After(st, Hear(w, answer)), between), Swap(w))
    requires Possible(After(Reach(After(st, Hear(w, answer)), between), Swap(w)), later)
    ensures var before := Reach(After(st, Hear(w, answer)), between);
            var swapped := After(before, Swap(w));
            var last := Reach(swapped, later);
            var i, vin := st.workers[w].i, Trim(st.targets[st.workers[w].i].vin);
            var listed := vin in before.cache && before.cache[vin] == Some(st.targets[i].listed);
            && answer.Live?
            && swapped.cache == (if listed
                                 then before.cache[vin := if Trim(answer.tech) == "" then None
                                                          else Some(Trim(answer.tech))]
                                 else before.cache)
            && Enabled(last, Report(w))
            && After(last, Report(w)).details == last.details + [(i, if listed then Refreshed else CasLost)]
  {
    OthersLeave(After(st, Hear(w, answer)), between, w);
    OthersLeave(After(Reach(After(st, Hear(w, answer)), between), Swap(w)), later, w);
  }

  /** A writer that comes between answer and swap wins, unless it wrote what was listed. */
  lemma OutsideWriterWins(st: State, w: nat, value: Option<string>)
    requires Enabled(st, Swap(w)) && value != Some(st.targets[st.workers[w].i].listed)
    ensures var written := After(st, Outside(Trim(st.targets[st.workers[w].i].vin), value));
            && Enabled(written, Swap(w)) && After(written, Swap(w)).cache == written.cache
            && written.cache == st.cache[Trim(st.targets[st.workers[w].i].vin) := value]
            && After(written, Swap(w)).workers[w] == Reporting(st.workers[w].i, false)
  {
  }

  // ── Progress ───────────────────────────────────────────────────────────────

  function Weight(p: Phase): nat {
    match p
    case Finished => 0
    case Crashed(_) => 0
    case Idle => 1
    case Reporting(_, _) => 2
    case Swapping(_, _) => 3
    case Asking(_) => 4
  }

  function TotalWeight(workers: seq<Phase>): nat {
    if workers == [] then 0 else TotalWeight(workers[..|workers| - 1]) + Weight(workers[|workers| - 1])
  }

  /** Bounds the steps the sweep can still take. */
  function Left(st: State): nat {
    4 * (if st.next < |st.targets| then |st.targets| - st.next else 0) + TotalWeight(st.workers)
  }

  lemma {:induction false} WeightAfter(workers: seq<Phase>, w: nat, p: Phase)
    requires w < |workers|
    ensures TotalWeight(workers[w := p]) + Weight(workers[w]) == TotalWeight(workers) + Weight(p)
  {
    var n := |workers| - 1;
    if w < n {
      assert workers[w := p][..n] == workers[..n][w := p];
      WeightAfter(workers[..n], w, p);
    } else {
      assert workers[w := p][..n] == workers[..n];
    }
  }

  /** Every step of a worker brings the sweep strictly closer to its end, whatever it finds; outside writers
      do not hold it up. */
  lemma WorkersMakeProgress(st: State, step: Step)
    requires Enabled(st, step)
    ensures if step.Outside? then Left(After(st, step)) == Left(st) else Left(After(st, step)) < Left(st)
  {
    if !step.Outside? {
      WeightAfter(st.workers, step.w, After(st, step).workers[step.w]);
    }
  }
}
