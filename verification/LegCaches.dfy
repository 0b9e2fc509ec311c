/** The Holman and AMS caches and the operation log over runs of write-throughs: who last told what. */
module LegCaches {
  import opened Text
  import opened WriteThrough

  datatype Leg = HolmanLeg | AmsLeg

  function CacheOf(t: Tables, leg: Leg): map<string, Option<string>> {
    match leg case HolmanLeg => t.holman case AmsLeg => t.ams
  }

  /** The holder the leg establishes for `key`, if it confirmed one: it succeeded, is pending, or (Holman only)
      verified that nothing had to change. */
  function Says(holman: SystemResult, ams: SystemResult, leg: Leg, key: string): Option<Option<string>> {
    match leg
    case HolmanLeg =>
      if holman.payload.HolmanPayload? && holman.payload.key == key && key != ""
         && (holman.status in {Success, Pending} || (holman.status == Skipped && holman.skipVerified))
      then Some(holman.payload.holder) else None
    case AmsLeg =>
      if ams.payload.AmsPayload? && ams.payload.key == key && key != "" && ams.status in {Success, Pending}
      then Some(ams.payload.holder) else None
  }

  function Told(args: Args, leg: Leg, key: string): Option<Option<string>> { Says(args.holman, args.ams, leg, key) }

  /** What the last committed write-through that confirmed anything about `key` said. */
  function LastTold(attempts: seq<Attempt>, leg: Leg, key: string): Option<Option<string>> {
    if attempts == [] then None
    else
      var last := attempts[|attempts| - 1];
      if last.commits && Told(last.args, leg, key).Some? then Told(last.args, leg, key)
      else LastTold(attempts[..|attempts| - 1], leg, key)
  }

  /** Over any run each cache shows, for every key, the last confirmed and committed answer: a failed,
      refused or merely skipped leg and a rolled-back transaction leave it as it was. */
  lemma {:induction false} RunCaches(t: Tables, attempts: seq<Attempt>, leg: Leg, key: string)
    ensures Lookup(CacheOf(Run(t, attempts), leg), key)
            == if LastTold(attempts, leg, key).Some? then LastTold(attempts, leg, key) else Lookup(CacheOf(t, leg), key)
  {
    if attempts != [] {
      RunCaches(t, attempts[..|attempts| - 1], leg, key);
    }
  }

  /** The n-th attempt committed, for this log row, with every one of its writes. */
  ghost predicate Completes(t: Tables, attempts: seq<Attempt>, id: nat, n: nat)
    requires n < |attempts|
  {
    var a := attempts[n];
    && a.commits && a.args.logId == Some(id)
    && Run(t, attempts[..n + 1]) == Committed(Run(t, attempts[..n]), a.args)
    && id < |Run(t, attempts[..n + 1]).log|
    && Run(t, attempts[..n + 1]).log[id] == LogRow(a.args.tpms.status, a.args.holman.status, a.args.ams.status, true)
  }

  lemma LogStep(t: Tables, args: Args, commits: bool, id: nat)
    requires id < |t.log|
    ensures |Transact(t, args, commits).log| == |t.log|
    ensures Transact(t, args, commits).log[id]
            == if commits && args.logId == Some(id)
              then LogRow(args.tpms.status, args.holman.status, args.ams.status, true) else t.log[id]
  {
  }

  lemma LaterAttempts(t: Tables, attempts: seq<Attempt>, last: Attempt, id: nat, n: nat)
    requires n < |attempts| && Completes(t, attempts, id, n)
    ensures Completes(t, attempts + [last], id, n) && Run(t, (attempts + [last])[..n + 1]) == Run(t, attempts[..n + 1])
  {
    var longer := attempts + [last];
    assert longer[..n] == attempts[..n] && longer[..n + 1] == attempts[..n + 1];
  }

  lemma LastAttempt(t: Tables, attempts: seq<Attempt>, last: Attempt, id: nat)
    requires id < |Run(t, attempts).log| && last.commits && last.args.logId == Some(id)
    ensures Completes(t, attempts + [last], id, |attempts|)
  {
    var longer := attempts + [last];
    assert longer[..|attempts|] == attempts && longer[..|attempts| + 1] == longer;
    LogStep(Run(t, attempts), last.args, true, id);
  }

  /** The log never claims what the tables do not show: a row that a run changed carries the statuses of a
      committed write-through, all of whose writes went in with it. */
  lemma {:induction false} CompletedMeansApplied(t: Tables, attempts: seq<Attempt>, id: nat)
    requires id < |t.log|
    ensures |Run(t, attempts).log| == |t.log|
    ensures Run(t, attempts).log[id] == t.log[id] ||
            exists n :: 0 <= n < |attempts| && Completes(t, attempts, id, n)
                        && Run(t, attempts).log[id] == Run(t, attempts[..n + 1]).log[id]
  {
    if attempts != [] {
      var shorter, last := attempts[..|attempts| - 1], attempts[|attempts| - 1];
      CompletedMeansApplied(t, shorter, id);
      LogStep(Run(t, shorter), last.args, last.commits, id);
      assert attempts == shorter + [last] && attempts[..|shorter| + 1] == attempts;
      if last.commits && last.args.logId == Some(id) {
        LastAttempt(t, shorter, last, id);
      } else if Run(t, shorter).log[id] != t.log[id] {
        var n :| 0 <= n < |shorter| && Completes(t, shorter, id, n)
          && Run(t, shorter).log[id] == Run(t, shorter[..n + 1]).log[id];
        LaterAttempts(t, shorter, last, id, n);
      }
    }
  }
}
