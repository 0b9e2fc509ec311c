/** The truck-driven repair pass of `server/fleet-scope-truck-driven-refresh.ts`: for each truck the board
    disagrees about, ask TPMS who is on it and write the answer into both mirror tables. */
module TruckDrivenRefresh {
  import opened Text

  /** What TPMS says about a truck; no answer and an empty id are both "nobody". */
  datatype Answer = Unreachable | Info(ldapId: string, truckNo: string)

  /** One scanned truck, the answer it got, and how many of the three statements the database took
      (they run outside a transaction; three or more means all). */
  datatype Step = Step(truck: string, answer: Answer, written: nat) {
    function Eid(): string { if answer.Info? then Upper(Trim(answer.ldapId)) else "" }

    predicate Live() { Eid() != "" }

    function Key(): string { TruckKey(truck) }

    /** The truck number stored: TPMS's own spelling, or the scanned one. */
    function Stored(): string
      requires answer.Info?
    {
      var t := Trim(answer.truckNo);
      if t == "" then truck else t
    }
  }

  /** `profiles` maps an enterprise id to its truck, if any; `lastKnown` a truck to its technician. */
  datatype Mirror = Mirror(profiles: map<string, Option<string>>, lastKnown: map<string, string>)

  datatype Tally = Tally(scanned: nat, filled: nat, cleared: nat, blank: nat, errors: nat)

  ghost predicate Claims(m: Mirror, eid: string, key: string) {
    eid in m.profiles && m.profiles[eid].Some? && StripZeros(m.profiles[eid].value) == key
  }

  /** Rows of other technicians claiming the truck; ids are compared in upper case. */
  function Stale(profiles: map<string, Option<string>>, key: string, eid: string): set<string> {
    set e | e in profiles && profiles[e].Some? && StripZeros(profiles[e].value) == key && Upper(e) != eid
  }

  function Clear(profiles: map<string, Option<string>>, gone: set<string>): map<string, Option<string>> {
    map e | e in profiles :: if e in gone then None else profiles[e]
  }

  function Upserted(m: Mirror, s: Step): Mirror
    requires s.Live()
  {
    m.(profiles := m.profiles[s.Eid() := Some(s.Stored())])
  }

  function Swept(m: Mirror, s: Step): Mirror {
    m.(profiles := Clear(m.profiles, Stale(m.profiles, s.Key(), s.Eid())))
  }

  function Confirmed(m: Mirror, s: Step): Mirror {
    if !s.Live() || s.written == 0 then m
    else if s.written == 1 then Upserted(m, s)
    else
      var swept := Swept(Upserted(m, s), s);
      if s.written == 2 then swept else swept.(lastKnown := swept.lastKnown[s.Stored() := s.Eid()])
  }

  function Pass(m: Mirror, steps: seq<Step>): Mirror {
    if steps == [] then m else Confirmed(Pass(m, steps[..|steps| - 1]), steps[|steps| - 1])
  }

  function Count(steps: seq<Step>, p: Step -> bool): nat {
    if steps == [] then 0 else Count(steps[..|steps| - 1], p) + if p(steps[|steps| - 1]) then 1 else 0
  }

  /** Rows with a truck. */
  ghost function Assigned(profiles: map<string, Option<string>>): set<string> {
    set e | e in profiles && profiles[e].Some?
  }

  lemma AssignedUpsert(profiles: map<string, Option<string>>, eid: string, truck: string)
    ensures |Assigned(profiles[eid := Some(truck)])| <= |Assigned(profiles)| + 1
  {
    assert Assigned(profiles[eid := Some(truck)]) == Assigned(profiles) + {eid};
  }

  lemma AssignedClear(profiles: map<string, Option<string>>, key: string, eid: string)
    ensures |Assigned(Clear(profiles, Stale(profiles, key, eid)))| + |Stale(profiles, key, eid)| == |Assigned(profiles)|
  {
    var gone := Stale(profiles, key, eid);
    assert Assigned(Clear(profiles, gone)) == Assigned(profiles) - gone && gone <= Assigned(profiles);
  }

  class TpmsMirror {
    var profiles: map<string, Option<string>>
    var lastKnown: map<string, string>

    ghost function Contents(): Mirror
      reads this
    {
      Mirror(profiles, lastKnown)
    }

    constructor (profiles: map<string, Option<string>>, lastKnown: map<string, string>)
      ensures Contents() == Mirror(profiles, lastKnown)
    {
      this.profiles, this.lastKnown := profiles, lastKnown;
    }

    /** One pass. Every scanned truck is counted once as blank, filled or failed at the first write, and no
        more rows are cleared than had a truck or were given one. */
    method Refresh(steps: seq<Step>) returns (t: Tally)
      modifies this
      ensures Contents() == Pass(old(Contents()), steps)
      ensures t.scanned == |steps| && t.blank == Count(steps, (s: Step) => !s.Live())
      ensures t.filled == Count(steps, (s: Step) => s.Live() && s.written > 0)
      ensures t.errors == Count(steps, (s: Step) => s.Live() && s.written < 3)
      ensures |Assigned(profiles)| + t.cleared <= |Assigned(old(profiles))| + t.filled
    {
      t := Tally(0, 0, 0, 0, 0);
      for i := 0 to |steps|
        invariant Contents() == Pass(old(Contents()), steps[..i])
        invariant t.scanned == i && t.blank == Count(steps[..i], (s: Step) => !s.Live())
        invariant t.filled == Count(steps[..i], (s: Step) => s.Live() && s.written > 0)
        invariant t.errors == Count(steps[..i], (s: Step) => s.Live() && s.written < 3)
        invariant |Assigned(profiles)| + t.cleared <= |Assigned(old(profiles))| + t.filled
      {
        assert steps[..i + 1][..i] == steps[..i];
        var filled, cleared, blank, errors := Confirm(steps[i]);
        t := Tally(t.scanned + 1, t.filled + filled, t.cleared + cleared, t.blank + blank, t.errors + errors);
      }
      assert steps[..|steps|] == steps;
    }

    /** The body of the loop; a statement that fails skips the rest of the truck. */
    method Confirm(s: Step) returns (filled: nat, cleared: nat, blank: nat, errors: nat)
      modifies this
      ensures Contents() == Confirmed(old(Contents()), s)
      ensures blank == if s.Live() then 0 else 1
      ensures filled == if s.Live() && s.written > 0 then 1 else 0
      ensures errors == if s.Live() && s.written < 3 then 1 else 0
      ensures |Assigned(profiles)| + cleared <= |Assigned(old(profiles))| + filled
    {
      filled, cleared, blank, errors := 0, 0, 0, 0;
      var eid := s.Eid();
      if |eid| == 0 {
        blank := 1;
        return;
      }
      if s.written == 0 {
        errors := 1;
        return;
      }
      profiles := profiles[eid := Some(s.Stored())];
      filled := 1;
      AssignedUpsert(old(profiles), eid, s.Stored());
      if s.written == 1 {
        errors := 1;
        return;
      }
      var gone := Stale(profiles, s.Key(), eid);
      AssignedClear(profiles, s.Key(), eid);
      profiles := Clear(profiles, gone);
      cleared := |gone|;
      if s.written == 2 {
        errors := 1;
        return;
      }
      lastKnown := lastKnown[s.Stored() := eid];
    }
  }

  // ── One truck ──────────────────────────────────────────────────────────────

  lemma {:induction false} UpperIsIdempotent(s: string)
    ensures Upper(Upper(s)) == Upper(s)
  {
    if s != "" {
      UpperIsIdempotent(s[1..]);
      assert Upper(s)[1..] == Upper(s[1..]);
    }
  }

  lemma {:induction false} UpperOfLower(s: string)
    ensures Upper(Lower(s)) == Upper(s)
  {
    if s != "" {
      UpperOfLower(s[1..]);
      assert Lower(s)[1..] == Lower(s[1..]);
    }
  }

  /** After one truck: its technician claims what was stored and nothing else; any other row keeps its claim
      unless the claim was on this truck and the row is another technician's. */
  lemma StepClaims(m: Mirror, s: Step, e: string, key: string)
    requires s.Live() && s.written >= 3
    ensures Claims(Confirmed(m, s), e, key) <==>
              if e == s.Eid() then StripZeros(s.Stored()) == key
              else Claims(m, e, key) && !(key == s.Key() && Upper(e) != s.Eid())
  {
    UpperIsIdempotent(Trim(s.answer.ldapId));
  }

  /** A truck whose statements fail part way keeps those before: the technician's own row is written first, then
      other technicians lose their claims, and last-known comes last. */
  lemma StatementsInOrder(m: Mirror, s: Step, e: string, key: string)
    ensures var m' := Confirmed(m, s);
            && (e == s.Eid() && s.Live() && s.written >= 1 ==> (Claims(m', e, key) <==> StripZeros(s.Stored()) == key))
            && (!(e == s.Eid() && s.Live() && s.written >= 1) ==>
                  (Claims(m', e, key) <==>
                     Claims(m, e, key) && !(s.Live() && s.written >= 2 && key == s.Key() && Upper(e) != s.Eid())))
            && m'.lastKnown == if s.Live() && s.written >= 3 then m.lastKnown[s.Stored() := s.Eid()] else m.lastKnown
  {
    if s.Live() {
      UpperIsIdempotent(Trim(s.answer.ldapId));
    }
  }

  /** The truck is settled: its technician claims it, nobody else does, and last-known names the technician. */
  ghost predicate Settled(m: Mirror, s: Step)
    requires s.Live()
  {
    && Claims(m, s.Eid(), s.Key())
    && (forall e :: Claims(m, e, s.Key()) ==> Upper(e) == s.Eid())
    && s.Stored() in m.lastKnown && m.lastKnown[s.Stored()] == s.Eid()
  }

  /** TPMS's own number for the truck is the scanned truck. */
  ghost predicate Agrees(s: Step)
    requires s.Live()
  {
    StripZeros(s.Stored()) == s.Key()
  }

  /** One truck is settled by its own step exactly when TPMS answered about that truck. */
  lemma StepSettles(m: Mirror, s: Step)
    requires s.Live() && s.written >= 3
    ensures Settled(Confirmed(m, s), s) <==> Agrees(s)
  {
    UpperIsIdempotent(Trim(s.answer.ldapId));
    forall e
      ensures Claims(Confirmed(m, s), e, s.Key()) ==> e == s.Eid() || Upper(e) == s.Eid()
    {
      StepClaims(m, s, e, s.Key());
    }
    StepClaims(m, s, s.Eid(), s.Key());
  }

  /** A later truck undoes a settled one exactly when it has the same technician stored elsewhere, or
      another technician on the same truck. */
  lemma LaterStepKeeps(m: Mirror, s: Step, later: Step)
    requires s.Live() && Agrees(s) && Settled(m, s)
    requires later.Live() && later.written >= 3
    ensures Settled(Confirmed(m, later), s) <==>
              if later.Eid() == s.Eid() then StripZeros(later.Stored()) == s.Key()
              else StripZeros(later.Stored()) != s.Key() && later.Key() != s.Key()
  {
    UpperIsIdempotent(Trim(s.answer.ldapId));
    UpperIsIdempotent(Trim(later.answer.ldapId));
    StepClaims(m, later, s.Eid(), s.Key());
    StepClaims(m, later, later.Eid(), s.Key());
    forall e
      ensures Claims(Confirmed(m, later), e, s.Key()) ==> e == later.Eid() || Claims(m, e, s.Key())
    {
      StepClaims(m, later, e, s.Key());
    }
  }

  // ── A whole pass ───────────────────────────────────────────────────────────

  /** Every write succeeds, TPMS answers about the truck it is asked about, and technicians and trucks
      correspond one to one. */
  ghost predicate Steady(steps: seq<Step>) {
    && (forall s :: s in steps && s.Live() ==> s.written >= 3 && Agrees(s))
    && forall s, t :: s in steps && t in steps && s.Live() && t.Live() ==> (s.Eid() == t.Eid() <==> s.Key() == t.Key())
  }

  lemma SteadyPrefix(steps: seq<Step>)
    requires steps != [] && Steady(steps)
    ensures Steady(steps[..|steps| - 1])
    ensures forall s :: s in steps <==> s in steps[..|steps| - 1] || s == steps[|steps| - 1]
  {
    assert steps == steps[..|steps| - 1] + [steps[|steps| - 1]];
  }

  /** What the promise asks of TPMS: one answer per padded number, and no technician on two trucks. */
  lemma StableAnswersAreSteady(steps: seq<Step>, live: map<string, Answer>)
    requires forall s :: s in steps ==> 1 <= |s.truck| <= 6 && AllDigits(s.truck)
    requires forall s :: s in steps ==> ToTpmsRef(s.truck) in live && s.answer == live[ToTpmsRef(s.truck)]
    requires forall s :: s in steps && s.Live() ==> s.written >= 3 && Agrees(s)
    requires forall s, t :: s in steps && t in steps && s.Live() && s.Eid() == t.Eid() ==>
               ToTpmsRef(s.truck) == ToTpmsRef(t.truck)
    ensures Steady(steps)
  {
    forall s, t | s in steps && t in steps
      ensures ToTpmsRef(s.truck) == ToTpmsRef(t.truck) <==> s.Key() == t.Key()
    {
      KeyOfNumber(s.truck);
      KeyOfNumber(t.truck);
      SameKeySameTruck(s.truck, t.truck);
    }
  }

  lemma KeyOfNumber(s: string)
    requires 1 <= |s| <= 6 && AllDigits(s)
    ensures ToCanonical(s) == if TruckKey(s) == "" then "0" else TruckKey(s)
    ensures TruckKey(s) != "0"
  {
    assert IsDigit(s[0]) && IsDigit(s[|s| - 1]);
    TrimKeeps(s);
    DigitsKeep(s);
    StripZerosShape(s);
  }

  /** A truck the pass found nobody on gains no claim, and loses only those of technicians found elsewhere. */
  lemma {:induction false} OtherClaims(m: Mirror, steps: seq<Step>, e: string, key: string)
    requires Steady(steps)
    requires forall s :: s in steps && s.Live() ==> s.Key() != key
    ensures Claims(Pass(m, steps), e, key) <==>
              Claims(m, e, key) && forall s :: s in steps && s.Live() ==> s.Eid() != e
  {
    if steps != [] {
      var shorter, last := steps[..|steps| - 1], steps[|steps| - 1];
      SteadyPrefix(steps);
      OtherClaims(m, shorter, e, key);
      if last.Live() {
        StepClaims(Pass(m, shorter), last, e, key);
      }
    }
  }

  /** The first step on a truck settles it. */
  lemma FirstClaims(m: Mirror, shorter: seq<Step>, s: Step, e: string)
    requires Steady(shorter) && s.Live() && s.written >= 3 && Agrees(s)
    requires forall t :: t in shorter && t.Live() ==> t.Key() != s.Key() && t.Eid() != s.Eid()
    ensures Claims(Confirmed(Pass(m, shorter), s), e, s.Key()) <==>
              e == s.Eid() || (Upper(e) == s.Eid() && Claims(m, e, s.Key()))
  {
    StepClaims(Pass(m, shorter), s, e, s.Key());
    OtherClaims(m, shorter, e, s.Key());
    forall t | t in shorter && t.Live()
      ensures Upper(t.Eid()) == t.Eid()
    {
      UpperIsIdempotent(Trim(t.answer.ldapId));
    }
  }

  /** A further step keeps it: same technician, or another truck. */
  lemma FurtherStep(m: Mirror, s: Step, last: Step, e: string)
    requires s.Live() && last.Live() && last.written >= 3 && Agrees(last)
    requires s.Eid() == last.Eid() <==> s.Key() == last.Key()
    requires Upper(s.Eid()) == s.Eid() && Upper(last.Eid()) == last.Eid()
    ensures Claims(Confirmed(m, last), s.Eid(), s.Key()) <==> s.Eid() == last.Eid() || Claims(m, s.Eid(), s.Key())
    ensures e != s.Eid() ==>
              (Claims(Confirmed(m, last), e, s.Key()) && Upper(e) == s.Eid()
               <==> Claims(m, e, s.Key()) && Upper(e) == s.Eid())
    ensures Claims(Confirmed(m, last), e, s.Key()) ==> e == s.Eid() || Claims(m, e, s.Key())
  {
    StepClaims(m, last, s.Eid(), s.Key());
    StepClaims(m, last, e, s.Key());
  }

  /** Every truck with a live technician ends up claimed by that technician's row, and otherwise only by
      rows that claimed it before under the same id in another case. */
  lemma {:induction false} SettledClaims(m: Mirror, steps: seq<Step>, s: Step, e: string)
    requires Steady(steps) && s in steps && s.Live()
    ensures Claims(Pass(m, steps), e, s.Key()) <==> e == s.Eid() || (Upper(e) == s.Eid() && Claims(m, e, s.Key()))
    decreases |steps|
  {
    var last, shorter := steps[|steps| - 1], steps[..|steps| - 1];
    SteadyPrefix(steps);
    if t :| t in shorter && t.Live() && t.Key() == s.Key() {
      SettledClaims(m, shorter, t, e);
      SettledClaims(m, shorter, t, t.Eid());
      if last.Live() {
        UpperIsIdempotent(Trim(s.answer.ldapId));
        UpperIsIdempotent(Trim(last.answer.ldapId));
        FurtherStep(Pass(m, shorter), s, last, e);
      }
    } else {
      assert s == last;
      FirstClaims(m, shorter, s, e);
    }
  }

  /** Last-known names the live technician of every scanned truck; every other row is as it was. */
  lemma {:induction false} LastKnownAgrees(m: Mirror, steps: seq<Step>, truck: string)
    requires Steady(steps)
    ensures forall s :: s in steps && s.Live() && s.Stored() == truck ==>
              Lookup(Pass(m, steps).lastKnown, truck) == Some(s.Eid())
    ensures (forall s :: s in steps && s.Live() ==> s.Stored() != truck) ==>
              Lookup(Pass(m, steps).lastKnown, truck) == Lookup(m.lastKnown, truck)
  {
    if steps != [] {
      var last, before := steps[|steps| - 1], Pass(m, steps[..|steps| - 1]);
      SteadyPrefix(steps);
      LastKnownAgrees(m, steps[..|steps| - 1], truck);
      StepLastKnown(before, last, truck);
    }
  }

  lemma StepLastKnown(m: Mirror, s: Step, truck: string)
    ensures Lookup(Confirmed(m, s).lastKnown, truck) ==
              if s.Live() && s.written >= 3 && s.Stored() == truck then Some(s.Eid()) else Lookup(m.lastKnown, truck)
  {
  }

  /** After the pass every truck with a live technician is settled: no iteration undid an earlier one. */
  lemma PassSettles(m: Mirror, steps: seq<Step>, s: Step)
    requires Steady(steps) && s in steps && s.Live()
    ensures Settled(Pass(m, steps), s)
  {
    UpperIsIdempotent(Trim(s.answer.ldapId));
    forall e
      ensures Claims(Pass(m, steps), e, s.Key()) <==> e == s.Eid() || (Upper(e) == s.Eid() && Claims(m, e, s.Key()))
    {
      SettledClaims(m, steps, s, e);
    }
    LastKnownAgrees(m, steps, s.Stored());
  }

  /** The step found the technician and its first statement went in. */
  predicate Writes(s: Step, eid: string) { s.Eid() == eid != "" && s.written > 0 }

  /** A pass removes no row and adds one only for a technician it finds; a row it found nobody for keeps its truck
      or loses it. */
  lemma {:induction false} RowsStay(m: Mirror, steps: seq<Step>, e: string)
    ensures e in Pass(m, steps).profiles <==>
              e in m.profiles || exists i :: 0 <= i < |steps| && Writes(steps[i], e)
    ensures e in m.profiles && (forall i :: 0 <= i < |steps| ==> !Writes(steps[i], e)) ==>
              Pass(m, steps).profiles[e] in {None, m.profiles[e]}
  {
    if steps != [] {
      var n := |steps| - 1;
      RowsStay(m, steps[..n], e);
      RowStays(Pass(m, steps[..n]), steps[n], e);
      assert forall i :: 0 <= i < n ==> steps[..n][i] == steps[i];
    }
  }

  lemma RowStays(m: Mirror, s: Step, e: string)
    ensures e in Confirmed(m, s).profiles <==> e in m.profiles || Writes(s, e)
    ensures e in m.profiles && !Writes(s, e) ==> Confirmed(m, s).profiles[e] in {None, m.profiles[e]}
  {
  }

  ghost predicate OnlyClaimant(m: Mirror, s: Step) { forall e :: Claims(m, e, s.Key()) <==> e == s.Eid() }

  /** It is claimed by one row alone exactly when no row held it under the same id in another case. */
  lemma AloneIff(m: Mirror, steps: seq<Step>, s: Step)
    requires Steady(steps) && s in steps && s.Live()
    ensures OnlyClaimant(Pass(m, steps), s) <==>
            forall e :: Claims(m, e, s.Key()) && Upper(e) == s.Eid() ==> e == s.Eid()
  {
    var after := Pass(m, steps);
    forall e
      ensures Claims(after, e, s.Key()) <==> e == s.Eid() || (Upper(e) == s.Eid() && Claims(m, e, s.Key()))
    {
      SettledClaims(m, steps, s, e);
    }
  }

  /** The assignment write-through keys its rows by the normalised, lower-case id, so the row it wrote for
      the very technician TPMS reports stays beside the new one. */
  lemma WriteThroughRowIsDoubled(m: Mirror, steps: seq<Step>, s: Step)
    requires Steady(steps) && s in steps && s.Live()
    requires Claims(m, NormalizeEnterpriseId(s.answer.ldapId), s.Key())
    requires NormalizeEnterpriseId(s.answer.ldapId) != s.Eid()
    ensures !OnlyClaimant(Pass(m, steps), s)
  {
    UpperOfLower(Trim(s.answer.ldapId));
    AloneIff(m, steps, s);
  }
}
