/** The two TPMS mirrors that a write-through keeps: `tpms_last_known_truck_tech` (truck to technician)
    and `tpms_tech_profiles` (technician to truck). They should be inverses of one another; this module
    says exactly when an operation keeps them so. */
module Mirrors {
  import opened Text
  import opened WriteThrough
  import opened Assignments
  import opened FleetOperations
  import AssignmentRuns

  /** A padded table key. */
  predicate IsRef(k: string) { k != "" && ToTpmsRef(k) == k }

  ghost predicate KeysPadded(lk: map<string, string>) {
    forall k :: k in lk ==> IsRef(k)
  }

  ghost predicate Inverse(lk: map<string, string>, pf: map<string, Option<string>>) {
    && (forall k :: k in lk ==> lk[k] in pf && pf[lk[k]] == Some(k))
    && (forall e :: e in pf && pf[e].Some? ==> pf[e].value in lk && lk[pf[e].value] == e)
  }

  /** Mutually inverse mirrors, keyed by padded trucks. */
  ghost predicate Mirrored(t: Tables) {
    KeysPadded(t.lastKnown) && Inverse(t.lastKnown, t.profiles)
  }

  // ── What a plan does to padded tables ──────────────────────────────────────

  lemma UnfoldTwo(m: map<string, string>, a: string, b: string, pf: map<string, Option<string>>,
                  x: (string, Option<string>), y: (string, Option<string>))
    ensures Deleted(m, [a]) == m - {a}
    ensures Deleted(m, [a, b]) == m - {a} - {b}
    ensures Upserted(m, [(a, b)]) == m[a := b]
    ensures ProfilesSet(pf, [x]) == ProfileSet(pf, x.0, x.1)
    ensures ProfilesSet(pf, [x, y]) == ProfileSet(ProfileSet(pf, x.0, x.1), y.0, y.1)
  {
    assert [a][..0] == [] && [a, b][..1] == [a];
    assert [(a, b)][..0] == [];
    assert [x][..0] == [] && [x, y][..1] == [x];
  }

  /** Deleting a truck under both of its spellings removes its padded key and no other. */
  lemma SweepsOneTruck(lk: map<string, string>, truck: string, raw: string)
    requires KeysPadded(lk) && truck != ""
    requires raw == if ToTpmsRef(truck) == "" then truck else ToTpmsRef(truck)
    ensures Deleted(lk, Variants(raw, ToCanonical(truck))) == lk - {ToTpmsRef(truck)}
  {
    var c, p := ToCanonical(truck), ToTpmsRef(truck);
    UnfoldTwo(lk, raw, c, map[], ("", None), ("", None));
    if c == "" {
      assert !IsRef(raw) && !IsRef(p);
    } else if c != raw && c in lk {
      StrippedKeyMeetsOnlyItself(truck, c);
      SameKeySameTruck(truck, c);
    }
  }

  lemma PaddedIsRef(truck: string)
    requires Names(truck)
    ensures IsRef(ToTpmsRef(truck))
  {
    PaddedRoundTrip(truck);
    SameKeySameTruck(ToTpmsRef(truck), truck);
  }

  /** The padded key of the truck the technician is said to have left; "" when none is named. */
  function Vacated(args: Args): string { ToTpmsRef(args.previousTechTruck) }

  /** The profiles after technician `l` takes truck `p` from `g` ("" for nobody). */
  function Handed(pf: map<string, Option<string>>, l: string, g: string, p: string): map<string, Option<string>> {
    if g != "" && g != l && g in pf then pf[l := Some(p)][g := None] else pf[l := Some(p)]
  }

  lemma AssignPlansProfiles(pf: map<string, Option<string>>, args: Args)
    requires args.action == Assign && args.Plans() && args.Ldap() != "" && args.Padded() != ""
    ensures ProfilesSet(pf, PlanTpmsCacheWrites(args).profileSets)
            == Handed(pf, args.Ldap(), args.PrevHolder(), args.Padded())
  {
    var l, g, p := args.Ldap(), args.PrevHolder(), args.Padded();
    UnfoldTwo(map[], "", "", pf, (l, Some(p)), (g, None));
    assert [(l, Some(p))] + [(g, None)] == [(l, Some(p)), (g, None)];
    assert [(l, Some(p))] + [] == [(l, Some(p))];
  }

  lemma AssignPlansLastKnown(lk: map<string, string>, args: Args)
    requires KeysPadded(lk) && args.action == Assign && args.Plans() && args.Ldap() != "" && IsRef(args.Padded())
    ensures var plan := PlanTpmsCacheWrites(args);
            Deleted(Upserted(lk, plan.upserts), plan.deletes) == lk[args.Padded() := args.Ldap()] - {Vacated(args)}
  {
    var plan, prev := PlanTpmsCacheWrites(args), args.previousTechTruck;
    UnfoldTwo(lk, args.Padded(), args.Ldap(), map[], ("", None), ("", None));
    var upserted := lk[args.Padded() := args.Ldap()];
    assert Upserted(lk, plan.upserts) == upserted && KeysPadded(upserted);
    if prev != "" {
      SweepsOneTruck(upserted, prev, if Vacated(args) == "" then prev else Vacated(args));
    } else {
      assert !IsRef("");
    }
  }

  lemma AssignPlanned(t: Tables, args: Args)
    requires KeysPadded(t.lastKnown) && args.action == Assign && args.Plans() && args.Ldap() != ""
             && Names(args.truckNumber)
    ensures var t' := ApplyPlan(t, PlanTpmsCacheWrites(args));
            && args.Padded() == ToTpmsRef(args.truckNumber) && IsRef(args.Padded())
            && t'.lastKnown == t.lastKnown[args.Padded() := args.Ldap()] - {Vacated(args)}
            && t'.profiles == Handed(t.profiles, args.Ldap(), args.PrevHolder(), args.Padded())
  {
    PaddedIsRef(args.truckNumber);
    AssignPlansProfiles(t.profiles, args);
    AssignPlansLastKnown(t.lastKnown, args);
  }

  lemma UnassignPlanned(t: Tables, args: Args)
    requires KeysPadded(t.lastKnown) && args.action == Unassign && args.Plans() && args.truckNumber != ""
    ensures var t', l := ApplyPlan(t, PlanTpmsCacheWrites(args)), args.Ldap();
            && t'.lastKnown == t.lastKnown - {ToTpmsRef(args.truckNumber)}
            && t'.profiles == (if args.CrossTruckSkip() then t.profiles else Released(t.profiles, l))
  {
    UnfoldTwo(t.lastKnown, "", "", t.profiles, (args.Ldap(), None), ("", None));
    SweepsOneTruck(t.lastKnown, args.truckNumber, args.Padded());
  }

  // ── Exactly when the mirrors stay inverse ──────────────────────────────────

  /** What the mirrors themselves say about technician `l` taking truck `p` from `g` ("" for nobody) and
      leaving truck `q` ("" for none): the truck's keeper and the left truck's keeper are `l` or `g`,
      and neither of them is recorded on a third truck. */
  ghost predicate Concerns(lk: map<string, string>, pf: map<string, Option<string>>, l: string, g: string, p: string,
                           q: string) {
    && (p in lk ==> lk[p] == l || (lk[p] == g && g != ""))
    && (q in lk ==> lk[q] == l || (lk[q] == g && g != ""))
    && (l in pf && pf[l].Some? ==> pf[l].value == p || pf[l].value == q)
    && (g != "" && g in pf && pf[g].Some? ==> pf[g].value == p || pf[g].value == q)
  }

  lemma SwapNeeds(lk: map<string, string>, pf: map<string, Option<string>>, l: string, g: string, p: string, q: string)
    requires Inverse(lk, pf) && Inverse(lk[p := l] - {q}, Handed(pf, l, g, p))
    ensures q != p && (g == l ==> Concerns(lk, pf, l, "", p, q)) && (g != l ==> Concerns(lk, pf, l, g, p, q))
  {
    var lk', pf' := lk[p := l] - {q}, Handed(pf, l, g, p);
    assert pf'[l] == Some(p);
    assert forall e :: e in pf && e != l && (e != g || g == "") ==> pf'[e] == pf[e];
    assert forall k :: k in lk' && k != p ==> lk'[k] == lk[k];
  }

  lemma SwapSuffices(lk: map<string, string>, pf: map<string, Option<string>>, l: string, g: string, p: string,
                     q: string)
    requires Inverse(lk, pf) && q != p && l != "" && Concerns(lk, pf, l, g, p, q)
    ensures Inverse(lk[p := l] - {q}, Handed(pf, l, g, p))
  {
    var lk', pf' := lk[p := l] - {q}, Handed(pf, l, g, p);
    forall k | k in lk'
      ensures lk'[k] in pf' && pf'[lk'[k]] == Some(k)
    {
      assert k != p ==> lk'[k] == lk[k] && pf[lk[k]] == Some(k);
    }
    forall e | e in pf' && pf'[e].Some?
      ensures pf'[e].value in lk' && lk'[pf'[e].value] == e
    {
      assert e != l ==> pf'[e] == pf[e] && (e != g || g == "");
    }
  }

  /** An assign that TPMS confirmed keeps the mirrors inverse exactly when the truck it names as left is
      another truck and the mirrors agree with the named previous holder and the named left truck. */
  lemma AssignKeepsMirrors(t: Tables, args: Args)
    requires Mirrored(t) && args.action == Assign && args.Plans() && args.Ldap() != "" && Names(args.truckNumber)
    ensures Mirrored(Committed(t, args)) <==>
              Vacated(args) != ToTpmsRef(args.truckNumber)
              && Concerns(t.lastKnown, t.profiles, args.Ldap(), args.PrevHolder(), ToTpmsRef(args.truckNumber),
                          Vacated(args))
  {
    AssignPlanned(t, args);
    var l, g, p, q := args.Ldap(), args.PrevHolder(), args.Padded(), Vacated(args);
    if Mirrored(Committed(t, args)) {
      SwapNeeds(t.lastKnown, t.profiles, l, g, p, q);
    }
    if q != p && Concerns(t.lastKnown, t.profiles, l, g, p, q) {
      SwapSuffices(t.lastKnown, t.profiles, l, g, p, q);
    }
    assert KeysPadded(Committed(t, args).lastKnown);
  }

  /** The sweep of the left truck spares the row just written exactly when they are different trucks. */
  lemma SweepSparesNewRow(t: Tables, args: Args)
    requires KeysPadded(t.lastKnown) && args.action == Assign && args.Plans() && args.Ldap() != ""
             && Names(args.truckNumber)
    ensures var lk', p := Committed(t, args).lastKnown, ToTpmsRef(args.truckNumber);
            (p in lk' && lk'[p] == args.Ldap()) <==> ToCanonical(args.previousTechTruck) != args.Canonical()
  {
    AssignPlanned(t, args);
    SameKeySameTruck(args.previousTechTruck, args.truckNumber);
  }

  /** The profiles after technician `l` ("" for nobody) gives up the truck. */
  function Released(pf: map<string, Option<string>>, l: string): map<string, Option<string>> {
    if l != "" && l in pf then pf[l := None] else pf
  }

  /** The mirrors have `l`, if anyone, on truck `p`, and `l` on no other truck. */
  ghost predicate Keeper(lk: map<string, string>, pf: map<string, Option<string>>, l: string, p: string) {
    (p in lk ==> lk[p] == l && l != "") && (l != "" && l in pf && pf[l].Some? ==> pf[l].value == p)
  }

  lemma ReleaseKeepsInverse(lk: map<string, string>, pf: map<string, Option<string>>, l: string, p: string)
    requires Inverse(lk, pf)
    ensures Inverse(lk - {p}, Released(pf, l)) <==> Keeper(lk, pf, l, p)
  {
    var lk', pf' := lk - {p}, Released(pf, l);
    assert forall e :: e in pf && (e != l || l == "") ==> pf'[e] == pf[e];
    assert forall k :: k in lk' <==> k in lk && k != p;
    if Keeper(lk, pf, l, p) {
      forall e | e in pf' && pf'[e].Some?
        ensures pf'[e].value in lk' && lk'[pf'[e].value] == e
      {
        assert pf'[e] == pf[e];
      }
    }
  }

  /** An unassign that TPMS carried out keeps the mirrors inverse exactly when the technician it acted on
      is the one the mirrors have on that truck. */
  lemma UnassignKeepsMirrors(t: Tables, args: Args)
    requires Mirrored(t) && args.action == Unassign && args.tpms.status == Success && Names(args.truckNumber)
    ensures Mirrored(Committed(t, args)) <==> Keeper(t.lastKnown, t.profiles, args.Ldap(), ToTpmsRef(args.truckNumber))
  {
    UnassignPlanned(t, args);
    ReleaseKeepsInverse(t.lastKnown, t.profiles, args.Ldap(), ToTpmsRef(args.truckNumber));
    assert KeysPadded(Committed(t, args).lastKnown);
  }

  lemma DropKeepsInverse(lk: map<string, string>, pf: map<string, Option<string>>, p: string)
    requires Inverse(lk, pf)
    ensures Inverse(lk - {p}, pf) <==> p !in lk
  {
    assert p in lk ==> pf[lk[p]] == Some(p);
    assert p !in lk ==> lk - {p} == lk;
  }

  /** A cross-truck unassign drops the named truck's last-known row and nothing else: no profile moves
      and every other truck keeps its keeper. Mirrors that were inverse stay so exactly when that row
      was already absent. */
  lemma CrossTruckSparesTheRest(t: Tables, args: Args)
    requires KeysPadded(t.lastKnown) && args.CrossTruckSkip() && Names(args.truckNumber)
    ensures Committed(t, args).profiles == t.profiles
    ensures Committed(t, args).lastKnown == t.lastKnown - {ToTpmsRef(args.truckNumber)}
    ensures Mirrored(t) ==> (Mirrored(Committed(t, args)) <==> ToTpmsRef(args.truckNumber) !in t.lastKnown)
  {
    UnassignPlanned(t, args);
    if Mirrored(t) {
      DropKeepsInverse(t.lastKnown, t.profiles, ToTpmsRef(args.truckNumber));
    }
  }

  /** The write-throughs that committed and that TPMS confirmed. */
  function Confirming(attempts: seq<Attempt>): seq<Attempt> {
    if attempts == [] then []
    else
      var last := attempts[|attempts| - 1];
      Confirming(attempts[..|attempts| - 1]) + if last.commits && last.args.Plans() then [last] else []
  }

  /** What a write-through does to the mirrors depends on the mirrors alone, and is nothing unless it is
      committed and confirmed. */
  lemma MirrorStep(t: Tables, u: Tables, args: Args, commits: bool)
    requires t.lastKnown == u.lastKnown && t.profiles == u.profiles
    ensures var t', u' := Transact(t, args, commits), if commits && args.Plans() then Committed(u, args) else u;
            t'.lastKnown == u'.lastKnown && t'.profiles == u'.profiles
  {
  }

  lemma RunSnoc(t: Tables, attempts: seq<Attempt>, last: Attempt)
    requires last.commits
    ensures Run(t, attempts + [last]) == Committed(Run(t, attempts), last.args)
  {
    assert (attempts + [last])[..|attempts|] == attempts;
  }

  /** Over any run the mirrors follow what TPMS confirmed and nothing else: refused, failed, skipped and
      rolled-back write-throughs may as well not have happened. */
  lemma {:induction false} MirrorsFollowConfirmations(t: Tables, attempts: seq<Attempt>)
    ensures Run(t, attempts).lastKnown == Run(t, Confirming(attempts)).lastKnown
    ensures Run(t, attempts).profiles == Run(t, Confirming(attempts)).profiles
  {
    if attempts != [] {
      var earlier, last := attempts[..|attempts| - 1], attempts[|attempts| - 1];
      MirrorsFollowConfirmations(t, earlier);
      MirrorStep(Run(t, earlier), Run(t, Confirming(earlier)), last.args, last.commits);
      if last.commits && last.args.Plans() {
        RunSnoc(t, Confirming(earlier), last);
      } else {
        assert Confirming(earlier) + [] == Confirming(earlier);
      }
    }
  }

  /** The spellings under which a row about the truck may be stored. */
  function Spellings(truck: string): set<string> {
    {if ToTpmsRef(truck) == "" then truck else ToTpmsRef(truck), ToCanonical(truck)} - {""}
  }

  /** Whatever keys the table has, an unassign that TPMS confirms takes the truck's row under both spellings, and
      a confirmed assign takes the left truck's under both and then has no other row fewer. */
  lemma BothSpellingsGo(t: Tables, args: Args)
    requires args.Plans() && args.Ldap() != "" && args.Padded() != ""
    ensures var lk, lk' := t.lastKnown, Committed(t, args).lastKnown;
            lk' == if args.action == Unassign then lk - Spellings(args.truckNumber)
                   else lk[args.Padded() := args.Ldap()] - Spellings(args.previousTechTruck)
  {
    var plan := PlanTpmsCacheWrites(args);
    DeletedIs(Upserted(t.lastKnown, plan.upserts), plan.deletes);
    UnfoldTwo(t.lastKnown, args.Padded(), args.Ldap(), map[], ("", None), ("", None));
    DeletesSpellings(args);
  }

  lemma VariantsAre(padded: string, canonical: string)
    ensures (set d | d in Variants(padded, canonical)) == {padded, canonical} - {""}
  {
  }

  lemma DeletesSpellings(args: Args)
    requires args.Plans() && args.Ldap() != ""
    ensures var deletes := PlanTpmsCacheWrites(args).deletes;
            (set d | d in deletes)
            == Spellings(if args.action == Unassign then args.truckNumber else args.previousTechTruck)
  {
    VariantsAre(args.Padded(), args.Canonical());
    var prev := args.previousTechTruck;
    VariantsAre(if ToTpmsRef(prev) == "" then prev else ToTpmsRef(prev), ToCanonical(prev));
    assert ToCanonical("") == "";
  }

  /** Writing through the same answer twice is writing it through once. */
  lemma PlanIsIdempotent(t: Tables, args: Args)
    ensures var plan := PlanTpmsCacheWrites(args);
            ApplyPlan(ApplyPlan(t, plan), plan) == ApplyPlan(t, plan)
  {
    var plan := PlanTpmsCacheWrites(args);
    DeletesAbsorb(t.lastKnown, plan);
    ProfilesAbsorb(t.profiles, args);
  }

  lemma {:induction false} DeletedIs(m: map<string, string>, ds: seq<string>)
    ensures Deleted(m, ds) == m - (set d | d in ds)
  {
    if ds != [] {
      DeletedIs(m, ds[..|ds| - 1]);
      assert ds == ds[..|ds| - 1] + [ds[|ds| - 1]];
    }
  }

  lemma DeletesAbsorb(m: map<string, string>, plan: Plan)
    requires |plan.upserts| <= 1
    ensures var once := Deleted(Upserted(m, plan.upserts), plan.deletes);
            Deleted(Upserted(once, plan.upserts), plan.deletes) == once
  {
    var once := Deleted(Upserted(m, plan.upserts), plan.deletes);
    DeletedIs(Upserted(m, plan.upserts), plan.deletes);
    DeletedIs(Upserted(once, plan.upserts), plan.deletes);
    if plan.upserts != [] {
      assert plan.upserts == [plan.upserts[0]] && plan.upserts[..0] == [];
    }
  }

  lemma TwoAbsorb(pf: map<string, Option<string>>, x: (string, Option<string>), y: (string, Option<string>))
    requires x.0 != y.0
    ensures ProfilesSet(ProfilesSet(pf, [x]), [x]) == ProfilesSet(pf, [x])
    ensures ProfilesSet(ProfilesSet(pf, [x, y]), [x, y]) == ProfilesSet(pf, [x, y])
  {
    UnfoldTwo(map[], "", "", pf, x, y);
    UnfoldTwo(map[], "", "", ProfilesSet(pf, [x]), x, y);
    UnfoldTwo(map[], "", "", ProfilesSet(pf, [x, y]), x, y);
  }

  lemma ProfilesAbsorb(pf: map<string, Option<string>>, args: Args)
    ensures var sets := PlanTpmsCacheWrites(args).profileSets;
            ProfilesSet(ProfilesSet(pf, sets), sets) == ProfilesSet(pf, sets)
  {
    var sets := PlanTpmsCacheWrites(args).profileSets;
    if |sets| == 1 {
      assert sets == [sets[0]];
      TwoAbsorb(pf, sets[0], (sets[0].0 + "x", None));
    } else if |sets| == 2 {
      assert sets == [sets[0], sets[1]];
      TwoAbsorb(pf, sets[0], sets[1]);
    }
  }

  // ── Whole runs of assignTech ───────────────────────────────────────────────

  /** What an unassign with its log row leaves in the two mirrors. */
  lemma LoggedUnassign(t: Tables, args: Args, commits: bool)
    requires KeysPadded(t.lastKnown) && args.action == Unassign && args.truckNumber != ""
    ensures var t', p := Logged(t, args, commits), ToTpmsRef(args.truckNumber);
            if !commits || !args.Plans() then t'.lastKnown == t.lastKnown && t'.profiles == t.profiles
            else
              && t'.lastKnown == t.lastKnown - {p}
              && t'.profiles == if args.CrossTruckSkip() then t.profiles else Released(t.profiles, args.Ldap())
  {
    if commits && args.Plans() {
      UnassignPlanned(t.(log := t.log + [NEW_LOG]), args.(logId := Some(|t.log|)));
    }
  }

  function Nulled(pf: map<string, Option<string>>, techs: set<string>): map<string, Option<string>> {
    map e | e in pf :: if e in techs then None else pf[e]
  }

  /** The trucks are exactly those on which the mirrors have one of the technicians. */
  ghost predicate Matched(lk: map<string, string>, trucks: set<string>, techs: set<string>) {
    forall k :: k in lk ==> (k in trucks <==> lk[k] in techs)
  }

  /** Taking trucks off one mirror and technicians off the other keeps them inverse exactly if these match. */
  lemma CutKeepsInverse(lk: map<string, string>, pf: map<string, Option<string>>, trucks: set<string>,
                        techs: set<string>)
    requires Inverse(lk, pf)
    ensures Inverse(lk - trucks, Nulled(pf, techs)) <==> Matched(lk, trucks, techs)
  {
    var lk', pf' := lk - trucks, Nulled(pf, techs);
    assert forall k :: k in lk && k !in trucks ==> lk'[k] == lk[k];
    if Matched(lk, trucks, techs) {
      forall e | e in pf' && pf'[e].Some?
        ensures pf'[e].value in lk' && lk'[pf'[e].value] == e
      {
        assert pf'[e] == pf[e];
      }
    }
    if Inverse(lk', pf') {
      forall k | k in lk
        ensures k in trucks <==> lk[k] in techs
      {
        assert pf[lk[k]] == Some(k);
        assert lk[k] in pf' && (lk[k] !in techs ==> pf'[lk[k]] == Some(k));
      }
    }
  }

  /** And so does then putting one of the technicians on one of the trucks. */
  lemma LinkKeepsInverse(lk: map<string, string>, pf: map<string, Option<string>>, trucks: set<string>,
                         techs: set<string>,
                         l: string, p: string)
    requires Inverse(lk, pf) && p in trucks && l in techs
    ensures Inverse((lk - trucks)[p := l], Nulled(pf, techs)[l := Some(p)]) <==> Matched(lk, trucks, techs)
  {
    CutKeepsInverse(lk, pf, trucks, techs);
    var lk', pf' := lk - trucks, Nulled(pf, techs);
    var lk2, pf2 := lk'[p := l], pf'[l := Some(p)];
    assert forall k :: k in lk' ==> k != p && lk2[k] == lk'[k];
    assert forall e :: e in pf' && e != l ==> pf2[e] == pf'[e];
    assert l in pf' ==> pf'[l] == None;
  }

  // ── What each stage of a run takes away ────────────────────────────────────

  /** The first unassign is reached, commits, and TPMS confirmed it. */
  predicate PreDone(truck: string, ldap: string, w: AssignWorld) {
    !w.locked && Relocates(truck, w) && w.preCommits && PreArgs(ldap, w).Plans()
  }

  predicate PastPre(truck: string, w: AssignWorld) { !w.locked && (Relocates(truck, w) ==> w.preCommits) }

  predicate EvictDone(truck: string, ldap: string, w: AssignWorld) {
    PastPre(truck, w) && Evicts(ldap, w) && w.displacedCommits && EvictArgs(truck, w).Plans()
  }

  predicate MainDone(truck: string, ldap: string, w: AssignWorld) {
    PastPre(truck, w) && (Evicts(ldap, w) ==> w.displacedCommits) && w.mainCommits && MainArgs(truck, ldap, w).Plans()
  }

  /** The truck the main assign sweeps; "" for none. */
  function Swept(truck: string, w: AssignWorld): string {
    if Relocates(truck, w) then ToTpmsRef(w.currentTruck) else ""
  }

  function If(p: bool, s: set<string>): set<string> { if p then s else {} }

  function PreTrucks(truck: string, ldap: string, w: AssignWorld): set<string> {
    If(PreDone(truck, ldap, w), {ToTpmsRef(w.currentTruck)})
  }

  function PreTechs(truck: string, ldap: string, w: AssignWorld): set<string> {
    If(PreDone(truck, ldap, w) && !PreArgs(ldap, w).CrossTruckSkip(), {PreArgs(ldap, w).Ldap()} - {""})
  }

  function EvictTrucks(truck: string, ldap: string, w: AssignWorld): set<string> {
    PreTrucks(truck, ldap, w) + If(EvictDone(truck, ldap, w), {ToTpmsRef(truck)})
  }

  function EvictTechs(truck: string, ldap: string, w: AssignWorld): set<string> {
    PreTechs(truck, ldap, w)
    + If(EvictDone(truck, ldap, w) && !EvictArgs(truck, w).CrossTruckSkip(), {EvictArgs(truck, w).Ldap()} - {""})
  }

  /** The trucks a run takes off last-known, or puts its technician on. */
  function CutTrucks(truck: string, ldap: string, w: AssignWorld): set<string> {
    EvictTrucks(truck, ldap, w) + If(MainDone(truck, ldap, w), {ToTpmsRef(truck), Swept(truck, w)})
  }

  /** The technicians a run takes off their truck, or puts on its truck. */
  function CutTechs(truck: string, ldap: string, w: AssignWorld): set<string> {
    EvictTechs(truck, ldap, w) + If(MainDone(truck, ldap, w), {ldap, NormalizeEnterpriseId(w.occupant)} - {""})
  }

  /** An unassign after some cuts makes one more, if TPMS confirmed it. */
  lemma LoggedCut(t: Tables, args: Args, commits: bool, lk: map<string, string>, pf: map<string, Option<string>>,
                  trucks: set<string>, techs: set<string>)
    requires KeysPadded(lk) && args.action == Unassign && args.truckNumber != ""
    requires t.lastKnown == lk - trucks && t.profiles == Nulled(pf, techs)
    ensures var t', done := Logged(t, args, commits), commits && args.Plans();
            && t'.lastKnown == lk - (trucks + if done then {ToTpmsRef(args.truckNumber)} else {})
            && t'.profiles == Nulled(pf, techs + if done && !args.CrossTruckSkip() then {args.Ldap()} - {""} else {})
  {
    LoggedUnassign(t, args, commits);
    CutMore(lk, pf, trucks, techs, ToTpmsRef(args.truckNumber), args.Ldap());
  }

  lemma CutMore(lk: map<string, string>, pf: map<string, Option<string>>, trucks: set<string>, techs: set<string>,
                p: string, l: string)
    ensures lk - trucks - {p} == lk - (trucks + {p}) && trucks + {} == trucks
    ensures Released(Nulled(pf, techs), l) == Nulled(pf, techs + ({l} - {""})) && techs + {} == techs
  {
  }

  lemma NoCut(lk: map<string, string>, pf: map<string, Option<string>>)
    ensures lk - {} == lk && Nulled(pf, {}) == pf
  {
  }

  lemma PreMirrors(t: Tables, truck: string, ldap: string, w: AssignWorld)
    requires KeysPadded(t.lastKnown) && !w.locked
    ensures AfterPre(t, truck, ldap, w).lastKnown == t.lastKnown - PreTrucks(truck, ldap, w)
    ensures AfterPre(t, truck, ldap, w).profiles == Nulled(t.profiles, PreTechs(truck, ldap, w))
  {
    NoCut(t.lastKnown, t.profiles);
    if Relocates(truck, w) {
      LoggedCut(t, PreArgs(ldap, w), w.preCommits, t.lastKnown, t.profiles, {}, {});
      assert PreTrucks(truck, ldap, w) == {} + PreTrucks(truck, ldap, w);
      assert PreTechs(truck, ldap, w) == {} + PreTechs(truck, ldap, w);
    }
  }

  lemma EvictMirrors(t: Tables, truck: string, ldap: string, w: AssignWorld)
    requires KeysPadded(t.lastKnown) && PastPre(truck, w) && Names(truck)
    ensures var t2 := AfterEviction(AfterPre(t, truck, ldap, w), truck, ldap, w);
            && t2.lastKnown == t.lastKnown - EvictTrucks(truck, ldap, w)
            && t2.profiles == Nulled(t.profiles, EvictTechs(truck, ldap, w))
  {
    var t1, trucks, techs := AfterPre(t, truck, ldap, w), PreTrucks(truck, ldap, w), PreTechs(truck, ldap, w);
    PreMirrors(t, truck, ldap, w);
    assert trucks + {} == trucks && techs + {} == techs;
    if Evicts(ldap, w) {
      LoggedCut(t1, EvictArgs(truck, w), w.displacedCommits, t.lastKnown, t.profiles, trucks, techs);
    }
  }

  lemma HandedIs(pf: map<string, Option<string>>, techs: set<string>, l: string, g: string, p: string)
    requires l != ""
    ensures Handed(Nulled(pf, techs), l, g, p) == Nulled(pf, techs + ({l, g} - {""}))[l := Some(p)]
  {
  }

  lemma SweptIs(lk: map<string, string>, trucks: set<string>, l: string, p: string, q: string)
    requires p != q
    ensures (lk - trucks)[p := l] - {q} == (lk - (trucks + {p, q}))[p := l]
  {
  }

  /** The main assign with its log row, if it commits and TPMS confirmed it. */
  lemma MainMirrors(t: Tables, truck: string, ldapId: string, w: AssignWorld)
    requires KeysPadded(t.lastKnown) && Names(truck) && NormalizeEnterpriseId(ldapId) != ""
    requires MainArgs(truck, NormalizeEnterpriseId(ldapId), w).Plans()
    ensures var ldap := NormalizeEnterpriseId(ldapId);
            var t' := Logged(t, MainArgs(truck, ldap, w), true);
            && IsRef(ToTpmsRef(truck)) && Swept(truck, w) != ToTpmsRef(truck)
            && t'.lastKnown == t.lastKnown[ToTpmsRef(truck) := ldap] - {Swept(truck, w)}
            && t'.profiles == Handed(t.profiles, ldap, NormalizeEnterpriseId(w.occupant), ToTpmsRef(truck))
  {
    AssignmentRuns.MainSpeaksOf(truck, ldapId, w, |t.log|);
    SameKeySameTruck(w.currentTruck, truck);
    AssignPlanned(t.(log := t.log + [NEW_LOG]),
                  MainArgs(truck, NormalizeEnterpriseId(ldapId), w).(logId := Some(|t.log|)));
  }

  lemma MainAfterCuts(t: Tables, truck: string, ldapId: string, w: AssignWorld, lk: map<string, string>,
                      pf: map<string, Option<string>>, trucks: set<string>, techs: set<string>)
    requires KeysPadded(lk) && Names(truck) && NormalizeEnterpriseId(ldapId) != ""
    requires MainArgs(truck, NormalizeEnterpriseId(ldapId), w).Plans()
    requires t.lastKnown == lk - trucks && t.profiles == Nulled(pf, techs)
    ensures var ldap, p := NormalizeEnterpriseId(ldapId), ToTpmsRef(truck);
            var t' := Logged(t, MainArgs(truck, ldap, w), true);
            && t'.lastKnown == (lk - (trucks + {p, Swept(truck, w)}))[p := ldap]
            && t'.profiles == Nulled(pf, techs + ({ldap, NormalizeEnterpriseId(w.occupant)} - {""}))[ldap := Some(p)]
  {
    var ldap := NormalizeEnterpriseId(ldapId);
    MainMirrors(t, truck, ldapId, w);
    HandedIs(pf, techs, ldap, NormalizeEnterpriseId(w.occupant), ToTpmsRef(truck));
    SweptIs(lk, trucks, ldap, ToTpmsRef(truck), Swept(truck, w));
  }

  lemma UnconfirmedMain(t: Tables, args: Args, commits: bool)
    requires !commits || !args.Plans()
    ensures Logged(t, args, commits).lastKnown == t.lastKnown && Logged(t, args, commits).profiles == t.profiles
  {
  }

  /** The mirrors after any run. */
  lemma AssignRunMirrors(t: Tables, truck: string, ldapId: string, w: AssignWorld)
    requires KeysPadded(t.lastKnown) && Names(truck) && NormalizeEnterpriseId(ldapId) != ""
    ensures var ldap, p := NormalizeEnterpriseId(ldapId), ToTpmsRef(truck);
            var t', trucks, techs := AssignRun(t, truck, ldap, w), CutTrucks(truck, ldap, w), CutTechs(truck, ldap, w);
            if MainDone(truck, ldap, w)
            then t'.lastKnown == (t.lastKnown - trucks)[p := ldap]
              && t'.profiles == Nulled(t.profiles, techs)[ldap := Some(p)]
            else t'.lastKnown == t.lastKnown - trucks && t'.profiles == Nulled(t.profiles, techs)
  {
    var ldap := NormalizeEnterpriseId(ldapId);
    var trucks, techs := EvictTrucks(truck, ldap, w), EvictTechs(truck, ldap, w);
    assert trucks + {} == trucks && techs + {} == techs;
    if w.locked {
      NoCut(t.lastKnown, t.profiles);
    } else if !PastPre(truck, w) {
      PreMirrors(t, truck, ldap, w);
      assert PreTrucks(truck, ldap, w) + {} == PreTrucks(truck, ldap, w);
      assert PreTechs(truck, ldap, w) + {} == PreTechs(truck, ldap, w);
    } else {
      var t2 := AfterEviction(AfterPre(t, truck, ldap, w), truck, ldap, w);
      EvictMirrors(t, truck, ldap, w);
      if MainDone(truck, ldap, w) {
        MainAfterCuts(t2, truck, ldapId, w, t.lastKnown, t.profiles, trucks, techs);
      } else if Evicts(ldap, w) ==> w.displacedCommits {
        UnconfirmedMain(t2, MainArgs(truck, ldap, w), w.mainCommits);
      }
    }
  }

  /** A whole assign, whatever TPMS answers, whomever it acted on, and wherever the run stops, leaves inverse
      mirrors inverse exactly if the trucks it takes off or fills are those on which they have the
      technicians it takes off or places. */
  lemma AssignRunKeepsMirrors(t: Tables, truck: string, ldapId: string, w: AssignWorld)
    requires Mirrored(t) && Names(truck) && NormalizeEnterpriseId(ldapId) != ""
    ensures var ldap := NormalizeEnterpriseId(ldapId);
            Mirrored(AssignRun(t, truck, ldap, w))
            <==> Matched(t.lastKnown, CutTrucks(truck, ldap, w), CutTechs(truck, ldap, w))
  {
    var ldap := NormalizeEnterpriseId(ldapId);
    AssignRunMirrors(t, truck, ldapId, w);
    PaddedIsRef(truck);
    MirroredIff(t, AssignRun(t, truck, ldap, w), CutTrucks(truck, ldap, w), CutTechs(truck, ldap, w),
                MainDone(truck, ldap, w), ldap, ToTpmsRef(truck));
  }

  lemma MirroredIff(t: Tables, t': Tables, trucks: set<string>, techs: set<string>, links: bool, l: string, p: string)
    requires Mirrored(t) && (links ==> p in trucks && l in techs && IsRef(p))
    requires t'.lastKnown == if links then (t.lastKnown - trucks)[p := l] else t.lastKnown - trucks
    requires t'.profiles == if links then Nulled(t.profiles, techs)[l := Some(p)] else Nulled(t.profiles, techs)
    ensures Mirrored(t') <==> Matched(t.lastKnown, trucks, techs)
  {
    assert KeysPadded(t'.lastKnown);
    if links {
      LinkKeepsInverse(t.lastKnown, t.profiles, trucks, techs, l, p);
    } else {
      CutKeepsInverse(t.lastKnown, t.profiles, trucks, techs);
    }
  }

  /** What a run of assignTech learns from outside is what the mirrors say: the technician's current
      truck, if it must be left, is the one they are recorded on, and the occupant found is the recorded
      keeper of the target. */
  ghost predicate Agrees(lk: map<string, string>, pf: map<string, Option<string>>, truck: string, ldap: string,
                         w: AssignWorld) {
    var p, q, occupant := ToTpmsRef(truck), ToTpmsRef(w.currentTruck), NormalizeEnterpriseId(w.occupant);
    && (if Relocates(truck, w) then Keeper(lk, pf, ldap, q) else ldap in pf && pf[ldap].Some? ==> pf[ldap].value == p)
    && (if Evicts(ldap, w) then Keeper(lk, pf, occupant, p) else p in lk ==> lk[p] == ldap)
  }

  /** The preparatory unassigns acted on the technicians they were asked to. */
  predicate ActsAsAsked(truck: string, ldap: string, w: AssignWorld) {
    && PreArgs(ldap, w).Ldap() == ldap && !PreArgs(ldap, w).CrossTruckSkip()
    && EvictArgs(truck, w).Ldap() == NormalizeEnterpriseId(w.occupant) && !EvictArgs(truck, w).CrossTruckSkip()
  }

  /** They did if TPMS named them or nobody, and found neither on another truck. */
  lemma AnswersActAsAsked(truck: string, ldapId: string, w: AssignWorld)
    requires var effective := NormalizeEnterpriseId(w.pre.tpms.effectiveLdap);
             effective == "" || effective == NormalizeEnterpriseId(ldapId)
    requires var effective := NormalizeEnterpriseId(w.displaced.tpms.effectiveLdap);
             effective == "" || effective == NormalizeEnterpriseId(w.occupant)
    requires !w.pre.tpms.crossTruck && !w.displaced.tpms.crossTruck
    ensures ActsAsAsked(truck, NormalizeEnterpriseId(ldapId), w)
  {
    NormalizeIsIdempotent(ldapId);
    NormalizeIsIdempotent(w.occupant);
  }

  /** The same for one truck `k`, with `l` to leave truck `q` ("" for none), and `g` (if `evicts`) or at most
      `l` itself on truck `p`. */
  lemma AgreedTruck(lk: map<string, string>, pf: map<string, Option<string>>, l: string, g: string, p: string,
                    q: string,
                    evicts: bool, k: string)
    requires Inverse(lk, pf) && k in lk && k != "" && l != "" && p != q
    requires if q != "" then Keeper(lk, pf, l, q) else l in pf && pf[l].Some? ==> pf[l].value == p
    requires if evicts then g != l && g != "" && Keeper(lk, pf, g, p)
             else (g == l || g == "") && (p in lk ==> lk[p] == l)
    ensures q != "" ==> (k == q <==> lk[k] == l)
    ensures evicts ==> (k == p <==> lk[k] == g)
    ensures k == p || k == q <==> lk[k] == l || (lk[k] == g && g != "")
  {
    assert pf[lk[k]] == Some(k);
  }

  /** What the stages cut when TPMS acts as asked. */
  lemma CutsAsAsked(truck: string, ldap: string, w: AssignWorld)
    requires ActsAsAsked(truck, ldap, w) && ldap != ""
    ensures var g, p, q := NormalizeEnterpriseId(w.occupant), ToTpmsRef(truck), Swept(truck, w);
            var pre, evict, main := PreDone(truck, ldap, w), EvictDone(truck, ldap, w), MainDone(truck, ldap, w);
            && CutTrucks(truck, ldap, w) == If(pre, {q}) + If(evict, {p}) + If(main, {p, q})
            && CutTechs(truck, ldap, w) == If(pre, {ldap}) + If(evict, {g}) + If(main, {ldap, g} - {""})
            && (pre ==> Relocates(truck, w)) && (evict ==> Evicts(ldap, w))
  {
  }

  lemma StagesMatch(k: string, h: string, l: string, g: string, p: string, q: string, pre: bool, evict: bool,
                    main: bool)
    requires l != "" && (pre ==> (k == q <==> h == l)) && (evict ==> (k == p <==> h == g))
    requires k == p || k == q <==> h == l || (h == g && g != "")
    ensures k in If(pre, {q}) + If(evict, {p}) + If(main, {p, q})
            <==> h in If(pre, {l}) + If(evict, {g}) + If(main, {l, g} - {""})
  {
  }

  lemma RefsNameTrucks(truck: string)
    requires ToCanonical(truck) != ""
    ensures ToTpmsRef(truck) != ""
  {
  }

  /** So a run that learns what the mirrors say, of a TPMS that acts on whom it was asked to, keeps them
      inverse however each of its steps ends. */
  lemma AgreeingRunMatches(t: Tables, truck: string, ldap: string, w: AssignWorld)
    requires Mirrored(t) && Names(truck) && ldap != ""
    requires Agrees(t.lastKnown, t.profiles, truck, ldap, w) && ActsAsAsked(truck, ldap, w)
    ensures Matched(t.lastKnown, CutTrucks(truck, ldap, w), CutTechs(truck, ldap, w))
  {
    var lk, g, p, q := t.lastKnown, NormalizeEnterpriseId(w.occupant), ToTpmsRef(truck), Swept(truck, w);
    SameKeySameTruck(w.currentTruck, truck);
    PaddedIsRef(truck);
    CutsAsAsked(truck, ldap, w);
    if Relocates(truck, w) {
      RefsNameTrucks(w.currentTruck);
    }
    forall k | k in lk
      ensures k in CutTrucks(truck, ldap, w) <==> lk[k] in CutTechs(truck, ldap, w)
    {
      assert IsRef(k);
      AgreedTruck(lk, t.profiles, ldap, g, p, q, Evicts(ldap, w), k);
      StagesMatch(k, lk[k], ldap, g, p, q, PreDone(truck, ldap, w), EvictDone(truck, ldap, w),
                  MainDone(truck, ldap, w));
    }
  }

  // ── Whole runs of unassignTech ─────────────────────────────────────────────

  lemma {:induction false} BTrimKeeps(s: string)
    requires s == "" || (s[0] != ' ' && s[|s| - 1] != ' ')
    ensures BTrim(s) == s
  {
  }

  lemma {:induction false} BTrimOfRef(k: string)
    requires IsRef(k)
    ensures BTrim(k) == k
  {
    var c := ToCanonical(k);
    CanonicalShape(k);
    PaddedRoundTrip(k);
    assert k == PadSix(c) && k[|k| - 1] == c[|c| - 1] && k[0] != ' ';
    BTrimKeeps(k);
  }

  /** Spaces around a stored number do not hide it from the purge. */
  lemma {:induction false} BTrimOfPadded(before: string, k: string, after: string)
    requires forall i :: 0 <= i < |before| ==> before[i] == ' '
    requires forall i :: 0 <= i < |after| ==> after[i] == ' '
    requires k != "" && k[0] != ' ' && k[|k| - 1] != ' '
    ensures BTrim(before + k + after) == k
    decreases |before| + |after|
  {
    var s := before + k + after;
    if before != "" {
      assert s[1..] == before[1..] + k + after;
      BTrimOfPadded(before[1..], k, after);
    } else if after != "" {
      var n := |after| - 1;
      assert s[..|s| - 1] == k + after[..n] && s[0] == k[0];
      assert before + k + after[..n] == k + after[..n];
      BTrimOfPadded(before, k, after[..n]);
    } else {
      assert s == k;
      BTrimKeeps(k);
    }
  }

  /** Among padded keys the purge recognises the truck it was asked about and no other, except that it
      never recognises truck "0". */
  lemma PurgeRecognises(k: string, truck: string)
    requires IsRef(k) && Names(truck)
    ensures StripZeros(BTrim(k)) == ToCanonical(truck) <==> ToTpmsRef(truck) == k && ToCanonical(truck) != "0"
  {
    var c := ToCanonical(k);
    CanonicalShape(k);
    CanonicalShape(truck);
    BTrimOfRef(k);
    if |c| < 6 {
      StripPadding(6 - |c|, c);
    }
    StripZerosShape(k);
    StripStripped(Trim(k));
    SameKeySameTruck(k, truck);
    PaddedRoundTrip(truck);
  }

  /** On inverse mirrors the purge nulls exactly the profile of the truck's recorded keeper. */
  lemma PurgedIs(t: Tables, truck: string)
    requires Mirrored(t) && Names(truck)
    ensures var p := ToTpmsRef(truck);
            Purged(t.profiles, truck)
            == if p in t.lastKnown && ToCanonical(truck) != "0" then t.profiles[t.lastKnown[p] := None] else t.profiles
  {
    forall e | e in t.profiles && t.profiles[e].Some?
      ensures StripZeros(BTrim(t.profiles[e].value)) == ToCanonical(truck)
              <==> ToTpmsRef(truck) == t.profiles[e].value && ToCanonical(truck) != "0"
    {
      PurgeRecognises(t.profiles[e].value, truck);
    }
  }

  lemma OrphanBreaks(lk: map<string, string>, pf: map<string, Option<string>>, p: string)
    requires Inverse(lk, pf) && p in lk
    ensures !Inverse(lk, pf[lk[p] := None])
    ensures Inverse(lk - {p}, pf[lk[p] := None])
  {
    assert pf[lk[p]] == Some(p);
  }

  /** The purge at the start of unassignTech nulls profiles without touching last-known rows, so on its own
      it keeps the mirrors inverse exactly when nobody is recorded on the truck (or it is truck "0"). */
  lemma PurgeKeepsMirrors(t: Tables, truck: string)
    requires Mirrored(t) && Names(truck)
    ensures Mirrored(t.(profiles := Purged(t.profiles, truck)))
            <==> ToTpmsRef(truck) !in t.lastKnown || ToCanonical(truck) == "0"
  {
    PurgedIs(t, truck);
    if ToTpmsRef(truck) in t.lastKnown {
      OrphanBreaks(t.lastKnown, t.profiles, ToTpmsRef(truck));
    }
  }

  /** What must hold of the tables and the answers for an unassign to leave inverse mirrors inverse. With
      no confirmation: no purge of anybody. With a cross-truck answer, which drops the truck's last-known
      row: a purge that took its keeper's profile too, or no such row. When TPMS carried it out: the keeper
      purged, or released, or nobody; and the released technician recorded on no other truck. */
  predicate UnassignAgrees(t: Tables, truck: string, ldap: string, w: UnassignWorld) {
    var args, p := UnassignArgs(truck, ldap, w.legs, "manual"), ToTpmsRef(truck);
    var purges, l := w.purges && ToCanonical(truck) != "0", args.Ldap();
    if w.locked then true
    else if !w.commits || !args.Plans() then !purges || p !in t.lastKnown
    else if args.CrossTruckSkip() then purges || p !in t.lastKnown
    else
      && (p in t.lastKnown ==> purges || (t.lastKnown[p] == l && l != ""))
      && (l != "" && l in t.profiles && t.profiles[l].Some? ==> t.profiles[l].value == p)
  }

  lemma PurgedReleaseKeeps(lk: map<string, string>, pf: map<string, Option<string>>, l: string, p: string)
    requires Inverse(lk, pf) && p in lk
    ensures Inverse(lk - {p}, Released(pf[lk[p] := None], l))
            <==> (l != "" && l in pf && pf[l].Some? ==> pf[l].value == p)
  {
    OrphanBreaks(lk, pf, p);
    var lk', pf' := lk - {p}, pf[lk[p] := None];
    assert l != lk[p] && l in pf ==> pf'[l] == pf[l];
    ReleaseKeepsInverse(lk', pf', l, p);
  }

  /** The tables a committed unassign leaves in the two mirrors. */
  lemma UnassignRunMirrors(t: Tables, truck: string, ldap: string, w: UnassignWorld)
    requires KeysPadded(t.lastKnown) && Names(truck) && !w.locked
    ensures var t', args := UnassignRun(t, truck, ldap, w), UnassignArgs(truck, ldap, w.legs, "manual");
            var pf, p := if w.purges then Purged(t.profiles, truck) else t.profiles, ToTpmsRef(truck);
            if !w.commits || !args.Plans() then t'.lastKnown == t.lastKnown && t'.profiles == pf
            else
              && t'.lastKnown == t.lastKnown - {p}
              && t'.profiles == if args.CrossTruckSkip() then pf else Released(pf, args.Ldap())
  {
    var purged := if w.purges then t.(profiles := Purged(t.profiles, truck)) else t;
    LoggedUnassign(purged, UnassignArgs(truck, ldap, w.legs, "manual"), w.commits);
  }

  /** A whole unassign, whatever TPMS answers and whether or not it commits, leaves inverse mirrors inverse
      exactly under that condition on the tables before it. */
  lemma UnassignRunKeepsMirrors(t: Tables, truck: string, ldap: string, w: UnassignWorld)
    requires Mirrored(t) && Names(truck)
    ensures Mirrored(UnassignRun(t, truck, ldap, w)) <==> UnassignAgrees(t, truck, ldap, w)
  {
    if !w.locked {
      var lk, pf, p := t.lastKnown, t.profiles, ToTpmsRef(truck);
      var l := UnassignArgs(truck, ldap, w.legs, "manual").Ldap();
      UnassignRunMirrors(t, truck, ldap, w);
      PurgedIs(t, truck);
      assert KeysPadded(UnassignRun(t, truck, ldap, w).lastKnown);
      ReleaseKeepsInverse(lk, pf, l, p);
      DropKeepsInverse(lk, pf, p);
      if p in lk {
        OrphanBreaks(lk, pf, p);
        PurgedReleaseKeeps(lk, pf, l, p);
      }
    }
  }
}
