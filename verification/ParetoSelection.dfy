/** Pareto frontier and minimum-sufficient choice over reconciled profiles. */
module ParetoSelection {
  import opened Prelude
  import opened Sorting

  datatype Profile = Profile(
    profileId: string,
    successRate: real,
    auditability: real,
    severeFailureRate: real,
    reconciled: bool,
    costUsd: Option<real>,
    latencySeconds: real)

  /** `ParetoProfile.__post_init__`, as far as it concerns the selection. */
  predicate Valid(p: Profile) {
    && p.profileId != "" && 0.0 <= p.successRate <= 1.0
    && 0.0 <= p.auditability <= 1.0 && 0.0 <= p.severeFailureRate <= 1.0
    && (p.reconciled <==> p.costUsd.Some?) && (p.costUsd.Some? ==> p.costUsd.value >= 0.0) && p.latencySeconds >= 0.0
  }

  predicate AllValid(profiles: seq<Profile>) {
    forall k :: 0 <= k < |profiles| ==> Valid(profiles[k])
  }

  predicate NoWorse(l: Profile, r: Profile)
    requires l.costUsd.Some? && r.costUsd.Some?
  {
    && l.successRate >= r.successRate && l.auditability >= r.auditability
    && l.severeFailureRate <= r.severeFailureRate && l.costUsd.value <= r.costUsd.value
    && l.latencySeconds <= r.latencySeconds
  }

  predicate Dominates(l: Profile, r: Profile)
    requires l.costUsd.Some? && r.costUsd.Some?
  {
    NoWorse(l, r) &&
    (|| l.successRate > r.successRate || l.auditability > r.auditability
     || l.severeFailureRate < r.severeFailureRate || l.costUsd.value < r.costUsd.value
     || l.latencySeconds < r.latencySeconds)
  }

  // ----- Frontier -----

  datatype FrontierError = NoProfiles | DuplicateProfileId

  datatype Frontier = Frontier(frontier: seq<Profile>, excluded: seq<string>)

  function Reconciled(): Profile -> bool { (p: Profile) => p.reconciled && p.costUsd.Some? }

  function Unknown(): Profile -> bool { (p: Profile) => !p.reconciled }

  /** No other reconciled profile dominates p. */
  function Undominated(pool: seq<Profile>): Profile -> bool {
    (p: Profile) => p.costUsd.Some? &&
         forall k :: 0 <= k < |pool| ==>
           !(pool[k].profileId != p.profileId && pool[k].costUsd.Some? && Dominates(pool[k], p))
  }

  function IdOf(p: Profile): string { p.profileId }

  function ParetoFrontier(profiles: seq<Profile>): Result<Frontier, FrontierError> {
    if profiles == [] then Err(NoProfiles)
    else if !Distinct(MapSeq(IdOf, profiles)) then Err(DuplicateProfileId)
    else
      var pool := Keep(Reconciled(), profiles);
      Ok(Frontier(Keep(Undominated(pool), pool), MapSeq(IdOf, Keep(Unknown(), profiles))))
  }

  /** Dominance is a strict partial order. */
  lemma {:induction false} DominanceIsStrictOrder(a: Profile, b: Profile, c: Profile)
    requires a.costUsd.Some? && b.costUsd.Some? && c.costUsd.Some?
    ensures !Dominates(a, a)
    ensures Dominates(a, b) ==> !Dominates(b, a)
    ensures Dominates(a, b) && Dominates(b, c) ==> Dominates(a, c)
  {
  }

  /** A profile set with unique ids, all of it reconciled. */
  ghost predicate Pool(pool: seq<Profile>) {
    && (forall k :: 0 <= k < |pool| ==> pool[k].costUsd.Some?)
    && (forall i, j :: 0 <= i < j < |pool| ==> pool[i].profileId != pool[j].profileId)
  }

  lemma {:induction false} PoolOf(profiles: seq<Profile>)
    requires Distinct(MapSeq(IdOf, profiles))
    ensures Pool(Keep(Reconciled(), profiles))
    ensures forall p :: p in Keep(Reconciled(), profiles) <==> p in profiles && p.reconciled && p.costUsd.Some?
  {
    KeepMembers(Reconciled(), profiles);
    forall i, j | 0 <= i < j < |profiles| ensures IdOf(profiles[i]) != IdOf(profiles[j]) {
      assert MapSeq(IdOf, profiles)[i] != MapSeq(IdOf, profiles)[j];
    }
    KeepDistinct(Reconciled(), profiles, IdOf);
    var pool := Keep(Reconciled(), profiles);
    forall k | 0 <= k < |pool| ensures pool[k].costUsd.Some? {
      assert pool[k] in pool;
    }
    forall i, j | 0 <= i < j < |pool| ensures pool[i].profileId != pool[j].profileId {
      assert IdOf(pool[i]) != IdOf(pool[j]);
    }
  }

  lemma {:induction false} SameIdSameProfile(pool: seq<Profile>, p: Profile, q: Profile)
    requires Pool(pool) && p in pool && q in pool && p.profileId == q.profileId
    ensures p == q
  {
    var i :| 0 <= i < |pool| && pool[i] == p;
    var j :| 0 <= j < |pool| && pool[j] == q;
  }

  lemma {:induction false} NotUndominated(pool: seq<Profile>, p: Profile) returns (q: Profile)
    requires Pool(pool) && p in pool && !Undominated(pool)(p)
    ensures q in pool && q.costUsd.Some? && p.costUsd.Some? && Dominates(q, p)
  {
    assert p.costUsd.Some?;
    var k :| 0 <= k < |pool| && pool[k].profileId != p.profileId && pool[k].costUsd.Some? && Dominates(pool[k], p);
    q := pool[k];
  }

  ghost function Dominators(pool: seq<Profile>, p: Profile): set<Profile>
    requires p.costUsd.Some?
  {
    set q | q in pool && q.costUsd.Some? && Dominates(q, p)
  }

  /** Every reconciled profile is on the frontier or dominated by one that is. */
  lemma {:induction false} FrontierCovers(pool: seq<Profile>, p: Profile) returns (best: Profile)
    requires Pool(pool) && p in pool
    ensures best in pool && Undominated(pool)(best) && best.costUsd.Some? && p.costUsd.Some?
    ensures best == p || Dominates(best, p)
    decreases |if p.costUsd.Some? then Dominators(pool, p) else {}|
  {
    if Undominated(pool)(p) {
      best := p;
    } else {
      var q := NotUndominated(pool, p);
      var above, below := Dominators(pool, q), Dominators(pool, p);
      forall x | x in above ensures x in below {
        DominanceIsStrictOrder(x, q, p);
      }
      DominanceIsStrictOrder(q, q, q);
      assert q in below && q !in above;
      SubsetSize(above, below - {q});
      best := FrontierCovers(pool, q);
      DominanceIsStrictOrder(best, q, p);
    }
  }

  /** What the published frontier is: an antichain of reconciled profiles that covers every reconciled profile. */
  lemma {:induction false} FrontierIsPareto(profiles: seq<Profile>)
    requires ParetoFrontier(profiles).Ok?
    ensures var f := ParetoFrontier(profiles).value.frontier;
            && (forall p :: p in f ==> p in profiles && p.reconciled && p.costUsd.Some?)
            && (forall p, q :: p in f && q in f && p.costUsd.Some? && q.costUsd.Some? ==> !Dominates(p, q))
            && (forall p :: p in profiles && p.reconciled && p.costUsd.Some? && p !in f ==>
                  exists q :: q in f && q.costUsd.Some? && Dominates(q, p))
            && ((exists p :: p in profiles && p.reconciled && p.costUsd.Some?) ==> f != [])
  {
    var pool := Keep(Reconciled(), profiles);
    PoolOf(profiles);
    KeepMembers(Undominated(pool), pool);
    var f := Keep(Undominated(pool), pool);
    forall p, q | p in f && q in f && p.costUsd.Some? && q.costUsd.Some? ensures !Dominates(p, q) {
      DominanceIsStrictOrder(p, p, p);
      if p.profileId == q.profileId {
        SameIdSameProfile(pool, p, q);
      } else {
        var k :| 0 <= k < |pool| && pool[k] == p;
        assert Undominated(pool)(q);
      }
    }
    forall p | p in pool ensures p in f || exists q :: q in f && q.costUsd.Some? && Dominates(q, p) {
      var best := FrontierCovers(pool, p);
      assert best in f;
    }
  }

  lemma {:induction false} FrontierIsPool(profiles: seq<Profile>)
    requires ParetoFrontier(profiles).Ok?
    ensures Pool(ParetoFrontier(profiles).value.frontier)
  {
    var pool := Keep(Reconciled(), profiles);
    PoolOf(profiles);
    KeepDistinct(Undominated(pool), pool, IdOf);
    KeepMembers(Undominated(pool), pool);
    var f := Keep(Undominated(pool), pool);
    forall k | 0 <= k < |f| ensures f[k].costUsd.Some? { assert f[k] in f; }
    forall i, j | 0 <= i < j < |f| ensures f[i].profileId != f[j].profileId { assert IdOf(f[i]) != IdOf(f[j]); }
  }

  /** An antichain of reconciled profiles is its own frontier. */
  lemma {:induction false} AntichainIsFixed(f: seq<Profile>)
    requires Pool(f) && f != [] && forall p :: p in f ==> p.reconciled && p.costUsd.Some?
    requires forall p, q :: p in f && q in f && p.costUsd.Some? && q.costUsd.Some? ==> !Dominates(p, q)
    ensures ParetoFrontier(f) == Ok(Frontier(f, []))
  {
    assert Distinct(MapSeq(IdOf, f)) by {
      forall i, j | 0 <= i < j < |f| ensures MapSeq(IdOf, f)[i] != MapSeq(IdOf, f)[j] {
        assert IdOf(f[i]) != IdOf(f[j]);
      }
    }
    KeepAll(Reconciled(), f);
    forall p | p in f ensures Undominated(f)(p) {
      assert forall k :: 0 <= k < |f| ==> f[k] in f;
    }
    KeepAll(Undominated(f), f);
    KeepNone(Unknown(), f);
    assert MapSeq(IdOf, Keep(Unknown(), f)) == [];
  }

  /** Taking the frontier of the frontier changes nothing. */
  lemma {:induction false} FrontierIsFixedPoint(profiles: seq<Profile>)
    requires ParetoFrontier(profiles).Ok? && ParetoFrontier(profiles).value.frontier != []
    ensures ParetoFrontier(ParetoFrontier(profiles).value.frontier)
            == Ok(Frontier(ParetoFrontier(profiles).value.frontier, []))
  {
    FrontierIsPareto(profiles);
    FrontierIsPool(profiles);
    AntichainIsFixed(ParetoFrontier(profiles).value.frontier);
  }

  // ----- Minimum sufficient profile -----

  datatype Constraints = Constraints(
    maxSevereFailureRate: real, maxCostUsd: real, maxLatencySeconds: real, minSuccessRate: real, minAuditability: real)

  datatype Choice = Hold | MatchProfile(profile: Profile)

  function Sufficient(c: Constraints): Profile -> bool {
    (p: Profile) =>
      && p.reconciled && p.costUsd.Some?
      && p.severeFailureRate <= c.maxSevereFailureRate
      && p.costUsd.value <= c.maxCostUsd && p.latencySeconds <= c.maxLatencySeconds
      && p.successRate >= c.minSuccessRate && p.auditability >= c.minAuditability
  }

  /** The key (cost, latency, -success, -auditability, id), compared lexicographically. */
  predicate KeyLe(a: Profile, b: Profile)
    requires a.costUsd.Some? && b.costUsd.Some?
  {
    if a.costUsd.value != b.costUsd.value then a.costUsd.value < b.costUsd.value
    else if a.latencySeconds != b.latencySeconds then a.latencySeconds < b.latencySeconds
    else if a.successRate != b.successRate then a.successRate > b.successRate
    else if a.auditability != b.auditability then a.auditability > b.auditability
    else StringLe(a.profileId, b.profileId)
  }

  predicate AllCosted(s: seq<Profile>) {
    forall k :: 0 <= k < |s| ==> s[k].costUsd.Some?
  }

  /** `min(candidates, key=...)`: the first of the smallest. */
  function MinByKey(s: seq<Profile>): Profile
    requires s != [] && AllCosted(s)
    ensures MinByKey(s) in s
  {
    if |s| == 1 then s[0]
    else
      var before := MinByKey(s[..|s| - 1]);
      if KeyLe(before, s[|s| - 1]) then before else s[|s| - 1]
  }

  lemma {:induction false} SufficientCosted(profiles: seq<Profile>, c: Constraints)
    ensures AllCosted(Keep(Sufficient(c), profiles))
  {
    KeepMembers(Sufficient(c), profiles);
    var s := Keep(Sufficient(c), profiles);
    forall k | 0 <= k < |s| ensures s[k].costUsd.Some? { assert s[k] in s; }
  }

  function MinimumSufficient(profiles: seq<Profile>, c: Constraints): Choice {
    var candidates := Keep(Sufficient(c), profiles);
    SufficientCosted(profiles, c);
    if candidates == [] then Hold else MatchProfile(MinByKey(candidates))
  }

  lemma {:induction false} KeyOrder(a: Profile, b: Profile, c: Profile)
    requires a.costUsd.Some? && b.costUsd.Some? && c.costUsd.Some?
    ensures KeyLe(a, b) || KeyLe(b, a)
    ensures KeyLe(a, b) && KeyLe(b, c) ==> KeyLe(a, c)
    ensures KeyLe(a, b) && KeyLe(b, a) ==> a.profileId == b.profileId
  {
    StringLeTotal(a.profileId, b.profileId);
    if StringLe(a.profileId, b.profileId) && StringLe(b.profileId, c.profileId) {
      StringLeTransitive(a.profileId, b.profileId, c.profileId);
    }
  }

  lemma {:induction false} MinByKeyIsLeast(s: seq<Profile>, p: Profile)
    requires s != [] && AllCosted(s) && p in s
    ensures p.costUsd.Some? && KeyLe(MinByKey(s), p)
  {
    var last := s[|s| - 1];
    if |s| == 1 {
      KeyOrder(p, p, p);
    } else {
      var before := s[..|s| - 1];
      assert s == before + [last];
      KeyOrder(MinByKey(before), last, last);
      KeyOrder(last, last, last);
      if p in before {
        MinByKeyIsLeast(before, p);
        KeyOrder(last, MinByKey(before), p);
      }
    }
  }

  /** HOLD exactly when nothing suffices; otherwise the choice suffices and nothing sufficient comes before it. */
  lemma {:induction false} ChoiceIsCheapestSufficient(profiles: seq<Profile>, c: Constraints)
    ensures MinimumSufficient(profiles, c).Hold? <==> forall p :: p in profiles ==> !Sufficient(c)(p)
    ensures MinimumSufficient(profiles, c).MatchProfile? ==>
              var chosen := MinimumSufficient(profiles, c).profile;
              && chosen in profiles && Sufficient(c)(chosen)
              && forall p :: p in profiles && Sufficient(c)(p) ==> p.costUsd.Some? && KeyLe(chosen, p)
  {
    var candidates := Keep(Sufficient(c), profiles);
    KeepMembers(Sufficient(c), profiles);
    SufficientCosted(profiles, c);
    if candidates != [] {
      assert candidates[0] in candidates;
      forall p | p in profiles && Sufficient(c)(p) ensures p.costUsd.Some? && KeyLe(MinByKey(candidates), p) {
        MinByKeyIsLeast(candidates, p);
      }
    } else {
      forall p | p in profiles ensures !Sufficient(c)(p) { }
    }
  }

  // ----- The same, comparison by comparison -----

  /** q is at least as good in each of the five measures, and not the same in all. */
  predicate Better(q: Profile, p: Profile) {
    && q.costUsd.Some? && p.costUsd.Some? && q.costUsd.value <= p.costUsd.value
    && q.latencySeconds <= p.latencySeconds && q.severeFailureRate <= p.severeFailureRate
    && p.successRate <= q.successRate && p.auditability <= q.auditability
    && !(&& q.costUsd == p.costUsd && q.latencySeconds == p.latencySeconds
         && q.severeFailureRate == p.severeFailureRate && q.successRate == p.successRate
         && q.auditability == p.auditability)
  }

  /** The frontier holds exactly the reconciled profiles than which no reconciled one is better. */
  lemma {:induction false} FrontierExactly(profiles: seq<Profile>, p: Profile)
    requires ParetoFrontier(profiles).Ok?
    ensures p in ParetoFrontier(profiles).value.frontier
            <==> && p in profiles && p.reconciled && p.costUsd.Some?
                 && forall q :: q in profiles && q.reconciled && q.costUsd.Some? ==> !Better(q, p)
  {
    var pool := Keep(Reconciled(), profiles);
    PoolOf(profiles);
    KeepMembers(Undominated(pool), pool);
    if p in pool {
      assert p.costUsd.Some?;
      forall q | q in pool ensures q.costUsd.Some? && (Better(q, p) <==> Dominates(q, p)) {
        assert q.costUsd.Some?;
      }
      if Undominated(pool)(p) {
        forall q | q in pool ensures !Better(q, p) {
          if q.profileId == p.profileId { SameIdSameProfile(pool, q, p); }
          var k :| 0 <= k < |pool| && pool[k] == q;
        }
      } else {
        var q := NotUndominated(pool, p);
      }
    }
  }

  /** Within all five constraints, with a reconciled cost. */
  predicate Meets(p: Profile, c: Constraints) {
    && p.reconciled && p.costUsd.Some? && p.costUsd.value <= c.maxCostUsd
    && p.latencySeconds <= c.maxLatencySeconds && p.severeFailureRate <= c.maxSevereFailureRate
    && c.minSuccessRate <= p.successRate && c.minAuditability <= p.auditability
  }

  /** p costs less than q, or as much and is faster, or then succeeds more often, or then is easier to audit. */
  predicate Precedes(p: Profile, q: Profile) {
    && p.costUsd.Some? && q.costUsd.Some?
    && (|| p.costUsd.value < q.costUsd.value
        || (p.costUsd == q.costUsd && p.latencySeconds < q.latencySeconds)
        || (p.costUsd == q.costUsd && p.latencySeconds == q.latencySeconds && p.successRate > q.successRate)
        || (p.costUsd == q.costUsd && p.latencySeconds == q.latencySeconds && p.successRate == q.successRate
            && p.auditability > q.auditability))
  }

  /** Nothing meets the constraints, or the choice does and nothing that does precedes it; ids settle the rest. */
  lemma {:induction false} ChoiceExactly(profiles: seq<Profile>, c: Constraints)
    ensures match MinimumSufficient(profiles, c)
            case Hold => forall p :: p in profiles ==> !Meets(p, c)
            case MatchProfile(chosen) =>
              && chosen in profiles && Meets(chosen, c)
              && forall p :: p in profiles && Meets(p, c) ==>
                   && !Precedes(p, chosen) && (Precedes(chosen, p) || StringLe(chosen.profileId, p.profileId))
  {
    ChoiceIsCheapestSufficient(profiles, c);
    forall p | p in profiles ensures Meets(p, c) <==> Sufficient(c)(p) {
    }
  }

  /** q ties p on everything the key sees, and only its severe-failure rate is lower. */
  predicate OnlyLessSevere(q: Profile, p: Profile) {
    && q.costUsd == p.costUsd && q.latencySeconds == p.latencySeconds
    && q.successRate == p.successRate && q.auditability == p.auditability
    && q.severeFailureRate < p.severeFailureRate
  }

  /** A reconciled profile dominates the choice exactly when it is the same but less severe. */
  lemma {:induction false} DominatorOfTheChoice(profiles: seq<Profile>, c: Constraints, q: Profile)
    requires MinimumSufficient(profiles, c).MatchProfile?
    requires q in profiles && q.reconciled && q.costUsd.Some?
    ensures var chosen := MinimumSufficient(profiles, c).profile;
            chosen.costUsd.Some? && (Dominates(q, chosen) <==> OnlyLessSevere(q, chosen))
  {
    ChoiceIsCheapestSufficient(profiles, c);
    var chosen := MinimumSufficient(profiles, c).profile;
    if Dominates(q, chosen) {
      assert Sufficient(c)(q);
      assert KeyLe(chosen, q);
    }
  }

  /** The choice is on the frontier exactly when no reconciled profile is the same but less severe. */
  lemma {:induction false} ChoiceOnFrontierExactly(profiles: seq<Profile>, c: Constraints)
    requires ParetoFrontier(profiles).Ok? && MinimumSufficient(profiles, c).MatchProfile?
    ensures var chosen := MinimumSufficient(profiles, c).profile;
            chosen in ParetoFrontier(profiles).value.frontier <==>
            forall q :: q in profiles && q.reconciled && q.costUsd.Some? ==> !OnlyLessSevere(q, chosen)
  {
    var chosen := MinimumSufficient(profiles, c).profile;
    ChoiceIsCheapestSufficient(profiles, c);
    PoolOf(profiles);
    var pool := Keep(Reconciled(), profiles);
    KeepMembers(Undominated(pool), pool);
    FrontierIsPareto(profiles);
    forall q | q in pool ensures q.costUsd.Some? && (Dominates(q, chosen) <==> OnlyLessSevere(q, chosen)) {
      DominatorOfTheChoice(profiles, c, q);
    }
    if chosen in Keep(Undominated(pool), pool) {
      forall q | q in pool ensures !OnlyLessSevere(q, chosen) {
        if OnlyLessSevere(q, chosen) && q.profileId == chosen.profileId {
          SameIdSameProfile(pool, q, chosen);
        }
        var k :| 0 <= k < |pool| && pool[k] == q;
        assert Undominated(pool)(chosen);
      }
    }
  }

  /** The id breaks ties, so a dominated profile can be chosen: the key never looks at severity. */
  lemma {:induction false} ChoiceCanBeDominated() returns (profiles: seq<Profile>, c: Constraints)
    ensures AllValid(profiles) && ParetoFrontier(profiles).Ok? && MinimumSufficient(profiles, c).MatchProfile?
    ensures MinimumSufficient(profiles, c).profile !in ParetoFrontier(profiles).value.frontier
  {
    var risky := Profile("a", 1.0, 1.0, 0.5, true, Some(1.0), 1.0);
    var safe := Profile("b", 1.0, 1.0, 0.0, true, Some(1.0), 1.0);
    profiles := [risky, safe];
    c := Constraints(0.5, 1.0, 1.0, 1.0, 1.0);
    var ids := MapSeq(IdOf, profiles);
    assert ids[0] == IdOf(risky) && ids[1] == IdOf(safe) && IdOf(risky)[0] != IdOf(safe)[0];
    ChoiceIsCheapestSufficient(profiles, c);
    assert profiles[0] in profiles && profiles[1] in profiles;
    assert Sufficient(c)(risky) && Sufficient(c)(safe);
    var chosen := MinimumSufficient(profiles, c).profile;
    assert !KeyLe(safe, risky);
    assert chosen == risky;
    assert OnlyLessSevere(safe, risky);
    ChoiceOnFrontierExactly(profiles, c);
  }

  /** The choice does not depend on the order in which the profiles are listed. */
  lemma {:induction false} ChoiceForgetsOrder(s: seq<Profile>, t: seq<Profile>, c: Constraints)
    requires multiset(s) == multiset(t) && Distinct(MapSeq(IdOf, s))
    ensures MinimumSufficient(s, c) == MinimumSufficient(t, c)
  {
    MultisetFacts(s, t);
    ChoiceIsCheapestSufficient(s, c);
    ChoiceIsCheapestSufficient(t, c);
    if MinimumSufficient(s, c).MatchProfile? && MinimumSufficient(t, c).MatchProfile? {
      var p, q := MinimumSufficient(s, c).profile, MinimumSufficient(t, c).profile;
      KeyOrder(p, q, p);
      var i :| 0 <= i < |s| && s[i] == p;
      var j :| 0 <= j < |s| && s[j] == q;
      assert MapSeq(IdOf, s)[i] == IdOf(p) && MapSeq(IdOf, s)[j] == IdOf(q);
    }
  }
}
