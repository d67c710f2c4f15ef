/** The evidence gate: analysis adequacy, the claim ledger built on it, and the decision brief. */
module ClaimGate {
  import opened Prelude
  import opened Sorting

  // ----- Adequacy -----

  datatype ClaimLevel = DescriptiveOnly | ConfirmatoryEligible

  datatype Requirements = Requirements(
    completedAttempts: int, clusters: int, perArm: int, balanceRatio: real, manipulationFidelity: real,
      traceCompleteness: real)

  datatype AdequacyInput = AdequacyInput(
    completedAttempts: nat,
    clusterCount: nat,
    controlAttempts: nat,
    treatmentAttempts: nat,
    manipulationFidelity: real,
    traceCompleteness: real,
    preregistered: bool,
    manipulationPass: bool,
    invariantsPass: bool,
    evaluatorPass: bool,
    heldOutPass: bool,
    externalResult: Option<string>)

  datatype Reason =
    | FewAttempts | FewClusters | FewPerArm | Imbalanced | LowFidelity | LowCompleteness
    | NotPreregistered | ManipulationFailed | EvaluatorFailed | HeldOutFailed | InvariantsUnavailable
    | ExternalResultIgnored

  datatype Adequacy = Adequacy(level: ClaimLevel, reasons: seq<Reason>, balance: real)

  function Balance(control: nat, treatment: nat): (r: real)
    ensures 0.0 <= r <= 1.0
    ensures r == 1.0 <==> control == treatment > 0
    ensures r * (if control <= treatment then treatment else control) as real ==
            (if control <= treatment then control else treatment) as real
  {
    var smaller, larger := if control <= treatment then control else treatment, Max(control, treatment);
    if larger == 0 then 0.0
    else
      assert smaller as real / larger as real <= 1.0 &&
        (smaller as real / larger as real == 1.0 <==> smaller == larger) by {
        UnitRatio(smaller, larger);
      }
      QuotientTimes(smaller as real, larger as real);
      smaller as real / larger as real
  }

  lemma {:induction false} UnitRatio(smaller: nat, larger: nat)
    requires smaller <= larger && larger > 0
    ensures 0.0 <= smaller as real / larger as real <= 1.0
    ensures smaller as real / larger as real == 1.0 <==> smaller == larger
  {
    QuotientBounds(smaller as real, larger as real, 0.0);
    QuotientBounds(smaller as real, larger as real, 1.0);
  }

  /** s with x appended when the condition holds. */
  function Note<T(!new)>(s: seq<T>, condition: bool, x: T): (r: seq<T>)
    ensures forall y :: y in r <==> y in s || (condition && y == x)
    ensures r == [] <==> s == [] && !condition
    ensures s != [] ==> r[0] == s[0]
  {
    if condition then s + [x] else s
  }

  /** When each reason is given. */
  predicate Lacks(reason: Reason, i: AdequacyInput, r: Requirements) {
    match reason
    case FewAttempts => i.completedAttempts < r.completedAttempts
    case FewClusters => i.clusterCount < r.clusters
    case FewPerArm => i.controlAttempts < r.perArm || i.treatmentAttempts < r.perArm
    case Imbalanced => Balance(i.controlAttempts, i.treatmentAttempts) < r.balanceRatio
    case LowFidelity => i.manipulationFidelity < r.manipulationFidelity
    case LowCompleteness => i.traceCompleteness < r.traceCompleteness
    case NotPreregistered => !i.preregistered
    case ManipulationFailed => !i.manipulationPass
    case EvaluatorFailed => !i.evaluatorPass
    case HeldOutFailed => !i.heldOutPass
    case InvariantsUnavailable => true
    case ExternalResultIgnored => i.externalResult.Some?
  }

  const GATES: seq<Reason> := [NotPreregistered, ManipulationFailed, EvaluatorFailed, HeldOutFailed]

  function Passed(i: AdequacyInput): seq<bool> {
    [i.preregistered, i.manipulationPass, i.evaluatorPass, i.heldOutPass]
  }

  /** The measured shortfalls. */
  function Shortfalls(i: AdequacyInput, r: Requirements): seq<Reason> {
    var attempts := Note([], i.completedAttempts < r.completedAttempts, FewAttempts);
    var clusters := Note(attempts, i.clusterCount < r.clusters, FewClusters);
    var arms := Note(clusters, i.controlAttempts < r.perArm || i.treatmentAttempts < r.perArm, FewPerArm);
    var balance := Note(arms, Balance(i.controlAttempts, i.treatmentAttempts) < r.balanceRatio, Imbalanced);
    var fidelity := Note(balance, i.manipulationFidelity < r.manipulationFidelity, LowFidelity);
    Note(fidelity, i.traceCompleteness < r.traceCompleteness, LowCompleteness)
  }

  method MeasureShortfalls(i: AdequacyInput, r: Requirements) returns (reasons: seq<Reason>, balance: real)
    ensures reasons == Shortfalls(i, r) && balance == Balance(i.controlAttempts, i.treatmentAttempts)
  {
    reasons := [];
    if i.completedAttempts < r.completedAttempts { reasons := reasons + [FewAttempts]; }
    if i.clusterCount < r.clusters { reasons := reasons + [FewClusters]; }
    if (if i.controlAttempts <= i.treatmentAttempts then i.controlAttempts else i.treatmentAttempts) < r.perArm {
      reasons := reasons + [FewPerArm];
    }
    balance := Balance(i.controlAttempts, i.treatmentAttempts);
    if balance < r.balanceRatio { reasons := reasons + [Imbalanced]; }
    if i.manipulationFidelity < r.manipulationFidelity { reasons := reasons + [LowFidelity]; }
    if i.traceCompleteness < r.traceCompleteness { reasons := reasons + [LowCompleteness]; }
  }

  predicate Measured(reason: Reason) {
    reason in [FewAttempts, FewClusters, FewPerArm, Imbalanced, LowFidelity, LowCompleteness]
  }

  lemma {:induction false} ShortfallsExactly(i: AdequacyInput, r: Requirements, reason: Reason)
    ensures reason in Shortfalls(i, r) <==> Measured(reason) && Lacks(reason, i, r)
  {
  }

  /** The loop over the design gates. */
  method CheckGates(base: seq<Reason>, gates: seq<Reason>, passed: seq<bool>) returns (reasons: seq<Reason>)
    requires |gates| == |passed|
    ensures forall reason ::
              reason in reasons <==> reason in base || exists k :: 0 <= k < |gates| && gates[k] == reason && !passed[k]
  {
    reasons := base;
    for k := 0 to |gates|
      invariant forall reason ::
                  reason in reasons <==> reason in base || exists m :: 0 <= m < k && gates[m] == reason && !passed[m]
    {
      if !passed[k] { reasons := reasons + [gates[k]]; }
    }
  }

  lemma {:induction false} GatesExactly(i: AdequacyInput, r: Requirements, reason: Reason)
    ensures (exists k :: 0 <= k < |GATES| && GATES[k] == reason && !Passed(i)[k])
            <==> reason in GATES && Lacks(reason, i, r)
  {
    assert GATES[0] == NotPreregistered && GATES[1] == ManipulationFailed && GATES[2] == EvaluatorFailed &&
      GATES[3] == HeldOutFailed;
  }

  /** `assess_analysis_adequacy`: whatever the inputs claim, the level is descriptive. */
  method AssessAdequacy(i: AdequacyInput, r: Requirements) returns (result: Adequacy)
    ensures result.level == DescriptiveOnly
    ensures forall reason :: reason in result.reasons <==> Lacks(reason, i, r)
    ensures result.balance == Balance(i.controlAttempts, i.treatmentAttempts)
  {
    var shortfalls, balance := MeasureShortfalls(i, r);
    var reasons := CheckGates(shortfalls, GATES, Passed(i));
    forall reason ensures reason in reasons <==> (Measured(reason) || reason in GATES) && Lacks(reason, i, r) {
      ShortfallsExactly(i, r, reason);
      GatesExactly(i, r, reason);
    }
    reasons := reasons + [InvariantsUnavailable];
    var level := if reasons != [] then DescriptiveOnly else ConfirmatoryEligible;
    if i.externalResult.Some? {
      reasons := reasons + [ExternalResultIgnored];
      level := DescriptiveOnly;
    }
    result := Adequacy(level, reasons, balance);
  }

  // ----- Claims -----

  datatype Maturity = Fixture | LocalLive | Replicated | CrossModel | HumanCalibrated | Independent

  datatype Kind =
    | FixtureObservation | LocalLiveObservation | CausalEffect | GeneralizedEffect | CostComparison | ParetoComparison
    | CrossModelReplication | HumanCalibratedAssessment | IndependentValidation

  datatype Ceiling =
    | NoClaim | FixtureOnly | LocalLiveOnly | ConfirmatoryAnalysis
    | ReplicatedCeiling | CrossModelCeiling | HumanCeiling | IndependentCeiling

  function RequiredMaturity(kind: Kind): Maturity {
    match kind
    case FixtureObservation => Fixture
    case LocalLiveObservation => LocalLive
    case CausalEffect => LocalLive
    case GeneralizedEffect => Replicated
    case CostComparison => LocalLive
    case ParetoComparison => LocalLive
    case CrossModelReplication => CrossModel
    case HumanCalibratedAssessment => HumanCalibrated
    case IndependentValidation => Independent
  }

  function CeilingFor(kind: Kind): Ceiling {
    match kind
    case FixtureObservation => FixtureOnly
    case LocalLiveObservation => LocalLiveOnly
    case CausalEffect => ConfirmatoryAnalysis
    case GeneralizedEffect => ReplicatedCeiling
    case CostComparison => LocalLiveOnly
    case ParetoComparison => LocalLiveOnly
    case CrossModelReplication => CrossModelCeiling
    case HumanCalibratedAssessment => HumanCeiling
    case IndependentValidation => IndependentCeiling
  }

  function Rank(c: Ceiling): nat {
    match c
    case NoClaim => 0
    case FixtureOnly => 1
    case LocalLiveOnly => 2
    case ConfirmatoryAnalysis => 3
    case ReplicatedCeiling => 4
    case CrossModelCeiling => 5
    case HumanCeiling => 6
    case IndependentCeiling => 7
  }

  datatype EffectStatus = Estimated | Held

  /** The parts of an analysis report that a decision reads. */
  datatype Report = Report(
    level: ClaimLevel,
    severe: seq<(string, nat)>,
    exclusions: seq<(string, string)>,
    effects: seq<EffectStatus>,
    unknownCostProfiles: seq<string>)

  datatype Policy = HoldSevere | RejectSevere

  datatype Claim = Claim(claimId: string, kind: Kind, linked: seq<string>)

  /** receipts maps each receipt id to its maturity. */
  datatype Request = Request(report: Report, receipts: map<string, Maturity>, policy: Policy, maximum: Ceiling,
                             claims: seq<Claim>)

  function ClaimIdOf(c: Claim): string { c.claimId }

  /** `validate_links`. */
  predicate Valid(q: Request) {
    && q.claims != [] && Distinct(MapSeq(ClaimIdOf, q.claims))
    && forall k, m :: 0 <= k < |q.claims| && 0 <= m < |q.claims[k].linked| ==> q.claims[k].linked[m] in q.receipts
  }

  function SevereEvents(severe: seq<(string, nat)>): nat {
    if severe == [] then 0 else severe[0].1 + SevereEvents(severe[1..])
  }

  predicate Effectful(kind: Kind) { kind.CausalEffect? || kind.GeneralizedEffect? }

  predicate Comparative(kind: Kind) { kind.CostComparison? || kind.ParetoComparison? }

  datatype Blocker =
    | MissingReceipt(maturity: Maturity, kind: Kind) | SeverePresent | ExclusionsPresent
    | DescriptiveAdequacy | NoEstimate | UnknownCost | CeilingLowered

  predicate HasReceipt(c: Claim, q: Request) {
    exists m :: 0 <= m < |c.linked| && c.linked[m] in q.receipts && q.receipts[c.linked[m]] == RequiredMaturity(c.kind)
  }

  /** When each blocker is recorded against a claim. */
  predicate Blocks(b: Blocker, c: Claim, q: Request) {
    match b
    case MissingReceipt(maturity, kind) => maturity == RequiredMaturity(c.kind) && kind == c.kind && !HasReceipt(c, q)
    case SeverePresent => SevereEvents(q.report.severe) > 0
    case ExclusionsPresent => q.report.exclusions != []
    case DescriptiveAdequacy => Effectful(c.kind) && q.report.level != ConfirmatoryEligible
    case NoEstimate => Effectful(c.kind) && Estimated !in q.report.effects
    case UnknownCost => Comparative(c.kind) && q.report.unknownCostProfiles != []
    case CeilingLowered => Rank(CeilingFor(c.kind)) > Rank(q.maximum)
  }

  datatype Disposition = Supported | OnHold | Rejected

  datatype Entry = Entry(claimId: string, kind: Kind, disposition: Disposition, blockers: seq<Blocker>)

  /** The blockers that any kind of claim can have. */
  function CommonBlockers(c: Claim, q: Request): seq<Blocker> {
    var receipt := Note([], !HasReceipt(c, q), MissingReceipt(RequiredMaturity(c.kind), c.kind));
    var severe := Note(receipt, SevereEvents(q.report.severe) > 0, SeverePresent);
    Note(severe, q.report.exclusions != [], ExclusionsPresent)
  }

  function BlockersOf(c: Claim, q: Request): seq<Blocker> {
    var adequate := Note(CommonBlockers(c, q), Effectful(c.kind) &&
      q.report.level != ConfirmatoryEligible, DescriptiveAdequacy);
    var estimated := Note(adequate, Effectful(c.kind) && EstimatedCount(q.report.effects) == 0, NoEstimate);
    var priced := Note(estimated, Comparative(c.kind) && q.report.unknownCostProfiles != [], UnknownCost);
    Note(priced, Rank(CeilingFor(c.kind)) > Rank(q.maximum), CeilingLowered)
  }

  function SevereDisposition(policy: Policy): Disposition { if policy == RejectSevere then Rejected else OnHold }

  function EntryOf(q: Request, c: Claim): Entry {
    Entry(c.claimId, c.kind,
          if SevereEvents(q.report.severe) > 0 then SevereDisposition(q.policy)
          else if BlockersOf(c, q) != [] then OnHold else Supported,
          BlockersOf(c, q))
  }

  function EstimatedCount(effects: seq<EffectStatus>): (n: nat)
    ensures n == 0 <==> Estimated !in effects
  {
    if effects == [] then 0 else (if effects[0] == Estimated then 1 else 0) + EstimatedCount(effects[1..])
  }

  predicate Common(b: Blocker) { b.MissingReceipt? || b.SeverePresent? || b.ExclusionsPresent? }

  lemma {:induction false} CommonExactly(c: Claim, q: Request, b: Blocker)
    ensures b in CommonBlockers(c, q) <==> Common(b) && Blocks(b, c, q)
  {
  }

  /** A blocker is listed exactly when its reason holds. */
  lemma {:induction false} BlockersExactly(c: Claim, q: Request, b: Blocker)
    ensures b in BlockersOf(c, q) <==> Blocks(b, c, q)
  {
    CommonExactly(c, q, b);
    assert b in BlockersOf(c, q) && Common(b) ==> b in CommonBlockers(c, q);
  }

  /** What a claim must have for the ledger to support it. */
  predicate Earned(c: Claim, q: Request) {
    && HasReceipt(c, q) && SevereEvents(q.report.severe) == 0 && q.report.exclusions == []
    && (Effectful(c.kind) ==> q.report.level == ConfirmatoryEligible && Estimated in q.report.effects)
    && (Comparative(c.kind) ==> q.report.unknownCostProfiles == [])
    && Rank(CeilingFor(c.kind)) <= Rank(q.maximum)
  }

  /** The ledger supports a claim exactly when it is earned. */
  lemma {:induction false} SupportedExactly(c: Claim, q: Request)
    ensures EntryOf(q, c).disposition == Supported <==> Earned(c, q)
    ensures BlockersOf(c, q) == [] <==> Earned(c, q)
  {
  }

  /** `_evaluate_claim`. */
  method EvaluateClaim(c: Claim, q: Request, severe: nat, estimated: nat) returns (entry: Entry)
    requires forall m :: 0 <= m < |c.linked| ==> c.linked[m] in q.receipts
    requires severe == SevereEvents(q.report.severe) && estimated == EstimatedCount(q.report.effects)
    ensures entry == EntryOf(q, c)
  {
    var blockers: seq<Blocker> := [];
    if !exists m :: 0 <= m < |c.linked| && q.receipts[c.linked[m]] == RequiredMaturity(c.kind) {
      blockers := blockers + [MissingReceipt(RequiredMaturity(c.kind), c.kind)];
    }
    if severe != 0 { blockers := blockers + [SeverePresent]; }
    if q.report.exclusions != [] { blockers := blockers + [ExclusionsPresent]; }
    assert HasReceipt(c, q) <==> exists m :: 0 <= m < |c.linked| && q.receipts[c.linked[m]] == RequiredMaturity(c.kind);
    assert blockers == CommonBlockers(c, q);
    if Effectful(c.kind) && q.report.level != ConfirmatoryEligible { blockers := blockers + [DescriptiveAdequacy]; }
    if Effectful(c.kind) && estimated == 0 { blockers := blockers + [NoEstimate]; }
    if Comparative(c.kind) && q.report.unknownCostProfiles != [] { blockers := blockers + [UnknownCost]; }
    if Rank(CeilingFor(c.kind)) > Rank(q.maximum) { blockers := blockers + [CeilingLowered]; }
    var disposition: Disposition;
    if severe != 0 {
      disposition := if q.policy == RejectSevere then Rejected else OnHold;
    } else {
      disposition := if blockers != [] then OnHold else Supported;
    }
    return Entry(c.claimId, c.kind, disposition, blockers);
  }

  // ----- The brief -----

  datatype BriefBlocker =
    | SevereUnresolved | ExclusionsPrevent | AdequacyDescriptive | CostUnknown
    | ClaimBlocked(claimId: string, blocker: Blocker)

  datatype Verdict = Pass | HoldVerdict | RejectVerdict

  datatype Action = Publish | ResolveSevere | ResolveExclusions | MeetAdequacy | AttachCost | AttachReceipt

  datatype Brief = Brief(verdict: Verdict, ceiling: Ceiling, blockers: seq<BriefBlocker>, action: Action)

  /** `tuple(dict.fromkeys(...))`. */
  function Dedupe<T(==, !new)>(s: seq<T>): (r: seq<T>)
    ensures Distinct(r)
    ensures forall x :: x in r <==> x in s
    ensures s != [] ==> r != [] && r[0] == s[0]
  {
    if s == [] then []
    else
      var before, last := Dedupe(s[..|s| - 1]), s[|s| - 1];
      assert s == s[..|s| - 1] + [last];
      if last in before then before else before + [last]
  }

  /** The blockers of one ledger entry that the brief repeats. */
  function EntryNotes(claimId: string, blockers: seq<Blocker>): seq<BriefBlocker> {
    if blockers == [] then []
    else
      var last := blockers[|blockers| - 1];
      Note(EntryNotes(claimId, blockers[..|blockers| - 1]), last != SeverePresent, ClaimBlocked(claimId, last))
  }

  function LedgerNotes(entries: seq<Entry>): seq<BriefBlocker> {
    if entries == [] then []
    else
      var last := entries[|entries| - 1];
      LedgerNotes(entries[..|entries| - 1]) + EntryNotes(last.claimId, last.blockers)
  }

  function ReportNotes(q: Request): seq<BriefBlocker> {
    var severe := Note([], SevereEvents(q.report.severe) > 0, SevereUnresolved);
    var excluded := Note(severe, q.report.exclusions != [], ExclusionsPrevent);
    var adequate := Note(excluded, q.report.level != ConfirmatoryEligible, AdequacyDescriptive);
    Note(adequate, q.report.unknownCostProfiles != [], CostUnknown)
  }

  function BriefBlockers(q: Request, entries: seq<Entry>): seq<BriefBlocker> {
    Dedupe(ReportNotes(q) + LedgerNotes(entries))
  }

  /** The prefixes that `_next_lawful_action` looks for; a claim blocker's text starts with its claim id. */
  function ActionFor(b: BriefBlocker): Action {
    match b
    case SevereUnresolved => ResolveSevere
    case ExclusionsPrevent => ResolveExclusions
    case AdequacyDescriptive => MeetAdequacy
    case CostUnknown => AttachCost
    case ClaimBlocked(id, _) =>
      if "severe failures" <= id then ResolveSevere
      else if "excluded" <= id then ResolveExclusions
      else if "analysis adequacy" <= id then MeetAdequacy
      else if "one or more profiles have unknown cost" <= id then AttachCost
      else AttachReceipt
  }

  function NextAction(blockers: seq<BriefBlocker>): Action {
    if blockers == [] then Publish else ActionFor(blockers[0])
  }

  predicate Supports(e: Entry) { e.disposition == Supported }

  /** `max(supported, key=rank, default=NO_CLAIM)`; a later equal rank is the same ceiling. */
  function SupportedCeiling(entries: seq<Entry>): Ceiling {
    if entries == [] then NoClaim
    else
      var before, last := SupportedCeiling(entries[..|entries| - 1]), entries[|entries| - 1];
      if Supports(last) && Rank(CeilingFor(last.kind)) > Rank(before) then CeilingFor(last.kind) else before
  }

  function VerdictOf(q: Request, entries: seq<Entry>): Verdict {
    if SevereEvents(q.report.severe) > 0 then (if q.policy == RejectSevere then RejectVerdict else HoldVerdict)
    else if forall k :: 0 <= k < |entries| ==> Supports(entries[k]) then Pass
    else HoldVerdict
  }

  function BriefOf(q: Request, entries: seq<Entry>): Brief {
    var blockers := BriefBlockers(q, entries);
    Brief(VerdictOf(q, entries), SupportedCeiling(entries), blockers, NextAction(blockers))
  }

  predicate ByClaimId(a: Claim, b: Claim) { StringLe(a.claimId, b.claimId) }

  function EntriesOf(q: Request, claims: seq<Claim>): seq<Entry> {
    MapSeq(EntryFor(q), claims)
  }

  function EntryFor(q: Request): Claim -> Entry { (c: Claim) => EntryOf(q, c) }

  function LedgerOf(q: Request): seq<Entry> { EntriesOf(q, Sort(q.claims, ByClaimId)) }

  function DecisionOf(q: Request): (seq<Entry>, Brief) { (LedgerOf(q), BriefOf(q, LedgerOf(q))) }

  method CollectReportNotes(q: Request, severe: nat) returns (notes: seq<BriefBlocker>)
    requires severe == SevereEvents(q.report.severe)
    ensures notes == ReportNotes(q)
  {
    notes := [];
    if severe != 0 { notes := notes + [SevereUnresolved]; }
    if q.report.exclusions != [] { notes := notes + [ExclusionsPrevent]; }
    if q.report.level != ConfirmatoryEligible { notes := notes + [AdequacyDescriptive]; }
    if q.report.unknownCostProfiles != [] { notes := notes + [CostUnknown]; }
  }

  lemma {:induction false} LedgerNotesSnoc(entries: seq<Entry>, e: Entry)
    ensures LedgerNotes(entries + [e]) == LedgerNotes(entries) + EntryNotes(e.claimId, e.blockers)
  {
    assert (entries + [e])[..|entries|] == entries;
  }

  method CollectNotes(q: Request, severe: nat, entries: seq<Entry>) returns (notes: seq<BriefBlocker>)
    requires severe == SevereEvents(q.report.severe)
    ensures notes == ReportNotes(q) + LedgerNotes(entries)
  {
    notes := CollectReportNotes(q, severe);
    var repeated := CollectLedgerNotes(entries);
    notes := notes + repeated;
  }

  method CollectLedgerNotes(entries: seq<Entry>) returns (notes: seq<BriefBlocker>)
    ensures notes == LedgerNotes(entries)
  {
    notes := [];
    for k := 0 to |entries|
      invariant notes == LedgerNotes(entries[..k])
    {
      var own := CollectEntryNotes(entries[k]);
      TakeMore(entries, k);
      LedgerNotesSnoc(entries[..k], entries[k]);
      notes := notes + own;
    }
    assert entries[..|entries|] == entries;
  }

  /** `_brief_blockers`. */
  method CollectBriefBlockers(q: Request, severe: nat, entries: seq<Entry>) returns (blockers: seq<BriefBlocker>)
    requires severe == SevereEvents(q.report.severe)
    ensures blockers == BriefBlockers(q, entries)
  {
    var notes := CollectNotes(q, severe, entries);
    blockers := Dedupe(notes);
  }

  method CollectEntryNotes(e: Entry) returns (notes: seq<BriefBlocker>)
    ensures notes == EntryNotes(e.claimId, e.blockers)
  {
    notes := [];
    for m := 0 to |e.blockers|
      invariant notes == EntryNotes(e.claimId, e.blockers[..m])
    {
      assert e.blockers[..m + 1][..m] == e.blockers[..m];
      if e.blockers[m] != SeverePresent {
        notes := notes + [ClaimBlocked(e.claimId, e.blockers[m])];
      }
    }
    assert e.blockers[..|e.blockers|] == e.blockers;
  }

  method EvaluateClaims(claims: seq<Claim>, q: Request, severe: nat, estimated: nat) returns (entries: seq<Entry>)
    requires forall k, m :: 0 <= k < |claims| && 0 <= m < |claims[k].linked| ==> claims[k].linked[m] in q.receipts
    requires severe == SevereEvents(q.report.severe) && estimated == EstimatedCount(q.report.effects)
    ensures entries == EntriesOf(q, claims)
  {
    entries := [];
    for k := 0 to |claims|
      invariant entries == EntriesOf(q, claims[..k])
    {
      var entry := EvaluateClaim(claims[k], q, severe, estimated);
      EntriesMore(q, claims, k);
      entries := entries + [entry];
    }
    assert claims[..|claims|] == claims;
  }

  lemma {:induction false} EntriesMore(q: Request, claims: seq<Claim>, k: nat)
    requires k < |claims|
    ensures EntriesOf(q, claims[..k + 1]) == EntriesOf(q, claims[..k]) + [EntryOf(q, claims[k])]
  {
    MapMore(EntryFor(q), claims, k);
  }

  /** `build_decision_artifacts`. */
  method BuildDecision(q: Request) returns (entries: seq<Entry>, brief: Brief)
    requires Valid(q)
    ensures (entries, brief) == DecisionOf(q)
  {
    var severe, estimated := SevereEvents(q.report.severe), EstimatedCount(q.report.effects);
    var claims := Sort(q.claims, ByClaimId);
    SortPermutes(q.claims, ByClaimId);
    forall k, m | 0 <= k < |claims| && 0 <= m < |claims[k].linked| ensures claims[k].linked[m] in q.receipts {
      assert claims[k] in q.claims;
    }
    entries := EvaluateClaims(claims, q, severe, estimated);
    var blockers := CollectBriefBlockers(q, severe, entries);
    brief := Brief(VerdictOf(q, entries), SupportedCeiling(entries), blockers, NextAction(blockers));
  }

  // ----- What the ledger and the brief guarantee -----

  lemma {:induction false} CeilingBounds(entries: seq<Entry>)
    ensures var best := SupportedCeiling(entries);
            && (forall k :: 0 <= k < |entries| && Supports(entries[k]) ==>
              Rank(CeilingFor(entries[k].kind)) <= Rank(best))
            && (best == NoClaim || exists k ::
              0 <= k < |entries| && Supports(entries[k]) && CeilingFor(entries[k].kind) == best)
  {
    if entries != [] {
      var before := entries[..|entries| - 1];
      CeilingBounds(before);
      assert forall k :: 0 <= k < |before| ==> before[k] == entries[k];
    }
  }

  /** What an entry says about its claim. */
  ghost predicate Speaks(e: Entry, c: Claim, q: Request) {
    && e.claimId == c.claimId && e.kind == c.kind
    && (Supports(e) <==> Earned(c, q))
    && (SevereEvents(q.report.severe) > 0 ==> e.disposition == SevereDisposition(q.policy))
    && (forall b :: b in e.blockers <==> Blocks(b, c, q))
    && (e.blockers == [] <==> Earned(c, q))
  }

  lemma {:induction false} EntrySpeaks(c: Claim, q: Request)
    ensures Speaks(EntryOf(q, c), c, q)
  {
    SupportedExactly(c, q);
    forall b ensures b in BlockersOf(c, q) <==> Blocks(b, c, q) {
      BlockersExactly(c, q, b);
    }
  }

  /** The entries answer the claims one by one. */
  ghost predicate Answers(entries: seq<Entry>, claims: seq<Claim>, q: Request) {
    |entries| == |claims| && forall k :: 0 <= k < |entries| ==> Speaks(entries[k], claims[k], q)
  }

  predicate AllEarned(claims: seq<Claim>, q: Request) {
    forall k :: 0 <= k < |claims| ==> Earned(claims[k], q)
  }

  /** The ledger answers the claims in the order of their ids. */
  lemma {:induction false} LedgerAnswers(q: Request)
    ensures Answers(LedgerOf(q), Sort(q.claims, ByClaimId), q)
    ensures |Sort(q.claims, ByClaimId)| == |q.claims| && forall c :: c in Sort(q.claims, ByClaimId) <==> c in q.claims
    ensures AllEarned(Sort(q.claims, ByClaimId), q) <==> forall c :: c in q.claims ==> Earned(c, q)
  {
    var claims, entries := Sort(q.claims, ByClaimId), LedgerOf(q);
    SortPermutes(q.claims, ByClaimId);
    forall k | 0 <= k < |entries| ensures Speaks(entries[k], claims[k], q) {
      EntrySpeaks(claims[k], q);
    }
    if AllEarned(claims, q) {
      forall c | c in q.claims ensures Earned(c, q) {
        assert c in claims;
      }
    } else {
      var k :| 0 <= k < |claims| && !Earned(claims[k], q);
      assert claims[k] in q.claims;
    }
  }

  lemma {:induction false} CeilingOfEntries(entries: seq<Entry>, claims: seq<Claim>, q: Request)
    requires Answers(entries, claims, q)
    ensures var best := SupportedCeiling(entries);
            && Rank(best) <= Rank(q.maximum)
            && (forall c :: c in claims && Earned(c, q) ==> Rank(CeilingFor(c.kind)) <= Rank(best))
            && (best == NoClaim || exists c :: c in claims && Earned(c, q) && CeilingFor(c.kind) == best)
  {
    CeilingBounds(entries);
    var best := SupportedCeiling(entries);
    if best != NoClaim {
      var k :| 0 <= k < |entries| && Supports(entries[k]) && CeilingFor(entries[k].kind) == best;
      assert Speaks(entries[k], claims[k], q);
      assert claims[k] in claims && Earned(claims[k], q);
    }
    forall c | c in claims && Earned(c, q) ensures Rank(CeilingFor(c.kind)) <= Rank(best) {
      var k :| 0 <= k < |claims| && claims[k] == c;
      assert Speaks(entries[k], claims[k], q);
    }
  }

  /** The supported ceiling is the highest ceiling among the earned claims, and none is above the allowed maximum. */
  lemma {:induction false} CeilingIsHighestEarned(q: Request)
    ensures var best := DecisionOf(q).1.ceiling;
            && Rank(best) <= Rank(q.maximum)
            && (forall c :: c in q.claims && Earned(c, q) ==> Rank(CeilingFor(c.kind)) <= Rank(best))
            && (best == NoClaim || exists c :: c in q.claims && Earned(c, q) && CeilingFor(c.kind) == best)
  {
    LedgerAnswers(q);
    CeilingOfEntries(LedgerOf(q), Sort(q.claims, ByClaimId), q);
  }

  lemma {:induction false} AllSupportedExactly(entries: seq<Entry>, claims: seq<Claim>, q: Request)
    requires Answers(entries, claims, q)
    ensures (forall k :: 0 <= k < |entries| ==> Supports(entries[k])) <==> AllEarned(claims, q)
    ensures claims != [] && AllEarned(claims, q) ==> SevereEvents(q.report.severe) == 0
  {
    forall k | 0 <= k < |entries| ensures Supports(entries[k]) <==> Earned(claims[k], q) {
      assert Speaks(entries[k], claims[k], q);
    }
    if claims != [] {
      assert AllEarned(claims, q) ==> Earned(claims[0], q);
    }
  }

  /**
   The verdict is PASS exactly when every claim is earned, REJECT exactly when the policy rejects
   present severe failures.
   */
  lemma {:induction false} VerdictExactly(q: Request)
    requires Valid(q)
    ensures DecisionOf(q).1.verdict == Pass <==> forall c :: c in q.claims ==> Earned(c, q)
    ensures DecisionOf(q).1.verdict == RejectVerdict <==> SevereEvents(q.report.severe) > 0 && q.policy == RejectSevere
  {
    LedgerAnswers(q);
    VerdictOfEntries(LedgerOf(q), Sort(q.claims, ByClaimId), q);
  }

  lemma {:induction false} VerdictOfEntries(entries: seq<Entry>, claims: seq<Claim>, q: Request)
    requires Answers(entries, claims, q) && claims != []
    ensures VerdictOf(q, entries) == Pass <==> AllEarned(claims, q)
    ensures VerdictOf(q, entries) == RejectVerdict <==> SevereEvents(q.report.severe) > 0 && q.policy == RejectSevere
  {
    AllSupportedExactly(entries, claims, q);
  }

  /** With severe failures nothing is supported, whatever the receipts: every entry has the policy's disposition. */
  lemma {:induction false} SevereFailuresSupportNothing(q: Request)
    requires SevereEvents(q.report.severe) > 0
    ensures DecisionOf(q).1.ceiling == NoClaim
    ensures forall k :: 0 <= k < |DecisionOf(q).0| ==> DecisionOf(q).0[k].disposition == SevereDisposition(q.policy)
  {
    CeilingIsHighestEarned(q);
  }

  lemma {:induction false} UniqueClaimsSeparate(claims: seq<Claim>)
    requires Distinct(MapSeq(ClaimIdOf, claims))
    ensures Separates(claims, ByClaimId)
  {
    forall x, y | x in claims && y in claims && ByClaimId(x, y) && ByClaimId(y, x) ensures x == y {
      StringLeTotal(x.claimId, y.claimId);
      var i :| 0 <= i < |claims| && claims[i] == x;
      var j :| 0 <= j < |claims| && claims[j] == y;
      assert MapSeq(ClaimIdOf, claims)[i] == ClaimIdOf(x) && MapSeq(ClaimIdOf, claims)[j] == ClaimIdOf(y);
    }
  }

  lemma {:induction false} SortedClaimsForgetOrder(claims: seq<Claim>, other: seq<Claim>)
    requires Distinct(MapSeq(ClaimIdOf, claims)) && multiset(claims) == multiset(other)
    ensures Sort(claims, ByClaimId) == Sort(other, ByClaimId)
  {
    StringLeIsOrder();
    assert TotalPreorder(ByClaimId);
    UniqueClaimsSeparate(claims);
    SortForgetsOrder(claims, other, ByClaimId);
  }

  lemma {:induction false} EntriesIgnoreClaims(q: Request, other: Request, claims: seq<Claim>)
    requires other == q.(claims := other.claims)
    ensures EntriesOf(q, claims) == EntriesOf(other, claims)
  {
    forall k | 0 <= k < |claims| ensures EntryOf(q, claims[k]) == EntryOf(other, claims[k]) {
      BlockersIgnoreClaims(claims[k], q, other);
    }
  }

  lemma {:induction false} BlockersIgnoreClaims(c: Claim, q: Request, other: Request)
    requires other == q.(claims := other.claims)
    ensures BlockersOf(c, q) == BlockersOf(c, other)
  {
    assert HasReceipt(c, q) == HasReceipt(c, other);
  }

  lemma {:induction false} BriefIgnoresClaims(q: Request, other: Request, entries: seq<Entry>)
    requires other == q.(claims := other.claims)
    ensures BriefOf(other, entries) == BriefOf(q, entries)
  {
    assert ReportNotes(other) == ReportNotes(q);
  }

  /** Listing the proposed claims in another order changes nothing in the ledger or the brief. */
  lemma {:induction false} DecisionForgetsClaimOrder(q: Request, claims: seq<Claim>)
    requires Valid(q) && multiset(claims) == multiset(q.claims)
    ensures DecisionOf(q.(claims := claims)) == DecisionOf(q)
  {
    var other := q.(claims := claims);
    SortedClaimsForgetOrder(q.claims, claims);
    EntriesIgnoreClaims(q, other, Sort(q.claims, ByClaimId));
    assert LedgerOf(other) == LedgerOf(q);
    BriefIgnoresClaims(q, other, LedgerOf(q));
  }

  // ----- The brief's own list -----

  lemma {:induction false} EntryNotesMembers(claimId: string, blockers: seq<Blocker>, b: BriefBlocker)
    ensures b in EntryNotes(claimId, blockers)
            <==> b.ClaimBlocked? && b.claimId == claimId && b.blocker != SeverePresent && b.blocker in blockers
  {
    if blockers != [] {
      var before := blockers[..|blockers| - 1];
      assert blockers == before + [blockers[|blockers| - 1]];
      EntryNotesMembers(claimId, before, b);
    }
  }

  lemma {:induction false} LedgerNotesMembers(entries: seq<Entry>, b: BriefBlocker)
    ensures b in LedgerNotes(entries) <==>
            b.ClaimBlocked? && b.blocker != SeverePresent && exists k ::
              0 <= k < |entries| && entries[k].claimId == b.claimId && b.blocker in entries[k].blockers
  {
    if entries != [] {
      var before, last := entries[..|entries| - 1], entries[|entries| - 1];
      LedgerNotesMembers(before, b);
      EntryNotesMembers(last.claimId, last.blockers, b);
      assert forall k :: 0 <= k < |before| ==> before[k] == entries[k];
    }
  }

  /**
   A claim's own blockers come back exactly as they hold, except that severe failures are not
   repeated; exclusions are.
   */
  lemma {:induction false} NotesExactly(entries: seq<Entry>, claims: seq<Claim>, q: Request, c: Claim, b: Blocker)
    requires Answers(entries, claims, q) && c in claims
    requires forall d :: d in claims && d.claimId == c.claimId ==> d == c
    ensures ClaimBlocked(c.claimId, b) in LedgerNotes(entries) <==> Blocks(b, c, q) && b != SeverePresent
  {
    LedgerNotesMembers(entries, ClaimBlocked(c.claimId, b));
    var k :| 0 <= k < |claims| && claims[k] == c;
    assert Speaks(entries[k], claims[k], q);
    forall m | 0 <= m < |entries| && entries[m].claimId == c.claimId ensures b in entries[m].blockers
      <==> Blocks(b, c, q) {
      assert Speaks(entries[m], claims[m], q) && claims[m] in claims;
    }
  }

  lemma {:induction false} SameIdSameClaim(claims: seq<Claim>, c: Claim, d: Claim)
    requires Distinct(MapSeq(ClaimIdOf, claims)) && c in claims && d in claims && c.claimId == d.claimId
    ensures c == d
  {
    var i :| 0 <= i < |claims| && claims[i] == c;
    var j :| 0 <= j < |claims| && claims[j] == d;
    assert MapSeq(ClaimIdOf, claims)[i] == ClaimIdOf(c) && MapSeq(ClaimIdOf, claims)[j] == ClaimIdOf(d);
  }

  lemma {:induction false} ReportNotesOnly(q: Request, b: BriefBlocker)
    ensures b in ReportNotes(q) ==> !b.ClaimBlocked?
    ensures AdequacyDescriptive in ReportNotes(q) <==> q.report.level != ConfirmatoryEligible
    ensures ReportNotes(q) == [] <==>
            SevereEvents(q.report.severe) == 0 && q.report.exclusions == [] && q.report.level == ConfirmatoryEligible &&
              q.report.unknownCostProfiles == []
  {
  }

  /** The brief names a claim's blocker exactly when the blocker holds and is not the severe-failure one. */
  lemma {:induction false} BriefRepeatsBlockers(q: Request, c: Claim, b: Blocker)
    requires Valid(q) && c in q.claims
    ensures ClaimBlocked(c.claimId, b) in DecisionOf(q).1.blockers <==> Blocks(b, c, q) && b != SeverePresent
  {
    LedgerAnswers(q);
    forall d | d in q.claims && d.claimId == c.claimId ensures d == c {
      SameIdSameClaim(q.claims, c, d);
    }
    NotesExactly(LedgerOf(q), Sort(q.claims, ByClaimId), q, c, b);
    ReportNotesOnly(q, ClaimBlocked(c.claimId, b));
    BriefMembers(q, LedgerOf(q), ClaimBlocked(c.claimId, b));
  }

  lemma {:induction false} BriefMembers(q: Request, entries: seq<Entry>, b: BriefBlocker)
    ensures b in BriefBlockers(q, entries) <==> b in ReportNotes(q) || b in LedgerNotes(entries)
    ensures BriefBlockers(q, entries) == [] <==> ReportNotes(q) == [] && LedgerNotes(entries) == []
    ensures ReportNotes(q) != [] ==>
            BriefBlockers(q, entries) != [] && BriefBlockers(q, entries)[0] == ReportNotes(q)[0]
  {
    var notes := ReportNotes(q) + LedgerNotes(entries);
    assert BriefBlockers(q, entries) == Dedupe(notes);
    if notes != [] { assert notes[0] in Dedupe(notes); }
    if Dedupe(notes) != [] { assert Dedupe(notes)[0] in notes; }
  }

  lemma {:induction false} FirstNote(q: Request)
    requires q.report.level == DescriptiveOnly
    ensures ReportNotes(q) != []
    ensures ReportNotes(q)[0] ==
            if SevereEvents(q.report.severe) > 0 then SevereUnresolved
            else if q.report.exclusions != [] then ExclusionsPrevent
            else AdequacyDescriptive
  {
  }

  lemma {:induction false} DescriptiveAction(q: Request, entries: seq<Entry>)
    requires q.report.level == DescriptiveOnly
    ensures BriefOf(q, entries).action ==
            if SevereEvents(q.report.severe) > 0 then ResolveSevere
            else if q.report.exclusions != [] then ResolveExclusions
            else MeetAdequacy
  {
    FirstNote(q);
    BriefMembers(q, entries, AdequacyDescriptive);
  }

  /**
   On a report whose adequacy is what `assess_analysis_adequacy` can say, no causal or
   generalized claim is supported, no ceiling reaches what they would give, and the next
   lawful action is never to publish, whatever the verdict.
   */
  lemma {:induction false} DescriptiveReportsStayDescriptive(q: Request)
    requires Valid(q) && q.report.level == DescriptiveOnly
    ensures forall c :: c in q.claims && Effectful(c.kind) ==> EntryOf(q, c).disposition != Supported
    ensures DecisionOf(q).1.ceiling != ConfirmatoryAnalysis && DecisionOf(q).1.ceiling != ReplicatedCeiling
    ensures DecisionOf(q).1.action ==
            if SevereEvents(q.report.severe) > 0 then ResolveSevere
            else if q.report.exclusions != [] then ResolveExclusions
            else MeetAdequacy
  {
    DescriptiveClaims(q);
    DescriptiveAction(q, LedgerOf(q));
  }

  lemma {:induction false} DescriptiveClaims(q: Request)
    requires q.report.level == DescriptiveOnly
    ensures forall c :: c in q.claims && Effectful(c.kind) ==> EntryOf(q, c).disposition != Supported
    ensures DecisionOf(q).1.ceiling != ConfirmatoryAnalysis && DecisionOf(q).1.ceiling != ReplicatedCeiling
  {
    forall c | c in q.claims && Effectful(c.kind) ensures EntryOf(q, c).disposition != Supported {
      SupportedExactly(c, q);
    }
    DescriptiveCeiling(q);
  }

  lemma {:induction false} DescriptiveCeiling(q: Request)
    requires q.report.level == DescriptiveOnly
    ensures DecisionOf(q).1.ceiling != ConfirmatoryAnalysis && DecisionOf(q).1.ceiling != ReplicatedCeiling
  {
    CeilingIsHighestEarned(q);
    var best := DecisionOf(q).1.ceiling;
    if best != NoClaim {
      var c :| c in q.claims && Earned(c, q) && CeilingFor(c.kind) == best;
      EarnedIsNotEffectful(c, q);
    }
  }

  lemma {:induction false} EarnedIsNotEffectful(c: Claim, q: Request)
    requires q.report.level == DescriptiveOnly && Earned(c, q)
    ensures CeilingFor(c.kind) != ConfirmatoryAnalysis && CeilingFor(c.kind) != ReplicatedCeiling
  {
  }

  lemma {:induction false} UnearnedIsNoted(entries: seq<Entry>, claims: seq<Claim>, q: Request, k: nat)
    requires Answers(entries, claims, q) && SevereEvents(q.report.severe) == 0 && k < |claims| && !Earned(claims[k], q)
    ensures LedgerNotes(entries) != []
  {
    assert Speaks(entries[k], claims[k], q);
    var b := entries[k].blockers[0];
    assert b in entries[k].blockers;
    LedgerNotesMembers(entries, ClaimBlocked(entries[k].claimId, b));
  }

  lemma {:induction false} NotedIsUnearned(entries: seq<Entry>, claims: seq<Claim>, q: Request)
    requires Answers(entries, claims, q) && SevereEvents(q.report.severe) == 0 && LedgerNotes(entries) != []
    ensures !AllEarned(claims, q)
  {
    var note := LedgerNotes(entries)[0];
    LedgerNotesMembers(entries, note);
    var k :| 0 <= k < |entries| && entries[k].claimId == note.claimId && note.blocker in entries[k].blockers;
    assert Speaks(entries[k], claims[k], q) && !Earned(claims[k], q);
  }

  lemma {:induction false} NotesEmptyExactly(entries: seq<Entry>, claims: seq<Claim>, q: Request)
    requires Answers(entries, claims, q) && SevereEvents(q.report.severe) == 0
    ensures LedgerNotes(entries) == [] <==> AllEarned(claims, q)
  {
    if LedgerNotes(entries) != [] { NotedIsUnearned(entries, claims, q); }
    if !AllEarned(claims, q) {
      var k :| 0 <= k < |claims| && !Earned(claims[k], q);
      UnearnedIsNoted(entries, claims, q, k);
    }
  }

  lemma {:induction false} PublishNeedsNoNotes(q: Request, entries: seq<Entry>)
    ensures BriefOf(q, entries).action == Publish <==> ReportNotes(q) == [] && LedgerNotes(entries) == []
  {
    NextActionPublishes(BriefBlockers(q, entries));
    BriefMembers(q, entries, AdequacyDescriptive);
  }

  lemma {:induction false} NextActionPublishes(blockers: seq<BriefBlocker>)
    ensures NextAction(blockers) == Publish <==> blockers == []
  {
  }

  /** The brief says to publish exactly when the verdict passes and the report itself leaves nothing open. */
  lemma {:induction false} PublishExactly(q: Request)
    requires Valid(q)
    ensures DecisionOf(q).1.action == Publish
            <==> && DecisionOf(q).1.verdict == Pass && q.report.level == ConfirmatoryEligible
                 && q.report.unknownCostProfiles == []
  {
    var entries := LedgerOf(q);
    VerdictExactly(q);
    PublishNeedsNoNotes(q, entries);
    PassLeavesNoNotes(q);
  }

  lemma {:induction false} PassLeavesNoNotes(q: Request)
    requires Valid(q)
    ensures ReportNotes(q) == [] && LedgerNotes(LedgerOf(q)) == []
            <==> && (forall c :: c in q.claims ==> Earned(c, q)) && q.report.level == ConfirmatoryEligible
                 && q.report.unknownCostProfiles == []
  {
    LedgerAnswers(q);
    ReportNotesOnly(q, AdequacyDescriptive);
    assert q.claims[0] in q.claims;
    if SevereEvents(q.report.severe) == 0 {
      NotesEmptyExactly(LedgerOf(q), Sort(q.claims, ByClaimId), q);
    }
  }

  /**
   From adequacy inputs to a decision: what `build_analysis_report` can hand over never earns a
   causal or generalized claim.
   */
  method DecideOnBuiltReport(i: AdequacyInput, r: Requirements, q: Request) returns (entries: seq<Entry>, brief: Brief)
    requires Valid(q)
    ensures |entries| == |q.claims| && forall k :: 0 <= k < |entries| && Effectful(entries[k].kind) ==>
            !Supports(entries[k])
    ensures Rank(brief.ceiling) <= Rank(q.maximum)
    ensures brief.ceiling != ConfirmatoryAnalysis && brief.ceiling != ReplicatedCeiling
    ensures brief.action != Publish
  {
    var adequacy := AssessAdequacy(i, r);
    var built := q.(report := q.report.(level := adequacy.level));
    entries, brief := BuildDecision(built);
    LedgerAnswers(built);
    CeilingIsHighestEarned(built);
    DescriptiveReportsStayDescriptive(built);
    forall k | 0 <= k < |entries| && Effectful(entries[k].kind) ensures !Supports(entries[k]) {
      assert Speaks(entries[k], Sort(built.claims, ByClaimId)[k], built);
    }
  }

  /**
   A passing verdict that still may not be published: one fixture observation with its fixture
   receipt, on a descriptive report.
   */
  lemma {:induction false} PassWithoutPublication() returns (q: Request)
    ensures Valid(q) && DecisionOf(q).1.verdict == Pass && DecisionOf(q).1.action == MeetAdequacy
  {
    q := FixtureRequest(Claim("c", FixtureObservation, ["r"]));
    FixtureEarned(q.claims[0], "r");
  }

  function FixtureRequest(c: Claim): Request {
    Request(Report(DescriptiveOnly, [], [], [], []), map["r" := Fixture], HoldSevere, IndependentCeiling, [c])
  }

  lemma {:induction false} FixtureEarned(c: Claim, id: string)
    requires c.kind == FixtureObservation && c.linked == [id] && id == "r"
    ensures Valid(FixtureRequest(c))
    ensures DecisionOf(FixtureRequest(c)).1.verdict == Pass && DecisionOf(FixtureRequest(c)).1.action == MeetAdequacy
  {
    var q := FixtureRequest(c);
    assert c.linked[0] == id && q.receipts[id] == RequiredMaturity(c.kind);
    assert Earned(c, q);
    VerdictExactly(q);
    DescriptiveAction(q, LedgerOf(q));
  }

  /** A request that is only worse evidenced: fewer receipts, a worse report, a lower maximum. */
  predicate NoBetter(worse: Request, q: Request) {
    && worse.receipts.Keys <= q.receipts.Keys
    && (forall id :: id in worse.receipts ==> worse.receipts[id] == q.receipts[id])
    && SevereEvents(worse.report.severe) >= SevereEvents(q.report.severe)
    && (q.report.exclusions != [] ==> worse.report.exclusions != [])
    && (worse.report.level == ConfirmatoryEligible ==> q.report.level == ConfirmatoryEligible)
    && (Estimated in worse.report.effects ==> Estimated in q.report.effects)
    && (q.report.unknownCostProfiles != [] ==> worse.report.unknownCostProfiles != [])
    && Rank(worse.maximum) <= Rank(q.maximum) && worse.claims == q.claims
  }

  /**
   The gate fails closed: weaker evidence never supports a new claim, never raises the ceiling,
   never turns a verdict into PASS.
   */
  lemma {:induction false} WeakerEvidenceNeverPromotes(worse: Request, q: Request)
    requires Valid(worse) && Valid(q) && NoBetter(worse, q)
    ensures forall c :: c in q.claims && EntryOf(worse, c).disposition == Supported ==>
            EntryOf(q, c).disposition == Supported
    ensures Rank(DecisionOf(worse).1.ceiling) <= Rank(DecisionOf(q).1.ceiling)
    ensures DecisionOf(worse).1.verdict == Pass ==> DecisionOf(q).1.verdict == Pass
  {
    forall c | c in q.claims
      ensures Earned(c, worse) ==> Earned(c, q)
      ensures EntryOf(worse, c).disposition == Supported ==> EntryOf(q, c).disposition == Supported
    {
      SupportedExactly(c, worse);
      SupportedExactly(c, q);
    }
    CeilingIsHighestEarned(worse);
    CeilingIsHighestEarned(q);
    VerdictExactly(worse);
    VerdictExactly(q);
  }
}
