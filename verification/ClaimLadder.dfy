/** Which claims the gate supports, kind by kind, which ceiling they give together, and what the brief asks for next. */
module ClaimLadder {
  import opened Prelude
  import opened Sorting
  import opened ClaimGate

  /** One of the linked receipts has exactly this maturity. */
  predicate Shows(c: Claim, q: Request, maturity: Maturity) {
    exists m :: 0 <= m < |c.linked| && c.linked[m] in q.receipts && q.receipts[c.linked[m]] == maturity
  }

  /** No severe failure was counted and no attempt excluded. */
  predicate Clean(q: Request) {
    q.report.exclusions == [] && forall k :: 0 <= k < |q.report.severe| ==> q.report.severe[k].1 == 0
  }

  predicate SevereCounted(q: Request) {
    exists k :: 0 <= k < |q.report.severe| && q.report.severe[k].1 > 0
  }

  /** A confirmatory report with at least one estimated effect. */
  predicate Confirmed(q: Request) {
    && q.report.level == ConfirmatoryEligible
    && exists k :: 0 <= k < |q.report.effects| && q.report.effects[k] == Estimated
  }

  /** The receipt, the report and the maximum that each kind of claim needs. */
  predicate Warranted(c: Claim, q: Request) {
    match c.kind
    case FixtureObservation => Shows(c, q, Fixture) && q.maximum != NoClaim
    case LocalLiveObservation => Shows(c, q, LocalLive) && q.maximum !in {NoClaim, FixtureOnly}
    case CostComparison =>
      Shows(c, q, LocalLive) && q.report.unknownCostProfiles == [] && q.maximum !in {NoClaim, FixtureOnly}
    case ParetoComparison =>
      Shows(c, q, LocalLive) && q.report.unknownCostProfiles == [] && q.maximum !in {NoClaim, FixtureOnly}
    case CausalEffect => Shows(c, q, LocalLive) && Confirmed(q) && q.maximum !in {NoClaim, FixtureOnly, LocalLiveOnly}
    case GeneralizedEffect =>
      Shows(c, q, Replicated) && Confirmed(q) &&
      q.maximum in {ReplicatedCeiling, CrossModelCeiling, HumanCeiling, IndependentCeiling}
    case CrossModelReplication =>
      Shows(c, q, CrossModel) && q.maximum in {CrossModelCeiling, HumanCeiling, IndependentCeiling}
    case HumanCalibratedAssessment => Shows(c, q, HumanCalibrated) && q.maximum in {HumanCeiling, IndependentCeiling}
    case IndependentValidation => Shows(c, q, Independent) && q.maximum == IndependentCeiling
  }

  lemma {:induction false} NoSevereExactly(severe: seq<(string, nat)>)
    ensures SevereEvents(severe) == 0 <==> forall k :: 0 <= k < |severe| ==> severe[k].1 == 0
  {
    if severe != [] {
      NoSevereExactly(severe[1..]);
      if forall k :: 0 <= k < |severe[1..]| ==> severe[1..][k].1 == 0 {
        forall k | 1 <= k < |severe| ensures severe[k].1 == 0 {
          assert severe[k] == severe[1..][k - 1];
        }
      }
    }
  }

  lemma {:induction false} EarnedByKind(c: Claim, q: Request)
    ensures Earned(c, q) <==> Clean(q) && Warranted(c, q)
  {
    NoSevereExactly(q.report.severe);
    ReceiptOfKind(c, q);
    if Estimated in q.report.effects {
      var k :| 0 <= k < |q.report.effects| && q.report.effects[k] == Estimated;
    }
  }

  lemma {:induction false} ReceiptOfKind(c: Claim, q: Request)
    ensures HasReceipt(c, q) <==> Shows(c, q, RequiredMaturity(c.kind))
  {
  }

  /** The ledger supports a claim exactly when the report is clean and the claim is warranted in its kind. */
  lemma {:induction false} SupportedByKind(c: Claim, q: Request)
    ensures EntryOf(q, c).disposition == Supported <==> Clean(q) && Warranted(c, q)
  {
    SupportedExactly(c, q);
    EarnedByKind(c, q);
  }

  /** Severe failures decide every entry by the policy; without them an unsupported claim is on hold. */
  lemma {:induction false} DispositionExactly(c: Claim, q: Request)
    ensures EntryOf(q, c).disposition ==
            if SevereCounted(q) then (if q.policy == RejectSevere then Rejected else OnHold)
            else if Clean(q) && Warranted(c, q) then Supported
            else OnHold
  {
    NoSevereExactly(q.report.severe);
    SupportedByKind(c, q);
  }

  /** The maturity that a claim of this kind asks for. */
  predicate Asks(kind: Kind, maturity: Maturity) {
    (kind, maturity) in {
      (FixtureObservation, Fixture), (LocalLiveObservation, LocalLive), (CausalEffect, LocalLive),
      (GeneralizedEffect, Replicated), (CostComparison, LocalLive), (ParetoComparison, LocalLive),
      (CrossModelReplication, CrossModel), (HumanCalibratedAssessment, HumanCalibrated),
      (IndependentValidation, Independent)}
  }

  /** The missing-receipt blocker names the claim's kind and the maturity that none of its receipts has. */
  lemma {:induction false} MissingReceiptExactly(c: Claim, q: Request, maturity: Maturity, kind: Kind)
    ensures MissingReceipt(maturity, kind) in BlockersOf(c, q)
            <==> kind == c.kind && Asks(kind, maturity) && !Shows(c, q, maturity)
  {
    BlockersExactly(c, q, MissingReceipt(maturity, kind));
    ReceiptOfKind(c, q);
  }

  // ----- The ceiling -----

  function SupportedKinds(entries: seq<Entry>): set<Kind> {
    set k | 0 <= k < |entries| && entries[k].disposition == Supported :: entries[k].kind
  }

  /** The first of these rungs that one of the kinds stands on. */
  function Top(kinds: set<Kind>): Ceiling {
    if IndependentValidation in kinds then IndependentCeiling
    else if HumanCalibratedAssessment in kinds then HumanCeiling
    else if CrossModelReplication in kinds then CrossModelCeiling
    else if GeneralizedEffect in kinds then ReplicatedCeiling
    else if CausalEffect in kinds then ConfirmatoryAnalysis
    else if LocalLiveObservation in kinds || CostComparison in kinds || ParetoComparison in kinds then LocalLiveOnly
    else if FixtureObservation in kinds then FixtureOnly
    else NoClaim
  }

  lemma {:induction false} TopIsHighest(kinds: set<Kind>, best: Ceiling)
    requires forall kind :: kind in kinds ==> Rank(CeilingFor(kind)) <= Rank(best)
    requires best == NoClaim || exists kind :: kind in kinds && CeilingFor(kind) == best
    ensures best == Top(kinds)
  {
  }

  /** The published ceiling is the one of the strongest kind with a supported entry in the published ledger. */
  lemma {:induction false} CeilingByKind(q: Request)
    ensures DecisionOf(q).1.ceiling == Top(SupportedKinds(DecisionOf(q).0))
  {
    CeilingOfKinds(LedgerOf(q));
  }

  lemma {:induction false} CeilingOfKinds(entries: seq<Entry>)
    ensures SupportedCeiling(entries) == Top(SupportedKinds(entries))
  {
    CeilingBounds(entries);
    var best, kinds := SupportedCeiling(entries), SupportedKinds(entries);
    if best != NoClaim {
      var k :| 0 <= k < |entries| && Supports(entries[k]) && CeilingFor(entries[k].kind) == best;
      assert entries[k].kind in kinds;
    }
    forall kind | kind in kinds ensures Rank(CeilingFor(kind)) <= Rank(best) {
      var k :| 0 <= k < |entries| && entries[k].disposition == Supported && entries[k].kind == kind;
      assert Supports(entries[k]);
    }
    TopIsHighest(kinds, best);
  }

  // ----- The next action -----

  /** The claim's id does not begin like one of the brief's own notes. */
  predicate PlainId(c: Claim) {
    && !("severe failures" <= c.claimId) && !("excluded" <= c.claimId) && !("analysis adequacy" <= c.claimId)
    && !("one or more profiles have unknown cost" <= c.claimId)
  }

  lemma {:induction false} FirstReportNote(q: Request)
    requires ReportNotes(q) != []
    ensures ReportNotes(q)[0] ==
            if SevereEvents(q.report.severe) > 0 then SevereUnresolved
            else if q.report.exclusions != [] then ExclusionsPrevent
            else if q.report.level != ConfirmatoryEligible then AdequacyDescriptive
            else CostUnknown
  {
  }

  lemma {:induction false} ReportAction(q: Request)
    requires ReportNotes(q) != []
    ensures DecisionOf(q).1.action ==
            if SevereEvents(q.report.severe) > 0 then ResolveSevere
            else if q.report.exclusions != [] then ResolveExclusions
            else if q.report.level != ConfirmatoryEligible then MeetAdequacy
            else AttachCost
  {
    FirstReportNote(q);
    BriefMembers(q, LedgerOf(q), CostUnknown);
    FirstAction(BriefBlockers(q, LedgerOf(q)));
  }

  lemma {:induction false} FirstAction(blockers: seq<BriefBlocker>)
    requires blockers != []
    ensures NextAction(blockers) == ActionFor(blockers[0])
  {
  }

  /** What the ledger adds to the brief carries the id of one of the claims. */
  lemma {:induction false} NoteOfClaim(q: Request, note: BriefBlocker) returns (c: Claim)
    requires note in LedgerNotes(LedgerOf(q))
    ensures note.ClaimBlocked? && c in q.claims && note.claimId == c.claimId
  {
    var entries, claims := LedgerOf(q), Sort(q.claims, ByClaimId);
    LedgerNotesMembers(entries, note);
    LedgerAnswers(q);
    var k :| 0 <= k < |entries| && entries[k].claimId == note.claimId && note.blocker in entries[k].blockers;
    assert Speaks(entries[k], claims[k], q);
    c := claims[k];
    assert c in claims;
  }

  lemma {:induction false} FirstLedgerNote(q: Request) returns (note: BriefBlocker)
    requires ReportNotes(q) == [] && LedgerNotes(LedgerOf(q)) != []
    ensures note in LedgerNotes(LedgerOf(q)) && DecisionOf(q).1.action == ActionFor(note)
  {
    BriefMembers(q, LedgerOf(q), CostUnknown);
    note := BriefBlockers(q, LedgerOf(q))[0];
    BriefMembers(q, LedgerOf(q), note);
  }

  lemma {:induction false} LedgerAction(q: Request)
    requires ReportNotes(q) == [] && LedgerNotes(LedgerOf(q)) != [] && forall c :: c in q.claims ==> PlainId(c)
    ensures DecisionOf(q).1.action == AttachReceipt
  {
    var note := FirstLedgerNote(q);
    var c := NoteOfClaim(q, note);
    PlainAction(c, note);
  }

  lemma {:induction false} PlainAction(c: Claim, note: BriefBlocker)
    requires PlainId(c) && note.ClaimBlocked? && note.claimId == c.claimId
    ensures ActionFor(note) == AttachReceipt
  {
  }

  /**
   The brief asks first for what the report lacks, in this order, then for receipts, and says to
   publish when nothing is missing; only a claim id that begins like one of the brief's notes can
   turn the request for a receipt into another one.
   */
  lemma {:induction false} ActionExactly(q: Request)
    requires Valid(q) && forall c :: c in q.claims ==> PlainId(c)
    ensures DecisionOf(q).1.action ==
            if SevereCounted(q) then ResolveSevere
            else if q.report.exclusions != [] then ResolveExclusions
            else if q.report.level != ConfirmatoryEligible then MeetAdequacy
            else if q.report.unknownCostProfiles != [] then AttachCost
            else if forall c :: c in q.claims ==> Warranted(c, q) then Publish
            else AttachReceipt
  {
    NoSevereExactly(q.report.severe);
    ReportNotesOnly(q, CostUnknown);
    if !Clean(q) || q.report.level != ConfirmatoryEligible || q.report.unknownCostProfiles != [] {
      ReportAction(q);
    } else {
      forall c | c in q.claims ensures Earned(c, q) <==> Warranted(c, q) {
        EarnedByKind(c, q);
      }
      ReportNotesOnly(q, CostUnknown);
      PublishExactly(q);
      VerdictExactly(q);
      PassLeavesNoNotes(q);
      if !(forall c :: c in q.claims ==> Earned(c, q)) { LedgerAction(q); }
    }
  }

  /** The brief's own notes, each exactly when the report has its defect. */
  lemma {:induction false} BriefNotesExactly(q: Request)
    ensures var blockers := DecisionOf(q).1.blockers;
            && (SevereUnresolved in blockers <==> SevereCounted(q))
            && (ExclusionsPrevent in blockers <==> q.report.exclusions != [])
            && (AdequacyDescriptive in blockers <==> q.report.level == DescriptiveOnly)
            && (CostUnknown in blockers <==> q.report.unknownCostProfiles != [])
            && Distinct(blockers)
  {
    ReportNotesAre(q);
    NoteMembers(q, SevereUnresolved);
    NoteMembers(q, ExclusionsPrevent);
    NoteMembers(q, AdequacyDescriptive);
    NoteMembers(q, CostUnknown);
    NotesDistinct(q);
  }

  lemma {:induction false} ReportNotesAre(q: Request)
    ensures SevereUnresolved in ReportNotes(q) <==> SevereCounted(q)
    ensures ExclusionsPrevent in ReportNotes(q) <==> q.report.exclusions != []
    ensures AdequacyDescriptive in ReportNotes(q) <==> q.report.level == DescriptiveOnly
    ensures CostUnknown in ReportNotes(q) <==> q.report.unknownCostProfiles != []
  {
    NoSevereExactly(q.report.severe);
  }

  lemma {:induction false} NotesDistinct(q: Request)
    ensures Distinct(DecisionOf(q).1.blockers)
  {
  }

  lemma {:induction false} NoteMembers(q: Request, note: BriefBlocker)
    requires !note.ClaimBlocked?
    ensures note in DecisionOf(q).1.blockers <==> note in ReportNotes(q)
  {
    BriefMembers(q, LedgerOf(q), note);
    LedgerNotesMembers(LedgerOf(q), note);
  }

  // ----- The order of entries and blockers -----

  /** The ledger lists the claims by ascending id. */
  lemma {:induction false} LedgerInOrder(q: Request)
    ensures |DecisionOf(q).0| == |q.claims|
    ensures forall i, j :: 0 <= i < j < |q.claims| ==>
              StringLe(DecisionOf(q).0[i].claimId, DecisionOf(q).0[j].claimId)
  {
    var claims, entries := Sort(q.claims, ByClaimId), LedgerOf(q);
    StringLeIsOrder();
    SortOrdered(q.claims, ByClaimId);
    SortPermutes(q.claims, ByClaimId);
    LedgerAnswers(q);
    forall i, j | 0 <= i < j < |entries| ensures StringLe(entries[i].claimId, entries[j].claimId) {
      assert ByClaimId(claims[i], claims[j]);
      assert Speaks(entries[i], claims[i], q) && Speaks(entries[j], claims[j], q);
    }
  }

  /** Where a blocker stands in a claim's list. */
  function Place(b: Blocker): nat {
    match b
    case MissingReceipt(_, _) => 0
    case SeverePresent => 1
    case ExclusionsPresent => 2
    case DescriptiveAdequacy => 3
    case NoEstimate => 4
    case UnknownCost => 5
    case CeilingLowered => 6
  }

  /** The blockers stand in this order, all before place n. */
  predicate Placed(s: seq<Blocker>, n: nat) {
    && (forall k :: 0 <= k < |s| ==> Place(s[k]) < n)
    && forall i, j :: 0 <= i < j < |s| ==> Place(s[i]) < Place(s[j])
  }

  lemma {:induction false} NotePlaced(s: seq<Blocker>, condition: bool, b: Blocker)
    requires Placed(s, Place(b))
    ensures Placed(Note(s, condition, b), Place(b) + 1)
  {
  }

  /** A claim's blockers come in one order and none of them twice. */
  lemma {:induction false} BlockersInOrder(c: Claim, q: Request)
    ensures Placed(BlockersOf(c, q), 7)
  {
    FirstBlockers(c, q);
    var level, effects, costs := q.report.level != ConfirmatoryEligible, EstimatedCount(q.report.effects) == 0,
      q.report.unknownCostProfiles != [];
    LaterPlaced(CommonBlockers(c, q), Effectful(c.kind) && level, Effectful(c.kind) && effects,
                Comparative(c.kind) && costs, Rank(CeilingFor(c.kind)) > Rank(q.maximum));
  }

  lemma {:induction false} FirstBlockers(c: Claim, q: Request)
    ensures Placed(CommonBlockers(c, q), 3)
  {
    var missing := MissingReceipt(RequiredMaturity(c.kind), c.kind);
    var receipt := Note([], !HasReceipt(c, q), missing);
    NotePlaced([], !HasReceipt(c, q), missing);
    var severe := Note(receipt, SevereEvents(q.report.severe) > 0, SeverePresent);
    NotePlaced(receipt, SevereEvents(q.report.severe) > 0, SeverePresent);
    NotePlaced(severe, q.report.exclusions != [], ExclusionsPresent);
  }

  lemma {:induction false} LaterPlaced(s: seq<Blocker>, a: bool, b: bool, c: bool, d: bool)
    requires Placed(s, 3)
    ensures Placed(Note(Note(Note(Note(s, a, DescriptiveAdequacy), b, NoEstimate), c, UnknownCost), d, CeilingLowered),
                   7)
  {
    NotePlaced(s, a, DescriptiveAdequacy);
    var t := Note(s, a, DescriptiveAdequacy);
    NotePlaced(t, b, NoEstimate);
    var u := Note(t, b, NoEstimate);
    NotePlaced(u, c, UnknownCost);
    NotePlaced(Note(u, c, UnknownCost), d, CeilingLowered);
  }
}
