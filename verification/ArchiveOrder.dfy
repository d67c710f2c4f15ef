/** When the order of an archive's members matters: never for a TAR, and exactly when for a ZIP. */
module ArchiveOrder {
  import opened Prelude
  import opened Sorting
  import opened ArchiveScan

  // ----- TAR -----

  lemma {:induction false} NamesForgetOrder(rules: Rules, s: seq<Member>, t: seq<Member>)
    requires multiset(s) == multiset(t)
    ensures NamesAccepted(rules, s) ==> NamesAccepted(rules, t)
    ensures Elements(FoldedNames(rules, s)) <= Elements(FoldedNames(rules, t))
  {
    var f := (m: Member) => rules.fold(m.name);
    assert MapSeq(f, s) == FoldedNames(rules, s) && MapSeq(f, t) == FoldedNames(rules, t);
    MultisetFacts(s, t);
    PermutationKeepsDistinct(f, s, t);
    MappedElements(f, s, t);
    if NamesAccepted(rules, s) {
      forall k | 0 <= k < |t| ensures rules.defect(t[k].name).None? && !rules.windows(t[k].name) {
        assert t[k] in s;
      }
    }
  }

  lemma {:induction false} TarAcceptanceCarries(rules: Rules, rawLength: nat, s: seq<Member>, t: seq<Member>)
    requires multiset(s) == multiset(t) && TarAccepted(rules, rawLength, s)
    ensures TarAccepted(rules, rawLength, t)
  {
    MultisetFacts(s, t);
    KeepForgetsOrder(IsFile(), s, t);
    MultisetFacts(Files(s), Files(t));
    TotalForgetsOrder(ContentOf, s, t);
    NamesForgetOrder(rules, Files(s), Files(t));
  }

  lemma {:induction false} TarAccountCarries(rules: Rules, s: seq<Member>, t: seq<Member>)
    requires multiset(s) == multiset(t)
    ensures Elements(FoldedNames(rules, Files(s))) == Elements(FoldedNames(rules, Files(t)))
    ensures ContentBytes(s) == ContentBytes(t)
  {
    KeepForgetsOrder(IsFile(), s, t);
    TotalForgetsOrder(ContentOf, s, t);
    NamesForgetOrder(rules, Files(s), Files(t));
    NamesForgetOrder(rules, Files(t), Files(s));
  }

  /** A TAR is accepted or held, and accounted, the same in any member order. */
  lemma {:induction false} TarForgetsMemberOrder(rules: Rules, rawLength: nat, s: seq<Member>, t: seq<Member>)
    requires multiset(s) == multiset(t)
    ensures TarScan(rules, rawLength, s).Ok? <==> TarScan(rules, rawLength, t).Ok?
    ensures TarScan(rules, rawLength, s).Ok? ==> TarScan(rules, rawLength, s) == TarScan(rules, rawLength, t)
  {
    MultisetFacts(s, t);
    TarScanExactly(rules, rawLength, s);
    TarScanExactly(rules, rawLength, t);
    if TarAccepted(rules, rawLength, s) { TarAcceptanceCarries(rules, rawLength, s, t); }
    if TarAccepted(rules, rawLength, t) { TarAcceptanceCarries(rules, rawLength, t, s); }
    TarAccountCarries(rules, s, t);
  }

  // ----- ZIP -----

  predicate Plain(m: Member) { m.directory || (!m.encrypted && !m.special && |m.content| == m.size) }

  /** What a ZIP needs in any order. */
  predicate ZipFilesFit(rules: Rules, members: seq<Member>) {
    && |members| <= MAX_FILES && NamesAccepted(rules, members) && (forall m :: m in members ==> Plain(m))
    && ContentBytes(members) <= MAX_UNCOMPRESSED_BYTES
  }

  predicate RatioFits(members: seq<Member>) {
    ContentBytes(members) <= AtLeastOne(CompressedBytes(members)) * MAX_RATIO
  }

  predicate RatiosFit(members: seq<Member>) {
    forall k :: 0 <= k <= |members| ==> RatioFits(members[..k])
  }

  lemma {:induction false} LimitExactly(count: nat, members: seq<Member>)
    ensures LimitHold(count, ContentBytes(members), AtLeastOne(CompressedBytes(members))).None?
            <==> count <= MAX_FILES && ContentBytes(members) <= MAX_UNCOMPRESSED_BYTES && RatioFits(members)
  {
  }

  lemma {:induction false} FitSnoc(rules: Rules, before: seq<Member>, last: Member)
    ensures RatiosFit(before + [last]) <==> RatiosFit(before) && RatioFits(before + [last])
    ensures ZipFilesFit(rules, before + [last])
            <==> && |before| < MAX_FILES && ZipFilesFit(rules, before) && Plain(last)
                 && NameHold(rules, Elements(FoldedNames(rules, before)), last.name).None?
                 && ContentBytes(before + [last]) <= MAX_UNCOMPRESSED_BYTES
  {
    var all := before + [last];
    NamesSnoc(rules, before, last);
    BytesSnoc(before, last);
    assert last in all && forall m :: m in before ==> m in all;
    assert all[|before|] == last && forall k :: 0 <= k < |before| ==> before[k] == all[k];
    assert all[..|all|] == all && forall k :: 0 <= k <= |before| ==> all[..k] == before[..k];
    if RatiosFit(all) {
      forall k | 0 <= k <= |before| ensures RatioFits(before[..k]) {
        assert RatioFits(all[..k]);
      }
      assert RatioFits(all[..|all|]);
    }
  }

  /** One order is accepted exactly when its members fit, with the ratio of every prefix. */
  lemma {:induction false} ZipAcceptedByPrefix(rules: Rules, members: seq<Member>)
    ensures ZipAccepted(rules, members) <==> ZipFilesFit(rules, members) && RatiosFit(members)
  {
    if members == [] {
      assert members[..0] == [];
    } else {
      var before, last := members[..|members| - 1], members[|members| - 1];
      assert members == before + [last];
      ZipAcceptedByPrefix(rules, before);
      ZipSnoc(rules, before, last);
      FitSnoc(rules, before, last);
      BytesSnoc(before, last);
      LimitExactly(|members|, members);
      assert before[..|before|] == before;
    }
  }

  lemma {:induction false} FilesFitForgetsOrder(rules: Rules, s: seq<Member>, t: seq<Member>)
    requires multiset(s) == multiset(t)
    ensures ZipFilesFit(rules, s) <==> ZipFilesFit(rules, t)
    ensures RatioFits(s) <==> RatioFits(t)
    ensures AccountOf(rules, s) == AccountOf(rules, t)
  {
    MultisetFacts(s, t);
    TotalForgetsOrder(ContentOf, s, t);
    TotalForgetsOrder(CompressedOf, s, t);
    NamesForgetOrder(rules, s, t);
    NamesForgetOrder(rules, t, s);
  }

  /** A ZIP has the same account in every order that is accepted. */
  lemma {:induction false} ZipAccountForgetsOrder(rules: Rules, s: seq<Member>, t: seq<Member>)
    requires multiset(s) == multiset(t) && ZipScan(rules, s).Ok? && ZipScan(rules, t).Ok?
    ensures ZipScan(rules, s) == ZipScan(rules, t)
  {
    ZipScanExactly(rules, s);
    ZipScanExactly(rules, t);
    FilesFitForgetsOrder(rules, s, t);
  }

  // ----- Every order -----

  function ZeroOf(m: Member): nat { if m.compressed == 0 then ContentOf(m) else 0 }

  /** The content of the files that take no bytes in the archive. */
  function ZeroBytes(members: seq<Member>): nat { Total(ZeroOf, members) }

  /** The room a compressed file brings is enough for itself and for so many bytes more. */
  predicate HasRoomFor(m: Member, zero: nat) {
    m.directory || m.compressed == 0 || zero + |m.content| <= m.compressed * MAX_RATIO
  }

  /** The zero-byte files fit alone, and every other file has room for all of them. */
  predicate EveryOrderFits(members: seq<Member>) {
    && ZeroBytes(members) <= MAX_RATIO
    && forall m :: m in members ==> HasRoomFor(m, ZeroBytes(members))
  }

  /** Such files fit in any order. */
  lemma {:induction false} PrefixFits(members: seq<Member>, zero: nat)
    requires ZeroBytes(members) <= zero <= MAX_RATIO && forall m :: m in members ==> HasRoomFor(m, zero)
    ensures if CompressedBytes(members) == 0 then ContentBytes(members) == ZeroBytes(members)
            else ContentBytes(members) + zero <= CompressedBytes(members) * MAX_RATIO + ZeroBytes(members)
    ensures RatioFits(members)
  {
    if members != [] {
      var before, last := members[..|members| - 1], members[|members| - 1];
      assert members == before + [last];
      BytesSnoc(before, last);
      TotalSnoc(ZeroOf, before, last);
      assert HasRoomFor(last, zero);
      PrefixFits(before, zero);
    }
  }

  lemma {:induction false} EveryOrderSuffices(rules: Rules, members: seq<Member>, t: seq<Member>)
    requires multiset(t) == multiset(members) && ZipFilesFit(rules, members) && EveryOrderFits(members)
    ensures ZipScan(rules, t).Ok?
  {
    MultisetFacts(t, members);
    FilesFitForgetsOrder(rules, members, t);
    TotalForgetsOrder(ZeroOf, members, t);
    forall k | 0 <= k <= |t| ensures RatioFits(t[..k]) {
      var first := t[..k];
      assert t == first + t[k..];
      TotalAppend(ZeroOf, first, t[k..]);
      assert forall m :: m in first ==> m in t;
      PrefixFits(first, ZeroBytes(members));
    }
    ZipAcceptedByPrefix(rules, t);
    ZipScanExactly(rules, t);
  }

  function TakesNone(): Member -> bool { (m: Member) => m.directory || m.compressed == 0 }

  lemma {:induction false} TakesNoneTotal(members: seq<Member>)
    ensures ContentBytes(Keep(TakesNone(), members)) == ZeroBytes(members)
    ensures CompressedBytes(Keep(TakesNone(), members)) == 0
  {
    if members != [] {
      var before, last := members[..|members| - 1], members[|members| - 1];
      assert members == before + [last];
      TakesNoneTotal(before);
      TakesNoneSnoc(before, last);
      TotalSnoc(ZeroOf, before, last);
    }
  }

  lemma {:induction false} TakesNoneSnoc(before: seq<Member>, last: Member)
    ensures ContentBytes(Keep(TakesNone(), before + [last])) == ContentBytes(Keep(TakesNone(), before)) + ZeroOf(last)
    ensures CompressedBytes(Keep(TakesNone(), before + [last])) == CompressedBytes(Keep(TakesNone(), before))
  {
    KeepSnoc(TakesNone(), before, last);
    var kept := Keep(TakesNone(), before);
    assert kept + [] == kept;
    BytesSnoc(kept, last);
  }

  /** Any element of s can be moved to its front or to its end. */
  lemma {:induction false} WithoutOne<T(!new)>(s: seq<T>, x: T) returns (rest: seq<T>)
    requires x in s
    ensures multiset([x] + rest) == multiset(s) && multiset(rest + [x]) == multiset(s)
  {
    var i :| 0 <= i < |s| && s[i] == x;
    rest := s[..i] + s[i + 1..];
    assert s == s[..i] + [x] + s[i + 1..];
  }

  /** The files that take no bytes first, then m, then the rest. */
  lemma {:induction false} WorstOrder(members: seq<Member>, m: Member) returns (rest: seq<Member>)
    requires m in members && !TakesNone()(m)
    ensures multiset((Keep(TakesNone(), members) + [m]) + rest) == multiset(members)
  {
    var zeros, stored := Keep(TakesNone(), members), Keep(Not(TakesNone()), members);
    KeepMembers(Not(TakesNone()), members);
    KeepSplits(TakesNone(), members);
    rest := WithoutOne(stored, m);
    assert (zeros + [m]) + rest == zeros + ([m] + rest);
  }

  ghost predicate AcceptedInEveryOrder(rules: Rules, members: seq<Member>) {
    forall t :: multiset(t) == multiset(members) ==> ZipScan(rules, t).Ok?
  }

  lemma {:induction false} PrefixRatio(rules: Rules, members: seq<Member>, first: seq<Member>, rest: seq<Member>)
    requires AcceptedInEveryOrder(rules, members) && multiset(first + rest) == multiset(members)
    ensures RatioFits(first)
  {
    ZipScanExactly(rules, first + rest);
    ZipAcceptedByPrefix(rules, first + rest);
    assert (first + rest)[..|first|] == first;
  }

  lemma {:induction false} StoredNeedsRoom(rules: Rules, members: seq<Member>, m: Member)
    requires AcceptedInEveryOrder(rules, members) && m in members
    ensures HasRoomFor(m, ZeroBytes(members))
  {
    if !TakesNone()(m) {
      var zeros := Keep(TakesNone(), members);
      var rest := WorstOrder(members, m);
      PrefixRatio(rules, members, zeros + [m], rest);
      BytesSnoc(zeros, m);
      TakesNoneTotal(members);
    }
  }

  lemma {:induction false} EveryOrderNeeds(rules: Rules, members: seq<Member>)
    requires AcceptedInEveryOrder(rules, members)
    ensures ZipFilesFit(rules, members) && EveryOrderFits(members)
  {
    ZipScanExactly(rules, members);
    ZipAcceptedByPrefix(rules, members);
    TakesNoneTotal(members);
    KeepSplits(TakesNone(), members);
    PrefixRatio(rules, members, Keep(TakesNone(), members), Keep(Not(TakesNone()), members));
    forall m | m in members ensures HasRoomFor(m, ZeroBytes(members)) {
      StoredNeedsRoom(rules, members, m);
    }
  }

  /**
   A ZIP is accepted in every order exactly when its files fit and each compressed one has room for
   all the zero-byte ones.
   */
  lemma {:induction false} ZipEveryOrderExactly(rules: Rules, members: seq<Member>)
    ensures AcceptedInEveryOrder(rules, members) <==> ZipFilesFit(rules, members) && EveryOrderFits(members)
  {
    if AcceptedInEveryOrder(rules, members) {
      EveryOrderNeeds(rules, members);
    }
    if ZipFilesFit(rules, members) && EveryOrderFits(members) {
      forall t | multiset(t) == multiset(members) ensures ZipScan(rules, t).Ok? {
        EveryOrderSuffices(rules, members, t);
      }
    }
  }

  // ----- Some order -----

  predicate Roomy(m: Member) { ContentOf(m) <= CompressedOf(m) * MAX_RATIO }

  predicate Tight(m: Member) { ContentOf(m) >= CompressedOf(m) * MAX_RATIO }

  lemma {:induction false} RoomyTotal(members: seq<Member>)
    requires forall m :: m in members ==> Roomy(m)
    ensures ContentBytes(members) <= CompressedBytes(members) * MAX_RATIO
  {
    if members != [] {
      var before, last := members[..|members| - 1], members[|members| - 1];
      assert members == before + [last];
      assert last in members && Roomy(last);
      RoomyTotal(before);
      BytesSnoc(before, last);
    }
  }

  lemma {:induction false} TightTotal(members: seq<Member>)
    requires forall m :: m in members ==> Tight(m)
    ensures ContentBytes(members) >= CompressedBytes(members) * MAX_RATIO
  {
    if members != [] {
      var before, last := members[..|members| - 1], members[|members| - 1];
      assert members == before + [last];
      assert last in members && Tight(last);
      TightTotal(before);
      BytesSnoc(before, last);
    }
  }

  /** With the roomy files first, the ratio is at its worst at one of the two ends. */
  lemma {:induction false} RoomyFirstFits(roomy: seq<Member>, tight: seq<Member>)
    requires (forall m :: m in roomy ==> Roomy(m)) && (forall m :: m in tight ==> Tight(m)) && RatioFits(roomy + tight)
    ensures RatiosFit(roomy + tight)
  {
    var t := roomy + tight;
    forall k | 0 <= k <= |t| ensures RatioFits(t[..k]) {
      var first := t[..k];
      if k <= |roomy| {
        assert first == roomy[..k];
        RoomyTotal(first);
      } else {
        var rest := tight[k - |roomy|..];
        assert t == first + rest;
        TotalAppend(ContentOf, first, rest);
        TotalAppend(CompressedOf, first, rest);
        TightTotal(rest);
      }
    }
  }

  function IsRoomy(): Member -> bool { (m: Member) => Roomy(m) }

  /** The roomy members, and then the others. */
  function BestOrder(members: seq<Member>): seq<Member> { Keep(IsRoomy(), members) + Keep(Not(IsRoomy()), members) }

  lemma {:induction false} BestOrderFits(members: seq<Member>)
    requires RatioFits(members)
    ensures multiset(BestOrder(members)) == multiset(members) && RatiosFit(BestOrder(members))
  {
    var roomy, others := Keep(IsRoomy(), members), Keep(Not(IsRoomy()), members);
    KeepSplits(IsRoomy(), members);
    TotalForgetsOrder(ContentOf, BestOrder(members), members);
    TotalForgetsOrder(CompressedOf, BestOrder(members), members);
    KeepMembers(IsRoomy(), members);
    KeepMembers(Not(IsRoomy()), members);
    RoomyFirstFits(roomy, others);
  }

  ghost predicate AcceptedInSomeOrder(rules: Rules, members: seq<Member>) {
    exists t :: multiset(t) == multiset(members) && ZipScan(rules, t).Ok?
  }

  /** A ZIP is accepted in some order exactly when its members fit, with the ratio of the whole archive. */
  lemma {:induction false} ZipSomeOrderExactly(rules: Rules, members: seq<Member>)
    ensures AcceptedInSomeOrder(rules, members) <==> ZipFilesFit(rules, members) && RatioFits(members)
  {
    if AcceptedInSomeOrder(rules, members) {
      var t :| multiset(t) == multiset(members) && ZipScan(rules, t).Ok?;
      ZipScanExactly(rules, t);
      ZipAcceptedByPrefix(rules, t);
      FilesFitForgetsOrder(rules, t, members);
      assert t[..|t|] == t;
    }
    if ZipFilesFit(rules, members) && RatioFits(members) {
      var t := BestOrder(members);
      BestOrderFits(members);
      FilesFitForgetsOrder(rules, members, t);
      ZipAcceptedByPrefix(rules, t);
      ZipScanExactly(rules, t);
    }
  }

  ghost predicate OrderIrrelevant(rules: Rules, members: seq<Member>) {
    forall s, t :: multiset(s) == multiset(members) && multiset(t) == multiset(members) && ZipScan(rules, s).Ok? ==>
      ZipScan(rules, t).Ok?
  }

  /** The order of a ZIP is irrelevant exactly when a ZIP that fits in some order fits in every order. */
  lemma {:induction false} ZipOrderIrrelevantExactly(rules: Rules, members: seq<Member>)
    ensures OrderIrrelevant(rules, members)
            <==> (ZipFilesFit(rules, members) && RatioFits(members) ==> EveryOrderFits(members))
  {
    ZipSomeOrderExactly(rules, members);
    ZipEveryOrderExactly(rules, members);
    if OrderIrrelevant(rules, members) {
      if AcceptedInSomeOrder(rules, members) {
        var s :| multiset(s) == multiset(members) && ZipScan(rules, s).Ok?;
        forall t | multiset(t) == multiset(members) ensures ZipScan(rules, t).Ok? {
          assert multiset(s) == multiset(members) && ZipScan(rules, s).Ok?;
        }
      }
    } else {
      var s, t :| multiset(s) == multiset(members) && multiset(t) == multiset(members) && ZipScan(rules, s).Ok? &&
        !ZipScan(rules, t).Ok?;
      assert AcceptedInSomeOrder(rules, members) && !AcceptedInEveryOrder(rules, members);
    }
  }

  function PlainFile(name: string, compressed: nat, content: seq<bv8>): Member {
    Member(name, false, false, false, false, |content|, compressed, content)
  }

  function LaxRules(): Rules { Rules((s: string) => None, (s: string) => false, (s: string) => s) }

  lemma {:induction false} TwoFiles(a: Member, b: Member)
    requires a.name != b.name && !a.directory && !b.directory
    requires !a.encrypted && !b.encrypted && !a.special && !b.special
    requires a.size == |a.content| && b.size == |b.content|
    ensures ZipScan(LaxRules(), [a, b]).Ok?
            <==> LimitHold(1, a.size, AtLeastOne(a.compressed)).None?
                 && LimitHold(2, a.size + b.size, AtLeastOne(a.compressed + b.compressed)).None?
  {
    var both, start := [a, b], Account({}, 0, 0);
    assert both[..1] == [a] && [a][..0] == [];
    assert ZipScan(LaxRules(), []) == Ok(start);
    assert ZipScan(LaxRules(), [a]) == ZipStep(LaxRules(), start, a, 1);
  }

  /**
   The order of a ZIP can matter: its ratio is checked after every file, so a well compressed file
   passes behind a plain one and is held before it.
   */
  lemma {:induction false} ZipOrderMatters() returns (a: Member, b: Member)
    ensures ZipScan(LaxRules(), [a, b]).Err? && ZipScan(LaxRules(), [b, a]).Ok?
  {
    var content: seq<bv8> := seq(1000, i => 0);
    a, b := PlainFile("a", 1, content), PlainFile("b", 1000, content);
    assert a.name[0] != b.name[0];
    TwoFiles(a, b);
    TwoFiles(b, a);
  }
}
