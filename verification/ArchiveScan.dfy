/** Scanning an archive before extraction: bounded reads of each member and the running size accounts. */
module ArchiveScan {
  import opened Prelude
  import opened Sorting

  const MAX_FILES: nat := 256
  const MAX_UNCOMPRESSED_BYTES: nat := 32 * 1024 * 1024
  const MAX_RATIO: nat := 100
  const CHUNK: nat := 64 * 1024

  datatype Hold =
    | PathInvalid | PathEscape | NameCollision | WindowsName | SizeLimit | CompressionRatio
    | EncryptedMember | SpecialMember | SparseMember | MemberUnreadable

  // ----- Bounded reads -----

  function Least3(a: nat, b: nat, c: nat): nat {
    if a <= b && a <= c then a else if b <= c then b else c
  }

  /** A binary stream; pace says how many bytes it is willing to hand out from each position. */
  class Reader {
    const data: seq<bv8>
    const pace: nat -> nat
    var position: nat

    ghost predicate Valid()
      reads this
    {
      position <= |data|
    }

    constructor (data: seq<bv8>, pace: nat -> nat)
      ensures Valid() && this.data == data && position == 0
    {
      this.data, this.pace, position := data, pace, 0;
    }

    /** `read(n)`: possibly short, empty only for n = 0 or at the end. */
    method Read(n: nat) returns (chunk: seq<bv8>)
      requires Valid()
      modifies this
      ensures Valid() && old(position) <= position <= old(position) + n
      ensures chunk == data[old(position)..position]
      ensures chunk == [] <==> n == 0 || old(position) == |data|
    {
      var willing := if pace(position) == 0 then 1 else pace(position);
      var size := Least3(n, |data| - position, willing);
      chunk := data[position..position + size];
      position := position + size;
    }
  }

  /** `_consume`: the stream's length if it is within the maximum; otherwise it stops one byte past the maximum. */
  method Consume(source: Reader, maximum: nat) returns (result: Result<nat, Hold>)
    requires source.Valid()
    modifies source
    ensures var left := |source.data| - old(source.position);
            && result == (if left <= maximum then Ok(left) else Err(SizeLimit))
            && source.position == if left <= maximum then |source.data| else old(source.position) + maximum + 1
  {
    var total := 0;
    while true
      invariant source.Valid() && total <= maximum
      invariant source.position == old(source.position) + total
      decreases |source.data| - source.position
    {
      var chunk := source.Read(if CHUNK <= maximum - total + 1 then CHUNK else maximum - total + 1);
      if chunk == [] {
        return Ok(total);
      }
      total := total + |chunk|;
      if total > maximum {
        return Err(SizeLimit);
      }
    }
  }

  // ----- Members and names -----

  datatype Member = Member(
    name: string, directory: bool, special: bool, encrypted: bool, sparse: bool, size: nat, compressed: nat,
      content: seq<bv8>)

  /** Path and name rules: what is wrong with a path on its own, whether it is a Windows name, and its folded form. */
  datatype Rules = Rules(defect: string -> Option<Hold>, windows: string -> bool, fold: string -> string)

  /** `_safe_member`, in the order of its checks. */
  function NameHold(rules: Rules, seen: set<string>, name: string): Option<Hold> {
    if rules.defect(name).Some? then rules.defect(name)
    else if rules.fold(name) in seen then Some(NameCollision)
    else if rules.windows(name) then Some(WindowsName)
    else None
  }

  function LimitHold(count: nat, total: nat, compressed: nat): (hold: Option<Hold>)
    ensures hold.None? <==> count <= 256 && total <= 33_554_432 && (compressed == 0 || total <= 100 * compressed)
    ensures hold == Some(SizeLimit) <==> count > 256 || total > 33_554_432
  {
    if count > MAX_FILES || total > MAX_UNCOMPRESSED_BYTES then Some(SizeLimit)
    else if total > 0 && compressed > 0 && total > compressed * MAX_RATIO then Some(CompressionRatio)
    else None
  }

  /** Reading a member against its declared size. */
  function ContentHold(m: Member): Option<Hold> {
    if |m.content| > m.size then Some(SizeLimit)
    else if |m.content| != m.size then Some(MemberUnreadable)
    else None
  }

  method CheckContent(m: Member, pace: nat -> nat) returns (hold: Option<Hold>)
    ensures hold == ContentHold(m)
  {
    var handle := new Reader(m.content, pace);
    var size := Consume(handle, m.size);
    if size.Err? {
      return Some(size.error);
    }
    return if size.value != m.size then Some(MemberUnreadable) else None;
  }

  /** The running account of a scan. */
  datatype Account = Account(seen: set<string>, total: nat, compressed: nat)

  // ----- ZIP -----

  /** One round of the loop of `_scan_zip`; count is the member's position, from 1. */
  function ZipStep(rules: Rules, a: Account, m: Member, count: nat): Result<Account, Hold> {
    var seen := a.seen + {rules.fold(m.name)};
    var total, compressed := a.total + m.size, a.compressed + m.compressed;
    if NameHold(rules, a.seen, m.name).Some? then Err(NameHold(rules, a.seen, m.name).value)
    else if m.directory then Ok(a.(seen := seen))
    else if m.encrypted then Err(EncryptedMember)
    else if m.special then Err(SpecialMember)
    else if LimitHold(count, total, AtLeastOne(compressed)).Some?
      then Err(LimitHold(count, total, AtLeastOne(compressed)).value)
    else if ContentHold(m).Some? then Err(ContentHold(m).value)
    else Ok(Account(seen, total, compressed))
  }

  function AtLeastOne(n: nat): nat { if n == 0 then 1 else n }

  /** The scan of a whole ZIP: the member count first, then round by round. */
  function ZipScan(rules: Rules, members: seq<Member>): Result<Account, Hold> {
    if |members| > MAX_FILES then Err(SizeLimit)
    else if members == [] then Ok(Account({}, 0, 0))
    else
      var before := ZipScan(rules, members[..|members| - 1]);
      if before.Err? then before else ZipStep(rules, before.value, members[|members| - 1], |members|)
  }

  lemma {:induction false} ZipHoldPersists(rules: Rules, members: seq<Member>, k: nat)
    requires k <= |members| <= MAX_FILES && ZipScan(rules, members[..k]).Err?
    ensures ZipScan(rules, members) == ZipScan(rules, members[..k])
  {
    if k < |members| {
      assert members[..|members| - 1][..k] == members[..k];
      ZipHoldPersists(rules, members[..|members| - 1], k);
    } else {
      assert members[..k] == members;
    }
  }

  /** One round of the loop of `_scan_zip`. */
  method ScanZipMember(rules: Rules, seen: set<string>, total: nat, compressed: nat, m: Member, count: nat,
      pace: nat -> nat)
    returns (hold: Option<Hold>, seen': set<string>, total': nat, compressed': nat)
    ensures (if hold.Some? then Err(hold.value) else Ok(Account(seen', total', compressed')))
            == ZipStep(rules, Account(seen, total, compressed), m, count)
  {
    hold, seen', total', compressed' := NameHold(rules, seen, m.name), seen, total, compressed;
    if hold.Some? {
      return;
    }
    seen' := seen' + {rules.fold(m.name)};
    if m.directory {
      return;
    }
    if m.encrypted {
      hold := Some(EncryptedMember);
      return;
    }
    if m.special {
      hold := Some(SpecialMember);
      return;
    }
    total', compressed' := total' + m.size, compressed' + m.compressed;
    hold := LimitHold(count, total', AtLeastOne(compressed'));
    if hold.None? {
      hold := CheckContent(m, pace);
    }
  }

  /** `_scan_zip`: the number of member names and the uncompressed bytes, or the first hold. */
  method ScanZip(rules: Rules, members: seq<Member>, pace: nat -> nat) returns (result: Result<(nat, nat), Hold>)
    ensures result == match ZipScan(rules, members) case Err(hold) => Err(hold) case Ok(a) => Ok((|a.seen|, a.total))
  {
    if |members| > MAX_FILES {
      return Err(SizeLimit);
    }
    var seen: set<string>, total: nat, compressed: nat := {}, 0, 0;
    for k := 0 to |members|
      invariant ZipScan(rules, members[..k]) == Ok(Account(seen, total, compressed))
    {
      assert members[..k + 1][..k] == members[..k];
      var hold;
      hold, seen, total, compressed := ScanZipMember(rules, seen, total, compressed, members[k], k + 1, pace);
      if hold.Some? {
        ZipHoldPersists(rules, members, k + 1);
        return Err(hold.value);
      }
    }
    assert members[..|members|] == members;
    return Ok((|seen|, total));
  }

  // ----- TAR -----

  function TarStep(rules: Rules, rawLength: nat, a: Account, m: Member, count: nat): Result<Account, Hold> {
    var total := a.total + m.size;
    if m.directory then Ok(a)
    else if m.special then Err(SpecialMember)
    else if NameHold(rules, a.seen, m.name).Some? then Err(NameHold(rules, a.seen, m.name).value)
    else if m.sparse then Err(SparseMember)
    else if LimitHold(count, total, rawLength).Some? then Err(LimitHold(count, total, rawLength).value)
    else if ContentHold(m).Some? then Err(ContentHold(m).value)
    else Ok(Account(a.seen + {rules.fold(m.name)}, total, a.compressed))
  }

  /** The scan of a whole TAR, likewise. */
  function TarScan(rules: Rules, rawLength: nat, members: seq<Member>): Result<Account, Hold> {
    if |members| > MAX_FILES then Err(SizeLimit)
    else if members == [] then Ok(Account({}, 0, 0))
    else
      var before := TarScan(rules, rawLength, members[..|members| - 1]);
      if before.Err? then before else TarStep(rules, rawLength, before.value, members[|members| - 1], |members|)
  }

  lemma {:induction false} TarHoldPersists(rules: Rules, rawLength: nat, members: seq<Member>, k: nat)
    requires k <= |members| <= MAX_FILES && TarScan(rules, rawLength, members[..k]).Err?
    ensures TarScan(rules, rawLength, members) == TarScan(rules, rawLength, members[..k])
  {
    if k < |members| {
      assert members[..|members| - 1][..k] == members[..k];
      TarHoldPersists(rules, rawLength, members[..|members| - 1], k);
    } else {
      assert members[..k] == members;
    }
  }

  /** One round of the loop of `_scan_tar`. */
  method ScanTarMember(rules: Rules, rawLength: nat, seen: set<string>, total: nat, m: Member, count: nat,
      pace: nat -> nat)
    returns (hold: Option<Hold>, seen': set<string>, total': nat)
    ensures (if hold.Some? then Err(hold.value) else Ok(Account(seen', total', 0)))
            == TarStep(rules, rawLength, Account(seen, total, 0), m, count)
  {
    hold, seen', total' := None, seen, total;
    if m.directory {
      return;
    }
    if m.special {
      hold := Some(SpecialMember);
      return;
    }
    hold := NameHold(rules, seen, m.name);
    if hold.Some? {
      return;
    }
    seen' := seen' + {rules.fold(m.name)};
    if m.sparse {
      hold := Some(SparseMember);
      return;
    }
    total' := total' + m.size;
    hold := LimitHold(count, total', rawLength);
    if hold.None? {
      hold := CheckContent(m, pace);
    }
  }

  /** `_scan_tar`: the number of regular files and the uncompressed bytes, or the first hold. */
  method ScanTar(rules: Rules, rawLength: nat, members: seq<Member>, pace: nat -> nat)
    returns (result: Result<(nat, nat), Hold>)
    ensures result == match TarScan(rules, rawLength, members) case Err(hold) => Err(hold) case Ok(a) =>
            Ok((|a.seen|, a.total))
  {
    if |members| > MAX_FILES {
      return Err(SizeLimit);
    }
    var seen: set<string>, total: nat := {}, 0;
    for k := 0 to |members|
      invariant TarScan(rules, rawLength, members[..k]) == Ok(Account(seen, total, 0))
    {
      assert members[..k + 1][..k] == members[..k];
      var hold;
      hold, seen, total := ScanTarMember(rules, rawLength, seen, total, members[k], k + 1, pace);
      if hold.Some? {
        TarHoldPersists(rules, rawLength, members, k + 1);
        return Err(hold.value);
      }
    }
    assert members[..|members|] == members;
    return Ok((|seen|, total));
  }

  // ----- What acceptance means -----

  function IsFile(): Member -> bool { (m: Member) => !m.directory }

  function Files(members: seq<Member>): seq<Member> { Keep(IsFile(), members) }

  function FoldedNames(rules: Rules, members: seq<Member>): seq<string> {
    seq(|members|, k requires 0 <= k < |members| => rules.fold(members[k].name))
  }

  function ContentOf(m: Member): nat { if m.directory then 0 else |m.content| }

  function CompressedOf(m: Member): nat { if m.directory then 0 else m.compressed }

  /** The bytes that will be written, and the bytes they take in the archive. */
  function ContentBytes(members: seq<Member>): nat { Total(ContentOf, members) }

  function CompressedBytes(members: seq<Member>): nat { Total(CompressedOf, members) }

  predicate NamesAccepted(rules: Rules, members: seq<Member>) {
    && (forall k :: 0 <= k < |members| ==> rules.defect(members[k].name).None? && !rules.windows(members[k].name))
    && Distinct(FoldedNames(rules, members))
  }

  /**
   A file whose content is as long as declared, and which stays within the limits together with
   what came before it.
   */
  predicate FileAt(members: seq<Member>, k: nat)
    requires k < |members|
  {
    members[k].directory
    || (&& !members[k].encrypted && !members[k].special && |members[k].content| == members[k].size
        && k < 256 && ContentBytes(members[..k + 1]) <= 33_554_432
        && (|| ContentBytes(members[..k + 1]) <= 100 * CompressedBytes(members[..k + 1])
            || (CompressedBytes(members[..k + 1]) == 0 && ContentBytes(members[..k + 1]) <= 100)))
  }

  /**
   Not too many members, and the real content of each is as long as declared and within the limits
   after each file.
   */
  predicate ZipAccepted(rules: Rules, members: seq<Member>) {
    && |members| <= 256 && NamesAccepted(rules, members)
    && forall k :: 0 <= k < |members| ==> FileAt(members, k)
  }

  lemma {:induction false} NamesSnoc(rules: Rules, members: seq<Member>, m: Member)
    ensures NamesAccepted(rules, members + [m])
            <==> NamesAccepted(rules, members) && NameHold(rules, Elements(FoldedNames(rules, members)), m.name).None?
    ensures Elements(FoldedNames(rules, members + [m])) == Elements(FoldedNames(rules, members)) + {rules.fold(m.name)}
  {
    var names, all := FoldedNames(rules, members), FoldedNames(rules, members + [m]);
    assert all == names + [rules.fold(m.name)];
    var grown := members + [m];
    assert grown[|members|] == m && forall k :: 0 <= k < |members| ==> grown[k] == members[k];
    if NamesAccepted(rules, grown) {
      forall k | 0 <= k < |members| ensures rules.defect(members[k].name).None? && !rules.windows(members[k].name) {
        assert rules.defect(grown[k].name).None?;
      }
      forall k | 0 <= k < |names| ensures names[k] != rules.fold(m.name) {
        assert all[k] != all[|members|];
      }
      assert rules.defect(grown[|members|].name).None?;
      assert forall i :: 0 <= i < |names| ==> names[i] == all[i];
      assert Distinct(names);
    }
  }

  /** What one more member adds to the requirements. */
  predicate ZipAdmits(rules: Rules, before: seq<Member>, m: Member) {
    && NameHold(rules, Elements(FoldedNames(rules, before)), m.name).None?
    && (m.directory || (&& !m.encrypted && !m.special && |m.content| == m.size
                        && LimitHold(|before| + 1, ContentBytes(before + [m]),
                                     AtLeastOne(CompressedBytes(before + [m]))).None?))
  }

  lemma {:induction false} ZipSnoc(rules: Rules, members: seq<Member>, m: Member)
    ensures ZipAccepted(rules, members + [m])
            <==> |members| < MAX_FILES && ZipAccepted(rules, members) && ZipAdmits(rules, members, m)
  {
    var all := members + [m];
    NamesSnoc(rules, members, m);
    assert all[..|members| + 1] == all && all[|members|] == m;
    forall k | 0 <= k < |members| ensures FileAt(all, k) <==> FileAt(members, k) {
      assert all[k] == members[k] && all[..k + 1] == members[..k + 1];
    }
    if forall k :: 0 <= k < |all| ==> FileAt(all, k) {
      assert FileAt(all, |members|);
      assert forall k :: 0 <= k < |members| ==> FileAt(members, k);
    }
  }

  /** What the account holds after these members. */
  function AccountOf(rules: Rules, members: seq<Member>): Account {
    Account(Elements(FoldedNames(rules, members)), ContentBytes(members), CompressedBytes(members))
  }

  lemma {:induction false} BytesSnoc(members: seq<Member>, m: Member)
    ensures ContentBytes(members + [m]) == ContentBytes(members) + (if m.directory then 0 else |m.content|)
    ensures CompressedBytes(members + [m]) == CompressedBytes(members) + (if m.directory then 0 else m.compressed)
  {
    TotalSnoc(ContentOf, members, m);
    TotalSnoc(CompressedOf, members, m);
  }

  lemma {:induction false} AccountSnoc(rules: Rules, members: seq<Member>, m: Member)
    ensures AccountOf(rules, members + [m]) ==
            Account(AccountOf(rules, members).seen + {rules.fold(m.name)},
                    ContentBytes(members) + (if m.directory then 0 else |m.content|),
                    CompressedBytes(members) + (if m.directory then 0 else m.compressed))
  {
    BytesSnoc(members, m);
    NamesSnoc(rules, members, m);
  }

  lemma {:induction false} ZipStepFor(rules: Rules, a: Account, m: Member, count: nat)
    ensures ZipStep(rules, a, m, count).Ok?
            <==> && NameHold(rules, a.seen, m.name).None?
                 && (m.directory || (&& !m.encrypted && !m.special && |m.content| == m.size
                                     && LimitHold(count, a.total + |m.content|,
                                                  AtLeastOne(a.compressed + m.compressed)).None?))
    ensures ZipStep(rules, a, m, count).Ok? ==>
              ZipStep(rules, a, m, count).value
                == Account(a.seen + {rules.fold(m.name)}, a.total + (if m.directory then 0 else |m.content|),
                                                           a.compressed + if m.directory then 0 else m.compressed)
  {
  }

  lemma {:induction false} ZipStepExactly(rules: Rules, before: seq<Member>, m: Member)
    ensures ZipStep(rules, AccountOf(rules, before), m, |before| + 1).Ok? <==> ZipAdmits(rules, before, m)
    ensures ZipAdmits(rules, before, m) ==>
            ZipStep(rules, AccountOf(rules, before), m, |before| + 1).value == AccountOf(rules, before + [m])
    ensures ZipAdmits(rules, before, m) && ContentBytes(before) <= MAX_UNCOMPRESSED_BYTES ==>
            ContentBytes(before + [m]) <= MAX_UNCOMPRESSED_BYTES
  {
    AccountSnoc(rules, before, m);
    ZipStepFor(rules, AccountOf(rules, before), m, |before| + 1);
  }

  /** The ZIP scan accepts exactly these archives; its account counts every name and every byte that will be written. */
  lemma {:induction false} ZipScanExactly(rules: Rules, members: seq<Member>)
    ensures ZipScan(rules, members).Ok? <==> ZipAccepted(rules, members)
    ensures ZipScan(rules, members).Ok? ==> ZipScan(rules, members).value == AccountOf(rules, members)
    ensures ZipScan(rules, members).Ok? ==> ContentBytes(members) <= MAX_UNCOMPRESSED_BYTES
  {
    if members == [] {
      assert FoldedNames(rules, members) == [];
    } else if |members| <= MAX_FILES {
      var before, last := members[..|members| - 1], members[|members| - 1];
      assert members == before + [last];
      ZipScanExactly(rules, before);
      ZipSnoc(rules, before, last);
      ZipStepExactly(rules, before, last);
    }
  }

  /** Accepted names stay different after folding, so a ZIP's count is its number of members. */
  lemma {:induction false} ZipCountsMembers(rules: Rules, members: seq<Member>)
    requires ZipScan(rules, members).Ok?
    ensures |ZipScan(rules, members).value.seen| == |members|
  {
    ZipScanExactly(rules, members);
    ElementsSize(FoldedNames(rules, members));
  }

  // ----- TAR acceptance -----

  predicate FileAccepted(m: Member) { !m.special && !m.sparse && |m.content| == m.size }

  /** Directories are counted as members and otherwise skipped; the limits hold of the whole archive. */
  predicate TarAccepted(rules: Rules, rawLength: nat, members: seq<Member>) {
    && |members| <= 256 && NamesAccepted(rules, Files(members))
    && (forall m :: m in Files(members) ==> FileAccepted(m))
    && ContentBytes(members) <= 33_554_432
    && (rawLength > 0 ==> ContentBytes(members) <= 100 * rawLength)
  }

  /** The account only grows, so checking the limits after every file is checking them at the end. */
  lemma {:induction false} TarScanExactly(rules: Rules, rawLength: nat, members: seq<Member>)
    ensures TarScan(rules, rawLength, members).Ok? <==> TarAccepted(rules, rawLength, members)
    ensures TarScan(rules, rawLength, members).Ok? ==>
              TarScan(rules, rawLength, members).value
                == Account(Elements(FoldedNames(rules, Files(members))), ContentBytes(members), 0)
    ensures TarScan(rules, rawLength, members).Ok? ==>
            |TarScan(rules, rawLength, members).value.seen| == |Files(members)|
  {
    if members == [] {
      assert FoldedNames(rules, []) == [];
    } else if |members| <= MAX_FILES {
      var before, last := members[..|members| - 1], members[|members| - 1];
      assert members == before + [last];
      TarScanExactly(rules, rawLength, before);
      KeepSnoc(IsFile(), before, last);
      BytesSnoc(before, last);
      if !last.directory {
        NamesSnoc(rules, Files(before), last);
        ElementsSize(FoldedNames(rules, Files(members)));
        TarSnoc(rules, rawLength, before, last);
        TarStepExactly(rules, rawLength, Account(Elements(FoldedNames(rules, Files(before))), ContentBytes(before), 0),
                       last, |members|);
      } else {
        assert Files(members) == Files(before) && ContentBytes(members) == ContentBytes(before);
        assert TarAccepted(rules, rawLength, members) <==> TarAccepted(rules, rawLength, before);
      }
    }
  }

  lemma {:induction false} TarStepExactly(rules: Rules, rawLength: nat, a: Account, m: Member, count: nat)
    requires !m.directory && count <= MAX_FILES
    ensures TarStep(rules, rawLength, a, m, count).Ok?
            <==> && FileAccepted(m) && NameHold(rules, a.seen, m.name).None?
                 && a.total + |m.content| <= MAX_UNCOMPRESSED_BYTES
                 && (rawLength > 0 ==> a.total + |m.content| <= rawLength * MAX_RATIO)
    ensures TarStep(rules, rawLength, a, m, count).Ok? ==>
              TarStep(rules, rawLength, a, m, count).value
                == Account(a.seen + {rules.fold(m.name)}, a.total + |m.content|, a.compressed)
  {
  }

  lemma {:induction false} TarSnoc(rules: Rules, rawLength: nat, before: seq<Member>, last: Member)
    requires !last.directory
    ensures TarAccepted(rules, rawLength, before + [last])
            <==> && |before| < MAX_FILES && TarAccepted(rules, rawLength, before) && FileAccepted(last)
                 && NameHold(rules, Elements(FoldedNames(rules, Files(before))), last.name).None?
                 && ContentBytes(before + [last]) <= MAX_UNCOMPRESSED_BYTES
                 && (rawLength > 0 ==> ContentBytes(before + [last]) <= rawLength * MAX_RATIO)
    ensures ContentBytes(before + [last]) == ContentBytes(before) + |last.content|
  {
    BytesSnoc(before, last);
    KeepSnoc(IsFile(), before, last);
    NamesSnoc(rules, Files(before), last);
  }

  // ----- What a hold means -----

  /** What is wrong with member k, which comes after the others and is checked against their account. */
  predicate FaultAt(hold: Hold, rules: Rules, before: seq<Member>, m: Member, bytes: nat, zip: bool) {
    || rules.defect(m.name) == Some(hold)
    || match hold
       case NameCollision =>
         exists j :: 0 <= j < |before| && (zip || !before[j].directory) &&
           rules.fold(before[j].name) == rules.fold(m.name)
       case WindowsName => rules.windows(m.name)
       case EncryptedMember => zip && m.encrypted
       case SpecialMember => m.special
       case SparseMember => !zip && m.sparse
       case SizeLimit => ContentBytes(before) + m.size > 33_554_432 || |m.content| > m.size
       case CompressionRatio => ContentBytes(before) + m.size > 100 * bytes
       case MemberUnreadable => |m.content| < m.size
       case _ => false
  }

  /** The ZIP scan holds for a fault of its first member that does not fit, or for too many members. */
  lemma {:induction false} ZipHoldIsHonest(rules: Rules, members: seq<Member>) returns (k: nat)
    requires ZipScan(rules, members).Err?
    ensures if |members| > 256 then ZipScan(rules, members) == Err(SizeLimit)
            else
              && k < |members| && ZipAccepted(rules, members[..k])
              && FaultAt(ZipScan(rules, members).error, rules, members[..k], members[k],
                         Max(1, CompressedBytes(members[..k]) + members[k].compressed), true)
  {
    k := 0;
    if |members| <= MAX_FILES {
      var before, last := members[..|members| - 1], members[|members| - 1];
      assert members == before + [last];
      ZipScanExactly(rules, before);
      if ZipScan(rules, before).Err? {
        k := ZipHoldIsHonest(rules, before);
        assert members[..k] == before[..k] && members[k] == before[k];
      } else {
        k := |before|;
        ZipFault(rules, before, last);
      }
    }
  }

  lemma {:induction false} ZipFault(rules: Rules, before: seq<Member>, m: Member)
    requires |before| < MAX_FILES && ZipStep(rules, AccountOf(rules, before), m, |before| + 1).Err?
    ensures FaultAt(ZipStep(rules, AccountOf(rules, before), m, |before| + 1).error, rules, before, m,
                    Max(1, CompressedBytes(before) + m.compressed), true)
  {
    var a := AccountOf(rules, before);
    if rules.fold(m.name) in a.seen {
      var j :| 0 <= j < |before| && FoldedNames(rules, before)[j] == rules.fold(m.name);
    }
  }

  /** The TAR scan likewise; directories are never at fault. */
  lemma {:induction false} TarHoldIsHonest(rules: Rules, rawLength: nat, members: seq<Member>) returns (k: nat)
    requires TarScan(rules, rawLength, members).Err?
    ensures if |members| > 256 then TarScan(rules, rawLength, members) == Err(SizeLimit)
            else
              && k < |members| && !members[k].directory && TarAccepted(rules, rawLength, members[..k])
              && FaultAt(TarScan(rules, rawLength, members).error, rules, members[..k], members[k], rawLength, false)
  {
    k := 0;
    if |members| <= MAX_FILES {
      var before, last := members[..|members| - 1], members[|members| - 1];
      assert members == before + [last];
      TarScanExactly(rules, rawLength, before);
      if TarScan(rules, rawLength, before).Err? {
        k := TarHoldIsHonest(rules, rawLength, before);
        assert members[..k] == before[..k] && members[k] == before[k];
      } else {
        k := |before|;
        TarFault(rules, rawLength, before, last);
      }
    }
  }

  lemma {:induction false} TarFault(rules: Rules, rawLength: nat, before: seq<Member>, m: Member)
    requires |before| < MAX_FILES
    requires var a := Account(Elements(FoldedNames(rules, Files(before))), ContentBytes(before), 0);
             TarStep(rules, rawLength, a, m, |before| + 1).Err?
    ensures var a := Account(Elements(FoldedNames(rules, Files(before))), ContentBytes(before), 0);
            !m.directory && FaultAt(TarStep(rules, rawLength, a, m, |before| + 1).error, rules, before, m, rawLength,
                                    false)
  {
    var names := FoldedNames(rules, Files(before));
    if rules.fold(m.name) in Elements(names) {
      var j :| 0 <= j < |names| && names[j] == rules.fold(m.name);
      KeepMembers(IsFile(), before);
      var file := Files(before)[j];
      assert file in Files(before) && file in before;
      var i :| 0 <= i < |before| && before[i] == file;
    }
  }

  // ----- The two counts -----

  /** The two scans count differently: a ZIP's directories are counted and name-checked, a TAR's are neither. */
  lemma {:induction false} DirectoriesCountInZipOnly(rules: Rules, rawLength: nat, members: seq<Member>)
    requires ZipScan(rules, members).Ok? && TarScan(rules, rawLength, members).Ok?
    ensures |ZipScan(rules, members).value.seen| == |TarScan(rules, rawLength, members).value.seen|
            <==> forall m :: m in members ==> !m.directory
    ensures ZipScan(rules, members).value.total == TarScan(rules, rawLength, members).value.total
  {
    ZipScanExactly(rules, members);
    ZipCountsMembers(rules, members);
    TarScanExactly(rules, rawLength, members);
    if forall m :: m in members ==> !m.directory {
      KeepAll(IsFile(), members);
    } else {
      var m :| m in members && m.directory;
      KeepDrops(IsFile(), members, m);
    }
  }
}
