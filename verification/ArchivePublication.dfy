/**
 Publishing one digest into the shared cache: an exclusive lock file, a private temporary
 directory, and an atomic mkdir reservation of the target, with cleanup on failure. Any number
 of publishers may interleave, one file-system operation at a time, and any operation may fail,
 the removals of the cleanup included.
 */
module ArchivePublication {
  import opened Prelude

  /**
   The target directory; owner is None when it was there before every publisher of the run.
   payload and inventory say that the part is known to be complete.
   */
  datatype Target = Target(owner: Option<nat>, payload: bool, inventory: bool)

  /** The part of the cache that belongs to one digest. */
  datatype Cache = Cache(lock: Option<nat>, target: Option<Target>, temps: set<nat>)

  /** What a cleanup could not remove. */
  datatype Residue = Residue(temp: bool, target: bool)

  const NOTHING := Residue(false, false)

  /** Where a publisher is; the names say what it has just done. */
  datatype Stage =
    | Checked                                        // the target did not exist
    | Locked                                         // the lock file is ours
    | Staged                                         // inside the guarded block, with a temporary directory
    | Extracted
    | Reserved                                       // mkdir(target) succeeded
    | Moved                                          // the temporary directory became target/payload
    | Verified                                       // executable and manifest match their digests
    | Failing(reserved: bool)                        // an exception was raised in the guarded block
    | FailingTarget(reserved: bool, temp: bool)      // rmtree(temporary) is done, and left it behind when temp
    | Unlocking(success: bool, left: Residue)        // the finally clause
    | Finished(success: bool, left: Residue)
    | Stuck(success: bool, left: Residue)            // unlink raised: the call raises and the lock file stays
    | Refused                                        // rejected before taking the lock
    | Leaked                                         // an error between the lock and the guarded block

  datatype System = System(cache: Cache, publishers: map<nat, Stage>)

  // ----- One operation of one publisher -----

  /** The next stage of publisher p and what its next operation does to the cache; fault makes that operation fail. */
  function Advance(c: Cache, p: nat, stage: Stage, fault: bool): (Cache, Stage) {
    match stage
    case Checked => if fault || c.lock.Some? then (c, Refused) else (c.(lock := Some(p)), Locked)
    case Locked => if fault then (c, Leaked) else (c.(temps := c.temps + {p}), Staged)
    case Staged => if fault then (c, Failing(false)) else (c, Extracted)
    case Extracted =>
      if fault || c.target.Some? then (c, Failing(false))
        else (c.(target := Some(Target(Some(p), false, false))), Reserved)
    case Reserved =>
      if fault || c.target.None? then (c, Failing(true))
      else (c.(temps := c.temps - {p}, target := Some(c.target.value.(payload := true))), Moved)
    case Moved => if fault then (c, Failing(true)) else (c, Verified)
    case Verified =>
      if fault || c.target.None? then (c, Failing(true))
      else (c.(target := Some(c.target.value.(inventory := true))), Unlocking(true, NOTHING))
    case Failing(reserved) =>
      if fault then (c, FailingTarget(reserved, p in c.temps))
        else (c.(temps := c.temps - {p}), FailingTarget(reserved, false))
    case FailingTarget(reserved, temp) =>
      if !reserved then (c, Unlocking(false, Residue(temp, false)))
      else if fault then (c.(target := Some(Target(Some(p), false, false))), Unlocking(false, Residue(temp, true)))
      else (c.(target := None), Unlocking(false, Residue(temp, false)))
    case Unlocking(success, left) =>
      if fault then (c, Stuck(success, left)) else (c.(lock := None), Finished(success, left))
    case _ => (c, stage)
  }

  predicate Stopped(stage: Stage) { stage.Finished? || stage.Stuck? || stage.Refused? || stage.Leaked? }

  /** A bound on the operations a publisher still makes. */
  function Rank(stage: Stage): nat {
    match stage
    case Checked => 10 case Locked => 9 case Staged => 8 case Extracted => 7 case Reserved => 6 case Moved => 5
    case Verified => 4 case Failing(_) => 3 case FailingTarget(_, _) => 2 case Unlocking(_, _) => 1 case _ => 0
  }

  /** One publisher from a stage to its end with nobody else moving; fault says which of its operations fail. */
  function Solo(c: Cache, p: nat, stage: Stage, fault: Stage -> bool): (Cache, Stage)
    decreases Rank(stage)
  {
    if Stopped(stage) then (c, stage)
    else
      var (d, next) := Advance(c, p, stage, fault(stage));
      Solo(d, p, next, fault)
  }

  /** The file-system state; each method is one operation of the protocol. */
  class PublishCache {
    var lock: Option<nat>
    var target: Option<Target>
    var temps: set<nat>

    function State(): Cache
      reads this
    {
      Cache(lock, target, temps)
    }

    constructor (existing: Option<Target>)
      ensures State() == Cache(None, existing, {})
    {
      lock, target, temps := None, existing, {};
    }

    /** `os.open(lock, O_CREAT | O_EXCL)`. */
    method OpenLock(p: nat, fault: bool) returns (stage: Stage)
      modifies this
      ensures (State(), stage) == Advance(old(State()), p, Checked, fault)
    {
      if fault || lock.Some? {
        return Refused;
      }
      lock := Some(p);
      return Locked;
    }

    /** `tempfile.mkdtemp`, still outside the guarded block. */
    method MakeTemporary(p: nat, fault: bool) returns (stage: Stage)
      modifies this
      ensures (State(), stage) == Advance(old(State()), p, Locked, fault)
    {
      if fault {
        return Leaked;
      }
      temps := temps + {p};
      return Staged;
    }

    /** `os.mkdir(target)`. */
    method MakeTarget(p: nat, fault: bool) returns (stage: Stage)
      modifies this
      ensures (State(), stage) == Advance(old(State()), p, Extracted, fault)
    {
      if fault || target.Some? {
        return Failing(false);
      }
      target := Some(Target(Some(p), false, false));
      return Reserved;
    }

    /** `os.rename(temporary, payload)`. */
    method MovePayload(p: nat, fault: bool) returns (stage: Stage)
      modifies this
      ensures (State(), stage) == Advance(old(State()), p, Reserved, fault)
    {
      if fault || target.None? {
        return Failing(true);
      }
      temps := temps - {p};
      target := Some(target.value.(payload := true));
      return Moved;
    }

    /** Writing `inventory.json`. */
    method WriteInventory(p: nat, fault: bool) returns (stage: Stage)
      modifies this
      ensures (State(), stage) == Advance(old(State()), p, Verified, fault)
    {
      if fault || target.None? {
        return Failing(true);
      }
      target := Some(target.value.(inventory := true));
      return Unlocking(true, NOTHING);
    }

    /** `shutil.rmtree(temporary, ignore_errors=True)`. */
    method RemoveTemporary(p: nat, reserved: bool, fault: bool) returns (stage: Stage)
      modifies this
      ensures (State(), stage) == Advance(old(State()), p, Failing(reserved), fault)
    {
      if fault {
        return FailingTarget(reserved, p in temps);
      }
      temps := temps - {p};
      return FailingTarget(reserved, false);
    }

    /**
     `shutil.rmtree(target, ignore_errors=True)` when the reservation is ours; a failure may leave
     it half removed.
     */
    method RemoveTarget(p: nat, reserved: bool, temp: bool, fault: bool) returns (stage: Stage)
      modifies this
      ensures (State(), stage) == Advance(old(State()), p, FailingTarget(reserved, temp), fault)
    {
      if !reserved {
        return Unlocking(false, Residue(temp, false));
      }
      if fault {
        target := Some(Target(Some(p), false, false));
        return Unlocking(false, Residue(temp, true));
      }
      target := None;
      return Unlocking(false, Residue(temp, false));
    }

    /** `lock.unlink(missing_ok=True)`. */
    method Unlink(p: nat, success: bool, left: Residue, fault: bool) returns (stage: Stage)
      modifies this
      ensures (State(), stage) == Advance(old(State()), p, Unlocking(success, left), fault)
    {
      if fault {
        return Stuck(success, left);
      }
      lock := None;
      return Finished(success, left);
    }

    /** The guarded block: extraction, reservation, move, verification and inventory. */
    method Guarded(p: nat, fault: Stage -> bool) returns (stage: Stage)
      modifies this
      ensures stage.Failing? || stage == Unlocking(true, NOTHING)
      ensures Solo(State(), p, stage, fault) == Solo(old(State()), p, Staged, fault)
    {
      if fault(Staged) {
        return Failing(false);
      }
      stage := MakeTarget(p, fault(Extracted));
      if stage.Failing? {
        return;
      }
      stage := MovePayload(p, fault(Reserved));
      if stage.Failing? {
        return;
      }
      if fault(Moved) {
        return Failing(true);
      }
      stage := WriteInventory(p, fault(Verified));
    }

    /** The `except` clause. */
    method Cleanup(p: nat, reserved: bool, fault: Stage -> bool) returns (stage: Stage)
      modifies this
      ensures stage.Unlocking? && Solo(State(), p, stage, fault) == Solo(old(State()), p, Failing(reserved), fault)
    {
      stage := RemoveTemporary(p, reserved, fault(Failing(reserved)));
      assert Solo(State(), p, stage, fault) == Solo(old(State()), p, Failing(reserved), fault);
      stage := RemoveTarget(p, stage.reserved, stage.temp, fault(stage));
    }

    /** The `finally` clause, and the end of the call. */
    method Release(p: nat, before: Stage, fault: Stage -> bool) returns (stage: Stage)
      requires before.Unlocking?
      modifies this
      ensures (State(), stage) == Solo(old(State()), p, before, fault)
    {
      stage := Unlink(p, before.success, before.left, fault(before));
    }

    /** `install_verified_archive` from the existence check on, with nobody else moving. */
    method Install(p: nat, fault: Stage -> bool) returns (stage: Stage)
      modifies this
      ensures (State(), stage) ==
              if old(target).Some? then (old(State()), Refused) else Solo(old(State()), p, Checked, fault)
    {
      if target.Some? {
        return Refused;
      }
      stage := OpenLock(p, fault(Checked));
      if stage.Refused? {
        return;
      }
      stage := MakeTemporary(p, fault(Locked));
      assert Solo(State(), p, stage, fault) == Solo(old(State()), p, Checked, fault);
      if stage.Leaked? {
        return;
      }
      stage := Guarded(p, fault);
      if stage.Failing? {
        stage := Cleanup(p, stage.reserved, fault);
      }
      stage := Release(p, stage, fault);
    }
  }

  /** No operation up to the inventory fails. */
  predicate Faultless(fault: Stage -> bool) {
    && !fault(Checked) && !fault(Locked) && !fault(Staged) && !fault(Extracted)
    && !fault(Reserved) && !fault(Moved) && !fault(Verified)
  }

  /** No removal of the cleanup fails. */
  ghost predicate CleanCleanup(fault: Stage -> bool) {
    forall stage: Stage :: stage.Failing? || stage.FailingTarget? || stage.Unlocking? ==> !fault(stage)
  }

  /**
   A publisher alone: it publishes exactly when nothing up to the inventory fails; and when its
   cleanup works, any failure but one between the lock and the guarded block restores the cache.
   */
  lemma {:induction false} SoloOutcome(c: Cache, p: nat, fault: Stage -> bool)
    requires c.lock == None && c.target == None && p !in c.temps
    ensures var (d, stage) := Solo(c, p, Checked, fault);
            && Stopped(stage)
            && (Faultless(fault) <==> (stage.Finished? || stage.Stuck?) && stage.success)
            && (Faultless(fault) ==> d.target == Some(Target(Some(p), true, true)) && d.temps == c.temps)
            && (stage.Leaked? <==> !fault(Checked) && fault(Locked))
            && (stage.Leaked? ==> d == c.(lock := Some(p)))
            && (!Faultless(fault) && !stage.Leaked? && CleanCleanup(fault) ==> d == c)
  {
    assert c.temps + {p} - {p} == c.temps;
    if !fault(Checked) && !fault(Locked) {
      var staged := c.(lock := Some(p), temps := c.temps + {p});
      assert Solo(c, p, Checked, fault) == Solo(c.(lock := Some(p)), p, Locked, fault)
        == Solo(staged, p, Staged, fault);
      SoloStaged(c, staged, p, fault);
    }
  }

  lemma {:induction false} SoloStaged(c: Cache, staged: Cache, p: nat, fault: Stage -> bool)
    requires c.lock == None && c.target == None && p !in c.temps
    requires staged == c.(lock := Some(p), temps := c.temps + {p})
    ensures var (d, stage) := Solo(staged, p, Staged, fault);
            var works := !fault(Staged) && !fault(Extracted) && !fault(Reserved) && !fault(Moved) && !fault(Verified);
            && (stage.Finished? || stage.Stuck?) && (works <==> stage.success)
            && (works ==> d.target == Some(Target(Some(p), true, true)) && d.temps == c.temps)
            && (!works && CleanCleanup(fault) ==> d == c)
  {
    assert staged.temps - {p} == c.temps;
    var reserved := staged.(target := Some(Target(Some(p), false, false)));
    var moved := staged.(temps := c.temps, target := Some(Target(Some(p), true, false)));
    var written := moved.(target := Some(Target(Some(p), true, true)));
    if fault(Staged) {
      SoloCleanup(staged, p, false, fault);
    } else if fault(Extracted) {
      assert Solo(staged, p, Staged, fault) == Solo(staged, p, Extracted, fault)
        == Solo(staged, p, Failing(false), fault);
      SoloCleanup(staged, p, false, fault);
    } else {
      assert Solo(staged, p, Staged, fault) == Solo(staged, p, Extracted, fault) == Solo(reserved, p, Reserved, fault);
      if fault(Reserved) {
        SoloCleanup(reserved, p, true, fault);
      } else {
        assert Solo(reserved, p, Reserved, fault) == Solo(moved, p, Moved, fault);
        if fault(Moved) {
          SoloCleanup(moved, p, true, fault);
        } else {
          assert Solo(moved, p, Moved, fault) == Solo(moved, p, Verified, fault);
          if fault(Verified) {
            SoloCleanup(moved, p, true, fault);
          } else {
            assert Solo(moved, p, Verified, fault) == Solo(written, p, Unlocking(true, NOTHING), fault);
          }
        }
      }
    }
  }

  /** The cleanup ends without success, and when it works it removes everything of p. */
  lemma {:induction false} SoloCleanup(c: Cache, p: nat, reserved: bool, fault: Stage -> bool)
    ensures var (d, stage) := Solo(c, p, Failing(reserved), fault);
            && (stage.Finished? || stage.Stuck?) && !stage.success
            && (CleanCleanup(fault) ==> d == Cache(None, if reserved then None else c.target, c.temps - {p}))
  {
    var (d, next) := Advance(c, p, Failing(reserved), fault(Failing(reserved)));
    var (e, last) := Advance(d, p, next, fault(next));
    var (f, end) := Advance(e, p, last, fault(last));
    assert Solo(c, p, Failing(reserved), fault) == Solo(d, p, next, fault);
    assert Solo(d, p, next, fault) == Solo(e, p, last, fault);
    assert Solo(e, p, last, fault) == Solo(f, p, end, fault) == (f, end);
  }

  // ----- Any interleaving -----

  datatype Action = Begin(publisher: nat) | Go(publisher: nat, fault: bool)

  function Step(s: System, a: Action): System {
    match a
    case Begin(p) =>
      if p in s.publishers then s
      else s.(publishers := s.publishers[p := if s.cache.target.Some? then Refused else Checked])
    case Go(p, fault) =>
      if p !in s.publishers then s
      else
        var (cache, stage) := Advance(s.cache, p, s.publishers[p], fault);
        System(cache, s.publishers[p := stage])
  }

  function Run(s: System, actions: seq<Action>): System
    decreases |actions|
  {
    if actions == [] then s else Run(Step(s, actions[0]), actions[1..])
  }

  function Initial(existing: Option<Target>): System {
    System(Cache(None, existing, {}), map[])
  }

  // ----- Invariant -----

  predicate HoldsLock(stage: Stage) {
    !(stage.Checked? || stage.Finished? || stage.Refused?)
  }

  /** Whether a publisher at this stage has its temporary directory; a failing one may or may not. */
  predicate TempFits(c: Cache, p: nat, stage: Stage) {
    match stage
    case Staged => p in c.temps
    case Extracted => p in c.temps
    case Reserved => p in c.temps
    case Failing(_) => true
    case FailingTarget(_, temp) => p in c.temps <==> temp
    case Unlocking(_, left) => p in c.temps <==> left.temp
    case Finished(_, left) => p in c.temps <==> left.temp
    case Stuck(_, left) => p in c.temps <==> left.temp
    case _ => p !in c.temps
  }

  predicate Done(c: Cache, p: nat, success: bool, left: Residue) {
    if success then left == NOTHING && c.target == Some(Target(Some(p), true, true))
    else OwnsTarget(c, p) <==> left.target
  }

  /** What the target must be, given the stage of one publisher. */
  predicate TargetFits(c: Cache, p: nat, stage: Stage) {
    match stage
    case Reserved => c.target == Some(Target(Some(p), false, false))
    case Moved => c.target == Some(Target(Some(p), true, false))
    case Verified => c.target == Some(Target(Some(p), true, false))
    case Failing(reserved) => OwnsTarget(c, p) <==> reserved
    case FailingTarget(reserved, _) => OwnsTarget(c, p) <==> reserved
    case Unlocking(success, left) => Done(c, p, success, left)
    case Finished(success, left) => Done(c, p, success, left)
    case Stuck(success, left) => Done(c, p, success, left)
    case _ => !OwnsTarget(c, p)
  }

  predicate OwnsTarget(c: Cache, p: nat) {
    c.target.Some? && c.target.value.owner == Some(p)
  }

  /** The cache agrees with the stage of one publisher. */
  predicate LocalOk(c: Cache, p: nat, stage: Stage) {
    (HoldsLock(stage) <==> c.lock == Some(p)) && TargetFits(c, p, stage) && TempFits(c, p, stage)
  }

  predicate Inv(s: System) {
    && (forall p :: p in s.publishers ==> LocalOk(s.cache, p, s.publishers[p]))
    && (s.cache.lock.Some? ==> s.cache.lock.value in s.publishers)
    && (forall p :: p in s.cache.temps ==> p in s.publishers)
    && (s.cache.target.Some? && s.cache.target.value.owner.Some? ==> s.cache.target.value.owner.value in s.publishers)
  }

  lemma {:induction false} OwnStep(c: Cache, p: nat, stage: Stage, fault: bool)
    requires LocalOk(c, p, stage)
    ensures LocalOk(Advance(c, p, stage, fault).0, p, Advance(c, p, stage, fault).1)
  {
  }

  /** What a step of p leaves alone, whatever the stage of q. */
  lemma {:induction false} StepFrame(c: Cache, p: nat, stage: Stage, fault: bool, q: nat, other: Stage)
    requires LocalOk(c, p, stage) && LocalOk(c, q, other) && p != q
    ensures LocalOk(Advance(c, p, stage, fault).0, q, other)
  {
  }

  lemma {:induction false} StepNames(c: Cache, p: nat, stage: Stage, fault: bool)
    ensures var d := Advance(c, p, stage, fault).0;
            && (d.lock.Some? ==> d.lock == c.lock || d.lock == Some(p))
            && d.temps <= c.temps + {p}
            && (d.target.Some? && d.target.value.owner.Some? ==>
                  d.target.value.owner == Some(p) || (c.target.Some? && d.target.value.owner == c.target.value.owner))
  {
  }

  lemma {:induction false} StepKeepsInv(s: System, a: Action)
    requires Inv(s)
    ensures Inv(Step(s, a))
  {
    match a {
      case Begin(p) =>
        if p !in s.publishers {
          assert p !in s.cache.temps && s.cache.lock != Some(p) && !OwnsTarget(s.cache, p);
        }
      case Go(p, fault) =>
        if p in s.publishers {
          OwnStep(s.cache, p, s.publishers[p], fault);
          StepNames(s.cache, p, s.publishers[p], fault);
          forall q | q in s.publishers && q != p ensures LocalOk(Step(s, a).cache, q, s.publishers[q]) {
            StepFrame(s.cache, p, s.publishers[p], fault, q, s.publishers[q]);
          }
        }
    }
  }

  lemma {:induction false} RunKeepsInv(s: System, actions: seq<Action>)
    requires Inv(s)
    ensures Inv(Run(s, actions))
    decreases |actions|
  {
    if actions != [] {
      StepKeepsInv(s, actions[0]);
      RunKeepsInv(Step(s, actions[0]), actions[1..]);
    }
  }

  // ----- Safety -----

  predicate Succeeded(s: System, p: nat) { p in s.publishers && s.publishers[p] == Finished(true, NOTHING) }

  /** The target was published, whether or not the caller then saw the lock removal fail. */
  predicate Published(s: System, p: nat) {
    p in s.publishers && (s.publishers[p].Finished? || s.publishers[p].Stuck?) && s.publishers[p].success
  }

  /** Over every interleaving at most one publisher publishes, and its payload and inventory are in place. */
  lemma {:induction false} AtMostOneSuccess(existing: Option<Target>, actions: seq<Action>, p: nat, q: nat)
    requires existing.Some? ==> existing.value.owner == None
    ensures var s := Run(Initial(existing), actions);
            && (Published(s, p) && Published(s, q) ==> p == q)
            && (Published(s, p) ==> s.cache.target == Some(Target(Some(p), true, true)))
            && (Succeeded(s, p) ==> Published(s, p) && s.cache.lock != Some(p) && p !in s.cache.temps)
  {
    RunKeepsInv(Initial(existing), actions);
  }

  /** What a call can leave behind. */
  datatype Item = Temporary | Reservation | LockFile

  /** The stage records the item as left behind. */
  predicate Left(item: Item, stage: Stage) {
    match item
    case Temporary =>
      (stage.FailingTarget? && stage.temp) || ((stage.Unlocking? || stage.Finished? || stage.Stuck?) && stage.left.temp)
    case Reservation => (stage.Unlocking? || stage.Finished? || stage.Stuck?) && stage.left.target
    case LockFile => stage.Stuck? || stage.Leaked?
  }

  /**
   The next operation of p removes the item, or is the one that must succeed for its removal to be
   reached; and it fails.
   */
  predicate Abandons(c: Cache, p: nat, stage: Stage, fault: bool, item: Item) {
    fault && match item
             case Temporary => stage.Failing? && p in c.temps
             case Reservation => stage.FailingTarget? && stage.reserved
             case LockFile => stage.Unlocking? || stage.Locked?
  }

  lemma {:induction false} LeftStep(c: Cache, p: nat, stage: Stage, fault: bool, item: Item)
    ensures Left(item, Advance(c, p, stage, fault).1) <==> Left(item, stage) || Abandons(c, p, stage, fault, item)
  {
  }

  /** Some step of the run abandons the item of p. */
  predicate Abandoned(s: System, actions: seq<Action>, p: nat, item: Item)
    decreases |actions|
  {
    actions != [] &&
    ((&& actions[0].Go? && actions[0].publisher == p && p in s.publishers
      && Abandons(s.cache, p, s.publishers[p], actions[0].fault, item))
     || Abandoned(Step(s, actions[0]), actions[1..], p, item))
  }

  predicate LeftBy(s: System, p: nat, item: Item) { p in s.publishers && Left(item, s.publishers[p]) }

  lemma {:induction false} LeftExactly(s: System, actions: seq<Action>, p: nat, item: Item)
    ensures LeftBy(Run(s, actions), p, item) <==> LeftBy(s, p, item) || Abandoned(s, actions, p, item)
    decreases |actions|
  {
    if actions != [] {
      LeftExactly(Step(s, actions[0]), actions[1..], p, item);
      if actions[0].Go? && actions[0].publisher == p && p in s.publishers {
        LeftStep(s.cache, p, s.publishers[p], actions[0].fault, item);
      }
    }
  }

  /**
   A publisher that stopped without publishing has its temporary directory, its reservation and
   its lock file exactly when the run abandoned that item: its removal failed, or, for the lock,
   the temporary directory could not be created, which happens before the guarded block.
   */
  lemma {:induction false} FailureLeavesExactly(existing: Option<Target>, actions: seq<Action>, p: nat)
    requires existing.Some? ==> existing.value.owner == None
    ensures var s, start := Run(Initial(existing), actions), Initial(existing);
            p in s.publishers && Stopped(s.publishers[p]) && !Published(s, p) ==>
              && (p in s.cache.temps <==> Abandoned(start, actions, p, Temporary))
              && (OwnsTarget(s.cache, p) <==> Abandoned(start, actions, p, Reservation))
              && (s.cache.lock == Some(p) <==> Abandoned(start, actions, p, LockFile))
  {
    RunKeepsInv(Initial(existing), actions);
    LeftExactly(Initial(existing), actions, p, Temporary);
    LeftExactly(Initial(existing), actions, p, Reservation);
    LeftExactly(Initial(existing), actions, p, LockFile);
  }

  /** A step of one publisher never touches another's temporary directory, reservation or lock. */
  lemma {:induction false} OthersAreUntouched(s: System, p: nat, fault: bool, q: nat)
    requires Inv(s) && p != q && q in s.publishers
    ensures var t := Step(s, Go(p, fault));
            && t.publishers[q] == s.publishers[q] && (q in t.cache.temps <==> q in s.cache.temps)
            && (OwnsTarget(s.cache, q) ==> t.cache.target == s.cache.target)
            && (s.cache.lock == Some(q) ==> t.cache.lock == Some(q))
  {
  }

  /** What a stopped publisher owns of the target stays, whatever the others do. */
  lemma {:induction false} OwnedTargetStays(s: System, actions: seq<Action>, p: nat)
    requires Inv(s) && p in s.publishers && Stopped(s.publishers[p]) && OwnsTarget(s.cache, p)
    ensures var t := Run(s, actions);
            Inv(t) && p in t.publishers && t.publishers[p] == s.publishers[p] && t.cache.target == s.cache.target
    decreases |actions|
  {
    if actions != [] {
      StepKeepsInv(s, actions[0]);
      if actions[0].Go? && actions[0].publisher != p {
        OthersAreUntouched(s, actions[0].publisher, actions[0].fault, p);
      }
      OwnedTargetStays(Step(s, actions[0]), actions[1..], p);
    }
  }

  lemma {:induction false} SuccessIsStable(s: System, actions: seq<Action>, p: nat)
    requires Inv(s) && Published(s, p)
    ensures Published(Run(s, actions), p) && Run(s, actions).cache.target == s.cache.target
    ensures Succeeded(s, p) ==> Succeeded(Run(s, actions), p)
  {
    assert LocalOk(s.cache, p, s.publishers[p]);
    OwnedTargetStays(s, actions, p);
  }

  /**
   A reservation that a failed rmtree left behind refuses the digest for good: it stays, nobody
   publishes afterwards, and every later call is refused at its first check.
   */
  lemma {:induction false} LeftTargetRefusesEveryone(s: System, actions: seq<Action>, p: nat, q: nat)
    requires Inv(s) && p in s.publishers && Stopped(s.publishers[p]) && !Published(s, p) && OwnsTarget(s.cache, p)
    ensures var t := Run(s, actions);
            && t.cache.target == s.cache.target && !Published(t, q)
            && (q !in t.publishers ==> Step(t, Begin(q)).publishers[q] == Refused)
  {
    OwnedTargetStays(s, actions, p);
    var t := Run(s, actions);
    assert LocalOk(s.cache, p, s.publishers[p]);
    assert q in t.publishers ==> LocalOk(t.cache, q, t.publishers[q]);
  }

  lemma {:induction false} ExistingStep(s: System, a: Action, existing: Target)
    requires Inv(s) && existing.owner == None && s.cache.target == Some(existing)
    ensures Step(s, a).cache.target == Some(existing)
  {
    if a.Go? && a.publisher in s.publishers {
      assert LocalOk(s.cache, a.publisher, s.publishers[a.publisher]);
    }
  }

  /** A target that was there before the run is never accepted, replaced or removed. */
  lemma {:induction false} ExistingTargetIsKept(s: System, actions: seq<Action>, existing: Target, p: nat)
    requires Inv(s) && existing.owner == None && s.cache.target == Some(existing)
    ensures Run(s, actions).cache.target == Some(existing) && !Published(Run(s, actions), p)
    decreases |actions|
  {
    if actions == [] {
      if p in s.publishers { assert LocalOk(s.cache, p, s.publishers[p]); }
    } else {
      StepKeepsInv(s, actions[0]);
      ExistingStep(s, actions[0], existing);
      ExistingTargetIsKept(Step(s, actions[0]), actions[1..], existing, p);
    }
  }

  // ----- The lock -----

  /** Every publisher has stopped for good. */
  predicate Quiescent(s: System) {
    forall p :: p in s.publishers ==> Stopped(s.publishers[p])
  }

  ghost predicate NobodyAbandonsLock(s: System, actions: seq<Action>) {
    forall p :: !Abandoned(s, actions, p, LockFile)
  }

  /**
   When everyone has stopped, the lock is free exactly when nobody failed to create a temporary
   directory or to unlink the lock.
   */
  lemma {:induction false} LockIsFreeExactly(existing: Option<Target>, actions: seq<Action>)
    requires existing.Some? ==> existing.value.owner == None
    requires Quiescent(Run(Initial(existing), actions))
    ensures var s := Run(Initial(existing), actions);
            s.cache.lock == None <==> NobodyAbandonsLock(Initial(existing), actions)
  {
    RunKeepsInv(Initial(existing), actions);
    var s := Run(Initial(existing), actions);
    var start := Initial(existing);
    forall p: nat ensures Abandoned(start, actions, p, LockFile) <==> s.cache.lock == Some(p) {
      LeftExactly(start, actions, p, LockFile);
      assert p in s.publishers ==> LocalOk(s.cache, p, s.publishers[p]);
    }
    if s.cache.lock.Some? {
      assert Abandoned(start, actions, s.cache.lock.value, LockFile);
    }
  }

  lemma {:induction false} KeptLockStays(s: System, a: Action, keeper: nat, p: nat)
    requires Inv(s) && LeftBy(s, keeper, LockFile) && (p == keeper || !Published(s, p))
    ensures var t := Step(s, a);
            keeper in t.publishers && t.publishers[keeper] == s.publishers[keeper] && (p == keeper || !Published(t, p))
  {
    if a.Go? && a.publisher in s.publishers {
      assert LocalOk(s.cache, a.publisher, s.publishers[a.publisher]) && LocalOk(s.cache, keeper, s.publishers[keeper]);
    }
  }

  /** A lock that was left behind is permanent: nobody else who has not published before ever will. */
  lemma {:induction false} KeptLockBlocksForever(s: System, actions: seq<Action>, keeper: nat, p: nat)
    requires Inv(s) && LeftBy(s, keeper, LockFile) && (p == keeper || !Published(s, p))
    ensures var t := Run(s, actions);
            && t.cache.lock == Some(keeper) && keeper in t.publishers && t.publishers[keeper] == s.publishers[keeper]
            && (p == keeper || !Published(t, p))
    decreases |actions|
  {
    if actions == [] {
      assert LocalOk(s.cache, keeper, s.publishers[keeper]);
    } else {
      StepKeepsInv(s, actions[0]);
      KeptLockStays(s, actions[0], keeper, p);
      KeptLockBlocksForever(Step(s, actions[0]), actions[1..], keeper, p);
    }
  }

  /** n fault-free operations of one publisher. */
  function Steps(p: nat, n: nat): seq<Action> { seq(n, _ => Go(p, false)) }

  lemma {:induction false} StepsCons(s: System, p: nat, n: nat)
    requires n > 0
    ensures Run(s, Steps(p, n)) == Run(Step(s, Go(p, false)), Steps(p, n - 1))
  {
    assert Steps(p, n)[1..] == Steps(p, n - 1);
  }

  /** How many operations a publisher still needs. */
  function Remaining(stage: Stage): nat {
    match stage
    case Checked => 8 case Locked => 7 case Staged => 6 case Extracted => 5 case Reserved => 4
    case Moved => 3 case Verified => 2 case Unlocking(_, _) => 1 case _ => 0
  }

  /** On the way to success: never failed, and nobody else holds the target. */
  predicate OnCourse(s: System, p: nat) {
    && p in s.publishers
    && match s.publishers[p] {
         case Checked => s.cache.lock == None && s.cache.target == None
         case Locked => s.cache.target == None
         case Staged => s.cache.target == None
         case Extracted => s.cache.target == None
         case Reserved => true
         case Moved => true
         case Verified => true
         case Unlocking(success, _) => success
         case Finished(success, _) => success
         case _ => false
       }
  }

  lemma {:induction false} UndisturbedStep(s: System, p: nat)
    requires Inv(s) && OnCourse(s, p) && Remaining(s.publishers[p]) > 0
    ensures var t := Step(s, Go(p, false));
            Inv(t) && OnCourse(t, p) && Remaining(t.publishers[p]) == Remaining(s.publishers[p]) - 1
  {
    StepKeepsInv(s, Go(p, false));
    assert LocalOk(s.cache, p, s.publishers[p]);
  }

  /** A publisher that finds the lock free and no target, and then meets no fault, succeeds. */
  lemma {:induction false} UndisturbedPublisherSucceeds(s: System, p: nat)
    requires Inv(s) && OnCourse(s, p)
    ensures Succeeded(Run(s, Steps(p, Remaining(s.publishers[p]))), p)
    decreases Remaining(s.publishers[p])
  {
    var n := Remaining(s.publishers[p]);
    if n > 0 {
      UndisturbedStep(s, p);
      StepsCons(s, p, n);
      UndisturbedPublisherSucceeds(Step(s, Go(p, false)), p);
    } else {
      assert LocalOk(s.cache, p, s.publishers[p]);
    }
  }
}
