/** Exactly which preparations let an older call break the promises about stored results and exclusive exchanges. */
module AttemptOverlap {
  import opened Prelude
  import opened AttemptLifecycle

  // ----- Which preparations break the promise -----

  ghost predicate TwoExchange(w: World, id: string) {
    exists c, d :: c != d && Exchanges(w, c, id) && Exchanges(w, d, id)
  }

  /** The step replaces a stored result by another one. */
  predicate Replaces(w: World, a: Action, id: string) {
    id in w.fields.results && id in Step(w, a).fields.results && Step(w, a).fields.results[id] != w.fields.results[id]
  }

  /** Some guarded continuation has two exchanges of the attempt in progress at once. */
  ghost predicate CanCollide(w: World, id: string) {
    exists actions :: GuardedRun(w, actions) && TwoExchange(Run(w, actions), id)
  }

  /** Some guarded continuation replaces a stored result of the attempt. */
  ghost predicate CanReplace(w: World, id: string) {
    exists actions, a :: GuardedRun(w, actions) && Guarded(Run(w, actions), a) && Replaces(Run(w, actions), a, id)
  }

  lemma {:induction false} NeverCollides(w: World, id: string)
    requires Inv(w)
    ensures !CanCollide(w, id)
  {
    forall actions | GuardedRun(w, actions) ensures !TwoExchange(Run(w, actions), id) {
      forall c, d | Exchanges(Run(w, actions), c, id) && Exchanges(Run(w, actions), d, id) ensures c == d {
        ExchangesAreExclusive(w, actions, c, d, id);
      }
    }
  }

  lemma {:induction false} NeverReplaces(w: World, id: string)
    requires Inv(w)
    ensures !CanReplace(w, id)
  {
    forall actions, a | GuardedRun(w, actions) && Guarded(Run(w, actions), a)
      ensures !Replaces(Run(w, actions), a, id) {
      GuardedRunsKeepInv(w, actions);
      StepNeverReplaces(Run(w, actions), a, id);
    }
  }

  lemma {:induction false} StepNeverReplaces(w: World, a: Action, id: string)
    requires Inv(w)
    ensures !Replaces(w, a, id)
  {
    if id in w.fields.results && Spares(w, a, id) {
      StoredResultIsFinal(w, a, id);
    }
  }

  predicate NoPrepare(actions: seq<Action>) {
    forall k :: 0 <= k < |actions| ==> !actions[k].Prepare?
  }

  lemma {:induction false} NoPrepareIsGuarded(w: World, actions: seq<Action>)
    requires NoPrepare(actions)
    ensures GuardedRun(w, actions)
    decreases |actions|
  {
    if actions != [] { NoPrepareIsGuarded(Step(w, actions[0]), actions[1..]); }
  }

  lemma {:induction false} RunSnoc(w: World, actions: seq<Action>, a: Action)
    ensures Run(w, actions + [a]) == Step(Run(w, actions), a)
    decreases |actions|
  {
    if actions == [] {
      assert [a][1..] == [];
    } else {
      assert (actions + [a])[0] == actions[0] && (actions + [a])[1..] == actions[1..] + [a];
      RunSnoc(Step(w, actions[0]), actions[1..], a);
    }
  }

  lemma {:induction false} FreshCall(calls: set<nat>) returns (n: nat)
    ensures forall c :: c in calls ==> c < n
  {
    if calls == {} {
      n := 0;
    } else {
      var c :| c in calls;
      var m := FreshCall(calls - {c});
      n := if c < m then m else c + 1;
      forall d | d in calls ensures d < n {
        assert d == c || d in calls - {c};
      }
    }
  }

  /** The attempt is prepared under a lock that nobody holds, with no result and no flag. */
  predicate Anew(w: World, p: Prepared) {
    && KeysAgree(w.fields) && Owned(w.fields, p)
    && p.attemptId !in w.fields.results && p.attemptId !in w.fields.cancelled
    && w.fields.locks[p.attemptId] !in w.held
  }

  /** Finishing and releasing d, without storing anything, frees its lock and disturbs nobody else. */
  lemma {:induction false} CallEnds(w: World, d: nat, p: Prepared) returns (actions: seq<Action>)
    requires Anew(w, p) && LocksOk(w) && d in w.calls && Active(w.calls[d])
    ensures NoPrepare(actions)
    ensures var t := Run(w, actions);
            && Anew(t, p) && t.calls == w.calls - {d} && t.held == w.held - {w.calls[d].lock}
            && t.fields.locks == w.fields.locks
  {
    actions := [];
    if w.calls[d].Exchanging? {
      RunSnoc(w, [], ExecuteFinish(d, Raised));
      actions := [] + [ExecuteFinish(d, Raised)];
    }
    RunSnoc(w, actions, ExecuteRelease(d));
    actions := actions + [ExecuteRelease(d)];
  }

  /** Without another preparation, the lock of a waiting call can be freed. */
  lemma {:induction false} LockCanBeFreed(w: World, c: nat, p: Prepared) returns (actions: seq<Action>)
    requires Anew(w, p) && LocksOk(w) && c in w.calls && w.calls[c].Waiting?
    ensures NoPrepare(actions)
    ensures var t := Run(w, actions);
            && Anew(t, p) && c in t.calls && t.calls[c] == w.calls[c] && w.calls[c].lock !in t.held
            && t.fields.locks == w.fields.locks
  {
    actions := [];
    if w.calls[c].lock in w.held {
      var d :| d in w.calls && Active(w.calls[d]) && w.calls[d].lock == w.calls[c].lock;
      actions := CallEnds(w, d, p);
    }
  }

  /** Without another preparation, a busy call can be made to exchange. */
  lemma {:induction false} BusyCanExchange(w: World, c: nat, p: Prepared) returns (actions: seq<Action>)
    requires Anew(w, p) && LocksOk(w) && c in w.calls && Busy(w.calls[c]) && w.calls[c].id == p.attemptId
    requires w.calls[c].lock != w.fields.locks[p.attemptId]
    ensures NoPrepare(actions)
    ensures Anew(Run(w, actions), p) && Exchanges(Run(w, actions), c, p.attemptId)
  {
    actions := [];
    if w.calls[c].Waiting? {
      actions := LockCanBeFreed(w, c, p);
      RunSnoc(w, actions, ExecuteEnter(c));
      actions := actions + [ExecuteEnter(c)];
    }
  }

  /** And a second exchange can start beside it. */
  lemma {:induction false} BusyCanCollide(w: World, c: nat, p: Prepared) returns (actions: seq<Action>, d: nat)
    requires Anew(w, p) && LocksOk(w) && c in w.calls && Busy(w.calls[c]) && w.calls[c].id == p.attemptId
    requires w.calls[c].lock != w.fields.locks[p.attemptId]
    ensures NoPrepare(actions) && c != d && p.attemptId !in Run(w, actions).fields.cancelled
    ensures Exchanges(Run(w, actions), c, p.attemptId) && Exchanges(Run(w, actions), d, p.attemptId)
  {
    actions := BusyCanExchange(w, c, p);
    var t := Run(w, actions);
    d := FreshCall(t.calls.Keys);
    var started, running := ExchangeStarts(t, d, p);
    RunSnoc(w, actions, ExecuteStart(d, p));
    RunSnoc(w, actions + [ExecuteStart(d, p)], ExecuteEnter(d));
    actions := (actions + [ExecuteStart(d, p)]) + [ExecuteEnter(d)];
  }

  lemma {:induction false} TwoExchangesReplace(w: World, c: nat, d: nat, id: string)
    returns (first: Action, second: Action)
    requires c != d && Exchanges(w, c, id) && Exchanges(w, d, id) && id !in w.fields.cancelled
    ensures first.ExecuteFinish? && second.ExecuteFinish? && Replaces(Step(w, first), second, id)
  {
    first := ExecuteFinish(c, Responded(Bundle(id, Completed, "first"), true));
    second := ExecuteFinish(d, Responded(Bundle(id, Completed, "second"), true));
    var t := Step(w, first);
    assert t.calls[d] == w.calls[d] && t.fields.results[id] == Bundle(id, Completed, "first");
    assert Step(t, second).fields.results[id] == Bundle(id, Completed, "second");
  }

  lemma {:induction false} AfterPreparation(w: World, id: string, digest: string)
    requires Inv(w) && PrepareStep(w.fields, id, digest).Some?
    ensures var t := Step(w, Prepare(id, digest));
            && Anew(t, Prepared(id, w.fields.adapterId, digest)) && LocksOk(t)
            && t.calls == w.calls && t.fields.locks[id] == w.fields.nextIdentity
  {
    StepKeepsKeys(w, Prepare(id, digest));
    StepKeepsLocks(w, Prepare(id, digest));
    assert w.fields.nextIdentity in w.held ==> HeldBySome(w, w.fields.nextIdentity);
  }

  /** A busy call that meets a new preparation of its attempt. */
  lemma {:induction false} BusyBreaks(t: World, c: nat, p: Prepared)
    requires Anew(t, p) && LocksOk(t) && c in t.calls && Busy(t.calls[c]) && t.calls[c].id == p.attemptId
    requires t.calls[c].lock != t.fields.locks[p.attemptId]
    ensures CanCollide(t, p.attemptId) && CanReplace(t, p.attemptId)
  {
    var id := p.attemptId;
    var actions, d := BusyCanCollide(t, c, p);
    NoPrepareIsGuarded(t, actions);
    assert TwoExchange(Run(t, actions), id);
    var first, second := TwoExchangesReplace(Run(t, actions), c, d, id);
    ReplacedAfter(t, actions, first, second, id);
  }

  lemma {:induction false} ReplacedAfter(t: World, actions: seq<Action>, first: Action, second: Action, id: string)
    requires NoPrepare(actions) && !first.Prepare? && !second.Prepare?
    requires Replaces(Step(Run(t, actions), first), second, id)
    ensures CanReplace(t, id)
  {
    RunSnoc(t, actions, first);
    NoPrepareIsGuarded(t, actions + [first]);
    assert Guarded(Run(t, actions + [first]), second);
  }

  /**
   An accepted preparation lets two exchanges of the attempt collide, or a stored result be
   replaced, exactly when it finds a call on the attempt that waits or exchanges.
   */
  lemma {:induction false} PreparationBreaksExactly(w: World, id: string, digest: string)
    requires Inv(w) && PrepareStep(w.fields, id, digest).Some?
    ensures CanCollide(Step(w, Prepare(id, digest)), id) <==> BusyOn(w, id)
    ensures CanReplace(Step(w, Prepare(id, digest)), id) <==> BusyOn(w, id)
  {
    var t := Step(w, Prepare(id, digest));
    if BusyOn(w, id) {
      var c :| c in w.calls && Busy(w.calls[c]) && w.calls[c].id == id;
      AfterPreparation(w, id, digest);
      BusyBreaks(t, c, Prepared(id, w.fields.adapterId, digest));
    } else {
      StepKeepsInv(w, Prepare(id, digest));
      NeverCollides(t, id);
      NeverReplaces(t, id);
    }
  }

  // ----- One discipline that guards every preparation -----

  function Target(a: Action): Option<string> {
    match a
    case Prepare(id, _) => Some(id)
    case ExecuteStart(_, p) => Some(p.attemptId)
    case CancelFlag(p) => Some(p.attemptId)
    case CancelClose(id) => Some(id)
    case CleanupStart(_, p) => Some(p.attemptId)
    case _ => None
  }

  /** No call on an attempt starts while it is being cleaned up, and cleanup starts with none in flight. */
  predicate Quiet(w: World, a: Action) {
    && (Target(a).Some? ==> forall c :: c in w.calls && w.calls[c].id == Target(a).value ==> !w.calls[c].Cleaning?)
    && (a.CleanupStart? ==> forall c :: c in w.calls ==> w.calls[c].id != a.prepared.attemptId)
  }

  predicate QuietRun(w: World, actions: seq<Action>)
    decreases |actions|
  {
    actions == [] || (Quiet(w, actions[0]) && QuietRun(Step(w, actions[0]), actions[1..]))
  }

  /** Every call and result is of a prepared attempt, and a cleanup is alone on its own. */
  predicate Apart(w: World) {
    && KeysAgree(w.fields) && w.fields.results.Keys <= w.fields.attempts.Keys
    && (forall c :: c in w.calls ==> w.calls[c].id in w.fields.attempts)
    && (forall c, d :: c in w.calls && d in w.calls && c != d && w.calls[c].Cleaning? ==>
      w.calls[d].id != w.calls[c].id)
  }

  /** No call starts, no attempt is unprepared, and a result comes from a call. */
  lemma {:induction false} ApartCarries(w: World, t: World)
    requires Apart(w) && KeysAgree(t.fields) && w.fields.attempts.Keys <= t.fields.attempts.Keys
    requires forall c :: c in t.calls ==>
            c in w.calls && t.calls[c].id == w.calls[c].id && (t.calls[c].Cleaning? ==> w.calls[c].Cleaning?)
    requires forall id :: id in t.fields.results ==>
            id in w.fields.results || exists c :: c in w.calls && w.calls[c].id == id
    ensures Apart(t)
  {
  }

  lemma {:induction false} EnterKeepsApart(w: World, a: Action)
    requires Apart(w) && (a.ExecuteEnter? || a.StopWaiting?)
    ensures Apart(Step(w, a))
  {
    StepKeepsKeys(w, a);
    assert a.call in w.calls ==> w.calls[a.call].id in w.fields.attempts;
    ApartCarries(w, Step(w, a));
  }

  lemma {:induction false} FinishKeepsApart(w: World, a: Action)
    requires Apart(w) && (a.ExecuteFinish? || a.ExecuteRelease?)
    ensures Apart(Step(w, a))
  {
    StepKeepsKeys(w, a);
    assert a.call in w.calls ==> w.calls[a.call].id in w.fields.attempts;
    ApartCarries(w, Step(w, a));
  }

  lemma {:induction false} CleanupKeepsApart(w: World, a: Action)
    requires Apart(w) && Quiet(w, a) && (a.CleanupStart? || a.CleanupEnd?)
    ensures Apart(Step(w, a))
  {
    StepKeepsKeys(w, a);
  }

  lemma {:induction false} StartKeepsApart(w: World, a: Action)
    requires Apart(w) && Quiet(w, a) && a.ExecuteStart?
    ensures Apart(Step(w, a))
  {
    StepKeepsKeys(w, a);
  }

  lemma {:induction false} FieldStepKeepsApart(w: World, a: Action)
    requires Apart(w) && (a.Prepare? || a.CancelFlag? || a.CancelClose?)
    ensures Apart(Step(w, a)) && Guarded(w, a)
  {
    StepKeepsKeys(w, a);
    ApartCarries(w, Step(w, a));
  }

  lemma {:induction false} QuietStepKeepsApart(w: World, a: Action)
    requires Apart(w) && Quiet(w, a)
    ensures Apart(Step(w, a)) && Guarded(w, a)
  {
    match a {
      case ExecuteEnter(_) => EnterKeepsApart(w, a);
      case StopWaiting(_) => EnterKeepsApart(w, a);
      case ExecuteFinish(_, _) => FinishKeepsApart(w, a);
      case ExecuteRelease(_) => FinishKeepsApart(w, a);
      case CleanupStart(_, _) => CleanupKeepsApart(w, a);
      case CleanupEnd(_) => CleanupKeepsApart(w, a);
      case ExecuteStart(_, _) => StartKeepsApart(w, a);
      case _ => FieldStepKeepsApart(w, a);
    }
  }

  /** Cleaning up only what no call is on guards every preparation. */
  lemma {:induction false} QuietRunsAreGuarded(w: World, actions: seq<Action>)
    requires Apart(w) && QuietRun(w, actions)
    ensures GuardedRun(w, actions) && Apart(Run(w, actions))
    decreases |actions|
  {
    if actions != [] {
      QuietStepKeepsApart(w, actions[0]);
      QuietRunsAreGuarded(Step(w, actions[0]), actions[1..]);
    }
  }

  // ----- Overlapping cleanup breaks the promise -----

  lemma {:induction false} RunCons(w: World, a: Action, rest: seq<Action>)
    ensures Run(w, [a] + rest) == Run(Step(w, a), rest)
    ensures GuardedRun(w, [a] + rest) <==> Guarded(w, a) && GuardedRun(Step(w, a), rest)
  {
    assert ([a] + rest)[1..] == rest;
  }

  lemma {:induction false} ExchangeStarts(w: World, call: nat, p: Prepared) returns (started: World, running: World)
    requires call !in w.calls && p.attemptId !in w.fields.results && Owned(w.fields, p) && KeysAgree(w.fields)
    requires p.attemptId !in w.fields.cancelled && w.fields.locks[p.attemptId] !in w.held
    ensures started == Step(w, ExecuteStart(call, p)) && running == Step(started, ExecuteEnter(call))
    ensures running.fields == w.fields && running.dispatched == w.dispatched + [p.attemptId]
    ensures running.returned == w.returned
    ensures running.calls == w.calls[call := Exchanging(p.attemptId, w.fields.locks[p.attemptId])]
    ensures running.held == w.held + {w.fields.locks[p.attemptId]}
  {
    started := Step(w, ExecuteStart(call, p));
    running := Step(started, ExecuteEnter(call));
  }

  lemma {:induction false} ReprepareDuringExchange(w: World, cleaner: nat, p: Prepared)
    returns (flagged: World, cleaned: World, again: World)
    requires cleaner !in w.calls && Owned(w.fields, p) && p.attemptId !in w.fields.cleaned && KeysAgree(w.fields)
    ensures flagged == Step(w, CleanupStart(cleaner, p)) && cleaned == Step(flagged, CleanupEnd(cleaner))
    ensures again == Step(cleaned, Prepare(p.attemptId, p.inputDigest))
    ensures again.calls == w.calls && again.held == w.held
    ensures again.dispatched == w.dispatched && again.returned == w.returned
    ensures KeysAgree(again.fields) && Owned(again.fields, p) && p.attemptId !in again.fields.results
    ensures p.attemptId !in again.fields.cancelled && again.fields.locks[p.attemptId] == w.fields.nextIdentity
  {
    flagged := Step(w, CleanupStart(cleaner, p));
    cleaned := Step(flagged, CleanupEnd(cleaner));
    assert cleaned.calls == w.calls;
    again := Step(cleaned, Prepare(p.attemptId, p.inputDigest));
  }

  /** Finishing an exchange and executing again: the caller gets what was just stored. */
  lemma {:induction false} FinishThenExecute(w: World, call: nat, report: Report, bundle: Bundle, reader: nat,
      p: Prepared)
    returns (stored: World, read: World)
    requires call in w.calls && w.calls[call].Exchanging? && w.calls[call].id == p.attemptId
    requires p.attemptId !in w.fields.cancelled && reader !in w.calls && StoredBy(p.attemptId, report) == Some(bundle)
    ensures stored == Step(w, ExecuteFinish(call, report)) && read == Step(stored, ExecuteStart(reader, p))
    ensures read.returned == w.returned + [bundle]
    ensures read.fields == w.fields.(results := w.fields.results[p.attemptId := bundle])
    ensures forall c :: c != call && c in w.calls ==> c in read.calls && read.calls[c] == w.calls[c]
    ensures read.calls.Keys == w.calls.Keys
  {
    stored := Step(w, ExecuteFinish(call, report));
    assert reader !in stored.calls;
    read := Step(stored, ExecuteStart(reader, p));
  }

  function FirstActions(p: Prepared, rest: seq<Action>): seq<Action> {
    [Prepare(p.attemptId, p.inputDigest)] + ([ExecuteStart(0, p)] + ([ExecuteEnter(0)] + rest))
  }

  function OverlapActions(p: Prepared, rest: seq<Action>): seq<Action> {
    [CleanupStart(1, p)] + ([CleanupEnd(1)]
      + ([Prepare(p.attemptId, p.inputDigest)] + ([ExecuteStart(2, p)] + ([ExecuteEnter(2)] + rest))))
  }

  function FinishActions(p: Prepared, first: Report, second: Report): seq<Action> {
    [ExecuteFinish(0, first)] + ([ExecuteStart(3, p)] + ([ExecuteFinish(2, second)] + ([ExecuteStart(4, p)] + [])))
  }

  lemma {:induction false} FirstExchangeStarts(p: Prepared, rest: seq<Action>) returns (running: World)
    ensures Run(Initial(p.adapterId), FirstActions(p, rest)) == Run(running, rest)
    ensures GuardedRun(Initial(p.adapterId), FirstActions(p, rest)) ==> GuardedRun(running, rest)
    ensures running.calls.Keys == {0} && running.calls[0] == Exchanging(p.attemptId, 0) && running.held == {0}
    ensures KeysAgree(running.fields) && Owned(running.fields, p) && running.fields.nextIdentity == 1
    ensures running.returned == [] && running.dispatched == [p.attemptId]
  {
    var w0 := Initial(p.adapterId);
    var w1 := Step(w0, Prepare(p.attemptId, p.inputDigest));
    var w2, w3 := ExchangeStarts(w1, 0, p);
    running := w3;
    var a, b, c := Prepare(p.attemptId, p.inputDigest), ExecuteStart(0, p), ExecuteEnter(0);
    RunCons(w2, c, rest);
    RunCons(w1, b, [c] + rest);
    RunCons(w0, a, [b] + ([c] + rest));
  }

  /** From a running exchange: clean up, prepare again, start a second exchange. */
  lemma {:induction false} SecondExchangeStarts(w: World, p: Prepared, rest: seq<Action>) returns (both: World)
    requires w.calls.Keys == {0} && w.calls[0].Exchanging? && w.calls[0].id == p.attemptId
    requires KeysAgree(w.fields) && Owned(w.fields, p) && w.held == {0} && w.fields.nextIdentity == 1
    ensures !GuardedRun(w, OverlapActions(p, rest)) && Run(w, OverlapActions(p, rest)) == Run(both, rest)
    ensures both.calls.Keys == {0, 2} && both.calls[0] == w.calls[0] && both.calls[2] == Exchanging(p.attemptId, 1)
    ensures p.attemptId !in both.fields.cancelled && both.returned == w.returned
    ensures both.dispatched == w.dispatched + [p.attemptId]
  {
    var a, b, c, d, e := CleanupStart(1, p), CleanupEnd(1), Prepare(p.attemptId, p.inputDigest), ExecuteStart(2, p),
      ExecuteEnter(2);
    var w1, w2, w3 := ReprepareDuringExchange(w, 1, p);
    var w4, w5 := ExchangeStarts(w3, 2, p);
    both := w5;
    RunCons(w4, e, rest);
    RunCons(w3, d, [e] + rest);
    RunCons(w2, c, [d] + ([e] + rest));
    RunCons(w1, b, [c] + ([d] + ([e] + rest)));
    RunCons(w, a, [b] + ([c] + ([d] + ([e] + rest))));
    assert w2.calls[0].id == p.attemptId && BusyOn(w2, p.attemptId) && !Guarded(w2, c);
  }

  /** Two exchanges in progress store one after the other, and an execute after each reads a different bundle. */
  lemma {:induction false} BothFinish(w: World, p: Prepared, first: Report, second: Report)
    requires w.calls.Keys == {0, 2} && w.calls[0].Exchanging? && w.calls[2].Exchanging?
    requires w.calls[0].id == w.calls[2].id == p.attemptId && p.attemptId !in w.fields.cancelled
    requires StoredBy(p.attemptId, first).Some? && StoredBy(p.attemptId, second).Some?
    ensures Run(w, FinishActions(p, first, second)).returned
            == w.returned + [StoredBy(p.attemptId, first).value, StoredBy(p.attemptId, second).value]
    ensures Run(w, FinishActions(p, first, second)).dispatched == w.dispatched
  {
    var a, b, c, d := ExecuteFinish(0, first), ExecuteStart(3, p), ExecuteFinish(2, second), ExecuteStart(4, p);
    var w1, w2 := FinishThenExecute(w, 0, first, StoredBy(p.attemptId, first).value, 3, p);
    var w3, w4 := FinishThenExecute(w2, 2, second, StoredBy(p.attemptId, second).value, 4, p);
    RunCons(w3, d, []);
    RunCons(w2, c, [d] + []);
    RunCons(w1, b, [c] + ([d] + []));
    RunCons(w, a, [b] + ([c] + ([d] + [])));
  }

  /**
   Cleaning up and preparing again while an exchange is still running lets the old exchange
   store its result under the new preparation: two exchanges of the attempt are in progress at
   once, and two later executes of the same preparation return what either stored. The command
   adapter's cleanup only ends the process, so any report is possible first; the HTTP adapter's
   cancels the running coroutine too, so its first report is TaskCancelled.
   */
  lemma {:induction false} OverlappingCleanupReplacesAResult(p: Prepared, first: Report, second: Report)
    returns (actions: seq<Action>)
    requires StoredBy(p.attemptId, first).Some? && StoredBy(p.attemptId, second).Some?
    ensures !GuardedRun(Initial(p.adapterId), actions)
    ensures Run(Initial(p.adapterId), actions).returned
            == [StoredBy(p.attemptId, first).value, StoredBy(p.attemptId, second).value]
    ensures Dispatches(Run(Initial(p.adapterId), actions), p.attemptId) == 2
  {
    var finish := FinishActions(p, first, second);
    var overlap := OverlapActions(p, finish);
    actions := FirstActions(p, overlap);
    var start := FirstExchangeStarts(p, overlap);
    var both := SecondExchangeStarts(start, p, finish);
    BothFinish(both, p, first, second);
    TwoDispatches(Run(Initial(p.adapterId), actions), p.attemptId);
  }

  lemma {:induction false} TwoDispatches(w: World, id: string)
    requires w.dispatched == [id] + [id]
    ensures Dispatches(w, id) == 2
  {
    DispatchCount([], id, id);
    DispatchCount([id], id, id);
  }
}
