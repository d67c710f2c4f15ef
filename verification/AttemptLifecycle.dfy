/**
 The prepare, execute, cancel and cleanup lifecycle shared by the HTTP and the command
 adapter. Code between two awaits is one atomic step; the steps are methods over the
 adapter's maps and sets, and a run is any interleaving of them.
 */
module AttemptLifecycle {
  import opened Prelude

  datatype Terminal = Completed | Failed | TimedOut | Cancelled

  datatype Bundle = Bundle(attemptId: string, outcome: Terminal, body: string)

  datatype Prepared = Prepared(attemptId: string, adapterId: string, inputDigest: string)

  /**
   The adapter's fields. A lock and a queue are new objects at every preparation, so each
   preparation has one identity; closed holds the identities of closed queues.
   */
  datatype Fields = Fields(
    adapterId: string,
    attempts: map<string, string>,
    queues: map<string, nat>,
    locks: map<string, nat>,
    results: map<string, Bundle>,
    cancelled: set<string>,
    cleaned: set<string>,
    closed: set<nat>,
    nextIdentity: nat)

  /** How the awaited exchange ended: a bundle that passed or failed its checks, or one of the handled exceptions. */
  datatype Report = Responded(bundle: Bundle, acceptable: bool) | Timeout | ProviderError | TaskCancelled | Raised

  datatype Entry = Return(bundle: Bundle) | QueueMissing | CancelledEarly(bundle: Bundle) | Dispatch

  // ----- Atomic steps over the fields -----

  function PrepareStep(f: Fields, id: string, digest: string): Option<Fields> {
    if id in f.attempts && id !in f.cleaned then None
    else Some(f.(attempts := f.attempts[id := digest], queues := f.queues[id := f.nextIdentity],
                 locks := f.locks[id := f.nextIdentity],
                 results := f.results - {id}, cancelled := f.cancelled - {id}, cleaned := f.cleaned - {id},
                   nextIdentity := f.nextIdentity + 1))
  }

  /** `_attempt`: the prepared handle is this adapter's and is bound to the stored input. */
  predicate Owned(f: Fields, p: Prepared) {
    p.adapterId == f.adapterId && p.attemptId in f.attempts && f.attempts[p.attemptId] == p.inputDigest
  }

  function CancelledBundle(id: string): Bundle { Bundle(id, Cancelled, "cancelled") }

  /** The part of `execute_attempt` between acquiring the lock and the first await. */
  function EnterStep(f: Fields, id: string): (Fields, Entry) {
    if id in f.results then (f, Return(f.results[id]))
    else if id !in f.queues then (f, QueueMissing)
    else if id in f.cancelled then (f.(results := f.results[id := CancelledBundle(id)]),
                                    CancelledEarly(CancelledBundle(id)))
    else (f, Dispatch)
  }

  /** What an exchange stores when its attempt is not flagged. */
  function StoredBy(id: string, report: Report): Option<Bundle> {
    match report
    case Responded(bundle, acceptable) => if acceptable then Some(bundle) else None
    case Timeout => Some(Bundle(id, TimedOut, "timeout"))
    case ProviderError => Some(Bundle(id, Failed, "transport failure"))
    case TaskCancelled => Some(CancelledBundle(id))
    case Raised => None
  }

  /** The part of `execute_attempt` after the exchange: what is stored and returned, None when it raises. */
  function FinishStep(f: Fields, id: string, report: Report): (Fields, Option<Bundle>) {
    var result := if report.Responded? && id in f.cancelled then Some(CancelledBundle(id)) else StoredBy(id, report);
    if result.Some? then (f.(results := f.results[id := result.value]), result) else (f, None)
  }

  function CloseStep(f: Fields, queue: nat): Fields { f.(closed := f.closed + {queue}) }

  function FlagStep(f: Fields, id: string): Fields { f.(cancelled := f.cancelled + {id}) }

  /** The final, await-free part of `cleanup_attempt`. */
  function CleanStep(f: Fields, id: string): Fields {
    f.(attempts := f.attempts - {id}, queues := f.queues - {id}, locks := f.locks - {id}, results := f.results - {id},
       cancelled := f.cancelled - {id}, cleaned := f.cleaned + {id})
  }

  // ----- The adapter -----

  class Adapter {
    const adapterId: string
    var attempts: map<string, string>
    var queues: map<string, nat>
    var locks: map<string, nat>
    var results: map<string, Bundle>
    var cancelled: set<string>
    var cleaned: set<string>
    var closed: set<nat>
    var nextIdentity: nat

    constructor (id: string)
      ensures State() == Fields(id, map[], map[], map[], map[], {}, {}, {}, 0)
    {
      adapterId := id;
      attempts, queues, locks, results := map[], map[], map[], map[];
      cancelled, cleaned, closed, nextIdentity := {}, {}, {}, 0;
    }

    function State(): Fields
      reads this
    {
      Fields(adapterId, attempts, queues, locks, results, cancelled, cleaned, closed, nextIdentity)
    }

    /** `_prepare`, once its input has passed validation; false stands for "already prepared". */
    method Prepare(id: string, digest: string) returns (ok: bool)
      modifies this
      ensures ok <==> PrepareStep(old(State()), id, digest).Some?
      ensures State() == if ok then PrepareStep(old(State()), id, digest).value else old(State())
    {
      if id in attempts && id !in cleaned {
        return false;
      }
      attempts := attempts[id := digest];
      queues := queues[id := nextIdentity];
      locks := locks[id := nextIdentity];
      nextIdentity := nextIdentity + 1;
      results := results - {id};
      cancelled := cancelled - {id};
      cleaned := cleaned - {id};
      return true;
    }

    method Enter(id: string) returns (entry: Entry)
      modifies this
      ensures (State(), entry) == EnterStep(old(State()), id)
    {
      if id in results {
        return Return(results[id]);
      }
      if id !in queues {
        return QueueMissing;
      }
      if id in cancelled {
        results := results[id := CancelledBundle(id)];
        return CancelledEarly(CancelledBundle(id));
      }
      return Dispatch;
    }

    method FinishExchange(id: string, report: Report) returns (result: Option<Bundle>)
      modifies this
      ensures (State(), result) == FinishStep(old(State()), id, report)
    {
      match report {
        case Responded(bundle, acceptable) =>
          var chosen, good := bundle, acceptable;
          if id in cancelled {
            chosen, good := CancelledBundle(id), true;
          }
          if !good {
            return None;
          }
          result := Some(chosen);
        case Timeout => result := Some(Bundle(id, TimedOut, "timeout"));
        case ProviderError => result := Some(Bundle(id, Failed, "transport failure"));
        case TaskCancelled => result := Some(CancelledBundle(id));
        case Raised => return None;
      }
      results := results[id := result.value];
    }

    method CloseQueue(queue: nat)
      modifies this
      ensures State() == CloseStep(old(State()), queue)
    {
      closed := closed + {queue};
    }

    method Flag(id: string)
      modifies this
      ensures State() == FlagStep(old(State()), id)
    {
      cancelled := cancelled + {id};
    }

    method Clean(id: string)
      modifies this
      ensures State() == CleanStep(old(State()), id)
    {
      attempts := attempts - {id};
      results := results - {id};
      queues := queues - {id};
      locks := locks - {id};
      cancelled := cancelled - {id};
      cleaned := cleaned + {id};
    }
  }

  // ----- Runs -----

  /** A call in flight: it waits for a lock, exchanges under it, is about to release it, or cleans up. */
  datatype Call =
    | Waiting(id: string, lock: nat)
    | Exchanging(id: string, lock: nat)
    | Releasing(id: string, lock: nat, result: Option<Bundle>)
    | Cleaning(id: string)

  /** dispatched and returned are history: exchanges started, and bundles handed to callers. */
  datatype World = World(fields: Fields, calls: map<nat, Call>, held: set<nat>, dispatched: seq<string>,
                         returned: seq<Bundle>)

  datatype Action =
    | Prepare(id: string, digest: string)
    | ExecuteStart(call: nat, prepared: Prepared)
    | StopWaiting(call: nat)
    | ExecuteEnter(call: nat)
    | ExecuteFinish(call: nat, report: Report)
    | ExecuteRelease(call: nat)
    | CancelFlag(prepared: Prepared)
    | CancelClose(id: string)
    | CleanupStart(call: nat, prepared: Prepared)
    | CleanupEnd(call: nat)

  function Initial(adapterId: string): World {
    World(Fields(adapterId, map[], map[], map[], map[], {}, {}, {}, 0), map[], {}, [], [])
  }

  function EndCall(w: World, call: nat): World { w.(calls := w.calls - {call}) }

  /** One atomic step; an action that is rejected or not enabled changes nothing. */
  function Step(w: World, a: Action): World {
    var f := w.fields;
    match a
    case Prepare(id, digest) =>
      if PrepareStep(f, id, digest).Some? then w.(fields := PrepareStep(f, id, digest).value) else w
    case ExecuteStart(c, p) =>
      if c in w.calls then w
      else if p.attemptId in f.results then w.(returned := w.returned + [f.results[p.attemptId]])
      else if !Owned(f, p) || p.attemptId !in f.locks then w
      else w.(calls := w.calls[c := Waiting(p.attemptId, f.locks[p.attemptId])])
    case StopWaiting(c) => if c in w.calls && w.calls[c].Waiting? then EndCall(w, c) else w
    case ExecuteEnter(c) =>
      if c !in w.calls || !w.calls[c].Waiting? || w.calls[c].lock in w.held then w
      else
        var Waiting(id, lock) := w.calls[c];
        var (f', entry) := EnterStep(f, id);
        (match entry
         case Return(b) => EndCall(w, c).(returned := w.returned + [b])
         case QueueMissing => EndCall(w, c)
         case CancelledEarly(b) =>
           w.(fields := f', held := w.held + {lock}, calls := w.calls[c := Releasing(id, lock, Some(b))])
         case Dispatch => w.(held := w.held + {lock}, calls := w.calls[c := Exchanging(id, lock)],
                             dispatched := w.dispatched + [id]))
    case ExecuteFinish(c, report) =>
      if c !in w.calls || !w.calls[c].Exchanging? then w
      else
        var Exchanging(id, lock) := w.calls[c];
        var (f', result) := FinishStep(f, id, report);
        w.(fields := f', calls := w.calls[c := Releasing(id, lock, result)])
    case ExecuteRelease(c) =>
      if c !in w.calls || !w.calls[c].Releasing? then w
      else
        var Releasing(id, lock, result) := w.calls[c];
        EndCall(w, c).(fields := CloseStep(f, lock), held := w.held - {lock},
                       returned := if result.Some? then w.returned + [result.value] else w.returned)
    case CancelFlag(p) =>
      if p.attemptId in f.cleaned || !Owned(f, p) then w else w.(fields := FlagStep(f, p.attemptId))
    case CancelClose(id) => if id in f.queues && id in f.cancelled then w.(fields := CloseStep(f, f.queues[id])) else w
    case CleanupStart(c, p) =>
      if c in w.calls || p.attemptId in f.cleaned || !Owned(f, p) then w
      else w.(fields := FlagStep(f, p.attemptId), calls := w.calls[c := Cleaning(p.attemptId)])
    case CleanupEnd(c) =>
      if c !in w.calls || !w.calls[c].Cleaning? then w
      else EndCall(w, c).(fields := CleanStep(f, w.calls[c].id))
  }

  function Run(w: World, actions: seq<Action>): World
    decreases |actions|
  {
    if actions == [] then w else Run(Step(w, actions[0]), actions[1..])
  }

  // ----- What every run keeps -----

  /** The attempt, queue and lock maps name the same attempts, and none of them is cleaned. */
  predicate KeysAgree(f: Fields) {
    f.attempts.Keys == f.queues.Keys == f.locks.Keys && f.attempts.Keys !! f.cleaned
  }

  lemma {:induction false} KeysAlwaysAgree(w: World, actions: seq<Action>)
    requires KeysAgree(w.fields)
    ensures KeysAgree(Run(w, actions).fields)
    decreases |actions|
  {
    if actions != [] {
      StepKeepsKeys(w, actions[0]);
      KeysAlwaysAgree(Step(w, actions[0]), actions[1..]);
    }
  }

  lemma {:induction false} StepKeepsKeys(w: World, a: Action)
    requires KeysAgree(w.fields)
    ensures KeysAgree(Step(w, a).fields)
  {
  }

  /** In any run whatever, the step that stores a completed result finds the cancel flag clear. */
  lemma {:induction false} CompletedOnlyWhenNotCancelled(w: World, a: Action, id: string)
    requires id in Step(w, a).fields.results && Step(w, a).fields.results[id].outcome == Completed
    requires id !in w.fields.results || w.fields.results[id] != Step(w, a).fields.results[id]
    ensures id !in w.fields.cancelled && a.ExecuteFinish? && a.report.Responded? && a.report.acceptable
  {
  }

  // ----- Runs that prepare no attempt while a call on it can still exchange -----

  /** The call is about to exchange for its attempt, or does. */
  predicate Busy(call: Call) { call.Waiting? || call.Exchanging? }

  predicate Active(call: Call) { call.Exchanging? || call.Releasing? }

  predicate BusyOn(w: World, id: string) {
    exists c :: c in w.calls && Busy(w.calls[c]) && w.calls[c].id == id
  }

  /** An accepted preparation finds no busy call on its attempt. */
  predicate Guarded(w: World, a: Action) {
    a.Prepare? && PrepareStep(w.fields, a.id, a.digest).Some? ==> !BusyOn(w, a.id)
  }

  predicate GuardedRun(w: World, actions: seq<Action>)
    decreases |actions|
  {
    actions == [] || (Guarded(w, actions[0]) && GuardedRun(Step(w, actions[0]), actions[1..]))
  }

  /** Identities are never reused, and lock and queue of one preparation share theirs. */
  predicate IdentitiesOk(f: Fields) {
    && f.locks == f.queues
    && (forall id :: id in f.locks ==> f.locks[id] < f.nextIdentity)
  }

  /** The busy calls on an attempt share one lock, which is the current one while the attempt is prepared. */
  ghost predicate CallsOk(w: World) {
    && (forall c :: c in w.calls && !w.calls[c].Cleaning? ==> w.calls[c].lock < w.fields.nextIdentity)
    && (forall c :: c in w.calls && Busy(w.calls[c]) && w.calls[c].id in w.fields.locks
          ==> w.calls[c].lock == w.fields.locks[w.calls[c].id])
    && (forall c, d :: BusyTogether(w, c, d) ==> w.calls[c].lock == w.calls[d].lock)
  }

  predicate BusyTogether(w: World, c: nat, d: nat) {
    c in w.calls && d in w.calls && Busy(w.calls[c]) && Busy(w.calls[d]) && w.calls[c].id == w.calls[d].id
  }

  predicate HeldBySome(w: World, lock: nat) {
    exists c :: c in w.calls && Active(w.calls[c]) && w.calls[c].lock == lock
  }

  /** The held locks are those of the active calls, one each. */
  predicate LocksOk(w: World) {
    && (forall c :: c in w.calls && Active(w.calls[c]) ==> w.calls[c].lock in w.held)
    && (forall c, d :: c in w.calls && d in w.calls && c != d && Active(w.calls[c]) && Active(w.calls[d])
          ==> w.calls[c].lock != w.calls[d].lock)
    && (forall lock :: lock in w.held ==> HeldBySome(w, lock))
  }

  /** An exchange has no result yet; a call of the current preparation returns what is stored. */
  predicate ResultsOk(w: World) {
    && (forall c :: c in w.calls && w.calls[c].Exchanging? ==> w.calls[c].id !in w.fields.results)
    && (forall c :: c in w.calls && w.calls[c].Releasing? && w.calls[c].result.Some? && CurrentLock(w, c)
          ==> w.calls[c].id in w.fields.results && w.fields.results[w.calls[c].id] == w.calls[c].result.value)
  }

  predicate CurrentLock(w: World, c: nat)
    requires c in w.calls && !w.calls[c].Cleaning?
  {
    w.calls[c].id in w.fields.locks && w.fields.locks[w.calls[c].id] == w.calls[c].lock
  }

  predicate BeingReleased(w: World, lock: nat) {
    exists c :: c in w.calls && w.calls[c].Releasing? && w.calls[c].lock == lock
  }

  /** The event queue of a prepared and finished attempt is closed, or about to be. */
  predicate QueuesOk(w: World) {
    forall id :: id in w.fields.results && id in w.fields.queues
      ==> w.fields.queues[id] in w.fields.closed || BeingReleased(w, w.fields.queues[id])
  }

  ghost predicate Inv(w: World) {
    KeysAgree(w.fields) && IdentitiesOk(w.fields) && CallsOk(w) && LocksOk(w) && ResultsOk(w) && QueuesOk(w)
  }

  lemma {:induction false} StepKeepsIdentities(w: World, a: Action)
    requires KeysAgree(w.fields) && IdentitiesOk(w.fields)
    ensures IdentitiesOk(Step(w, a).fields) && w.fields.nextIdentity <= Step(w, a).fields.nextIdentity
  {
  }

  lemma {:induction false} PrepareKeepsCalls(w: World, a: Action)
    requires KeysAgree(w.fields) && CallsOk(w) && Guarded(w, a) && a.Prepare?
    ensures CallsOk(Step(w, a))
  {
  }

  lemma {:induction false} StartKeepsCalls(w: World, a: Action)
    requires IdentitiesOk(w.fields) && CallsOk(w) && a.ExecuteStart?
    ensures CallsOk(Step(w, a))
  {
  }

  /** The locks stay, and no call becomes busy or changes its lock. */
  lemma {:induction false} CallsCarry(w: World, t: World)
    requires CallsOk(w) && t.fields.nextIdentity == w.fields.nextIdentity
    requires forall id :: id in t.fields.locks ==> id in w.fields.locks && t.fields.locks[id] == w.fields.locks[id]
    requires forall c :: c in t.calls && !t.calls[c].Cleaning? ==>
               && c in w.calls && !w.calls[c].Cleaning? && t.calls[c].id == w.calls[c].id
               && t.calls[c].lock == w.calls[c].lock
               && (Busy(t.calls[c]) ==> Busy(w.calls[c]))
    ensures CallsOk(t)
  {
  }

  lemma {:induction false} EnterKeepsCalls(w: World, a: Action)
    requires CallsOk(w) && (a.ExecuteEnter? || a.ExecuteFinish? || a.ExecuteRelease? || a.StopWaiting?)
    ensures CallsOk(Step(w, a))
  {
    CallsCarry(w, Step(w, a));
  }

  lemma {:induction false} CancelKeepsCalls(w: World, a: Action)
    requires CallsOk(w) && (a.CancelFlag? || a.CancelClose? || a.CleanupStart? || a.CleanupEnd?)
    ensures CallsOk(Step(w, a))
  {
    CallsCarry(w, Step(w, a));
  }

  lemma {:induction false} StepKeepsCalls(w: World, a: Action)
    requires KeysAgree(w.fields) && IdentitiesOk(w.fields) && CallsOk(w) && Guarded(w, a)
    ensures CallsOk(Step(w, a))
  {
    match a {
      case Prepare(_, _) => PrepareKeepsCalls(w, a);
      case ExecuteStart(_, _) => StartKeepsCalls(w, a);
      case ExecuteEnter(_) => EnterKeepsCalls(w, a);
      case ExecuteFinish(_, _) => EnterKeepsCalls(w, a);
      case ExecuteRelease(_) => EnterKeepsCalls(w, a);
      case StopWaiting(_) => EnterKeepsCalls(w, a);
      case _ => CancelKeepsCalls(w, a);
    }
  }

  lemma {:induction false} ReleaseKeepsLocks(w: World, c: nat)
    requires LocksOk(w) && c in w.calls && w.calls[c].Releasing?
    ensures LocksOk(Step(w, ExecuteRelease(c)))
  {
    var t := Step(w, ExecuteRelease(c));
    forall lock | lock in t.held ensures HeldBySome(t, lock) {
      var d :| d in w.calls && Active(w.calls[d]) && w.calls[d].lock == lock;
      assert d in t.calls && t.calls[d] == w.calls[d];
    }
  }

  /** Adding or replacing the call c without losing its lock, and taking at most a free lock for it. */
  lemma {:induction false} CallKeepsLocks(w: World, t: World, c: nat)
    requires LocksOk(w) && (forall d :: d in w.calls && d != c ==> d in t.calls && t.calls[d] == w.calls[d])
    requires (forall d :: d in t.calls && d != c ==> d in w.calls) && w.held <= t.held
    requires if c in t.calls && Active(t.calls[c]) then t.held == w.held + {t.calls[c].lock} else t.held == w.held
    requires c in w.calls && Active(w.calls[c]) ==>
            c in t.calls && Active(t.calls[c]) && t.calls[c].lock == w.calls[c].lock
    requires c in t.calls && Active(t.calls[c]) && !(c in w.calls && Active(w.calls[c])) ==> t.calls[c].lock !in w.held
    ensures LocksOk(t)
  {
    forall lock | lock in t.held ensures HeldBySome(t, lock) {
      if lock in w.held {
        var d :| d in w.calls && Active(w.calls[d]) && w.calls[d].lock == lock;
        assert d in t.calls && Active(t.calls[d]) && t.calls[d].lock == lock;
      } else {
        assert c in t.calls && Active(t.calls[c]) && t.calls[c].lock == lock;
      }
    }
  }

  lemma {:induction false} EnterKeepsLocks(w: World, a: Action)
    requires LocksOk(w) && a.ExecuteEnter?
    ensures LocksOk(Step(w, a))
  {
    CallKeepsLocks(w, Step(w, a), a.call);
  }

  lemma {:induction false} FinishKeepsLocks(w: World, a: Action)
    requires LocksOk(w) && a.ExecuteFinish?
    ensures LocksOk(Step(w, a))
  {
    CallKeepsLocks(w, Step(w, a), a.call);
  }

  lemma {:induction false} IdleKeepsLocks(w: World, a: Action)
    requires LocksOk(w) && (a.ExecuteStart? || a.StopWaiting? || a.CleanupStart? || a.CleanupEnd?)
    ensures LocksOk(Step(w, a))
  {
    CallKeepsLocks(w, Step(w, a), a.call);
  }

  lemma {:induction false} StepKeepsLocks(w: World, a: Action)
    requires LocksOk(w)
    ensures LocksOk(Step(w, a))
  {
    match a {
      case ExecuteRelease(c) => if c in w.calls && w.calls[c].Releasing? { ReleaseKeepsLocks(w, c); }
      case ExecuteEnter(_) => EnterKeepsLocks(w, a);
      case ExecuteFinish(_, _) => FinishKeepsLocks(w, a);
      case Prepare(_, _) => LocksCarry(w, Step(w, a));
      case CancelFlag(_) => LocksCarry(w, Step(w, a));
      case CancelClose(_) => LocksCarry(w, Step(w, a));
      case _ => IdleKeepsLocks(w, a);
    }
  }

  lemma {:induction false} LocksCarry(w: World, t: World)
    requires LocksOk(w) && t.calls == w.calls && t.held == w.held
    ensures LocksOk(t)
  {
    forall lock | lock in t.held ensures HeldBySome(t, lock) {
      assert HeldBySome(w, lock);
    }
  }

  lemma {:induction false} PrepareKeepsResults(w: World, a: Action)
    requires CallsOk(w) && ResultsOk(w) && a.Prepare?
    ensures ResultsOk(Step(w, a))
  {
  }

  /**
   While a call is busy and its lock is not held by another one, nobody else on its attempt
   exchanges or returns a current result.
   */
  lemma {:induction false} StoringIsExclusive(w: World, c: nat)
    requires CallsOk(w) && LocksOk(w) && c in w.calls && Busy(w.calls[c])
    requires (w.calls[c].Waiting? ==> w.calls[c].lock !in w.held)
    ensures forall d :: d in w.calls && d != c && w.calls[d].id == w.calls[c].id ==> !w.calls[d].Exchanging?
    ensures forall d :: d in w.calls && d != c && w.calls[d].id == w.calls[c].id && w.calls[d].Releasing? ==>
            !CurrentLock(w, d)
  {
  }

  /** Storing a result for the call c, which goes on to release it, or forgetting that call. */
  lemma {:induction false} ResultsCarry(w: World, t: World, c: nat)
    requires ResultsOk(w) && c in w.calls && !w.calls[c].Cleaning? && t.fields.locks == w.fields.locks
    requires forall d :: d in t.calls && d != c ==> d in w.calls && t.calls[d] == w.calls[d]
    requires forall d :: d in w.calls && d != c && w.calls[d].id == w.calls[c].id ==> !w.calls[d].Exchanging?
    requires forall d :: d in w.calls && d != c && w.calls[d].id == w.calls[c].id && w.calls[d].Releasing? ==>
            !CurrentLock(w, d)
    requires forall id :: id != w.calls[c].id ==> (id in t.fields.results <==> id in w.fields.results)
    requires forall id :: id != w.calls[c].id && id in w.fields.results ==> t.fields.results[id] == w.fields.results[id]
    requires c in t.calls ==>
            t.calls[c].id == w.calls[c].id && (t.calls[c].Exchanging? ==> t.calls[c].id !in t.fields.results)
    requires c in t.calls && t.calls[c].Releasing? && t.calls[c].result.Some? ==>
               t.calls[c].id in t.fields.results && t.fields.results[t.calls[c].id] == t.calls[c].result.value
    ensures ResultsOk(t)
  {
  }

  lemma {:induction false} EnterKeepsResults(w: World, a: Action)
    requires CallsOk(w) && LocksOk(w) && ResultsOk(w) && a.ExecuteEnter?
    ensures ResultsOk(Step(w, a))
  {
    if a.call in w.calls && w.calls[a.call].Waiting? && w.calls[a.call].lock !in w.held {
      var t := Step(w, a);
      StoringIsExclusive(w, a.call);
      EnterStores(w, a.call);
      ResultsCarry(w, t, a.call);
    }
  }

  lemma {:induction false} EnterStores(w: World, c: nat)
    requires c in w.calls && w.calls[c].Waiting? && w.calls[c].lock !in w.held
    ensures var t := Step(w, ExecuteEnter(c));
            && t.fields.locks == w.fields.locks && (c in t.calls ==> t.calls[c].id == w.calls[c].id)
            && (forall id :: id != w.calls[c].id ==> (id in t.fields.results <==> id in w.fields.results))
            && (forall id :: id != w.calls[c].id && id in w.fields.results ==>
              t.fields.results[id] == w.fields.results[id])
  {
  }

  lemma {:induction false} FinishKeepsResults(w: World, a: Action)
    requires CallsOk(w) && LocksOk(w) && ResultsOk(w) && a.ExecuteFinish?
    ensures ResultsOk(Step(w, a))
  {
    if a.call in w.calls && w.calls[a.call].Exchanging? {
      StoringIsExclusive(w, a.call);
      ResultsCarry(w, Step(w, a), a.call);
    }
  }

  lemma {:induction false} OthersKeepResults(w: World, a: Action)
    requires ResultsOk(w) && !a.Prepare? && !a.ExecuteEnter? && !a.ExecuteFinish?
    ensures ResultsOk(Step(w, a))
  {
  }

  lemma {:induction false} StepKeepsResults(w: World, a: Action)
    requires CallsOk(w) && LocksOk(w) && ResultsOk(w)
    ensures ResultsOk(Step(w, a))
  {
    match a {
      case Prepare(_, _) => PrepareKeepsResults(w, a);
      case ExecuteEnter(_) => EnterKeepsResults(w, a);
      case ExecuteFinish(_, _) => FinishKeepsResults(w, a);
      case _ => OthersKeepResults(w, a);
    }
  }

  /** The call that an action is about, or -1. */
  function CallOf(a: Action): int {
    match a
    case ExecuteStart(c, _) => c
    case StopWaiting(c) => c
    case ExecuteEnter(c) => c
    case ExecuteFinish(c, _) => c
    case ExecuteRelease(c) => c
    case CleanupStart(c, _) => c
    case CleanupEnd(c) => c
    case _ => -1
  }

  /** A result that a step adds belongs to a call that is about to release its queue. */
  lemma {:induction false} NewResultIsReleased(w: World, a: Action, id: string)
    requires IdentitiesOk(w.fields) && CallsOk(w) && id !in w.fields.results
    ensures var t := Step(w, a);
            id in t.fields.results && id in t.fields.queues ==> BeingReleased(t, t.fields.queues[id])
  {
    var t, c := Step(w, a), CallOf(a);
    if id in t.fields.results && id in t.fields.queues {
      assert c in w.calls && Busy(w.calls[c]) && w.calls[c].id == id;
      assert c in t.calls && t.calls[c].Releasing? && t.calls[c].lock == w.calls[c].lock;
    }
  }

  lemma {:induction false} StepKeepsQueues(w: World, a: Action)
    requires KeysAgree(w.fields) && IdentitiesOk(w.fields) && CallsOk(w) && QueuesOk(w)
    ensures QueuesOk(Step(w, a))
  {
    var t := Step(w, a);
    forall id | id in t.fields.results && id in t.fields.queues
      ensures t.fields.queues[id] in t.fields.closed || BeingReleased(t, t.fields.queues[id])
    {
      if id !in w.fields.results {
        NewResultIsReleased(w, a, id);
      } else {
        OldResultIsReleased(w, a, id);
      }
    }
  }

  lemma {:induction false} OldResultIsReleased(w: World, a: Action, id: string)
    requires KeysAgree(w.fields) && IdentitiesOk(w.fields) && CallsOk(w) && QueuesOk(w) && id in w.fields.results
    ensures var t := Step(w, a);
            id in t.fields.results && id in t.fields.queues
            ==> t.fields.queues[id] in t.fields.closed || BeingReleased(t, t.fields.queues[id])
  {
    var t := Step(w, a);
    if id in t.fields.results && id in t.fields.queues {
      QueueStays(w, a, id);
      if w.fields.queues[id] !in w.fields.closed {
        StepReleases(w, a, w.fields.queues[id]);
      }
    }
  }

  lemma {:induction false} StepReleases(w: World, a: Action, queue: nat)
    requires BeingReleased(w, queue)
    ensures queue in Step(w, a).fields.closed || BeingReleased(Step(w, a), queue)
  {
    var d :| d in w.calls && w.calls[d].Releasing? && w.calls[d].lock == queue;
    var t := Step(w, a);
    assert (d in t.calls && t.calls[d] == w.calls[d]) || w.calls[d].lock in t.fields.closed;
  }

  lemma {:induction false} QueueStays(w: World, a: Action, id: string)
    requires KeysAgree(w.fields)
    requires id in w.fields.results && id in Step(w, a).fields.results && id in Step(w, a).fields.queues
    ensures id in w.fields.queues && Step(w, a).fields.queues[id] == w.fields.queues[id]
    ensures w.fields.closed <= Step(w, a).fields.closed
  {
  }

  lemma {:induction false} StepKeepsInv(w: World, a: Action)
    requires Inv(w) && Guarded(w, a)
    ensures Inv(Step(w, a))
  {
    StepKeepsKeys(w, a);
    StepKeepsIdentities(w, a);
    StepKeepsCalls(w, a);
    StepKeepsLocks(w, a);
    StepKeepsResults(w, a);
    StepKeepsQueues(w, a);
  }

  lemma {:induction false} GuardedRunsKeepInv(w: World, actions: seq<Action>)
    requires Inv(w) && GuardedRun(w, actions)
    ensures Inv(Run(w, actions))
    decreases |actions|
  {
    if actions != [] {
      StepKeepsInv(w, actions[0]);
      GuardedRunsKeepInv(Step(w, actions[0]), actions[1..]);
    }
  }

  // ----- The promises -----

  /** The action finishes a cleanup of this attempt. */
  predicate CleansUp(w: World, a: Action, id: string) {
    a.CleanupEnd? && a.call in w.calls && w.calls[a.call].Cleaning? && w.calls[a.call].id == id
  }

  /** The action neither finishes a cleanup of this attempt nor prepares it anew. */
  predicate Spares(w: World, a: Action, id: string) {
    !CleansUp(w, a, id) && !(a.Prepare? && a.id == id && PrepareStep(w.fields, id, a.digest).Some?)
  }

  predicate SparesAll(w: World, actions: seq<Action>, id: string)
    decreases |actions|
  {
    actions == [] || (Spares(w, actions[0], id) && SparesAll(Step(w, actions[0]), actions[1..], id))
  }

  predicate NeverCleansUp(w: World, actions: seq<Action>, id: string)
    decreases |actions|
  {
    actions == [] || (!CleansUp(w, actions[0], id) && NeverCleansUp(Step(w, actions[0]), actions[1..], id))
  }

  /** A prepared attempt cannot be prepared anew before it is cleaned up. */
  lemma {:induction false} PreparedIsSpared(w: World, actions: seq<Action>, id: string)
    requires KeysAgree(w.fields) && id in w.fields.attempts && NeverCleansUp(w, actions, id)
    ensures SparesAll(w, actions, id)
    decreases |actions|
  {
    if actions != [] {
      StepKeepsKeys(w, actions[0]);
      PreparedIsSpared(Step(w, actions[0]), actions[1..], id);
    }
  }

  /** How often an exchange was started for this attempt. */
  function Dispatches(w: World, id: string): nat {
    Count((x: string) => x == id, w.dispatched)
  }

  lemma {:induction false} DispatchCount(dispatched: seq<string>, x: string, id: string)
    ensures Count((y: string) => y == id, dispatched + [x])
            == Count((y: string) => y == id, dispatched) + (if x == id then 1 else 0)
  {
    CountAppend((y: string) => y == id, dispatched, [x]);
    assert [x][1..] == [];
  }

  /** A stored result is final: it is not replaced, and nothing more is dispatched for it. */
  lemma {:induction false} StoredResultIsFinal(w: World, a: Action, id: string)
    requires Inv(w) && id in w.fields.results && Spares(w, a, id)
    ensures id in Step(w, a).fields.results && Step(w, a).fields.results[id] == w.fields.results[id]
    ensures Dispatches(Step(w, a), id) == Dispatches(w, id)
  {
    DispatchedBy(w, a, id);
  }

  /** What a step dispatches: nothing, or one more exchange when a waiting call enters with no result and no flag. */
  lemma {:induction false} DispatchedBy(w: World, a: Action, id: string)
    ensures Step(w, a).dispatched == w.dispatched
            || (a.ExecuteEnter? && a.call in w.calls && w.calls[a.call].Waiting?
                && Step(w, a).dispatched == w.dispatched + [w.calls[a.call].id]
                && w.calls[a.call].id !in w.fields.results && w.calls[a.call].id !in w.fields.cancelled)
    ensures Dispatches(Step(w, a), id) == Dispatches(w, id)
            || (id !in w.fields.results && id !in w.fields.cancelled)
  {
    if a.ExecuteEnter? && a.call in w.calls {
      DispatchCount(w.dispatched, w.calls[a.call].id, id);
    }
  }

  /** On a guarded run a stored bundle stays until its attempt is cleaned up or prepared anew. */
  lemma {:induction false} StoredResultStays(w: World, actions: seq<Action>, id: string)
    requires Inv(w) && GuardedRun(w, actions) && SparesAll(w, actions, id) && id in w.fields.results
    ensures var t := Run(w, actions);
            id in t.fields.results && t.fields.results[id] == w.fields.results[id] &&
              Dispatches(t, id) == Dispatches(w, id)
    decreases |actions|
  {
    if actions != [] {
      StepKeepsInv(w, actions[0]);
      StoredResultIsFinal(w, actions[0], id);
      StoredResultStays(Step(w, actions[0]), actions[1..], id);
    }
  }

  /**
   Once a result is stored, any later execute of that attempt, after any guarded activity that
   does not clean it up or prepare it anew, returns that bundle at once and starts no exchange.
   */
  lemma {:induction false} ExecuteReturnsTheStoredResult(w: World, actions: seq<Action>, call: nat, p: Prepared)
    requires Inv(w) && GuardedRun(w, actions) && SparesAll(w, actions, p.attemptId) && p.attemptId in w.fields.results
    requires call !in Run(w, actions).calls
    ensures var t := Run(w, actions);
            var u := Step(t, ExecuteStart(call, p));
            && u.returned == t.returned + [w.fields.results[p.attemptId]]
            && u.fields == t.fields && u.calls == t.calls && Dispatches(u, p.attemptId) == Dispatches(w, p.attemptId)
  {
    StoredResultStays(w, actions, p.attemptId);
  }

  lemma {:induction false} FlagStays(w: World, a: Action, id: string)
    requires id in w.fields.cancelled && Spares(w, a, id)
    ensures id in Step(w, a).fields.cancelled && Dispatches(Step(w, a), id) == Dispatches(w, id)
  {
    DispatchedBy(w, a, id);
  }

  /**
   On any run whatever, after a cancellation nothing is dispatched for the attempt until it is
   cleaned up or prepared anew.
   */
  lemma {:induction false} CancelledNeverDispatches(w: World, actions: seq<Action>, id: string)
    requires SparesAll(w, actions, id) && id in w.fields.cancelled
    ensures Dispatches(Run(w, actions), id) == Dispatches(w, id)
    ensures id in Run(w, actions).fields.cancelled
    decreases |actions|
  {
    if actions != [] {
      FlagStays(w, actions[0], id);
      CancelledNeverDispatches(Step(w, actions[0]), actions[1..], id);
    }
  }

  /** Nor, on any run, does a cancelled attempt without a stored result ever get a completed one. */
  lemma {:induction false} CancelledNeverCompletes(w: World, actions: seq<Action>, id: string)
    requires SparesAll(w, actions, id) && id in w.fields.cancelled
    requires id !in w.fields.results || w.fields.results[id].outcome != Completed
    ensures id !in Run(w, actions).fields.results || Run(w, actions).fields.results[id].outcome != Completed
    decreases |actions|
  {
    if actions != [] {
      var t := Step(w, actions[0]);
      FlagStays(w, actions[0], id);
      if id in t.fields.results && t.fields.results[id].outcome == Completed {
        CompletedOnlyWhenNotCancelled(w, actions[0], id);
        assert false;
      }
      CancelledNeverCompletes(t, actions[1..], id);
    }
  }

  predicate Exchanges(w: World, c: nat, id: string) {
    c in w.calls && w.calls[c].Exchanging? && w.calls[c].id == id
  }

  /** At any moment of a guarded run at most one exchange is in progress for an attempt. */
  lemma {:induction false} ExchangesAreExclusive(w: World, actions: seq<Action>, c: nat, d: nat, id: string)
    requires Inv(w) && GuardedRun(w, actions)
    ensures Exchanges(Run(w, actions), c, id) && Exchanges(Run(w, actions), d, id) ==> c == d
  {
    GuardedRunsKeepInv(w, actions);
    ExclusiveNow(Run(w, actions), c, d, id);
  }

  lemma {:induction false} ExclusiveNow(w: World, c: nat, d: nat, id: string)
    requires CallsOk(w) && LocksOk(w)
    ensures Exchanges(w, c, id) && Exchanges(w, d, id) ==> c == d
  {
    assert Exchanges(w, c, id) && Exchanges(w, d, id) ==> BusyTogether(w, c, d);
  }

  /** Once no call is left on a prepared attempt with a result, its event queue is closed, so its stream ends. */
  lemma {:induction false} FinishedAttemptHasClosedQueue(w: World, actions: seq<Action>, id: string)
    requires Inv(w) && GuardedRun(w, actions)
    ensures var t := Run(w, actions);
            id in t.fields.results && id in t.fields.queues && !BeingReleased(t, t.fields.queues[id])
            ==> t.fields.queues[id] in t.fields.closed
  {
    GuardedRunsKeepInv(w, actions);
  }

  lemma {:induction false} InitialInv(adapterId: string)
    ensures Inv(Initial(adapterId))
  {
  }
}
