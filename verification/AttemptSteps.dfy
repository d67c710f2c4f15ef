/** What single steps of the adapter do to one attempt, and that they leave every other attempt alone. */
module AttemptSteps {
  import opened Prelude
  import opened AttemptLifecycle

  /** Nothing of the other attempts changes. */
  ghost predicate OthersKept(f: Fields, g: Fields, id: string) {
    && g.adapterId == f.adapterId
    && (forall other :: other != id ==>
          && (other in g.attempts <==> other in f.attempts) && (other in g.queues <==> other in f.queues)
          && (other in g.locks <==> other in f.locks) && (other in g.results <==> other in f.results)
          && (other in g.cancelled <==> other in f.cancelled) && (other in g.cleaned <==> other in f.cleaned))
    && (forall other :: other != id && other in f.attempts ==> g.attempts[other] == f.attempts[other])
    && (forall other :: other != id && other in f.queues ==> g.queues[other] == f.queues[other])
    && (forall other :: other != id && other in f.locks ==> g.locks[other] == f.locks[other])
    && (forall other :: other != id && other in f.results ==> g.results[other] == f.results[other])
  }

  /** Only the result of this attempt may have changed. */
  ghost predicate OnlyResult(f: Fields, g: Fields, id: string) {
    g == f.(results := g.results) && g.results - {id} == f.results - {id}
  }

  /**
   Each ending of an exchange: an accepted response is stored unless the attempt was flagged
   meanwhile, a timeout, a provider failure and a cancelled task store their own outcome, and
   a rejected response or an error stores nothing.
   */
  lemma {:induction false} ExchangeEndings(w: World, c: nat, report: Report)
    requires c in w.calls && w.calls[c].Exchanging?
    ensures var id, f, g := w.calls[c].id, w.fields, Step(w, ExecuteFinish(c, report)).fields;
            var flagged := id in f.cancelled;
            && OnlyResult(f, g, id)
            && (report.Responded? && !flagged && report.acceptable ==>
                  id in g.results && g.results[id] == report.bundle)
            && (report.Responded? && !flagged && !report.acceptable ==> g == f)
            && (report.Responded? && flagged ==> id in g.results && g.results[id] == Bundle(id, Cancelled, "cancelled"))
            && (report.Timeout? ==> id in g.results && g.results[id] == Bundle(id, TimedOut, "timeout"))
            && (report.ProviderError? ==> id in g.results && g.results[id] == Bundle(id, Failed, "transport failure"))
            && (report.TaskCancelled? ==> id in g.results && g.results[id] == Bundle(id, Cancelled, "cancelled"))
            && (report.Raised? ==> g == f)
  {
    var id, f, g := w.calls[c].id, w.fields, Step(w, ExecuteFinish(c, report)).fields;
    assert g.results - {id} == f.results - {id};
  }

  /** What a finished exchange hands to its caller is what it stored, or nothing; the lock stays held until then. */
  lemma {:induction false} FinishedCallReleases(w: World, c: nat, report: Report)
    requires c in w.calls && w.calls[c].Exchanging?
    ensures var id, t := w.calls[c].id, Step(w, ExecuteFinish(c, report));
            && c in t.calls && t.calls[c].Releasing? && t.calls[c].id == id && t.calls[c].lock == w.calls[c].lock
            && t.held == w.held && t.returned == w.returned && t.calls - {c} == w.calls - {c}
            && (t.calls[c].result.Some? ==> id in t.fields.results && t.fields.results[id] == t.calls[c].result.value)
            && (t.calls[c].result.None? <==>
                  || report.Raised?
                  || (report.Responded? && !report.acceptable && id !in w.fields.cancelled))
  {
    var t := Step(w, ExecuteFinish(c, report));
    assert t.calls - {c} == w.calls - {c};
  }

  /** A preparation is refused exactly while the attempt is prepared and not cleaned, and otherwise starts afresh. */
  lemma {:induction false} PreparedIsFresh(w: World, id: string, digest: string)
    requires KeysAgree(w.fields)
    ensures var f, t := w.fields, Step(w, Prepare(id, digest));
            if id in f.attempts then t == w
            else
              && t == w.(fields := t.fields) && OthersKept(f, t.fields, id) && t.fields.closed == f.closed
              && id in t.fields.attempts && t.fields.attempts[id] == digest
              && id in t.fields.queues && id in t.fields.locks
              && t.fields.queues[id] == t.fields.locks[id] == f.nextIdentity < t.fields.nextIdentity
              && id !in t.fields.results && id !in t.fields.cancelled && id !in t.fields.cleaned
  {
  }

  /** The end of a cleanup forgets the attempt and nothing else. */
  lemma {:induction false} CleanupForgets(w: World, c: nat)
    requires c in w.calls && w.calls[c].Cleaning?
    ensures var id, f, g := w.calls[c].id, w.fields, Step(w, CleanupEnd(c)).fields;
            && OthersKept(f, g, id) && g.closed == f.closed && g.nextIdentity == f.nextIdentity
            && id !in g.attempts && id !in g.queues && id !in g.locks && id !in g.results && id !in g.cancelled
            && id in g.cleaned
  {
  }

  /** A handle of another adapter, or for another input than the stored one. */
  predicate Foreign(f: Fields, p: Prepared) {
    p.adapterId != f.adapterId || p.attemptId !in f.attempts || f.attempts[p.attemptId] != p.inputDigest
  }

  /**
   A foreign handle starts no call, flags nothing and cleans nothing up; executing with it can
   only return a bundle that is already stored.
   */
  lemma {:induction false} ForeignHandlesAreRefused(w: World, p: Prepared, c: nat)
    requires Foreign(w.fields, p)
    ensures Step(w, CancelFlag(p)) == w && Step(w, CleanupStart(c, p)) == w
    ensures p.attemptId !in w.fields.results ==> Step(w, ExecuteStart(c, p)) == w
    ensures Step(w, ExecuteStart(c, p)) == w.(returned := Step(w, ExecuteStart(c, p)).returned)
  {
  }

  /** A cancellation, and the beginning of a cleanup, flag the attempt of an owned handle and do nothing else to it. */
  lemma {:induction false} CancellationFlags(w: World, p: Prepared, c: nat)
    requires KeysAgree(w.fields) && !Foreign(w.fields, p)
    ensures Step(w, CancelFlag(p)) == w.(fields := w.fields.(cancelled := w.fields.cancelled + {p.attemptId}))
    ensures c !in w.calls ==>
              Step(w, CleanupStart(c, p))
              == Step(w, CancelFlag(p)).(calls := w.calls[c := Cleaning(p.attemptId)])
  {
    assert p.attemptId !in w.fields.cleaned;
  }

  /** The second part of a cancellation closes the queue of a flagged attempt. */
  lemma {:induction false} CancellationCloses(w: World, id: string)
    requires id in w.fields.queues
    ensures var t := Step(w, CancelClose(id));
            if id in w.fields.cancelled
            then t == w.(fields := w.fields.(closed := w.fields.closed + {w.fields.queues[id]}))
            else t == w
  {
  }

  /** The end of a call closes the queue, frees the lock and hands out the result. */
  lemma {:induction false} ReleasingExactly(w: World, c: nat)
    requires c in w.calls && w.calls[c].Releasing?
    ensures var call, t := w.calls[c], Step(w, ExecuteRelease(c));
            && t.fields == w.fields.(closed := w.fields.closed + {call.lock}) && t.held == w.held - {call.lock}
            && t.calls == w.calls - {c} && t.dispatched == w.dispatched
            && t.returned == match call.result case None => w.returned case Some(b) => w.returned + [b]
  {
  }

  /** An owned handle waits for the lock of its preparation, unless the result is there already. */
  lemma {:induction false} OwnedHandleWaits(w: World, p: Prepared, c: nat)
    requires KeysAgree(w.fields) && !Foreign(w.fields, p) && c !in w.calls && p.attemptId !in w.fields.results
    ensures Step(w, ExecuteStart(c, p)) == w.(calls := w.calls[c := Waiting(p.attemptId, w.fields.locks[p.attemptId])])
  {
  }

  /**
   Entering the lock: a stored result is returned without holding it, a flagged attempt stores
   and returns a cancelled bundle, and only an unflagged one without a result is dispatched.
   */
  lemma {:induction false} EnteringExactly(w: World, c: nat)
    requires c in w.calls && w.calls[c].Waiting? && w.calls[c].lock !in w.held && w.calls[c].id in w.fields.queues
    ensures var id, f, t := w.calls[c].id, w.fields, Step(w, ExecuteEnter(c));
            if id in f.results then
              && t.fields == f && t.held == w.held && c !in t.calls && t.dispatched == w.dispatched
              && t.returned == w.returned + [f.results[id]]
            else if id in f.cancelled then
              && OnlyResult(f, t.fields, id) && t.dispatched == w.dispatched && t.returned == w.returned
              && id in t.fields.results && t.fields.results[id] == Bundle(id, Cancelled, "cancelled")
              && t.held == w.held + {w.calls[c].lock} && c in t.calls
              && t.calls[c] == Releasing(id, w.calls[c].lock, Some(Bundle(id, Cancelled, "cancelled")))
            else
              && t.fields == f && t.dispatched == w.dispatched + [id] && t.returned == w.returned
              && t.held == w.held + {w.calls[c].lock} && c in t.calls && t.calls[c] == Exchanging(id, w.calls[c].lock)
  {
    var id, f, t := w.calls[c].id, w.fields, Step(w, ExecuteEnter(c));
    assert t.fields.results - {id} == f.results - {id};
  }
}
