/** How long a compile goes on serving the Gets of its key after a SetTrustRoot that changed
    nothing: until the next change of the trust set, or until its failure has expired. */
module SchemaStoreServing {
  import opened Options
  import opened SchemaStore
  import opened SchemaStoreRuns

  predicate GetOf(e: Event, key: string) { e.Get? && e.key == key }

  /** Nothing is left of the key but a failure past its time to live. */
  predicate Expired(s: StoreState, key: string, young: bool) {
    key in s.failures && !young && key !in s.compiled && key !in s.inflight
  }

  /** A failure that some Get after step c found too old is not young again at step d. */
  ghost predicate AgesGrow(tr: seq<System>, es: seq<Event>, c: nat, d: nat, key: string)
    requires |tr| == |es| + 1 && d < |es| && es[d].Get?
  {
    forall m: nat :: c < m < d && GetOf(es[m], key) && SameFailure(tr[m].store, tr[d].store, key) ==>
      (es[d].young ==> es[m].young)
  }

  predicate SameFailure(s: StoreState, t: StoreState, key: string) {
    key in s.failures && key in t.failures && s.failures[key] == t.failures[key]
  }

  // --- what serves a key goes on serving it ---

  lemma ServedStep(s: System, e: Event, now: nat, key: string)
    requires Enabled(s, e) && Coalesced(s.store) && Owned(s) && !e.Clear? && Served(s.store, key, true)
    ensures Served(Next(s, e, now).store, key, true)
  {
    if e.Finish? {
      assert GetterServed(s, e.getter);
    }
  }

  lemma {:induction false} ServedRun(tr: seq<System>, es: seq<Event>, i: nat, k: nat, key: string)
    requires IsRun(tr, es) && i <= k < |tr| && Served(tr[i].store, key, true)
    requires forall m :: i <= m < k ==> !es[m].Clear?
    ensures Served(tr[k].store, key, true)
    decreases k
  {
    hide Next, Enabled, Coalesced, Owned, Served;
    if i < k {
      ServedRun(tr, es, i, k - 1, key);
      InvHolds(tr, es, k - 1);
      StepOf(tr, es, k - 1);
      ServedStep(tr[k - 1], es[k - 1], k - 1, key);
    }
  }

  // --- and what nothing serves waits for a Get of its own ---

  lemma UnservedStep(s: System, e: Event, now: nat, key: string)
    requires Enabled(s, e) && Coalesced(s.store) && Owned(s) && !GetOf(e, key) && !Served(s.store, key, true)
    ensures !Served(Next(s, e, now).store, key, true)
  {
    if e.Finish? {
      assert GetterServed(s, e.getter);
    }
  }

  lemma {:induction false} FirstUnserved(tr: seq<System>, es: seq<Event>, i: nat, d: nat, key: string) returns (m: nat)
    requires IsRun(tr, es) && i <= d < |es| && !Served(tr[i].store, key, true) && GetOf(es[d], key)
    ensures i <= m <= d && GetOf(es[m], key) && !Served(tr[m].store, key, true)
    decreases d - i
  {
    hide Next, Enabled, Coalesced, Owned, Served;
    if GetOf(es[i], key) {
      m := i;
    } else {
      InvHolds(tr, es, i);
      StepOf(tr, es, i);
      UnservedStep(tr[i], es[i], i, key);
      m := FirstUnserved(tr, es, i + 1, d, key);
    }
  }

  // --- after a compile of its own, the old ones are gone ---

  predicate BegunAfter(s: StoreState, call: nat, c: nat) {
    call < |s.calls| && s.calls[call].startedAt > c
  }

  /** All that is left of the key was begun after step c, but for one failure. */
  predicate OnlyNew(s: StoreState, key: string, c: nat, failed: Option<Answer>) {
    && (key in s.compiled ==> BegunAfter(s, s.compiled[key].call, c))
    && (key in s.inflight ==> BegunAfter(s, s.inflight[key], c))
    && (key in s.failures ==> failed == Some(s.failures[key]) || BegunAfter(s, s.failures[key].call, c))
  }

  function FailureOf(s: StoreState, key: string): Option<Answer> {
    if key in s.failures then Some(s.failures[key]) else None
  }

  lemma OwnCompileIsNew(s: System, e: Event, now: nat, c: nat)
    requires Enabled(s, e) && e.Get? && !Served(s.store, e.key, e.young) && c < now
    ensures OnlyNew(Next(s, e, now).store, e.key, c, FailureOf(s.store, e.key))
  {
  }

  lemma FinishKeepsOnlyNew(s: StoreState, call: nat, ok: bool, key: string, c: nat, failed: Option<Answer>)
    requires InflightRuns(s) && Running(s, call) && OnlyNew(s, key, c, failed)
    ensures OnlyNew(DoFinish(s, call, ok), key, c, failed)
  {
  }

  lemma EnterKeepsOnlyNew(s: StoreState, other: string, young: bool, getter: nat, now: nat, key: string, c: nat,
                          failed: Option<Answer>)
    requires OnlyNew(s, key, c, failed) && c < now
    ensures OnlyNew(DoEnter(s, other, young, getter, now), key, c, failed)
  {
  }

  lemma OnlyNewStep(s: System, e: Event, now: nat, key: string, c: nat, failed: Option<Answer>)
    requires Enabled(s, e) && Coalesced(s.store) && Owned(s) && c < now && OnlyNew(s.store, key, c, failed)
    ensures OnlyNew(Next(s, e, now).store, key, c, failed)
  {
    hide CachesProduced, InflightRuns, CallOwned;
    match e
    case Get(other, young) => EnterKeepsOnlyNew(s.store, other, young, |s.getters|, now, key, c, failed);
    case Finish(g, ok) =>
      assert GetterServed(s, g);
      FinishKeepsOnlyNew(s.store, s.getters[g].call, ok, key, c, failed);
    case _ =>
  }

  lemma {:induction false} OnlyNewRun(tr: seq<System>, es: seq<Event>, i: nat, k: nat, key: string, c: nat,
                                      failed: Option<Answer>)
    requires IsRun(tr, es) && c < i <= k < |tr| && OnlyNew(tr[i].store, key, c, failed)
    ensures OnlyNew(tr[k].store, key, c, failed)
    decreases k
  {
    hide Next, Enabled, Coalesced, Owned, OnlyNew;
    if i < k {
      OnlyNewRun(tr, es, i, k - 1, key, c, failed);
      InvHolds(tr, es, k - 1);
      StepOf(tr, es, k - 1);
      OnlyNewStep(tr[k - 1], es[k - 1], k - 1, key, c, failed);
    }
  }

  // --- which compile a Get yields ---

  /** The step at which the compile was begun that the Get of step d is handed. */
  ghost predicate YieldsFrom(tr: seq<System>, d: nat, step: nat)
    requires d + 1 < |tr|
  {
    var s, g := tr[d + 1], |tr[d].getters|;
    g < |s.getters| && CallOf(s.getters[g]) < |s.store.calls| && s.store.calls[CallOf(s.getters[g])].startedAt == step
  }

  lemma GetYields(tr: seq<System>, es: seq<Event>, d: nat) returns (step: nat)
    requires IsRun(tr, es) && d < |es| && es[d].Get?
    ensures YieldsFrom(tr, d, step) && step <= d
    ensures !Served(tr[d].store, es[d].key, es[d].young) <==> step == d
  {
    GetStartsOwnCompile(tr, es, d);
    step := tr[d + 1].store.calls[CallOf(tr[d + 1].getters[|tr[d].getters|])].startedAt;
  }

  /** When the one failure left is not taken, a Get takes what was begun after c. */
  lemma TakesNew(s: System, e: Event, now: nat, c: nat, failed: Option<Answer>)
    requires Enabled(s, e) && e.Get? && c < now && OnlyNew(s.store, e.key, c, failed)
    requires e.young && failed.Some? ==> FailureOf(s.store, e.key) != failed
    ensures var t, g := Next(s, e, now), |s.getters|;
            g < |t.getters| && BegunAfter(t.store, CallOf(t.getters[g]), c)
  {
  }

  /** Once a Get after step c had to begin a compile of its own, no later one yields a compile
      from before c. */
  lemma UnservedMeansNew(tr: seq<System>, es: seq<Event>, c: nat, m: nat, d: nat, step: nat)
    requires IsRun(tr, es) && c < m <= d < |es| && es[d].Get? && AgesGrow(tr, es, c, d, es[d].key)
    requires GetOf(es[m], es[d].key) && !Served(tr[m].store, es[d].key, es[m].young)
    requires YieldsFrom(tr, d, step)
    ensures c < step
  {
    hide Next, Enabled, OnlyNew, BegunAfter;
    var key := es[d].key;
    StepOf(tr, es, m);
    StepOf(tr, es, d);
    if m == d {
      var own := GetYields(tr, es, d);
    } else {
      var failed := FailureOf(tr[m].store, key);
      OwnCompileIsNew(tr[m], es[m], m, c);
      OnlyNewRun(tr, es, m + 1, d, key, c, failed);
      TakesNew(tr[d], es[d], d, c, failed);
      assert BegunAfter(tr[d + 1].store, CallOf(tr[d + 1].getters[|tr[d].getters|]), c);
      NewStep(tr[d + 1].store, CallOf(tr[d + 1].getters[|tr[d].getters|]), c);
    }
  }

  lemma NewStep(s: StoreState, call: nat, c: nat)
    requires BegunAfter(s, call, c)
    ensures call < |s.calls| && c < s.calls[call].startedAt
  {
  }

  /** A compile was begun by a Get that nothing served. */
  lemma {:induction false} CallWasBegun(tr: seq<System>, es: seq<Event>, i: nat, call: nat)
    requires IsRun(tr, es) && i < |tr| && call < |tr[i].store.calls|
    ensures var begun := tr[i].store.calls[call];
            && begun.startedAt < i && GetOf(es[begun.startedAt], begun.key)
            && !Served(tr[begun.startedAt].store, begun.key, es[begun.startedAt].young)
  {
    if i > 0 {
      StepOf(tr, es, i - 1);
      if call < |tr[i - 1].store.calls| {
        CallWasBegun(tr, es, i - 1, call);
        RunGrows(tr, es, i - 1, i);
        assert CallGrows(tr[i - 1].store.calls[call], tr[i].store.calls[call]);
      } else {
        OnlyGetsBegin(tr[i - 1], es[i - 1], i - 1, call);
      }
    }
  }

  lemma OnlyGetsBegin(s: System, e: Event, now: nat, call: nat)
    requires Enabled(s, e) && |s.store.calls| <= call < |Next(s, e, now).store.calls|
    ensures var begun := Next(s, e, now).store.calls[call];
            begun.startedAt == now && GetOf(e, begun.key) && !Served(s.store, begun.key, e.young)
  {
  }

  /** From step c to the Get of step d: the key was served, the trust set was not changed, and
      no Get of the key found nothing but an expired failure. */
  ghost predicate StillServed(tr: seq<System>, es: seq<Event>, c: nat, d: nat, key: string)
    requires |tr| == |es| + 1 && c < d < |es|
  {
    && Served(tr[c].store, key, true)
    && (forall m :: c <= m < d ==> !es[m].Clear?)
    && forall m :: c < m <= d && GetOf(es[m], key) ==> !Expired(tr[m].store, key, es[m].young)
  }

  lemma ServedMeansOld(tr: seq<System>, es: seq<Event>, c: nat, d: nat, step: nat)
    requires IsRun(tr, es) && c < d < |es| && !es[c].Get? && es[d].Get?
    requires StillServed(tr, es, c, d, es[d].key) && YieldsFrom(tr, d, step)
    ensures step < c
  {
    hide Next, Enabled, Coalesced, Owned;
    var key := es[d].key;
    var call := CallOf(tr[d + 1].getters[|tr[d].getters|]);
    StepOf(tr, es, d);
    InvHolds(tr, es, d);
    NewGetterUsesCurrentGen(tr[d], es[d], d);
    CallWasBegun(tr, es, d + 1, call);
    if c < step {
      ServedRun(tr, es, c, step, key);
    }
  }

  /** Step c is no Get; it may be a SetTrustRoot that returns because its set is already in
      force, and does not stop what was compiled before it. A Get at any later step d yields a
      compile begun before c if and only if something served the key at c, no change of the
      trust set took effect in between, and no Get of the key up to this one found nothing but
      an expired failure. */
  lemma OldCompileServesUntil(tr: seq<System>, es: seq<Event>, c: nat, d: nat) returns (step: nat)
    requires IsRun(tr, es) && c < d < |es| && !es[c].Get?
    requires es[d].Get? && AgesGrow(tr, es, c, d, es[d].key)
    ensures YieldsFrom(tr, d, step)
    ensures step < c <==> StillServed(tr, es, c, d, es[d].key)
  {
    hide Next, Enabled, AgesGrow, YieldsFrom;
    var key := es[d].key;
    step := GetYields(tr, es, d);
    if StillServed(tr, es, c, d, key) {
      ServedMeansOld(tr, es, c, d, step);
    } else if m :| c < m <= d && GetOf(es[m], key) && Expired(tr[m].store, key, es[m].young) {
      UnservedMeansNew(tr, es, c, m, d, step);
    } else if x :| c <= x < d && es[x].Clear? {
      ClearLeavesNothing(tr, es, x, key);
      var m := FirstUnserved(tr, es, x + 1, d, key);
      UnservedMeansNew(tr, es, c, m, d, step);
    } else {
      var m := FirstUnserved(tr, es, c, d, key);
      UnservedMeansNew(tr, es, c, m, d, step);
    }
  }

  lemma ClearLeavesNothing(tr: seq<System>, es: seq<Event>, x: nat, key: string)
    requires IsRun(tr, es) && x < |es| && es[x].Clear?
    ensures !Served(tr[x + 1].store, key, true)
  {
    StepOf(tr, es, x);
  }
}
