/** Every interleaving of the server's handlers with publish goroutines, render
    notifications, show commands and timer callbacks, down to the point between a
    section's open check and its write. Step i of a run leads from tr[i] to tr[i + 1]. */
module PublishProtocol {
  import opened Options
  import opened PublishServer

  datatype Event =
    | DidOpen(uri: string, version: int)
    | ApplyChange(uri: string, version: int)
    | ArmDebounce
    | BeginClose(uri: string)
    | CloseStep
    | FetchDocument(uri: string)
    | CheckPublish(fetch: nat)
    | AssignPublish
    | DeliverPublish(job: nat)
    | CheckNotify(uri: string, render: Render)
    | WriteNotify
    | CheckShow(uri: string, kind: string)
    | WriteShow
    | TakeShowOf(uri: string)
    | TimerFires(timer: nat)
    | TimerCallback(timer: nat)

  /** A publish is scheduled for a document that was fetched, at any time since: it may be
      an old version, or closed by then. Every fetch is used once. Notifications and show
      commands may come at any time for any document. */
  predicate Enabled(s: State, e: Event) {
    match e
    case DidOpen(_, _) => s.handler.Idle?
    case ApplyChange(uri, _) => s.handler.Idle? && uri in s.docs
    case ArmDebounce => s.handler.Changing?
    case BeginClose(_) => s.handler.Idle?
    case CloseStep => s.handler.Closing? && CanRun(s, s.handler.stage)
    case FetchDocument(uri) => uri in s.docs
    case CheckPublish(f) => s.pub.lock.None? && f < |s.pub.fetches| && !s.pub.fetches[f].used
    case AssignPublish => s.pub.lock.Some? && s.pub.lock.value.value < |s.pub.fetches|
    case DeliverPublish(j) => s.pub.lock.None? && j < |s.pub.jobs| && !s.pub.jobs[j].delivered
    case CheckNotify(_, _) => s.rend.lock.None?
    case WriteNotify => s.rend.lock.Some?
    case CheckShow(_, _) => s.show.lock.None?
    case WriteShow => s.show.lock.Some?
    case TakeShowOf(_) => s.show.lock.None?
    case TimerFires(t) => t < |s.lint.timers| && s.lint.timers[t].phase.Armed?
    case TimerCallback(t) => t < |s.lint.timers| && s.lint.timers[t].phase.Started?
  }

  function ClaimIfOpen<T>(s: State, uri: string, value: T): Option<Claim<T>> {
    if uri in s.docs then Some(Claim(uri, value)) else None
  }

  function Next(s: State, e: Event): State
    requires Enabled(s, e)
  {
    match e
    case DidOpen(uri, version) => s.(docs := s.docs[uri := version])
    case ApplyChange(uri, version) => s.(docs := s.docs[uri := version], handler := Changing(uri))
    case ArmDebounce => s.(lint := ArmTimer(s.lint, s.handler.uri), handler := Idle)
    case BeginClose(uri) => CloseBegin(s, uri)
    case CloseStep => CloseStage(s, s.handler.uri, s.handler.stage)
    case FetchDocument(uri) => s.(pub := FetchDoc(s.pub, uri, s.docs[uri]))
    case CheckPublish(f) => s.(pub := UseFetch(s.pub, f).(lock := ClaimIfOpen(s, s.pub.fetches[f].uri, f)))
    case AssignPublish => s.(pub := AssignSeq(s.pub, s.pub.lock.value.value))
    case DeliverPublish(j) => s.(pub := MarkDelivered(s.pub, j), sent := s.sent + Delivered(s.pub, j))
    case CheckNotify(uri, r) => s.(rend := s.rend.(lock := ClaimIfOpen(s, uri, r)))
    case WriteNotify => s.(rend := StoreRender(s.rend, s.rend.lock.value.uri, s.rend.lock.value.value))
    case CheckShow(uri, kind) => s.(show := s.show.(lock := ClaimIfOpen(s, uri, kind)))
    case WriteShow =>
      s.(show := Show(s.show.pending[s.show.lock.value.uri := s.show.lock.value.value], None))
    case TakeShowOf(uri) => s.(show := s.show.(pending := s.show.pending - {uri}))
    case TimerFires(t) => s.(lint := SetTimer(s.lint, t, Started))
    case TimerCallback(t) => s.(lint := RunTimer(s.lint, t))
  }

  /** Step i of the run was possible and led on. */
  ghost predicate Stepped(tr: seq<State>, es: seq<Event>, i: nat)
    requires |tr| == |es| + 1 && i < |es|
  {
    Enabled(tr[i], es[i]) && tr[i + 1] == Next(tr[i], es[i])
  }

  ghost predicate IsRun(tr: seq<State>, es: seq<Event>) {
    && |tr| == |es| + 1
    && tr[0] == Init()
    && forall i: nat :: i < |es| ==> Stepped(tr, es, i)
  }

  lemma StepOf(tr: seq<State>, es: seq<Event>, i: nat)
    requires IsRun(tr, es) && i < |es|
    ensures Enabled(tr[i], es[i]) && tr[i + 1] == Next(tr[i], es[i])
  {
    assert Stepped(tr, es, i);
  }

  // --- no state outlives a document ---

  function Rank(stage: Stage): nat {
    match stage
    case CancelDebounce => 0
    case ForgetPublish => 1
    case CancelRender => 2
    case ClearRendered => 3
    case TakeShow => 4
    case ClearDiagnostics => 5
    case RemoveTemps => 6
  }

  /** The document is open, or its didClose has yet to come past this stage. */
  predicate Kept(s: State, uri: string, upTo: Stage) {
    uri in s.docs || (s.handler.Closing? && s.handler.uri == uri && Rank(s.handler.stage) <= Rank(upTo))
  }

  predicate ClaimKept<T>(s: State, lock: Option<Claim<T>>, upTo: Stage) {
    lock.Some? ==> Kept(s, lock.value.uri, upTo)
  }

  ghost predicate TidyHandler(s: State) {
    && (s.handler.Changing? ==> s.handler.uri in s.docs)
    && (s.handler.Closing? ==> s.handler.uri !in s.docs)
  }

  ghost predicate TidyLint(s: State) {
    forall uri <- s.lint.entries :: Kept(s, uri, CancelDebounce)
  }

  ghost predicate TidyPub(s: State) {
    && (forall uri <- s.pub.seqs :: Kept(s, uri, ForgetPublish))
    && ClaimKept(s, s.pub.lock, ForgetPublish)
    && ClaimFetched(s.pub)
  }

  /** The claim of the publish section is the document that was fetched. */
  predicate ClaimFetched(p: Pub) {
    p.lock.Some? ==> p.lock.value.value < |p.fetches| && p.fetches[p.lock.value.value].uri == p.lock.value.uri
  }

  ghost predicate TidyRend(s: State) {
    && (forall uri <- s.rend.diags :: Kept(s, uri, ClearRendered))
    && (forall uri <- s.rend.raw :: Kept(s, uri, ClearRendered))
    && (forall uri <- s.rend.baseline :: Kept(s, uri, ClearRendered))
    && ClaimKept(s, s.rend.lock, ClearRendered)
  }

  ghost predicate TidyShow(s: State) {
    (forall uri <- s.show.pending :: Kept(s, uri, TakeShow)) && ClaimKept(s, s.show.lock, TakeShow)
  }

  ghost predicate Tidy(s: State) {
    TidyHandler(s) && TidyLint(s) && TidyPub(s) && TidyRend(s) && TidyShow(s)
  }

  /** A document is kept up to a stage until that very stage is run for it. */
  lemma KeptStays(s: State, e: Event, uri: string, upTo: Stage)
    requires Enabled(s, e) && Kept(s, uri, upTo)
    requires !(e.CloseStep? && s.handler == Closing(uri, upTo))
    ensures Kept(Next(s, e), uri, upTo)
  {
  }

  lemma HandlerStaysTidy(s: State, e: Event)
    requires Enabled(s, e) && TidyHandler(s)
    ensures TidyHandler(Next(s, e))
  {
  }

  lemma LintStaysTidy(s: State, e: Event)
    requires Enabled(s, e) && TidyHandler(s) && TidyLint(s)
    ensures TidyLint(Next(s, e))
  {
    forall uri <- Next(s, e).lint.entries
      ensures Kept(Next(s, e), uri, CancelDebounce)
    {
      if uri in s.lint.entries {
        KeptStays(s, e, uri, CancelDebounce);
      }
    }
  }

  /** The document has a sequence number, or a section is about to give it one. */
  predicate Claimed(p: Pub, uri: string) {
    uri in p.seqs || (p.lock.Some? && p.lock.value.uri == uri)
  }

  lemma ClaimGained(s: State, e: Event, uri: string)
    requires Enabled(s, e) && ClaimFetched(s.pub) && Claimed(Next(s, e).pub, uri)
    ensures Claimed(s.pub, uri) || uri in Next(s, e).docs
    ensures e.CloseStep? && s.handler == Closing(uri, ForgetPublish) ==> uri !in Next(s, e).pub.seqs
  {
  }

  lemma ClaimStaysFetched(s: State, e: Event)
    requires Enabled(s, e) && ClaimFetched(s.pub)
    ensures ClaimFetched(Next(s, e).pub)
  {
  }

  lemma PubStaysTidy(s: State, e: Event)
    requires Enabled(s, e) && TidyPub(s)
    ensures TidyPub(Next(s, e))
  {
    hide ClaimFetched;
    var t := Next(s, e);
    ClaimStaysFetched(s, e);
    forall uri | Claimed(t.pub, uri)
      ensures Kept(t, uri, ForgetPublish)
    {
      ClaimGained(s, e, uri);
      if Kept(s, uri, ForgetPublish) {
        KeptStays(s, e, uri, ForgetPublish);
      }
    }
  }

  predicate HoldsRender(r: Rend, uri: string) {
    uri in r.diags || uri in r.raw || uri in r.baseline || (r.lock.Some? && r.lock.value.uri == uri)
  }

  /** Only an open document gains rendered state, and its teardown takes it away. */
  lemma RenderStateGained(s: State, e: Event, uri: string)
    requires Enabled(s, e) && HoldsRender(Next(s, e).rend, uri)
    ensures HoldsRender(s.rend, uri) || (e.CheckNotify? && e.uri == uri && uri in s.docs)
    ensures e.CloseStep? && s.handler == Closing(uri, ClearRendered) ==> s.rend.lock.Some?
  {
  }

  lemma RendStaysTidy(s: State, e: Event)
    requires Enabled(s, e) && TidyRend(s)
    ensures TidyRend(Next(s, e))
  {
    var t := Next(s, e);
    assert forall uri :: HoldsRender(s.rend, uri) ==> Kept(s, uri, ClearRendered);
    hide Next, Kept;
    forall uri | HoldsRender(t.rend, uri)
      ensures Kept(t, uri, ClearRendered)
    {
      RenderStateGained(s, e, uri);
      OpenIsKept(s, uri, ClearRendered);
      KeptStays(s, e, uri, ClearRendered);
    }
  }

  lemma OpenIsKept(s: State, uri: string, upTo: Stage)
    ensures uri in s.docs ==> Kept(s, uri, upTo)
  {
  }

  lemma ShowStaysTidy(s: State, e: Event)
    requires Enabled(s, e) && TidyShow(s)
    ensures TidyShow(Next(s, e))
  {
    var t := Next(s, e);
    forall uri | uri in t.show.pending || (t.show.lock.Some? && t.show.lock.value.uri == uri)
      ensures Kept(t, uri, TakeShow)
    {
      if Kept(s, uri, TakeShow) {
        KeptStays(s, e, uri, TakeShow);
      }
    }
  }

  lemma {:induction false} TidyHolds(tr: seq<State>, es: seq<Event>, i: nat)
    requires IsRun(tr, es) && i < |tr|
    ensures Tidy(tr[i])
  {
    if i > 0 {
      TidyHolds(tr, es, i - 1);
      StepOf(tr, es, i - 1);
      HandlerStaysTidy(tr[i - 1], es[i - 1]);
      LintStaysTidy(tr[i - 1], es[i - 1]);
      PubStaysTidy(tr[i - 1], es[i - 1]);
      RendStaysTidy(tr[i - 1], es[i - 1]);
      ShowStaysTidy(tr[i - 1], es[i - 1]);
    }
  }

  /** In every reachable state, a document that holds any state is open, unless its
      own didClose is still in progress. */
  lemma NoStateOutlivesDocument(tr: seq<State>, es: seq<Event>, i: nat, uri: string)
    requires IsRun(tr, es) && i < |tr|
    requires !(tr[i].handler.Closing? && tr[i].handler.uri == uri)
    requires uri in tr[i].pub.seqs.Keys + tr[i].rend.diags.Keys + tr[i].rend.raw.Keys + tr[i].rend.baseline.Keys +
                    tr[i].show.pending.Keys + tr[i].lint.entries.Keys
    ensures uri in tr[i].docs
  {
    TidyHolds(tr, es, i);
  }

  predicate ClearsBaseline(s: State, e: Event, uri: string) {
    e.CloseStep? && s.handler == Closing(uri, ClearRendered)
  }

  lemma BaselineStep(s: State, e: Event, uri: string)
    requires Enabled(s, e) && uri in s.rend.baseline && !ClearsBaseline(s, e, uri)
    ensures uri in Next(s, e).rend.baseline && Next(s, e).rend.baseline[uri] == s.rend.baseline[uri]
  {
  }

  /** The first rendered output of a document stays its baseline until a close clears it,
      whatever is rendered in between. */
  lemma {:induction false} BaselineStays(tr: seq<State>, es: seq<Event>, i: nat, k: nat, uri: string)
    requires IsRun(tr, es) && i <= k < |tr| && uri in tr[i].rend.baseline
    requires forall m :: i <= m < k ==> !ClearsBaseline(tr[m], es[m], uri)
    ensures uri in tr[k].rend.baseline && tr[k].rend.baseline[uri] == tr[i].rend.baseline[uri]
    decreases k
  {
    hide Next, Enabled, ClearsBaseline;
    if i < k {
      BaselineStays(tr, es, i, k - 1, uri);
      StepOf(tr, es, k - 1);
      BaselineStep(tr[k - 1], es[k - 1], uri);
    }
  }

  // --- publishes are ordered ---

  /** Job n carries sequence number n + 1, and entries point at jobs of their document. */
  ghost predicate Numbered(p: Pub) {
    && p.counter == |p.jobs|
    && (forall j {:trigger p.jobs[j]} :: 0 <= j < |p.jobs| ==> p.jobs[j].seqNo == j + 1)
    && (forall uri <- p.seqs :: 0 < p.seqs[uri] <= p.counter && p.jobs[p.seqs[uri] - 1].uri == uri)
  }

  /** A message is what its job delivered, below what is scheduled for its document now. */
  predicate Sent(p: Pub, m: Message) {
    m.Publish? ==>
      && 0 < m.seqNo <= |p.jobs|
      && p.jobs[m.seqNo - 1].uri == m.uri && p.jobs[m.seqNo - 1].version == m.version && p.jobs[m.seqNo - 1].delivered
      && (m.uri in p.seqs ==> m.seqNo <= p.seqs[m.uri])
  }

  predicate Before(m: Message, n: Message) {
    m.Publish? && n.Publish? && m.uri == n.uri ==> m.seqNo < n.seqNo
  }

  ghost predicate Ordered(p: Pub, sent: seq<Message>) {
    && Numbered(p)
    && (forall i :: 0 <= i < |sent| ==> Sent(p, sent[i]))
    && (forall i, k :: 0 <= i < k < |sent| ==> Before(sent[i], sent[k]))
  }

  lemma DeliverKeepsOrdered(p: Pub, sent: seq<Message>, j: nat)
    requires Ordered(p, sent) && j < |p.jobs| && !p.jobs[j].delivered
    ensures Ordered(MarkDelivered(p, j), sent + Delivered(p, j))
  {
    var q, out := MarkDelivered(p, j), sent + Delivered(p, j);
    forall i | 0 <= i < |out|
      ensures Sent(q, out[i])
    {
      if i < |sent| {
        assert Sent(p, sent[i]);
      }
    }
    forall i, k | 0 <= i < k < |out|
      ensures Before(out[i], out[k])
    {
      assert Sent(p, sent[i]);
      if k < |sent| {
        assert Before(sent[i], sent[k]);
      }
    }
  }

  lemma AssignKeepsOrdered(p: Pub, sent: seq<Message>, f: nat)
    requires Ordered(p, sent) && f < |p.fetches|
    ensures Ordered(AssignSeq(p, f), sent)
  {
    forall i | 0 <= i < |sent|
      ensures Sent(AssignSeq(p, f), sent[i])
    {
      assert Sent(p, sent[i]);
    }
  }

  /** Every other step only takes sequence entries away, or sends the clear of a close. */
  lemma OtherSteps(s: State, e: Event)
    requires Enabled(s, e) && !e.DeliverPublish? && !e.AssignPublish?
    ensures var p, q := s.pub, Next(s, e).pub;
            && q.jobs == p.jobs && q.counter == p.counter
            && forall uri <- q.seqs :: uri in p.seqs && q.seqs[uri] == p.seqs[uri]
    ensures s.sent <= Next(s, e).sent
    ensures forall i :: |s.sent| <= i < |Next(s, e).sent| ==> Next(s, e).sent[i].Clear?
  {
  }

  lemma FewerSeqsKeepOrdered(p: Pub, sent: seq<Message>, q: Pub, more: seq<Message>)
    requires Ordered(p, sent)
    requires q.jobs == p.jobs && q.counter == p.counter
    requires forall uri <- q.seqs :: uri in p.seqs && q.seqs[uri] == p.seqs[uri]
    requires sent <= more && forall i :: |sent| <= i < |more| ==> more[i].Clear?
    ensures Ordered(q, more)
  {
    forall i | 0 <= i < |more|
      ensures Sent(q, more[i])
    {
      if i < |sent| {
        assert Sent(p, sent[i]);
      }
    }
    forall i, k | 0 <= i < k < |more|
      ensures Before(more[i], more[k])
    {
      if k < |sent| {
        assert Before(sent[i], sent[k]);
      }
    }
  }

  lemma StepKeepsOrdered(s: State, e: Event)
    requires Enabled(s, e) && Ordered(s.pub, s.sent)
    ensures Ordered(Next(s, e).pub, Next(s, e).sent)
  {
    hide Ordered, Latest;
    if e.DeliverPublish? {
      DeliverKeepsOrdered(s.pub, s.sent, e.job);
    } else if e.AssignPublish? {
      AssignKeepsOrdered(s.pub, s.sent, s.pub.lock.value.value);
    } else {
      OtherSteps(s, e);
      FewerSeqsKeepOrdered(s.pub, s.sent, Next(s, e).pub, Next(s, e).sent);
    }
  }

  lemma {:induction false} OrderedHolds(tr: seq<State>, es: seq<Event>, i: nat)
    requires IsRun(tr, es) && i < |tr|
    ensures Ordered(tr[i].pub, tr[i].sent)
  {
    if i > 0 {
      OrderedHolds(tr, es, i - 1);
      StepOf(tr, es, i - 1);
      StepKeepsOrdered(tr[i - 1], es[i - 1]);
    }
  }

  /** Versioned publishes of one document leave in strictly increasing sequence, over
      the whole run, closes and reopens included. */
  lemma PublishesIncrease(tr: seq<State>, es: seq<Event>, n: nat, i: nat, k: nat)
    requires IsRun(tr, es) && n < |tr| && i < k < |tr[n].sent|
    requires tr[n].sent[i].Publish? && tr[n].sent[k].Publish? && tr[n].sent[i].uri == tr[n].sent[k].uri
    ensures tr[n].sent[i].seqNo < tr[n].sent[k].seqNo
  {
    OrderedHolds(tr, es, n);
    assert Before(tr[n].sent[i], tr[n].sent[k]);
  }

  // --- nothing is published between a close and the next open ---

  predicate Silent(s: State, uri: string) {
    uri !in s.docs && uri !in s.pub.seqs && !(s.pub.lock.Some? && s.pub.lock.value.uri == uri)
  }

  predicate Reopens(e: Event, uri: string) {
    e.DidOpen? && e.uri == uri
  }

  /** The step appends a publish of the document. */
  predicate Publishes(s: State, e: Event, uri: string) {
    e.DeliverPublish? && e.job < |s.pub.jobs| && Latest(s.pub, e.job) && s.pub.jobs[e.job].uri == uri
  }

  lemma SilentStep(s: State, e: Event, uri: string)
    requires Enabled(s, e) && Tidy(s) && Silent(s, uri) && !Reopens(e, uri)
    ensures Silent(Next(s, e), uri)
  {
    hide TidyHandler, TidyLint, TidyRend, TidyShow;
  }

  lemma {:induction false} StaysSilent(tr: seq<State>, es: seq<Event>, i: nat, k: nat, uri: string)
    requires IsRun(tr, es) && i <= k < |tr| && Silent(tr[i], uri)
    requires forall m :: i <= m < k ==> !Reopens(es[m], uri)
    ensures Silent(tr[k], uri)
    decreases k
  {
    hide Next, Enabled, Tidy, Silent;
    if i < k {
      StaysSilent(tr, es, i, k - 1, uri);
      TidyHolds(tr, es, k - 1);
      StepOf(tr, es, k - 1);
      SilentStep(tr[k - 1], es[k - 1], uri);
    }
  }

  /** After the empty clear that didClose sends (step i), the next publish of the
      document (step k) comes after a reopening. */
  lemma ClearedUntilReopened(tr: seq<State>, es: seq<Event>, i: nat, k: nat, uri: string)
    requires IsRun(tr, es) && i < k < |es|
    requires es[i].CloseStep? && tr[i].handler == Closing(uri, ClearDiagnostics)
    requires Publishes(tr[k], es[k], uri)
    ensures tr[i + 1].sent == tr[i].sent + [Clear(uri)]
    ensures exists m :: i < m < k && Reopens(es[m], uri)
  {
    TidyHolds(tr, es, i);
    StepOf(tr, es, i);
    assert Silent(tr[i + 1], uri);
    if forall m :: i < m < k ==> !Reopens(es[m], uri) {
      StaysSilent(tr, es, i + 1, k, uri);
      assert false;
    }
  }

  /** The messages themselves: only such a step appends one. */
  lemma OnlyDeliveriesPublish(s: State, e: Event)
    requires Enabled(s, e)
    ensures s.sent <= Next(s, e).sent
    ensures forall n :: |s.sent| <= n < |Next(s, e).sent| && Next(s, e).sent[n].Publish? ==>
                          Publishes(s, e, Next(s, e).sent[n].uri)
    ensures forall n :: |s.sent| <= n < |Next(s, e).sent| && Next(s, e).sent[n].Clear? ==>
                          e.CloseStep? && s.handler == Closing(Next(s, e).sent[n].uri, ClearDiagnostics)
  {
  }

  // --- timers ---

  /** A timer callback takes no entry but its own out. */
  lemma CallbackRemovesOnlyItself(s: State, t: nat, uri: string)
    requires Enabled(s, TimerCallback(t)) && uri in s.lint.entries && s.lint.entries[uri] != t
    ensures var u := Next(s, TimerCallback(t));
            uri in u.lint.entries && u.lint.entries[uri] == s.lint.entries[uri]
  {
  }

  /** Steps that replace or cancel the timer of a document. */
  predicate Rearms(s: State, e: Event, uri: string) {
    || (e.ArmDebounce? && s.handler.Changing? && s.handler.uri == uri)
    || (e.CloseStep? && s.handler == Closing(uri, CancelDebounce))
  }

  predicate TimerAlive(s: State, t: nat, uri: string) {
    t < |s.lint.timers| && s.lint.timers[t].uri == uri && (Own(s.lint, t) || s.lint.timers[t].phase.Ran?)
  }

  lemma TimerStepAlive(s: State, e: Event, t: nat, uri: string)
    requires Enabled(s, e) && TimerAlive(s, t, uri) && !Rearms(s, e, uri)
    ensures TimerAlive(Next(s, e), t, uri)
  {
  }

  predicate TimerDead(s: State, t: nat, uri: string) {
    t < |s.lint.timers| && s.lint.timers[t].uri == uri && !Own(s.lint, t)
  }

  lemma TimerStepDead(s: State, e: Event, t: nat, uri: string)
    requires Enabled(s, e) && t < |s.lint.timers| && s.lint.timers[t].uri == uri
    requires TimerDead(s, t, uri) || Rearms(s, e, uri)
    ensures TimerDead(Next(s, e), t, uri)
  {
  }

  lemma TimersOnlyGrow(s: State, e: Event, t: nat)
    requires Enabled(s, e) && t < |s.lint.timers|
    ensures t < |Next(s, e).lint.timers| && Next(s, e).lint.timers[t].uri == s.lint.timers[t].uri
  {
  }

  lemma ArmedTimerAlive(s: State, t: nat, uri: string)
    requires s.handler == Changing(uri) && t == |s.lint.timers|
    ensures TimerAlive(Next(s, ArmDebounce), t, uri)
  {
  }

  lemma {:induction false} TimerSurvives(tr: seq<State>, es: seq<Event>, i: nat, k: nat, t: nat, uri: string)
    requires IsRun(tr, es) && i < k < |tr| && TimerAlive(tr[i + 1], t, uri)
    requires forall m :: i < m < k ==> !Rearms(tr[m], es[m], uri)
    ensures TimerAlive(tr[k], t, uri)
    decreases k
  {
    if i + 1 < k {
      TimerSurvives(tr, es, i, k - 1, t, uri);
      StepOf(tr, es, k - 1);
      TimerStepAlive(tr[k - 1], es[k - 1], t, uri);
    }
  }

  lemma {:induction false} TimerStaysDead(tr: seq<State>, es: seq<Event>, m: nat, k: nat, t: nat, uri: string)
    requires IsRun(tr, es) && m < k < |tr| && Rearms(tr[m], es[m], uri)
    requires t < |tr[m].lint.timers| && tr[m].lint.timers[t].uri == uri
    ensures TimerDead(tr[k], t, uri)
    decreases k
  {
    if m + 1 < k {
      TimerStaysDead(tr, es, m, k - 1, t, uri);
    }
    StepOf(tr, es, k - 1);
    TimerStepDead(tr[k - 1], es[k - 1], t, uri);
  }

  lemma {:induction false} TimersGrow(tr: seq<State>, es: seq<Event>, i: nat, k: nat, t: nat)
    requires IsRun(tr, es) && i <= k < |tr| && t < |tr[i].lint.timers|
    ensures t < |tr[k].lint.timers| && tr[k].lint.timers[t].uri == tr[i].lint.timers[t].uri
    decreases k
  {
    if i < k {
      TimersGrow(tr, es, i, k - 1, t);
      StepOf(tr, es, k - 1);
      TimersOnlyGrow(tr[k - 1], es[k - 1], t);
    }
  }

  /** The callback (step k) of the timer armed at step i goes on to publish exactly when
      no later change re-armed, and no close cancelled, the document's timer. */
  lemma DebounceRule(tr: seq<State>, es: seq<Event>, i: nat, k: nat, t: nat, uri: string)
    requires IsRun(tr, es) && i < k < |es|
    requires es[i] == ArmDebounce && tr[i].handler == Changing(uri) && t == |tr[i].lint.timers|
    requires es[k] == TimerCallback(t)
    ensures t < |tr[k].lint.timers| && tr[k].lint.timers[t].uri == uri
    ensures Own(tr[k].lint, t) <==> !exists m :: i < m < k && Rearms(tr[m], es[m], uri)
  {
    StepOf(tr, es, i);
    ArmedTimerAlive(tr[i], t, uri);
    TimersGrow(tr, es, i + 1, k, t);
    if m :| i < m < k && Rearms(tr[m], es[m], uri) {
      TimersGrow(tr, es, i + 1, m, t);
      TimerStaysDead(tr, es, m, k, t, uri);
    } else {
      TimerSurvives(tr, es, i, k, t, uri);
      StepOf(tr, es, k);
    }
  }
}
