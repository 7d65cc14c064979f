/** The server's per-document state told by its history: in every run, each entry is what the
    last step about it wrote. */
module PublishHistory {
  import opened Options
  import opened PublishProtocol
  import opened PublishServer
  import opened PublishVersions

  // --- the open documents ---

  predicate WritesDoc(e: Event, uri: string, version: int) {
    e == DidOpen(uri, version) || e == ApplyChange(uri, version)
  }

  /** The step opens, changes or closes the document. */
  predicate AboutDoc(e: Event, uri: string) {
    || (e.DidOpen? && e.uri == uri)
    || (e.ApplyChange? && e.uri == uri)
    || (e.BeginClose? && e.uri == uri)
  }

  lemma DocStep(s: State, e: Event, uri: string)
    requires Enabled(s, e) && !AboutDoc(e, uri)
    ensures uri in Next(s, e).docs <==> uri in s.docs
    ensures uri in s.docs ==> Next(s, e).docs[uri] == s.docs[uri]
  {
  }

  /** An open document has the version it was last opened or changed to. */
  lemma {:induction false} OpenAtVersion(tr: seq<State>, es: seq<Event>, i: nat, k: nat, uri: string, version: int)
    requires IsRun(tr, es) && i < k < |tr| && WritesDoc(es[i], uri, version)
    requires forall m :: i < m < k ==> !AboutDoc(es[m], uri)
    ensures uri in tr[k].docs && tr[k].docs[uri] == version
    decreases k
  {
    hide Enabled;
    StepOf(tr, es, k - 1);
    if k > i + 1 {
      OpenAtVersion(tr, es, i, k - 1, uri, version);
      DocStep(tr[k - 1], es[k - 1], uri);
    }
  }

  /** Until it is opened again, a document that was closed is not open. */
  lemma {:induction false} ClosedStaysClosed(tr: seq<State>, es: seq<Event>, i: nat, k: nat, uri: string)
    requires IsRun(tr, es) && i < k < |tr| && es[i] == BeginClose(uri)
    requires forall m :: i < m < k ==> !Reopens(es[m], uri)
    ensures uri !in tr[k].docs
    decreases k
  {
    StepOf(tr, es, k - 1);
    if k > i + 1 {
      ClosedStaysClosed(tr, es, i, k - 1, uri);
    }
  }

  // --- sections that check first and write later ---

  /** A check of an open document leaves its claim for the write, of a closed one nothing. */
  lemma ChecksClaim(tr: seq<State>, es: seq<Event>, i: nat)
    requires IsRun(tr, es) && i < |es|
    ensures es[i].CheckNotify? ==>
              tr[i + 1].rend.lock == if es[i].uri in tr[i].docs then Some(Claim(es[i].uri, es[i].render)) else None
    ensures es[i].CheckShow? ==>
              tr[i + 1].show.lock == if es[i].uri in tr[i].docs then Some(Claim(es[i].uri, es[i].kind)) else None
    ensures es[i].CheckPublish? ==>
              es[i].fetch < |tr[i].pub.fetches| &&
              var uri := tr[i].pub.fetches[es[i].fetch].uri;
              tr[i + 1].pub.lock == if uri in tr[i].docs then Some(Claim(uri, es[i].fetch)) else None
  {
    StepOf(tr, es, i);
  }

  // --- render results ---

  predicate StoresRender(s: State, e: Event, uri: string) {
    e == WriteNotify && s.rend.lock.Some? && s.rend.lock.value.uri == uri
  }

  /** The close of the document reaches its render results. */
  predicate DropsRender(s: State, e: Event, uri: string) {
    e == CloseStep && s.handler == Closing(uri, ClearRendered)
  }

  lemma StoreStep(s: State, uri: string, r: Render)
    requires Enabled(s, WriteNotify) && s.rend.lock == Some(Claim(uri, r))
    ensures var t := Next(s, WriteNotify).rend;
            && t.lock == None
            && uri in t.diags && t.diags[uri] == r.diags
            && (r.raw.Some? ==> uri in t.raw && t.raw[uri] == r.raw.value && uri in t.baseline)
            && (r.raw.Some? && uri !in s.rend.baseline ==> t.baseline[uri] == r.raw.value)
            && (r.raw.None? ==> t.raw == s.rend.raw && t.baseline == s.rend.baseline)
  {
  }

  lemma RenderKept(s: State, e: Event, uri: string)
    requires Enabled(s, e) && !DropsRender(s, e, uri)
    ensures var r, t := s.rend, Next(s, e).rend;
            && (uri in r.diags && !StoresRender(s, e, uri) ==> uri in t.diags && t.diags[uri] == r.diags[uri])
            && (uri in r.raw && !(StoresRender(s, e, uri) && r.lock.value.value.raw.Some?) ==>
                  uri in t.raw && t.raw[uri] == r.raw[uri])
  {
  }

  /** A document's rendered diagnostics are those of its last notification. */
  lemma {:induction false} DiagnosticsOfLastRender(tr: seq<State>, es: seq<Event>, i: nat, k: nat, uri: string,
                                                   r: Render)
    requires IsRun(tr, es) && i < k < |tr| && es[i] == WriteNotify && tr[i].rend.lock == Some(Claim(uri, r))
    requires forall m :: i < m < k ==> !StoresRender(tr[m], es[m], uri) && !DropsRender(tr[m], es[m], uri)
    ensures uri in tr[k].rend.diags && tr[k].rend.diags[uri] == r.diags
    decreases k
  {
    hide Next, Enabled;
    StepOf(tr, es, k - 1);
    if k > i + 1 {
      DiagnosticsOfLastRender(tr, es, i, k - 1, uri, r);
      RenderKept(tr[k - 1], es[k - 1], uri);
    } else {
      StoreStep(tr[i], uri, r);
    }
  }

  /** Its output is that of its last notification that had one. */
  lemma {:induction false} OutputOfLastRender(tr: seq<State>, es: seq<Event>, i: nat, k: nat, uri: string, r: Render)
    requires IsRun(tr, es) && i < k < |tr| && es[i] == WriteNotify
    requires tr[i].rend.lock == Some(Claim(uri, r)) && r.raw.Some?
    requires forall m :: i < m < k ==> !DropsRender(tr[m], es[m], uri)
    requires forall m :: i < m < k && StoresRender(tr[m], es[m], uri) ==> tr[m].rend.lock.value.value.raw.None?
    ensures uri in tr[k].rend.raw && tr[k].rend.raw[uri] == r.raw.value
    decreases k
  {
    hide Next, Enabled;
    StepOf(tr, es, k - 1);
    if k > i + 1 {
      OutputOfLastRender(tr, es, i, k - 1, uri, r);
      RenderKept(tr[k - 1], es[k - 1], uri);
    } else {
      StoreStep(tr[i], uri, r);
    }
  }

  // --- deferred show commands ---

  predicate AboutShow(s: State, e: Event, uri: string) {
    || (e == WriteShow && s.show.lock.Some? && s.show.lock.value.uri == uri)
    || e == TakeShowOf(uri)
    || (e == CloseStep && s.handler == Closing(uri, TakeShow))
  }

  lemma ShowKept(s: State, e: Event, uri: string)
    requires Enabled(s, e) && !AboutShow(s, e, uri)
    ensures uri in Next(s, e).show.pending <==> uri in s.show.pending
    ensures uri in s.show.pending ==> Next(s, e).show.pending[uri] == s.show.pending[uri]
  {
  }

  /** A recorded show command waits until it is replaced, taken, or its document closed. */
  lemma {:induction false} ShowWaits(tr: seq<State>, es: seq<Event>, i: nat, k: nat, uri: string, kind: string)
    requires IsRun(tr, es) && i < k < |tr| && es[i] == WriteShow && tr[i].show.lock == Some(Claim(uri, kind))
    requires forall m :: i < m < k ==> !AboutShow(tr[m], es[m], uri)
    ensures uri in tr[k].show.pending && tr[k].show.pending[uri] == kind
    decreases k
  {
    hide Enabled;
    StepOf(tr, es, k - 1);
    if k > i + 1 {
      ShowWaits(tr, es, i, k - 1, uri, kind);
      ShowKept(tr[k - 1], es[k - 1], uri);
    }
  }

  /** Once taken it is gone. */
  lemma ShowIsTaken(tr: seq<State>, es: seq<Event>, i: nat, uri: string)
    requires IsRun(tr, es) && i < |es| && es[i] == TakeShowOf(uri)
    ensures uri !in tr[i + 1].show.pending
  {
    StepOf(tr, es, i);
  }

  // --- publishes ---

  /** The step gives the document a new number, or its close takes the number away. */
  predicate Renumbers(s: State, e: Event, uri: string) {
    || (e == AssignPublish && s.pub.lock.Some? && s.pub.lock.value.uri == uri)
    || (e == CloseStep && s.handler == Closing(uri, ForgetPublish))
  }

  /** Job j is the document's n-th number, and the document has that number or a later one or
      none. */
  predicate HasNumber(p: Pub, j: nat, uri: string, n: nat) {
    j < |p.jobs| && p.jobs[j].uri == uri && p.jobs[j].seqNo == n && n <= p.counter
  }

  lemma AssignStep(s: State)
    requires Enabled(s, AssignPublish) && ClaimFetched(s.pub)
    ensures var t, uri := Next(s, AssignPublish).pub, s.pub.lock.value.uri;
            && HasNumber(t, |s.pub.jobs|, uri, s.pub.counter + 1)
            && t.jobs[|s.pub.jobs|].version == s.pub.fetches[s.pub.lock.value.value].version
            && uri in t.seqs && t.seqs[uri] == s.pub.counter + 1
            && t.counter == s.pub.counter + 1
  {
  }

  lemma NumberKept(s: State, e: Event, j: nat, uri: string, n: nat)
    requires Enabled(s, e) && ClaimFetched(s.pub) && HasNumber(s.pub, j, uri, n)
    ensures HasNumber(Next(s, e).pub, j, uri, n)
    ensures Next(s, e).pub.jobs[j].version == s.pub.jobs[j].version
    ensures !Renumbers(s, e, uri) ==>
              (uri in Next(s, e).pub.seqs <==> uri in s.pub.seqs) &&
              (uri in s.pub.seqs ==> Next(s, e).pub.seqs[uri] == s.pub.seqs[uri])
    ensures Renumbers(s, e, uri) ==> uri !in Next(s, e).pub.seqs || Next(s, e).pub.seqs[uri] > n
  {
  }

  /** While the document is not numbered anew, the job's number is its number. */
  lemma {:induction false} NumberStays(tr: seq<State>, es: seq<Event>, i: nat, k: nat, j: nat, uri: string, n: nat)
    requires IsRun(tr, es) && i <= k < |tr| && HasNumber(tr[i].pub, j, uri, n)
    ensures HasNumber(tr[k].pub, j, uri, n) && tr[k].pub.jobs[j].version == tr[i].pub.jobs[j].version
    ensures (forall m :: i <= m < k ==> !Renumbers(tr[m], es[m], uri))
            && uri in tr[i].pub.seqs && tr[i].pub.seqs[uri] == n ==>
              uri in tr[k].pub.seqs && tr[k].pub.seqs[uri] == n
    decreases k
  {
    hide Next, Enabled, HasNumber;
    if i < k {
      NumberStays(tr, es, i, k - 1, j, uri, n);
      TidyHolds(tr, es, k - 1);
      StepOf(tr, es, k - 1);
      NumberKept(tr[k - 1], es[k - 1], j, uri, n);
    }
  }

  /** Once it is, it never is again. */
  lemma {:induction false} NumberPasses(tr: seq<State>, es: seq<Event>, m: nat, k: nat, j: nat, uri: string, n: nat)
    requires IsRun(tr, es) && m < k < |tr| && HasNumber(tr[m].pub, j, uri, n) && Renumbers(tr[m], es[m], uri)
    ensures uri !in tr[k].pub.seqs || tr[k].pub.seqs[uri] > n
    decreases k
  {
    hide Next, Enabled, HasNumber;
    TidyHolds(tr, es, k - 1);
    StepOf(tr, es, k - 1);
    NumberStays(tr, es, m, k - 1, j, uri, n);
    NumberKept(tr[k - 1], es[k - 1], j, uri, n);
    if k > m + 1 {
      NumberPasses(tr, es, m, k - 1, j, uri, n);
    }
  }

  /** The delivery (step k) of the publish scheduled at step i goes out, with the version that
      was fetched for it, exactly when its document was neither scheduled again nor closed in
      between; otherwise nothing is sent. */
  lemma DeliveryRule(tr: seq<State>, es: seq<Event>, i: nat, k: nat, j: nat)
    requires IsRun(tr, es) && i < k < |es|
    requires es[i] == AssignPublish && j == |tr[i].pub.jobs| && es[k] == DeliverPublish(j)
    ensures tr[i].pub.lock.Some? && tr[i].pub.lock.value.value < |tr[i].pub.fetches|
    ensures var d, uri := tr[i].pub.fetches[tr[i].pub.lock.value.value], tr[i].pub.lock.value.uri;
            tr[k + 1].sent ==
              if forall m :: i < m < k ==> !Renumbers(tr[m], es[m], uri) then
                tr[k].sent + [Publish(uri, tr[i].pub.counter + 1, d.version)]
              else tr[k].sent
  {
    hide Next, Enabled;
    var uri := LockedUri(tr, es, i);
    var n := tr[i].pub.counter + 1;
    TidyHolds(tr, es, i);
    StepOf(tr, es, i);
    StepOf(tr, es, k);
    AssignStep(tr[i]);
    NumberStays(tr, es, i + 1, k, j, uri, n);
    DeliverStep(tr[k], j);
    if m :| i < m < k && Renumbers(tr[m], es[m], uri) {
      NumberStays(tr, es, i + 1, m, j, uri, n);
      NumberPasses(tr, es, m, k, j, uri, n);
    }
  }

  lemma LockedUri(tr: seq<State>, es: seq<Event>, i: nat) returns (uri: string)
    requires IsRun(tr, es) && i < |es| && es[i] == AssignPublish
    ensures tr[i].pub.lock.Some? && tr[i].pub.lock.value.value < |tr[i].pub.fetches|
    ensures uri == tr[i].pub.lock.value.uri
  {
    StepOf(tr, es, i);
    uri := tr[i].pub.lock.value.uri;
  }

  lemma DeliverStep(s: State, j: nat)
    requires Enabled(s, DeliverPublish(j))
    ensures var job := s.pub.jobs[j];
            Next(s, DeliverPublish(j)).sent ==
              if job.uri in s.pub.seqs && s.pub.seqs[job.uri] == job.seqNo then
                s.sent + [Publish(job.uri, job.seqNo, job.version)]
              else s.sent
  {
    assert s.sent + [] == s.sent;
  }

  // --- timers ---

  predicate TimerStopped(s: State, t: nat) { t < |s.lint.timers| && s.lint.timers[t].phase == Stopped }

  lemma StoppedStep(s: State, e: Event, t: nat)
    requires Enabled(s, e) && TimerStopped(s, t)
    ensures TimerStopped(Next(s, e), t)
  {
  }

  lemma RearmStops(s: State, e: Event, uri: string)
    requires Enabled(s, e) && Rearms(s, e, uri) && uri in s.lint.entries
    requires s.lint.entries[uri] < |s.lint.timers| && s.lint.timers[s.lint.entries[uri]].phase == Armed
    ensures TimerStopped(Next(s, e), s.lint.entries[uri])
  {
  }

  lemma {:induction false} StoppedRun(tr: seq<State>, es: seq<Event>, i: nat, k: nat, t: nat)
    requires IsRun(tr, es) && i <= k < |tr| && TimerStopped(tr[i], t)
    ensures TimerStopped(tr[k], t)
    decreases k
  {
    hide Next, Enabled, TimerStopped;
    if i < k {
      StoppedRun(tr, es, i, k - 1, t);
      StepOf(tr, es, k - 1);
      StoppedStep(tr[k - 1], es[k - 1], t);
    }
  }

  /** A timer that had not fired when its document changed again or was closed never fires. */
  lemma ReplacedTimerNeverFires(tr: seq<State>, es: seq<Event>, i: nat, k: nat, t: nat, uri: string)
    requires IsRun(tr, es) && i < k < |es| && Rearms(tr[i], es[i], uri)
    requires uri in tr[i].lint.entries && tr[i].lint.entries[uri] == t
    requires t < |tr[i].lint.timers| && tr[i].lint.timers[t].phase == Armed
    ensures es[k] != TimerFires(t)
  {
    hide Next, Rearms;
    StepOf(tr, es, i);
    StepOf(tr, es, k);
    RearmStops(tr[i], es[i], uri);
    StoppedRun(tr, es, i + 1, k, t);
  }

  /** A change leaves its document one armed timer, the newest. */
  lemma ChangeArms(tr: seq<State>, es: seq<Event>, i: nat, uri: string)
    requires IsRun(tr, es) && i < |es| && es[i] == ArmDebounce && tr[i].handler == Changing(uri)
    ensures var was, now := tr[i].lint, tr[i + 1].lint;
            && |now.timers| == |was.timers| + 1 && now.timers[|was.timers|] == Timer(uri, Armed)
            && uri in now.entries && now.entries[uri] == |was.timers|
            && tr[i + 1].handler == Idle
  {
    StepOf(tr, es, i);
  }

  // --- what can always go on ---

  /** A close in progress waits for one lock at a time, and for nothing else. */
  lemma CloseWaitsFor(s: State)
    ensures Enabled(s, CloseStep) <==>
              && s.handler.Closing?
              && (s.handler.stage == ForgetPublish ==> s.pub.lock == None)
              && (s.handler.stage == ClearRendered ==> s.rend.lock == None)
              && (s.handler.stage == TakeShow ==> s.show.lock == None)
  {
  }

  lemma CloseStepRuns(tr: seq<State>, es: seq<Event>) returns (tr': seq<State>, es': seq<Event>)
    requires IsRun(tr, es)
    requires var s := tr[|es|];
             s.handler.Closing? && s.pub.lock == None && s.rend.lock == None && s.show.lock == None
    ensures IsRun(tr', es') && es' == es + [CloseStep]
    ensures tr'[|es'|] == CloseStage(tr[|es|], tr[|es|].handler.uri, tr[|es|].handler.stage)
  {
    CloseWaitsFor(tr[|es|]);
    tr', es' := ExtendRun(tr, es, CloseStep);
  }

  /** The stages, one by one. */
  lemma StagesRun(tr: seq<State>, es: seq<Event>, uri: string) returns (tr': seq<State>, es': seq<Event>)
    requires IsRun(tr, es)
    requires var s := tr[|es|]; s.handler == Idle && s.pub.lock == None && s.rend.lock == None && s.show.lock == None
    ensures IsRun(tr', es') && es' == es + [BeginClose(uri)] + seq(7, _ => CloseStep)
    ensures tr'[|es'|] == Closed(tr[|es|], uri)
  {
    hide IsRun;
    tr', es' := ExtendRun(tr, es, BeginClose(uri));
    tr', es' := CloseStepRuns(tr', es');
    tr', es' := CloseStepRuns(tr', es');
    tr', es' := CloseStepRuns(tr', es');
    tr', es' := CloseStepRuns(tr', es');
    tr', es' := CloseStepRuns(tr', es');
    tr', es' := CloseStepRuns(tr', es');
    tr', es' := CloseStepRuns(tr', es');
  }

  function Without<T>(m: map<string, T>, uri: string): map<string, T> { map u | u in m && u != uri :: m[u] }

  lemma ClosedIs(s: State, uri: string)
    ensures var t := Closed(s, uri);
            && t.handler == Idle && t.sent == s.sent + [Clear(uri)] && t.docs == Without(s.docs, uri)
            && t.pub == s.pub.(seqs := Without(s.pub.seqs, uri))
            && t.rend == Rend(Without(s.rend.diags, uri), Without(s.rend.raw, uri), Without(s.rend.baseline, uri),
                              s.rend.lock)
            && t.show == Show(Without(s.show.pending, uri), s.show.lock)
            && t.lint.entries == Without(s.lint.entries, uri)
  {
  }

  /** With nothing else in between, an idle server can close a document, in seven steps: what it
      had of the document is gone, of others it has what it had, and one empty publish is out. */
  lemma CloseCanRun(tr: seq<State>, es: seq<Event>, uri: string) returns (tr': seq<State>, es': seq<Event>)
    requires IsRun(tr, es)
    requires var s := tr[|es|]; s.handler == Idle && s.pub.lock == None && s.rend.lock == None && s.show.lock == None
    ensures IsRun(tr', es') && es' == es + [BeginClose(uri)] + seq(7, _ => CloseStep)
    ensures var s, t := tr[|es|], tr'[|es'|];
            && t.handler == Idle && t.sent == s.sent + [Clear(uri)] && t.docs == Without(s.docs, uri)
            && t.pub == s.pub.(seqs := Without(s.pub.seqs, uri))
            && t.rend.diags == Without(s.rend.diags, uri) && t.rend.raw == Without(s.rend.raw, uri)
            && t.rend.baseline == Without(s.rend.baseline, uri)
            && t.show.pending == Without(s.show.pending, uri)
            && t.lint.entries == Without(s.lint.entries, uri)
  {
    hide Without, Closed;
    tr', es' := StagesRun(tr, es, uri);
    ClosedIs(tr[|es|], uri);
  }

  /** A show command for an open document can be recorded whenever nothing else has the lock. */
  lemma ShowCanRun(tr: seq<State>, es: seq<Event>, uri: string, kind: string)
      returns (tr': seq<State>, es': seq<Event>)
    requires IsRun(tr, es) && uri in tr[|es|].docs && tr[|es|].show.lock == None
    ensures IsRun(tr', es') && es' == es + [CheckShow(uri, kind), WriteShow]
    ensures tr'[|es'|] == tr[|es|].(show := Show(tr[|es|].show.pending[uri := kind], None))
  {
    hide IsRun;
    tr', es' := ExtendRun(tr, es, CheckShow(uri, kind));
    tr', es' := ExtendRun(tr', es', WriteShow);
  }
}
