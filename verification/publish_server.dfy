/** The per-document state of the language server: publish sequence numbers, render
    results, deferred show commands and debounce timers, each under its own lock, and
    the open documents under another. A `*time.Timer` is an index into `timers`, a
    publish goroutine an index into `jobs`, a fetched document an index into `fetches`;
    texts, diagnostics and outputs are opaque. */
module PublishServer {
  import opened Options

  /** What a section that has seen its document open is about to write. */
  datatype Claim<T> = Claim(uri: string, value: T)

  // --- publishing ---

  /** A document someone got from the store, and whether it was handed on to be published. */
  datatype Fetch = Fetch(uri: string, version: int, used: bool)

  datatype Job = Job(uri: string, seqNo: nat, version: int, fetch: nat, delivered: bool)

  datatype Message = Publish(uri: string, seqNo: nat, version: int) | Clear(uri: string)

  /** A lock field holds the claim of the section that has the lock between its open
      check and its write; the lock is free when it is None. */
  datatype Pub = Pub(
    seqs: map<string, nat>,
    counter: nat,
    lock: Option<Claim<nat>>,
    jobs: seq<Job>,
    fetches: seq<Fetch>)

  function FetchDoc(p: Pub, uri: string, version: int): Pub {
    p.(fetches := p.fetches + [Fetch(uri, version, false)])
  }

  function UseFetch(p: Pub, f: nat): Pub
    requires f < |p.fetches|
  {
    p.(fetches := p.fetches[f := p.fetches[f].(used := true)])
  }

  function AssignSeq(p: Pub, f: nat): Pub
    requires f < |p.fetches|
  {
    var d := p.fetches[f];
    p.(seqs := p.seqs[d.uri := p.counter + 1], counter := p.counter + 1, lock := None,
       jobs := p.jobs + [Job(d.uri, p.counter + 1, d.version, f, false)])
  }

  /** Both sections of scheduling, when nothing else runs in between. */
  function ScheduleFetched(p: Pub, f: nat, open: bool): Pub
    requires f < |p.fetches|
  {
    if open then AssignSeq(UseFetch(p, f), f) else UseFetch(p, f)
  }

  /** No other publish of the document was scheduled, and it was not closed, since. */
  predicate Latest(p: Pub, j: nat)
    requires j < |p.jobs|
  {
    p.jobs[j].uri in p.seqs && p.seqs[p.jobs[j].uri] == p.jobs[j].seqNo
  }

  function MarkDelivered(p: Pub, j: nat): Pub
    requires j < |p.jobs|
  {
    p.(jobs := p.jobs[j := p.jobs[j].(delivered := true)])
  }

  function Delivered(p: Pub, j: nat): seq<Message>
    requires j < |p.jobs|
  {
    if Latest(p, j) then [Publish(p.jobs[j].uri, p.jobs[j].seqNo, p.jobs[j].version)] else []
  }

  // --- render results ---

  datatype Render = Render(diags: int, raw: Option<int>)

  datatype Rend = Rend(
    diags: map<string, int>,
    raw: map<string, int>,
    baseline: map<string, int>,
    lock: Option<Claim<Render>>)

  /** The first raw output a document got since it was opened stays its baseline. */
  function StoreRender(r: Rend, uri: string, render: Render): Rend {
    var diags := r.diags[uri := render.diags];
    match render.raw
    case None => Rend(diags, r.raw, r.baseline, None)
    case Some(raw) =>
      Rend(diags, r.raw[uri := raw], if uri in r.baseline then r.baseline else r.baseline[uri := raw], None)
  }

  function DropRender(r: Rend, uri: string): Rend {
    r.(diags := r.diags - {uri}, raw := r.raw - {uri}, baseline := r.baseline - {uri})
  }

  // --- deferred show commands ---

  datatype Show = Show(pending: map<string, string>, lock: Option<Claim<string>>)

  // --- debounce timers ---

  datatype TimerPhase = Armed | Stopped | Started | Ran

  datatype Timer = Timer(uri: string, phase: TimerPhase)

  datatype Lint = Lint(entries: map<string, nat>, timers: seq<Timer>)

  /** The timers after stopping the one a document has, if it is still armed. */
  function WithStopped(l: Lint, uri: string): (r: seq<Timer>)
    ensures |r| == |l.timers|
    ensures forall t :: 0 <= t < |r| ==> r[t].uri == l.timers[t].uri && (l.timers[t].phase.Ran? ==> r[t].phase.Ran?)
  {
    if uri in l.entries && l.entries[uri] < |l.timers| && l.timers[l.entries[uri]].phase.Armed? then
      l.timers[l.entries[uri] := l.timers[l.entries[uri]].(phase := Stopped)]
    else l.timers
  }

  function ArmTimer(l: Lint, uri: string): Lint {
    Lint(l.entries[uri := |l.timers|], WithStopped(l, uri) + [Timer(uri, Armed)])
  }

  function DropTimer(l: Lint, uri: string): Lint {
    Lint(l.entries - {uri}, WithStopped(l, uri))
  }

  function SetTimer(l: Lint, t: nat, phase: TimerPhase): Lint
    requires t < |l.timers|
  {
    l.(timers := l.timers[t := l.timers[t].(phase := phase)])
  }

  /** The entry of the timer's document is this very timer. */
  predicate Own(l: Lint, t: nat)
    requires t < |l.timers|
  {
    l.timers[t].uri in l.entries && l.entries[l.timers[t].uri] == t
  }

  function RunTimer(l: Lint, t: nat): Lint
    requires t < |l.timers|
  {
    var ran := SetTimer(l, t, Ran);
    if Own(l, t) then ran.(entries := l.entries - {l.timers[t].uri}) else ran
  }

  // --- the server ---

  /** The teardown of didClose after the document left the store, step by step. */
  datatype Stage =
    | CancelDebounce | ForgetPublish | CancelRender | ClearRendered | TakeShow
    | ClearDiagnostics | RemoveTemps

  /** Handlers run one at a time. */
  datatype Handler = Idle | Changing(uri: string) | Closing(uri: string, stage: Stage)

  datatype State = State(
    docs: map<string, int>,
    handler: Handler,
    pub: Pub,
    rend: Rend,
    show: Show,
    lint: Lint,
    sent: seq<Message>)

  function Init(): State {
    State(map[], Idle, Pub(map[], 0, None, [], []), Rend(map[], map[], map[], None), Show(map[], None), Lint(map[],
        []), [])
  }

  /** A stage takes the lock of what it clears. */
  predicate CanRun(s: State, stage: Stage) {
    match stage
    case ForgetPublish => s.pub.lock.None?
    case ClearRendered => s.rend.lock.None?
    case TakeShow => s.show.lock.None?
    case _ => true
  }

  function CloseBegin(s: State, uri: string): State {
    s.(docs := s.docs - {uri}, handler := Closing(uri, CancelDebounce))
  }

  function CloseStage(s: State, uri: string, stage: Stage): State {
    match stage
    case CancelDebounce => s.(lint := DropTimer(s.lint, uri), handler := Closing(uri, ForgetPublish))
    case ForgetPublish => s.(pub := s.pub.(seqs := s.pub.seqs - {uri}), handler := Closing(uri, CancelRender))
    case CancelRender => s.(handler := Closing(uri, ClearRendered))
    case ClearRendered => s.(rend := DropRender(s.rend, uri), handler := Closing(uri, TakeShow))
    case TakeShow => s.(show := s.show.(pending := s.show.pending - {uri}), handler := Closing(uri, ClearDiagnostics))
    case ClearDiagnostics => s.(sent := s.sent + [Clear(uri)], handler := Closing(uri, RemoveTemps))
    case RemoveTemps => s.(handler := Idle)
  }

  function StagesFrom(s: State, uri: string, stages: seq<Stage>): State
    decreases |stages|
  {
    if stages == [] then s else StagesFrom(CloseStage(s, uri, stages[0]), uri, stages[1..])
  }

  const TEARDOWN := [CancelDebounce, ForgetPublish, CancelRender, ClearRendered, TakeShow, ClearDiagnostics,
      RemoveTemps]

  /** The whole of didClose when nothing else runs meanwhile. */
  function Closed(s: State, uri: string): State {
    State(s.docs - {uri}, Idle, s.pub.(seqs := s.pub.seqs - {uri}), DropRender(s.rend, uri),
          s.show.(pending := s.show.pending - {uri}), DropTimer(s.lint, uri), s.sent + [Clear(uri)])
  }

  /** The stages in their order add up to the whole. */
  lemma TeardownCloses(s: State, uri: string)
    ensures StagesFrom(CloseBegin(s, uri), uri, TEARDOWN) == Closed(s, uri)
  {
    var t0 := CloseBegin(s, uri);
    var t1 := CloseStage(t0, uri, CancelDebounce);
    var t2 := CloseStage(t1, uri, ForgetPublish);
    var t3 := CloseStage(t2, uri, CancelRender);
    var t4 := CloseStage(t3, uri, ClearRendered);
    var t5 := CloseStage(t4, uri, TakeShow);
    var t6 := CloseStage(t5, uri, ClearDiagnostics);
    assert StagesFrom(t6, uri, TEARDOWN[6..]) == CloseStage(t6, uri, RemoveTemps);
    assert StagesFrom(t5, uri, TEARDOWN[5..]) == StagesFrom(t6, uri, TEARDOWN[6..]);
    assert StagesFrom(t4, uri, TEARDOWN[4..]) == StagesFrom(t5, uri, TEARDOWN[5..]);
    assert StagesFrom(t3, uri, TEARDOWN[3..]) == StagesFrom(t4, uri, TEARDOWN[4..]);
    assert StagesFrom(t2, uri, TEARDOWN[2..]) == StagesFrom(t3, uri, TEARDOWN[3..]);
    assert StagesFrom(t1, uri, TEARDOWN[1..]) == StagesFrom(t2, uri, TEARDOWN[2..]);
    assert StagesFrom(t0, uri, TEARDOWN) == StagesFrom(t1, uri, TEARDOWN[1..]);
  }

  /** The server as the program keeps it. A method is a call that nothing interrupts;
      the sections of calls that interleave are the functions above. */
  class Server {
    var docs: map<string, int>
    var pubSeq: map<string, nat>
    var pubCounter: nat
    var jobs: seq<Job>
    var fetches: seq<Fetch>
    var renderedDiags: map<string, int>
    var renderedRaw: map<string, int>
    var renderedBaseline: map<string, int>
    var pendingShow: map<string, string>
    var lintTimers: map<string, nat>
    var timers: seq<Timer>
    var sent: seq<Message>

    ghost predicate Valid()
      reads this
    {
      forall uri <- lintTimers :: lintTimers[uri] < |timers|
    }

    ghost function PubView(): Pub
      reads this
    {
      Pub(pubSeq, pubCounter, None, jobs, fetches)
    }

    ghost function RendView(): Rend
      reads this
    {
      Rend(renderedDiags, renderedRaw, renderedBaseline, None)
    }

    ghost function LintView(): Lint
      reads this
    {
      Lint(lintTimers, timers)
    }

    ghost function View(): State
      reads this
    {
      State(docs, Idle, PubView(), RendView(), Show(pendingShow, None), LintView(), sent)
    }

    constructor ()
      ensures Valid() && View() == Init()
    {
      docs, pubSeq, pubCounter, jobs, fetches := map[], map[], 0, [], [];
      renderedDiags, renderedRaw, renderedBaseline, pendingShow := map[], map[], map[], map[];
      lintTimers, timers, sent := map[], [], [];
    }

    /** The document is the one fetched before, whatever the store holds by now; the
        goroutine that delivers is left to run later. */
    method SchedulePublish(f: nat)
      requires f < |fetches|
      modifies this`pubSeq, this`pubCounter, this`jobs, this`fetches
      ensures PubView() == ScheduleFetched(old(PubView()), f, old(fetches)[f].uri in docs)
      ensures old(fetches)[f].uri !in docs ==>
                pubSeq == old(pubSeq) && pubCounter == old(pubCounter) && jobs == old(jobs)
      ensures old(fetches)[f].uri in docs ==>
                var d := old(fetches)[f];
                && pubCounter == old(pubCounter) + 1 && pubSeq == old(pubSeq)[d.uri := pubCounter]
                && jobs == old(jobs) + [Job(d.uri, pubCounter, d.version, f, false)]
    {
      var d := fetches[f];
      fetches := fetches[f := d.(used := true)];
      if d.uri !in docs {
        return;
      }
      pubCounter := pubCounter + 1;
      pubSeq := pubSeq[d.uri := pubCounter];
      jobs := jobs + [Job(d.uri, pubCounter, d.version, f, false)];
    }

    method Deliver(j: nat)
      requires j < |jobs|
      modifies this`jobs, this`sent
      ensures PubView() == MarkDelivered(old(PubView()), j)
      ensures sent == old(sent) + Delivered(old(PubView()), j)
      ensures var job := old(jobs)[j];
              if job.uri in pubSeq && pubSeq[job.uri] == job.seqNo then
                sent == old(sent) + [Publish(job.uri, job.seqNo, job.version)]
              else sent == old(sent)
    {
      var job := jobs[j];
      jobs := jobs[j := job.(delivered := true)];
      // in the program a missing entry reads as 0, which no job carries
      if job.uri !in pubSeq || pubSeq[job.uri] != job.seqNo {
        return;
      }
      sent := sent + [Publish(job.uri, job.seqNo, job.version)];
    }

    method StoreRendered(uri: string, diags: int, raw: Option<int>)
      modifies this`renderedDiags, this`renderedRaw, this`renderedBaseline
      ensures RendView() == StoreRender(old(RendView()), uri, Render(diags, raw))
      ensures renderedDiags == old(renderedDiags)[uri := diags]
      ensures raw.Some? ==> renderedRaw == old(renderedRaw)[uri := raw.value]
      ensures raw.Some? ==>
                renderedBaseline ==
                  if uri in old(renderedBaseline) then old(renderedBaseline)
                  else old(renderedBaseline)[uri := raw.value]
      ensures raw.None? ==> renderedRaw == old(renderedRaw) && renderedBaseline == old(renderedBaseline)
    {
      renderedDiags := renderedDiags[uri := diags];
      if raw.Some? {
        renderedRaw := renderedRaw[uri := raw.value];
        if uri !in renderedBaseline {
          renderedBaseline := renderedBaseline[uri := raw.value];
        }
      }
    }

    /** `shown` is the show command that waited for the render. */
    method Notify(uri: string, diags: int, raw: Option<int>) returns (shown: Option<string>)
      modifies this`renderedDiags, this`renderedRaw, this`renderedBaseline, this`pendingShow
      modifies this`pubSeq, this`pubCounter, this`jobs, this`fetches
      ensures RendView() == if uri in docs then StoreRender(old(RendView()), uri, Render(diags, raw))
              else old(RendView())
      ensures uri in docs ==> renderedDiags == old(renderedDiags)[uri := diags]
      ensures uri in docs ==> renderedRaw == if raw.Some? then old(renderedRaw)[uri := raw.value] else old(renderedRaw)
      ensures uri in docs ==>
                && pubCounter == old(pubCounter) + 1 && pubSeq == old(pubSeq)[uri := pubCounter]
                && jobs == old(jobs) + [Job(uri, pubCounter, docs[uri], |old(fetches)|, false)]
      ensures pendingShow == if uri in docs then old(pendingShow) - {uri} else old(pendingShow)
      ensures shown == if uri in docs && uri in old(pendingShow) then Some(old(pendingShow)[uri]) else None
      ensures PubView() ==
              if uri in docs then ScheduleFetched(FetchDoc(old(PubView()), uri, docs[uri]), |old(fetches)|, true)
              else old(PubView())
    {
      hide AssignSeq, UseFetch, StoreRender;
      if uri !in docs {
        return None;
      }
      var d := |fetches|;
      fetches := fetches + [Fetch(uri, docs[uri], false)];
      StoreRendered(uri, diags, raw);
      shown := TakePendingShow(uri);
      SchedulePublish(d);
    }

    method SetPendingShow(uri: string, kind: string)
      modifies this`pendingShow
      ensures pendingShow == if uri in docs then old(pendingShow)[uri := kind] else old(pendingShow)
    {
      if uri in docs {
        pendingShow := pendingShow[uri := kind];
      }
    }

    method TakePendingShow(uri: string) returns (kind: Option<string>)
      modifies this`pendingShow
      ensures pendingShow == old(pendingShow) - {uri}
      ensures kind == if uri in old(pendingShow) then Some(old(pendingShow)[uri]) else None
    {
      kind := None;
      if uri in pendingShow {
        kind := Some(pendingShow[uri]);
        pendingShow := pendingShow - {uri};
      }
    }

    method StopEntry(uri: string)
      requires Valid()
      modifies this`timers
      ensures Valid() && timers == WithStopped(old(LintView()), uri)
    {
      if uri in lintTimers {
        var t := lintTimers[uri];
        if timers[t].phase.Armed? {
          timers := timers[t := timers[t].(phase := Stopped)];
        }
      }
    }

    method DebouncePublish(uri: string)
      requires Valid()
      modifies this`timers, this`lintTimers
      ensures Valid() && LintView() == ArmTimer(old(LintView()), uri)
      ensures lintTimers == old(lintTimers)[uri := |old(timers)|]
      ensures |timers| == |old(timers)| + 1 && timers[|old(timers)|] == Timer(uri, Armed)
      ensures forall t :: 0 <= t < |old(timers)| ==>
                timers[t] ==
                  if uri in old(lintTimers) && old(lintTimers)[uri] == t && old(timers)[t].phase == Armed then
                    Timer(old(timers)[t].uri, Stopped)
                  else old(timers)[t]
    {
      StopEntry(uri);
      timers := timers + [Timer(uri, Armed)];
      lintTimers := lintTimers[uri := |timers| - 1];
    }

    /** The first section of the timer callback; `due` lets it go on to publish. */
    method TimerCallback(t: nat) returns (due: bool)
      requires Valid() && t < |timers|
      modifies this`timers, this`lintTimers
      ensures Valid() && LintView() == RunTimer(old(LintView()), t)
      ensures due == Own(old(LintView()), t)
      ensures var uri := old(timers)[t].uri;
              && timers == old(timers)[t := Timer(uri, Ran)]
              && (due <==> uri in old(lintTimers) && old(lintTimers)[uri] == t)
              && lintTimers == if due then old(lintTimers) - {uri} else old(lintTimers)
    {
      var uri := timers[t].uri;
      timers := timers[t := timers[t].(phase := Ran)];
      if uri !in lintTimers || lintTimers[uri] != t {
        return false;
      }
      lintTimers := lintTimers - {uri};
      due := true;
    }

    method CancelDebounceOf(uri: string)
      requires Valid()
      modifies this`timers, this`lintTimers
      ensures Valid()
      ensures timers == WithStopped(old(LintView()), uri) && lintTimers == old(lintTimers) - {uri}
    {
      StopEntry(uri);
      lintTimers := lintTimers - {uri};
    }

    method ForgetPublishOf(uri: string)
      modifies this`pubSeq
      ensures pubSeq == old(pubSeq) - {uri}
    {
      pubSeq := pubSeq - {uri};
    }

    method ClearRenderState(uri: string)
      modifies this`renderedDiags, this`renderedRaw, this`renderedBaseline
      ensures renderedDiags == old(renderedDiags) - {uri}
      ensures renderedRaw == old(renderedRaw) - {uri}
      ensures renderedBaseline == old(renderedBaseline) - {uri}
    {
      renderedDiags := renderedDiags - {uri};
      renderedRaw := renderedRaw - {uri};
      renderedBaseline := renderedBaseline - {uri};
    }

    /** What didClose does between cancelling the timer and the empty clear. */
    method ForgetDocument(uri: string)
      modifies this`pubSeq, this`renderedDiags, this`renderedRaw, this`renderedBaseline, this`pendingShow
      ensures pubSeq == old(pubSeq) - {uri}
      ensures renderedDiags == old(renderedDiags) - {uri}
      ensures renderedRaw == old(renderedRaw) - {uri}
      ensures renderedBaseline == old(renderedBaseline) - {uri}
      ensures pendingShow == old(pendingShow) - {uri}
    {
      ForgetPublishOf(uri);
      ClearRenderState(uri);
      var _ := TakePendingShow(uri);
    }

    method DidClose(uri: string)
      requires Valid()
      modifies this
      ensures Valid()
      ensures docs == old(docs) - {uri}
      ensures pubSeq == old(pubSeq) - {uri}
      ensures pubCounter == old(pubCounter) && jobs == old(jobs) && fetches == old(fetches)
      ensures renderedDiags == old(renderedDiags) - {uri}
      ensures renderedRaw == old(renderedRaw) - {uri}
      ensures renderedBaseline == old(renderedBaseline) - {uri}
      ensures pendingShow == old(pendingShow) - {uri}
      ensures timers == WithStopped(old(LintView()), uri) && lintTimers == old(lintTimers) - {uri}
      ensures sent == old(sent) + [Clear(uri)]
      ensures View() == Closed(old(View()), uri)
    {
      hide WithStopped;
      docs := docs - {uri};
      CancelDebounceOf(uri);
      ForgetDocument(uri);
      sent := sent + [Clear(uri)];
    }
  }
}
