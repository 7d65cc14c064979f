/** Publishes are ordered by sequence number, not by document version. Exactly when the two
    orders part: a publish can be scheduled long after its document was fetched. */
module PublishVersions {
  import opened Options
  import opened PublishProtocol
  import opened PublishServer

  // --- where a publish got its version ---

  /** Every job carries the document some fetch got. */
  ghost predicate JobsFetched(p: Pub) {
    forall j {:trigger p.jobs[j]} :: 0 <= j < |p.jobs| ==>
      && p.jobs[j].fetch < |p.fetches|
      && p.fetches[p.jobs[j].fetch].uri == p.jobs[j].uri
      && p.fetches[p.jobs[j].fetch].version == p.jobs[j].version
  }

  lemma StepKeepsFetched(s: State, e: Event)
    requires Enabled(s, e) && JobsFetched(s.pub)
    ensures JobsFetched(Next(s, e).pub)
  {
  }

  lemma {:induction false} FetchedHolds(tr: seq<State>, es: seq<Event>, i: nat)
    requires IsRun(tr, es) && i < |tr|
    ensures JobsFetched(tr[i].pub)
  {
    hide Next, Enabled, JobsFetched;
    if i > 0 {
      FetchedHolds(tr, es, i - 1);
      StepOf(tr, es, i - 1);
      StepKeepsFetched(tr[i - 1], es[i - 1]);
    } else {
      NothingFetched();
    }
  }

  lemma NothingFetched()
    ensures JobsFetched(Init().pub) && Init().pub.fetches == []
  {
  }

  /** Step m made fetch f, of the version the document had then. */
  ghost predicate Fetches(tr: seq<State>, es: seq<Event>, m: nat, f: nat)
    requires |tr| == |es| + 1
  {
    m < |es| && es[m].FetchDocument? && |tr[m].pub.fetches| == f
  }

  /** A fetch keeps its document and version. */
  lemma FetchStays(s: State, e: Event, f: nat)
    requires Enabled(s, e) && f < |s.pub.fetches|
    ensures f < |Next(s, e).pub.fetches|
    ensures Next(s, e).pub.fetches[f].uri == s.pub.fetches[f].uri
    ensures Next(s, e).pub.fetches[f].version == s.pub.fetches[f].version
  {
  }

  lemma FetchIsNew(s: State, e: Event)
    requires Enabled(s, e)
    ensures |Next(s, e).pub.fetches| == |s.pub.fetches| + if e.FetchDocument? then 1 else 0
    ensures e.FetchDocument? ==> Next(s, e).pub.fetches[|s.pub.fetches|] == Fetch(e.uri, s.docs[e.uri], false)
  {
  }

  lemma {:induction false} FetchRead(tr: seq<State>, es: seq<Event>, m: nat, f: nat, n: nat)
    requires IsRun(tr, es) && Fetches(tr, es, m, f) && m < n < |tr|
    ensures es[m].uri in tr[m].docs && f < |tr[n].pub.fetches|
    ensures tr[n].pub.fetches[f].uri == es[m].uri
    ensures tr[n].pub.fetches[f].version == tr[m].docs[es[m].uri]
    decreases n
  {
    hide Next;
    StepOf(tr, es, m);
    FetchIsNew(tr[m], es[m]);
    if m + 1 < n {
      FetchRead(tr, es, m, f, n - 1);
      StepOf(tr, es, n - 1);
      FetchStays(tr[n - 1], es[n - 1], f);
    }
  }

  /** Each fetch was made by a step. */
  lemma {:induction false} FetchHasStep(tr: seq<State>, es: seq<Event>, n: nat, f: nat) returns (m: nat)
    requires IsRun(tr, es) && n < |tr| && f < |tr[n].pub.fetches|
    ensures m < n && Fetches(tr, es, m, f)
    decreases n
  {
    hide Next, Enabled;
    NothingFetched();
    StepOf(tr, es, n - 1);
    FetchIsNew(tr[n - 1], es[n - 1]);
    if f < |tr[n - 1].pub.fetches| {
      m := FetchHasStep(tr, es, n - 1, f);
    } else {
      m := n - 1;
    }
  }

  /** Step m fetched the document that message i of tr[n] was published for. */
  ghost predicate FetchedFor(tr: seq<State>, es: seq<Event>, n: nat, i: nat, m: nat)
    requires |tr| == |es| + 1 && n < |tr| && i < |tr[n].sent| && tr[n].sent[i].Publish?
  {
    var seqNo := tr[n].sent[i].seqNo;
    m < n && 0 < seqNo <= |tr[n].pub.jobs| && Fetches(tr, es, m, tr[n].pub.jobs[seqNo - 1].fetch)
  }

  /** Every publish was fetched at some step, and carries the version of that moment. */
  lemma PublishWasFetched(tr: seq<State>, es: seq<Event>, n: nat, i: nat) returns (m: nat)
    requires IsRun(tr, es) && n < |tr| && i < |tr[n].sent| && tr[n].sent[i].Publish?
    ensures FetchedFor(tr, es, n, i, m)
  {
    hide Next, Enabled, Before;
    OrderedHolds(tr, es, n);
    FetchedHolds(tr, es, n);
    assert Sent(tr[n].pub, tr[n].sent[i]);
    m := FetchHasStep(tr, es, n, tr[n].pub.jobs[tr[n].sent[i].seqNo - 1].fetch);
  }

  lemma PublishCarriesFetched(tr: seq<State>, es: seq<Event>, n: nat, i: nat, m: nat)
    requires IsRun(tr, es) && n < |tr| && i < |tr[n].sent| && tr[n].sent[i].Publish? && FetchedFor(tr, es, n, i, m)
    ensures es[m] == FetchDocument(tr[n].sent[i].uri)
    ensures tr[n].sent[i].uri in tr[m].docs && tr[n].sent[i].version == tr[m].docs[tr[n].sent[i].uri]
  {
    hide Next, Enabled, Before;
    OrderedHolds(tr, es, n);
    FetchedHolds(tr, es, n);
    assert Sent(tr[n].pub, tr[n].sent[i]);
    FetchRead(tr, es, m, tr[n].pub.jobs[tr[n].sent[i].seqNo - 1].fetch, n);
  }

  // --- versions along a run ---

  predicate Changes(e: Event, uri: string) { e.ApplyChange? && e.uri == uri }

  /** From step i to step k the document is not opened anew, and each change raises its
      version, as the protocol has clients do. */
  ghost predicate VersionsGrow(tr: seq<State>, es: seq<Event>, i: nat, k: nat, uri: string)
    requires |tr| == |es| + 1 && k <= |es|
  {
    forall m: nat :: i <= m < k ==>
      && !Reopens(es[m], uri)
      && (Changes(es[m], uri) && uri in tr[m].docs ==> tr[m].docs[uri] < es[m].version)
  }

  /** What one step does to the version of a document that is not opened by it. */
  lemma VersionStep(s: State, e: Event, uri: string)
    requires Enabled(s, e) && !Reopens(e, uri)
    ensures uri in Next(s, e).docs ==> uri in s.docs
    ensures uri in Next(s, e).docs && Changes(e, uri) ==> Next(s, e).docs[uri] == e.version
    ensures uri in Next(s, e).docs && !Changes(e, uri) ==> Next(s, e).docs[uri] == s.docs[uri]
  {
  }

  /** While versions grow, two moments see the same version exactly when no change came in
      between, and otherwise the later one sees the higher. */
  lemma {:induction false} VersionsBetween(tr: seq<State>, es: seq<Event>, i: nat, k: nat, uri: string)
    requires IsRun(tr, es) && i <= k < |tr| && VersionsGrow(tr, es, i, k, uri) && uri in tr[k].docs
    ensures uri in tr[i].docs && tr[i].docs[uri] <= tr[k].docs[uri]
    ensures tr[i].docs[uri] < tr[k].docs[uri] <==> exists m: nat :: i <= m < k && Changes(es[m], uri)
    decreases k
  {
    hide Next, Enabled;
    if i < k {
      StepOf(tr, es, k - 1);
      VersionStep(tr[k - 1], es[k - 1], uri);
      VersionsBetween(tr, es, i, k - 1, uri);
    }
  }

  // --- when the orders part ---

  /** Two publishes of a document, i sent before k and so with the lower sequence number,
      fetched at steps f and g. With versions growing between the two fetches, they go out
      against version order if and only if the later one was fetched first, and the document
      changed between that fetch and the other's. */
  lemma VersionOrderRule(tr: seq<State>, es: seq<Event>, n: nat, i: nat, k: nat, f: nat, g: nat)
    requires IsRun(tr, es) && n < |tr| && i < k < |tr[n].sent|
    requires tr[n].sent[i].Publish? && tr[n].sent[k].Publish? && tr[n].sent[i].uri == tr[n].sent[k].uri
    requires FetchedFor(tr, es, n, i, f) && FetchedFor(tr, es, n, k, g)
    requires VersionsGrow(tr, es, if f <= g then f else g, if f <= g then g else f, tr[n].sent[i].uri)
    ensures tr[n].sent[i].seqNo < tr[n].sent[k].seqNo
    ensures tr[n].sent[k].version < tr[n].sent[i].version <==>
              exists m: nat :: g < m < f && Changes(es[m], tr[n].sent[i].uri)
  {
    hide Next, Enabled, VersionsGrow, FetchedFor;
    PublishesIncrease(tr, es, n, i, k);
    PublishCarriesFetched(tr, es, n, i, f);
    PublishCarriesFetched(tr, es, n, k, g);
    FetchStepInRun(tr, es, n, i, f);
    FetchStepInRun(tr, es, n, k, g);
    if f <= g {
      VersionsBetween(tr, es, f, g, tr[n].sent[i].uri);
    } else {
      VersionsBetween(tr, es, g, f, tr[n].sent[i].uri);
    }
  }

  lemma FetchStepInRun(tr: seq<State>, es: seq<Event>, n: nat, i: nat, m: nat)
    requires |tr| == |es| + 1 && n < |tr| && i < |tr[n].sent| && tr[n].sent[i].Publish? && FetchedFor(tr, es, n, i, m)
    ensures m < |es|
  {
  }

  // --- a run in which they do ---

  lemma ExtendRun(tr: seq<State>, es: seq<Event>, e: Event) returns (tr': seq<State>, es': seq<Event>)
    requires IsRun(tr, es) && Enabled(tr[|es|], e)
    ensures IsRun(tr', es') && es' == es + [e] && tr'[|es'|] == Next(tr[|es|], e)
  {
    hide Next, Enabled;
    tr', es' := tr + [Next(tr[|es|], e)], es + [e];
    forall i: nat | i < |es'|
      ensures Stepped(tr', es', i)
    {
      if i < |es| {
        assert Stepped(tr, es, i);
        assert es'[i] == es[i] && tr'[i] == tr[i] && tr'[i + 1] == tr[i + 1];
      }
    }
  }

  /** Nothing is between a check and its write, and job n is number n + 1. */
  predicate Quiet(s: State) {
    s.pub.lock.None? && s.pub.counter == |s.pub.jobs|
  }

  /** What goes on from a fetch that is still unused: its publish is scheduled and sent. */
  lemma PublishFetched(tr: seq<State>, es: seq<Event>, f: nat) returns (tr': seq<State>, es': seq<Event>)
    requires IsRun(tr, es) && Quiet(tr[|es|]) && f < |tr[|es|].pub.fetches|
    requires !tr[|es|].pub.fetches[f].used && tr[|es|].pub.fetches[f].uri in tr[|es|].docs
    ensures IsRun(tr', es')
    ensures es' == es + [CheckPublish(f), AssignPublish, DeliverPublish(|tr[|es|].pub.jobs|)]
    ensures var s, t := tr[|es|], tr'[|es'|];
            && Quiet(t) && t.docs == s.docs && t.handler == s.handler && t.rend == s.rend
            && t.show == s.show && t.lint == s.lint
            && t.pub.counter == s.pub.counter + 1
            && t.pub.fetches == s.pub.fetches[f := s.pub.fetches[f].(used := true)]
            && t.sent == s.sent + [Publish(s.pub.fetches[f].uri, t.pub.counter, s.pub.fetches[f].version)]
  {
    var s := tr[|es|];
    tr', es' := ExtendRun(tr, es, CheckPublish(f));
    tr', es' := ExtendRun(tr', es', AssignPublish);
    assert tr'[|es'|].pub == AssignSeq(UseFetch(s.pub, f).(lock := Some(Claim(s.pub.fetches[f].uri, f))), f);
    tr', es' := ExtendRun(tr', es', DeliverPublish(|s.pub.jobs|));
  }

  /** A notification about the document at version 1 got it before a change to version 2,
      and schedules its publish after the change was published. */
  function LateNotify(uri: string, r: Render): seq<Event> {
    [DidOpen(uri, 1), FetchDocument(uri), CheckPublish(0), AssignPublish, DeliverPublish(0)]
    + [FetchDocument(uri), CheckNotify(uri, r), WriteNotify, TakeShowOf(uri)]
    + [ApplyChange(uri, 2), ArmDebounce, TimerFires(0), TimerCallback(0), FetchDocument(uri)]
    + [CheckPublish(2), AssignPublish, DeliverPublish(1)]
    + [CheckPublish(1), AssignPublish, DeliverPublish(2)]
  }

  lemma OpenAndPublish(uri: string) returns (tr: seq<State>, es: seq<Event>)
    ensures IsRun(tr, es)
    ensures es == [DidOpen(uri, 1), FetchDocument(uri), CheckPublish(0), AssignPublish, DeliverPublish(0)]
    ensures var s := tr[|es|];
            && Quiet(s) && s.docs == map[uri := 1] && s.handler.Idle? && s.pub.counter == 1
            && s.rend.lock.None? && s.show.lock.None? && s.lint == Lint(map[], [])
            && s.pub.fetches == [Fetch(uri, 1, true)] && s.sent == [Publish(uri, 1, 1)]
  {
    tr, es := [Init()], [];
    tr, es := ExtendRun(tr, es, DidOpen(uri, 1));
    tr, es := ExtendRun(tr, es, FetchDocument(uri));
    tr, es := PublishFetched(tr, es, 0);
  }

  lemma NotifyBegins(tr: seq<State>, es: seq<Event>, uri: string, r: Render) returns (tr': seq<State>, es': seq<Event>)
    requires IsRun(tr, es)
    requires var s := tr[|es|]; uri in s.docs && s.rend.lock.None? && s.show.lock.None?
    ensures IsRun(tr', es')
    ensures es' == es + [FetchDocument(uri), CheckNotify(uri, r), WriteNotify, TakeShowOf(uri)]
    ensures var s, t := tr[|es|], tr'[|es'|];
            && t.docs == s.docs && t.handler == s.handler && t.lint == s.lint && t.sent == s.sent
            && t.rend.lock.None? && t.show.lock.None?
            && t.pub == FetchDoc(s.pub, uri, s.docs[uri])
  {
    tr', es' := ExtendRun(tr, es, FetchDocument(uri));
    tr', es' := ExtendRun(tr', es', CheckNotify(uri, r));
    tr', es' := ExtendRun(tr', es', WriteNotify);
    tr', es' := ExtendRun(tr', es', TakeShowOf(uri));
  }

  lemma ChangeAndFetch(tr: seq<State>, es: seq<Event>, uri: string) returns (tr': seq<State>, es': seq<Event>)
    requires IsRun(tr, es)
    requires var s := tr[|es|]; s.docs == map[uri := 1] && s.handler.Idle? && s.lint == Lint(map[], [])
    ensures IsRun(tr', es')
    ensures es' == es + [ApplyChange(uri, 2), ArmDebounce, TimerFires(0), TimerCallback(0), FetchDocument(uri)]
    ensures var s, t := tr[|es|], tr'[|es'|];
            t.docs == map[uri := 2] && t.sent == s.sent && t.pub == FetchDoc(s.pub, uri, 2)
  {
    tr', es' := ExtendRun(tr, es, ApplyChange(uri, 2));
    tr', es' := ExtendRun(tr', es', ArmDebounce);
    tr', es' := ExtendRun(tr', es', TimerFires(0));
    tr', es' := ExtendRun(tr', es', TimerCallback(0));
    tr', es' := ExtendRun(tr', es', FetchDocument(uri));
  }

  /** The steps above are a run of the server, and version 1 goes out last. */
  lemma OlderVersionCanGoOutLast(uri: string, r: Render)
    ensures exists tr: seq<State> ::
              IsRun(tr, LateNotify(uri, r)) &&
              tr[|LateNotify(uri, r)|].sent == [Publish(uri, 1, 1), Publish(uri, 2, 2), Publish(uri, 3, 1)]
  {
    hide IsRun, Next, Enabled;
    var tr, es := OpenAndPublish(uri);
    tr, es := NotifyBegins(tr, es, uri, r);
    tr, es := ChangeAndFetch(tr, es, uri);
    tr, es := PublishFetched(tr, es, 2);
    tr, es := PublishFetched(tr, es, 1);
    assert es == LateNotify(uri, r);
  }
}
