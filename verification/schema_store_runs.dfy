/** Every interleaving of Get, SetTrustRoot and the file loads of compiles. Step i
    of a run leads from tr[i] to tr[i + 1]. */
module SchemaStoreRuns {
  import opened Options
  import opened SchemaStore

  datatype Getter =
    | Waiting(call: nat, beganAt: nat)
    | Owner(call: nat, beganAt: nat)
    | Returned(answer: Answer, beganAt: nat)

  /** `setters` counts the calls of SetTrustRoot between their loader update and
      their clear. */
  datatype System = System(store: StoreState, trust: Trust, setters: nat, getters: seq<Getter>)

  datatype Event =
    | SetRoot(root: string, trusted: seq<string>)
    | Clear
    | Get(key: string, young: bool)
    | Load(call: nat)
    | Finish(getter: nat, ok: bool)
    | Wake(getter: nat)

  predicate Running(s: StoreState, c: nat) {
    c < |s.calls| && s.calls[c].answer.None?
  }

  predicate Enabled(s: System, e: Event) {
    match e
    case SetRoot(_, _) => true
    case Clear => s.setters > 0
    case Get(_, _) => true
    case Load(c) => Running(s.store, c)
    case Finish(g, _) => g < |s.getters| && s.getters[g].Owner? && s.getters[g].call < |s.store.calls|
    case Wake(g) =>
      g < |s.getters| && s.getters[g].Waiting? && s.getters[g].call < |s.store.calls| &&
      s.store.calls[s.getters[g].call].answer.Some?
  }

  function Next(s: System, e: Event, now: nat): System
    requires Enabled(s, e)
  {
    match e
    case SetRoot(root, trusted) =>
      s.(trust := DoSetRoot(s.trust, root, trusted),
         setters := s.setters + if SameTrust(s.trust, root, trusted) then 0 else 1)
    case Clear => s.(store := DoClear(s.store), setters := s.setters - 1)
    case Get(key, young) =>
      var getter := match DoLookup(s.store, key, young)
        case Hit(answer) => Returned(answer, now)
        case Join(c) => Waiting(c, now)
        case Own(c) => Owner(c, now);
      s.(store := DoEnter(s.store, key, young, |s.getters|, now), getters := s.getters + [getter])
    case Load(c) =>
      s.(store := s.store.(calls := s.store.calls[c := s.store.calls[c].(loads := s.store.calls[c].loads + [s.trust])]))
    case Finish(g, ok) =>
      var c := s.getters[g].call;
      s.(store := DoFinish(s.store, c, ok),
         getters := s.getters[g := Returned(if ok then Schema(c) else CompileError(c), s.getters[g].beganAt)])
    case Wake(g) =>
      s.(getters := s.getters[g := Returned(s.store.calls[s.getters[g].call].answer.value, s.getters[g].beganAt)])
  }

  /** Step i of the run was possible and led on. */
  ghost predicate Stepped(tr: seq<System>, es: seq<Event>, i: nat)
    requires |tr| == |es| + 1 && i < |es|
  {
    Enabled(tr[i], es[i]) && tr[i + 1] == Next(tr[i], es[i], i)
  }

  ghost predicate IsRun(tr: seq<System>, es: seq<Event>) {
    && |tr| == |es| + 1
    && tr[0] == System(StoreState(map[], map[], map[], 0, []), Trust(0, false, "", []), 0, [])
    && forall i: nat :: i < |es| ==> Stepped(tr, es, i)
  }

  lemma StepOf(tr: seq<System>, es: seq<Event>, i: nat)
    requires IsRun(tr, es) && i < |es|
    ensures Enabled(tr[i], es[i]) && tr[i + 1] == Next(tr[i], es[i], i)
  {
    assert Stepped(tr, es, i);
  }

  // --- what single steps do ---

  /** After a SetTrustRoot's first section the set asked for is in force; the call owes a clear
      exactly if that is a change. */
  lemma SetRootStep(tr: seq<System>, es: seq<Event>, i: nat)
    requires IsRun(tr, es) && i < |es| && es[i].SetRoot?
    ensures var was, now := tr[i].trust, tr[i + 1].trust;
            && now.enforce && now.root == es[i].root && now.trusted == es[i].trusted
            && tr[i + 1].store == tr[i].store
            && tr[i + 1].setters ==
               tr[i].setters + if (was.enforce, was.root, was.trusted) == (true, es[i].root, es[i].trusted) then 0
                               else 1
  {
    StepOf(tr, es, i);
  }

  /** Its second section forgets every compiled schema, failure and compile in flight. */
  lemma ClearStep(tr: seq<System>, es: seq<Event>, i: nat)
    requires IsRun(tr, es) && i < |es| && es[i] == Clear
    ensures var s, t := tr[i].store, tr[i + 1].store;
            && t.compiled == map[] && t.failures == map[] && t.inflight == map[]
            && t.gen == s.gen + 1 && t.calls == s.calls
            && tr[i + 1].trust == tr[i].trust && tr[i + 1].setters == tr[i].setters - 1
  {
    StepOf(tr, es, i);
  }

  /** A Get is handed the compiled schema, else a young failure, else the compile in flight,
      and only without any of these begins a compile that is then in flight. */
  lemma GetStep(tr: seq<System>, es: seq<Event>, i: nat)
    requires IsRun(tr, es) && i < |es| && es[i].Get?
    ensures var s, t, key, young := tr[i].store, tr[i + 1].store, es[i].key, es[i].young;
            var n, c := |tr[i].getters|, |s.calls|;
            && |tr[i + 1].getters| == n + 1 && t.compiled == s.compiled && t.failures == s.failures && t.gen == s.gen
            && (if key in s.compiled then
                  tr[i + 1].getters[n] == Returned(s.compiled[key], i) && t == s
                else if young && key in s.failures then
                  tr[i + 1].getters[n] == Returned(s.failures[key], i) && t == s
                else if key in s.inflight then
                  tr[i + 1].getters[n] == Waiting(s.inflight[key], i) && t == s
                else
                  && tr[i + 1].getters[n] == Owner(c, i)
                  && |t.calls| == c + 1 && t.calls[c].key == key && t.calls[c].gen == s.gen && t.calls[c].startedAt == i
                  && t.calls[c].loads == [] && t.calls[c].answer == None
                  && key in t.inflight && t.inflight[key] == c)
  {
    StepOf(tr, es, i);
  }

  /** A finished compile answers its owner; under the current generation it is no longer in
      flight, and its schema or failure is what the key has from then on. */
  lemma FinishStep(tr: seq<System>, es: seq<Event>, i: nat)
    requires IsRun(tr, es) && i < |es| && es[i].Finish?
    ensures var s, t, g := tr[i].store, tr[i + 1].store, es[i].getter;
            && g < |tr[i].getters| && tr[i].getters[g].Owner? && tr[i].getters[g].call < |s.calls|
            && g < |tr[i + 1].getters| && tr[i + 1].getters[g].Returned?
            && var c := tr[i].getters[g].call;
               var key, answer := s.calls[c].key, if es[i].ok then Schema(c) else CompileError(c);
               && tr[i + 1].getters[g].answer == answer
               && (s.calls[c].gen == s.gen ==>
                     && key !in t.inflight
                     && (es[i].ok ==> key in t.compiled && t.compiled[key] == answer && t.failures == s.failures)
                     && (!es[i].ok ==> key in t.failures && t.failures[key] == answer && t.compiled == s.compiled))
  {
    StepOf(tr, es, i);
  }

  /** A file load sees the trust set in force. */
  lemma LoadStep(tr: seq<System>, es: seq<Event>, i: nat)
    requires IsRun(tr, es) && i < |es| && es[i].Load?
    ensures es[i].call < |tr[i].store.calls| && es[i].call < |tr[i + 1].store.calls|
    ensures tr[i + 1].store.calls[es[i].call].loads == tr[i].store.calls[es[i].call].loads + [tr[i].trust]
  {
    StepOf(tr, es, i);
  }

  // --- invariants of single states ---

  /** Call c is of the current generation and produced this answer for this key. */
  predicate Produced(s: StoreState, key: string, answer: Answer) {
    var c := answer.call;
    c < |s.calls| && s.calls[c].key == key && s.calls[c].gen == s.gen && s.calls[c].answer == Some(answer)
  }

  /** Each in-flight entry names one running call of the current generation, and each
      such call is in flight. */
  ghost predicate InflightRuns(s: StoreState) {
    && (forall key :: key in s.inflight ==>
          Running(s, s.inflight[key]) && s.calls[s.inflight[key]].key == key && s.calls[s.inflight[key]].gen == s.gen)
    && (forall c: nat :: Running(s, c) && s.calls[c].gen == s.gen ==>
          s.calls[c].key in s.inflight && s.inflight[s.calls[c].key] == c)
    && (forall c :: 0 <= c < |s.calls| ==> s.calls[c].gen <= s.gen)
  }

  /** Compiled keys are not in flight, and cached answers are of the current generation. */
  ghost predicate CachesProduced(s: StoreState) {
    && s.compiled.Keys !! s.inflight.Keys
    && (forall key :: key in s.compiled ==> s.compiled[key].Schema? && Produced(s, key, s.compiled[key]))
    && (forall key :: key in s.failures ==> s.failures[key].CompileError? && Produced(s, key, s.failures[key]))
  }

  ghost predicate Coalesced(s: StoreState) {
    InflightRuns(s) && CachesProduced(s)
  }

  /** A running call has one owner who has yet to close it; a finished one was closed
      once and its owner returned its answer. */
  predicate CallOwned(s: System, c: nat)
    requires c < |s.store.calls|
  {
    var call := s.store.calls[c];
    && call.owner < |s.getters|
    && (call.answer.None? ==> call.closes == 0 && s.getters[call.owner] == Owner(c, call.startedAt))
    && (call.answer.Some? ==>
          call.closes == 1 && call.answer.value.call == c &&
          s.getters[call.owner] == Returned(call.answer.value, call.startedAt))
  }

  predicate GetterServed(s: System, g: nat)
    requires g < |s.getters|
  {
    match s.getters[g]
    case Owner(c, _) => Running(s.store, c) && s.store.calls[c].owner == g
    case Waiting(c, _) => c < |s.store.calls|
    case Returned(answer, _) => answer.call < |s.store.calls| && s.store.calls[answer.call].answer == Some(answer)
  }

  ghost predicate Owned(s: System) {
    && (forall c: nat :: c < |s.store.calls| ==> CallOwned(s, c))
    && (forall g: nat :: g < |s.getters| ==> GetterServed(s, g))
  }

  predicate SawOnly(call: Call, trust: Trust) {
    forall t <- call.loads :: t == trust
  }

  /** Between changes, every call of the current generation saw the current set only. */
  ghost predicate Trusting(s: System) {
    s.setters == 0 ==>
      forall c {:trigger s.store.calls[c]} ::
        0 <= c < |s.store.calls| && s.store.calls[c].gen == s.store.gen ==> SawOnly(s.store.calls[c], s.trust)
  }

  lemma EnterKeepsCoalesced(s: StoreState, key: string, young: bool, getter: nat, now: nat)
    requires Coalesced(s)
    ensures Coalesced(DoEnter(s, key, young, getter, now))
  {
  }

  lemma FinishKeepsInflight(s: StoreState, c: nat, ok: bool)
    requires InflightRuns(s) && Running(s, c)
    ensures InflightRuns(DoFinish(s, c, ok))
  {
  }

  lemma FinishKeepsCaches(s: StoreState, c: nat, ok: bool)
    requires CachesProduced(s) && Running(s, c)
    ensures CachesProduced(DoFinish(s, c, ok))
  {
  }

  lemma StepKeepsCoalesced(s: System, e: Event, now: nat)
    requires Enabled(s, e) && Coalesced(s.store) && Owned(s)
    ensures Coalesced(Next(s, e, now).store)
  {
    match e
    case Get(key, young) => EnterKeepsCoalesced(s.store, key, young, |s.getters|, now);
    case Finish(g, ok) =>
      assert GetterServed(s, g);
      FinishKeepsInflight(s.store, s.getters[g].call, ok);
      FinishKeepsCaches(s.store, s.getters[g].call, ok);
    case _ =>
  }

  lemma FinishKeepsOwned(s: System, e: Event, now: nat, c: nat)
    requires Enabled(s, e) && e.Finish? && Owned(s) && c < |s.store.calls|
    ensures c < |Next(s, e, now).store.calls| && CallOwned(Next(s, e, now), c)
  {
    assert CallOwned(s, c);
    assert GetterServed(s, e.getter);
  }

  lemma CallStaysOwned(s: System, e: Event, now: nat, c: nat)
    requires Enabled(s, e) && Coalesced(s.store) && Owned(s) && c < |Next(s, e, now).store.calls|
    ensures CallOwned(Next(s, e, now), c)
  {
    hide Coalesced;
    if e.Finish? {
      FinishKeepsOwned(s, e, now, c);
    } else if c < |s.store.calls| {
      assert CallOwned(s, c);
      if e.Wake? {
        assert GetterServed(s, e.getter);
      }
    }
  }

  lemma GetIsServed(s: System, e: Event, now: nat)
    requires Enabled(s, e) && e.Get? && Coalesced(s.store)
    ensures var t := Next(s, e, now);
            |t.getters| == |s.getters| + 1 && GetterServed(t, |s.getters|)
  {
  }

  lemma GetterStaysServed(s: System, e: Event, now: nat, g: nat)
    requires Enabled(s, e) && Coalesced(s.store) && Owned(s) && g < |Next(s, e, now).getters|
    ensures GetterServed(Next(s, e, now), g)
  {
    hide Coalesced;
    if e.Get? {
      GetIsServed(s, e, now);
    }
    if g < |s.getters| {
      assert GetterServed(s, g);
      if e.Finish? {
        assert GetterServed(s, e.getter);
      } else if e.Wake? {
        assert GetterServed(s, e.getter);
        assert CallOwned(s, s.getters[e.getter].call);
      }
    }
  }

  lemma StepKeepsOwned(s: System, e: Event, now: nat)
    requires Enabled(s, e) && Coalesced(s.store) && Owned(s)
    ensures Owned(Next(s, e, now))
  {
    var t := Next(s, e, now);
    forall c: nat | c < |t.store.calls|
      ensures CallOwned(t, c)
    {
      CallStaysOwned(s, e, now, c);
    }
    forall g: nat | g < |t.getters|
      ensures GetterServed(t, g)
    {
      GetterStaysServed(s, e, now, g);
    }
  }

  lemma StepKeepsTrusting(s: System, e: Event, now: nat)
    requires Enabled(s, e) && Coalesced(s.store) && Owned(s) && Trusting(s)
    ensures Trusting(Next(s, e, now))
  {
  }

  lemma {:induction false} InvHolds(tr: seq<System>, es: seq<Event>, i: nat)
    requires IsRun(tr, es) && i < |tr|
    ensures Coalesced(tr[i].store) && Owned(tr[i]) && Trusting(tr[i])
  {
    if i > 0 {
      InvHolds(tr, es, i - 1);
      StepOf(tr, es, i - 1);
      StepKeepsCoalesced(tr[i - 1], es[i - 1], i - 1);
      StepKeepsOwned(tr[i - 1], es[i - 1], i - 1);
      StepKeepsTrusting(tr[i - 1], es[i - 1], i - 1);
    }
  }

  // --- what only grows along a run ---

  predicate Grows(s: System, t: System) {
    && s.store.gen <= t.store.gen
    && s.trust.version <= t.trust.version
    && |s.store.calls| <= |t.store.calls|
    && |s.getters| <= |t.getters|
    && (forall c: nat :: c < |s.store.calls| ==> CallGrows(s.store.calls[c], t.store.calls[c]))
    && (forall g: nat :: g < |s.getters| ==> GetterGrows(s.getters[g], t.getters[g]))
  }

  predicate CallGrows(c: Call, d: Call) {
    && d.key == c.key && d.gen == c.gen && d.startedAt == c.startedAt && d.owner == c.owner
    && (c.answer.Some? ==> d.answer == c.answer && d.loads == c.loads)
  }

  predicate GetterGrows(g: Getter, h: Getter) {
    && h.beganAt == g.beganAt
    && (g.Returned? ==> h == g)
    && (!g.Returned? && !h.Returned? ==> h == g)
    && (!g.Returned? && h.Returned? ==> h.answer.call == g.call)
  }

  lemma FinishGrows(s: System, e: Event, now: nat)
    requires Enabled(s, e) && e.Finish? && Owned(s)
    ensures Grows(s, Next(s, e, now))
  {
    assert GetterServed(s, e.getter);
  }

  lemma WakeGrows(s: System, e: Event, now: nat)
    requires Enabled(s, e) && e.Wake? && Owned(s)
    ensures Grows(s, Next(s, e, now))
  {
    assert GetterServed(s, e.getter);
    assert CallOwned(s, s.getters[e.getter].call);
  }

  lemma StepGrows(s: System, e: Event, now: nat)
    requires Enabled(s, e) && Coalesced(s.store) && Owned(s)
    ensures Grows(s, Next(s, e, now))
  {
    hide Coalesced, Owned;
    match e
    case Finish(_, _) => FinishGrows(s, e, now);
    case Wake(_) => WakeGrows(s, e, now);
    case _ =>
  }

  lemma GrowsTransitive(s: System, t: System, u: System)
    requires Grows(s, t) && Grows(t, u)
    ensures Grows(s, u)
  {
    forall c: nat | c < |s.store.calls|
      ensures CallGrows(s.store.calls[c], u.store.calls[c])
    {
      assert CallGrows(s.store.calls[c], t.store.calls[c]) && CallGrows(t.store.calls[c], u.store.calls[c]);
    }
    forall g: nat | g < |s.getters|
      ensures GetterGrows(s.getters[g], u.getters[g])
    {
      assert GetterGrows(s.getters[g], t.getters[g]) && GetterGrows(t.getters[g], u.getters[g]);
    }
  }

  lemma {:induction false} RunGrows(tr: seq<System>, es: seq<Event>, i: nat, k: nat)
    requires IsRun(tr, es) && i <= k < |tr|
    ensures Grows(tr[i], tr[k])
    decreases k
  {
    if i < k {
      RunGrows(tr, es, i, k - 1);
      InvHolds(tr, es, k - 1);
      StepOf(tr, es, k - 1);
      StepGrows(tr[k - 1], es[k - 1], k - 1);
      GrowsTransitive(tr[i], tr[k - 1], tr[k]);
    }
  }

  // --- trust ---

  /** While no change is between its two sections, every cached schema and failure
      comes from a finished compile of this key whose file loads all saw the trust set
      in force. */
  lemma CachesSawCurrentTrust(tr: seq<System>, es: seq<Event>, i: nat, key: string, answer: Answer)
    requires IsRun(tr, es) && i < |tr| && tr[i].setters == 0
    requires || (key in tr[i].store.compiled && tr[i].store.compiled[key] == answer)
             || (key in tr[i].store.failures && tr[i].store.failures[key] == answer)
    ensures answer.call < |tr[i].store.calls|
    ensures var call := tr[i].store.calls[answer.call];
            call.key == key && call.answer == Some(answer) && SawOnly(call, tr[i].trust)
  {
    InvHolds(tr, es, i);
    assert Produced(tr[i].store, key, answer);
  }

  /** A call started at a step carries the generation of that step. */
  lemma {:induction false} StartedUnderGen(tr: seq<System>, es: seq<Event>, i: nat, c: nat)
    requires IsRun(tr, es) && i < |tr| && c < |tr[i].store.calls|
    ensures tr[i].store.calls[c].startedAt < i
    ensures tr[i].store.calls[c].gen == tr[tr[i].store.calls[c].startedAt].store.gen
  {
    if i > 0 && c < |tr[i - 1].store.calls| {
      StartedUnderGen(tr, es, i - 1, c);
      RunGrows(tr, es, i - 1, i);
      assert CallGrows(tr[i - 1].store.calls[c], tr[i].store.calls[c]);
    } else if i > 0 {
      StepOf(tr, es, i - 1);
    }
  }

  /** The call a new Get is tied to is of the generation it found. */
  function CallOf(getter: Getter): nat {
    if getter.Returned? then getter.answer.call else getter.call
  }

  lemma NewGetterUsesCurrentGen(s: System, e: Event, now: nat)
    requires Enabled(s, e) && e.Get? && Coalesced(s.store)
    ensures var t := Next(s, e, now);
            && |t.getters| == |s.getters| + 1
            && CallOf(t.getters[|s.getters|]) < |t.store.calls|
            && t.store.calls[CallOf(t.getters[|s.getters|])].gen == s.store.gen
            && t.store.calls[CallOf(t.getters[|s.getters|])].key == e.key
  {
    var key := e.key;
    if key in s.store.compiled {
      assert Produced(s.store, key, s.store.compiled[key]);
    } else if key in s.store.failures && e.young {
      assert Produced(s.store, key, s.store.failures[key]);
    }
  }

  /** A Get begun (step d) after a change of the trust set returned (step c) never
      yields a compile begun before it. */
  lemma GetAfterTrustChangeIsFresh(tr: seq<System>, es: seq<Event>, c: nat, d: nat, k: nat)
    requires IsRun(tr, es) && c < d < k < |tr| && es[c].Clear? && es[d].Get?
    ensures var g := |tr[d].getters|;
            && g < |tr[k].getters|
            && CallOf(tr[k].getters[g]) < |tr[k].store.calls|
            && c < tr[k].store.calls[CallOf(tr[k].getters[g])].startedAt
  {
    var g := |tr[d].getters|;
    InvHolds(tr, es, d);
    StepOf(tr, es, d);
    NewGetterUsesCurrentGen(tr[d], es[d], d);
    RunGrows(tr, es, d + 1, k);
    assert GetterGrows(tr[d + 1].getters[g], tr[k].getters[g]);
    var call := CallOf(tr[d + 1].getters[g]);
    assert CallGrows(tr[d + 1].store.calls[call], tr[k].store.calls[call]);
    StartedUnderGen(tr, es, k, call);
    var started := tr[k].store.calls[call].startedAt;
    StepOf(tr, es, c);
    RunGrows(tr, es, c + 1, d);
    if started <= c {
      RunGrows(tr, es, started, c);
    }
  }

  /** What a Get begun now would be handed: a compiled schema, a young failure, or a
      compile in flight. */
  predicate Served(s: StoreState, key: string, young: bool) {
    key in s.compiled || (young && key in s.failures) || key in s.inflight
  }

  /** A Get yields a compile of its own, begun at that moment, exactly when nothing serves
      it; otherwise the compile was begun before. */
  lemma GetStartsOwnCompile(tr: seq<System>, es: seq<Event>, d: nat)
    requires IsRun(tr, es) && d < |es| && es[d].Get?
    ensures var g := |tr[d].getters|;
            && |tr[d + 1].getters| == g + 1
            && CallOf(tr[d + 1].getters[g]) < |tr[d + 1].store.calls|
            && var started := tr[d + 1].store.calls[CallOf(tr[d + 1].getters[g])].startedAt;
               && (!Served(tr[d].store, es[d].key, es[d].young) ==> started == d)
               && (Served(tr[d].store, es[d].key, es[d].young) ==> started < d)
  {
    StepOf(tr, es, d);
    InvHolds(tr, es, d);
    var s, key := tr[d].store, es[d].key;
    NewGetterUsesCurrentGen(tr[d], es[d], d);
    if Served(s, key, es[d].young) {
      ServedByEarlierCall(s, key, es[d].young);
      StartedUnderGen(tr, es, d, CallOf(tr[d + 1].getters[|tr[d].getters|]));
    }
  }

  lemma ServedByEarlierCall(s: StoreState, key: string, young: bool)
    requires Coalesced(s) && Served(s, key, young)
    ensures match DoLookup(s, key, young)
            case Hit(answer) => answer.call < |s.calls|
            case Join(c) => c < |s.calls|
            case Own(_) => false
  {
    if key in s.compiled {
      assert Produced(s, key, s.compiled[key]);
    } else if key in s.failures && young {
      assert Produced(s, key, s.failures[key]);
    }
  }

  /** SetTrustRoot with the set already in force returns without a change. A Get right
      after it (steps c and c + 1) then yields a compile begun after it if and only if the
      key is not compiled, has no young failure, and is not being compiled. */
  lemma UnchangedTrustKeepsCompiles(tr: seq<System>, es: seq<Event>, c: nat)
    requires IsRun(tr, es) && c + 1 < |es| && es[c].SetRoot? && SameTrust(tr[c].trust, es[c].root, es[c].trusted)
    requires es[c + 1].Get?
    ensures var s, key, g := tr[c].store, es[c + 1].key, |tr[c].getters|;
            && |tr[c + 2].getters| == g + 1
            && CallOf(tr[c + 2].getters[g]) < |tr[c + 2].store.calls|
            && (c < tr[c + 2].store.calls[CallOf(tr[c + 2].getters[g])].startedAt <==>
                  key !in s.compiled && !(es[c + 1].young && key in s.failures) && key !in s.inflight)
  {
    StepOf(tr, es, c);
    GetStartsOwnCompile(tr, es, c + 1);
    assert tr[c + 1].store == tr[c].store && tr[c + 1].getters == tr[c].getters;
    if Served(tr[c].store, es[c + 1].key, es[c + 1].young) {
      StartedBefore(tr, es, c);
    }
  }

  /** Whatever serves a Get at step c + 1 when step c changed nothing was begun before c. */
  lemma StartedBefore(tr: seq<System>, es: seq<Event>, c: nat)
    requires IsRun(tr, es) && c + 1 < |es| && es[c + 1].Get?
    requires tr[c + 1].store == tr[c].store && tr[c + 1].getters == tr[c].getters
    requires Served(tr[c].store, es[c + 1].key, es[c + 1].young)
    ensures var g := |tr[c].getters|;
            && g < |tr[c + 2].getters| && CallOf(tr[c + 2].getters[g]) < |tr[c + 2].store.calls|
            && tr[c + 2].store.calls[CallOf(tr[c + 2].getters[g])].startedAt < c
  {
    StepOf(tr, es, c + 1);
    InvHolds(tr, es, c);
    ServedByEarlierCall(tr[c].store, es[c + 1].key, es[c + 1].young);
    StartedUnderGen(tr, es, c, CallOf(tr[c + 2].getters[|tr[c].getters|]));
  }

  // --- such a run ---

  lemma ExtendRun(tr: seq<System>, es: seq<Event>, e: Event) returns (tr': seq<System>, es': seq<Event>)
    requires IsRun(tr, es) && Enabled(tr[|es|], e)
    ensures IsRun(tr', es') && es' == es + [e] && tr'[|es'|] == Next(tr[|es|], e, |es|)
    ensures |tr'| == |tr| + 1 && forall i :: 0 <= i < |tr| ==> tr'[i] == tr[i]
  {
    hide Next, Enabled;
    tr', es' := tr + [Next(tr[|es|], e, |es|)], es + [e];
    forall i: nat | i < |es'|
      ensures Stepped(tr', es', i)
    {
      if i < |es| {
        assert Stepped(tr, es, i);
        assert es'[i] == es[i] && tr'[i] == tr[i] && tr'[i + 1] == tr[i + 1];
      }
    }
  }

  function SameRootTwice(root: string, trusted: seq<string>, key: string): seq<Event> {
    [SetRoot(root, trusted), Clear, Get(key, true), Finish(0, true), SetRoot(root, trusted), Get(key, true)]
  }

  /** A run in which the same root is set twice and the second Get, though begun after the
      second call returned, yields the schema compiled before it. */
  lemma SameRootKeepsOldSchema(root: string, trusted: seq<string>, key: string)
    ensures exists tr: seq<System> ::
              && IsRun(tr, SameRootTwice(root, trusted, key))
              && SameTrust(tr[4].trust, root, trusted) && tr[5] == tr[4]
              && |tr[6].getters| == 2 && tr[6].getters[1] == Returned(Schema(0), 5)
              && |tr[6].store.calls| == 1 && tr[6].store.calls[0].startedAt == 2
  {
    var tr, es: seq<Event> := [System(StoreState(map[], map[], map[], 0, []), Trust(0, false, "", []), 0, [])], [];
    tr, es := ExtendRun(tr, es, SetRoot(root, trusted));
    tr, es := ExtendRun(tr, es, Clear);
    tr, es := ExtendRun(tr, es, Get(key, true));
    tr, es := ExtendRun(tr, es, Finish(0, true));
    tr, es := ExtendRun(tr, es, SetRoot(root, trusted));
    tr, es := ExtendRun(tr, es, Get(key, true));
    assert es == SameRootTwice(root, trusted, key);
  }

  // --- coalescing ---

  predicate CompilesNow(s: StoreState, c: nat, key: string) {
    Running(s, c) && s.calls[c].gen == s.gen && s.calls[c].key == key
  }

  predicate Owns(s: System, g: nat, c: nat) {
    g < |s.getters| && s.getters[g].Owner? && s.getters[g].call == c
  }

  /** In every reachable state, the running calls of the current generation and the
      in-flight entries are the same thing, one to a key, none for a compiled key. */
  lemma OneCompilePerKey(tr: seq<System>, es: seq<Event>, i: nat, key: string)
    requires IsRun(tr, es) && i < |tr|
    ensures var s := tr[i].store;
            && (key in s.inflight <==> exists c: nat :: CompilesNow(s, c, key))
            && (forall c: nat, d: nat :: CompilesNow(s, c, key) && CompilesNow(s, d, key) ==> c == d)
            && !(key in s.inflight && key in s.compiled)
  {
    InvHolds(tr, es, i);
    if key in tr[i].store.inflight {
      var c := tr[i].store.inflight[key];
      assert CompilesNow(tr[i].store, c, key);
    }
  }

  /** The done channel of a call is closed exactly once, when its one owner finishes. */
  lemma DoneClosesOnce(tr: seq<System>, es: seq<Event>, i: nat, c: nat)
    requires IsRun(tr, es) && i < |tr| && c < |tr[i].store.calls|
    ensures var s, call := tr[i], tr[i].store.calls[c];
            && call.closes == (if Running(s.store, c) then 0 else 1)
            && (Running(s.store, c) <==> exists g: nat :: Owns(s, g, c))
            && (forall g: nat, h: nat :: Owns(s, g, c) && Owns(s, h, c) ==> g == h)
  {
    InvHolds(tr, es, i);
    var s, call := tr[i], tr[i].store.calls[c];
    assert CallOwned(s, c);
    if Running(s.store, c) {
      assert Owns(s, call.owner, c);
    }
    forall g: nat | Owns(s, g, c)
      ensures Running(s.store, c) && g == call.owner
    {
      assert GetterServed(s, g);
    }
  }

  /** No Get waits for nothing: an owner can always load and finish, and a waiter can wake, or
      the owner of its call can finish, whatever was cleared or trusted meanwhile. */
  lemma EveryGetCanReturn(tr: seq<System>, es: seq<Event>, i: nat, g: nat, ok: bool)
    requires IsRun(tr, es) && i < |tr| && g < |tr[i].getters|
    ensures match tr[i].getters[g]
            case Returned(_, _) => true
            case Owner(c, _) => Enabled(tr[i], Load(c)) && Enabled(tr[i], Finish(g, ok))
            case Waiting(c, _) =>
              || Enabled(tr[i], Wake(g))
              || exists h: nat :: Owns(tr[i], h, c) && Enabled(tr[i], Finish(h, ok))
  {
    InvHolds(tr, es, i);
    var s := tr[i];
    assert GetterServed(s, g);
    if s.getters[g].Waiting? {
      var c := s.getters[g].call;
      assert CallOwned(s, c);
      assert s.store.calls[c].answer.None? ==> Owns(s, s.store.calls[c].owner, c);
    }
  }

  /** A Get or a change can begin at any time, and a change that owes a clear can go on. */
  lemma CallsNeverWait(s: System, key: string, young: bool, root: string, trusted: seq<string>)
    ensures Enabled(s, Get(key, young)) && Enabled(s, SetRoot(root, trusted))
    ensures Enabled(s, Clear) <==> s.setters > 0
  {
  }

  /** A Get that waited on a call returns what the owner of the call returns. */
  lemma WaitersGetOwnersAnswer(tr: seq<System>, es: seq<Event>, i: nat, k: nat, g: nat)
    requires IsRun(tr, es) && i <= k < |tr| && g < |tr[i].getters| && tr[i].getters[g].Waiting?
    ensures g < |tr[k].getters| && tr[i].getters[g].call < |tr[k].store.calls|
    ensures var s, c := tr[k], tr[i].getters[g].call;
            s.getters[g].Returned? ==>
              && s.store.calls[c].owner < |s.getters|
              && s.getters[s.store.calls[c].owner].Returned?
              && s.getters[s.store.calls[c].owner].answer == s.getters[g].answer
  {
    InvHolds(tr, es, i);
    InvHolds(tr, es, k);
    RunGrows(tr, es, i, k);
    assert GetterServed(tr[i], g);
    assert GetterGrows(tr[i].getters[g], tr[k].getters[g]);
    assert GetterServed(tr[k], g);
    assert CallOwned(tr[k], tr[i].getters[g].call);
  }

  lemma StaleFinishTouchesNoCache(s: System, e: Event, now: nat)
    requires Enabled(s, e) && e.Finish?
    ensures var p, q, c := s.store, Next(s, e, now).store, s.getters[e.getter].call;
            p.calls[c].gen != p.gen ==> q.compiled == p.compiled && q.failures == p.failures && q.inflight == p.inflight
  {
  }

  lemma EntriesStep(s: System, e: Event, now: nat, key: string)
    requires Enabled(s, e) && Coalesced(s.store) && Owned(s) && !e.Clear?
    ensures var p, q := s.store, Next(s, e, now).store;
            && (key in p.compiled ==> key in q.compiled && q.compiled[key] == p.compiled[key])
            && (key in p.inflight && Running(q, p.inflight[key]) ==>
                  key in q.inflight && q.inflight[key] == p.inflight[key])
  {
    if e.Finish? {
      StaleFinishTouchesNoCache(s, e, now);
      assert GetterServed(s, e.getter);
    }
  }

  /** Until the next change of the trust set, no finished compile, current or stale, takes
      away or replaces a compiled schema or the entry of a compile still running. */
  lemma {:induction false} EntriesStay(tr: seq<System>, es: seq<Event>, i: nat, k: nat, key: string)
    requires IsRun(tr, es) && i <= k < |tr| && forall m :: i <= m < k ==> !es[m].Clear?
    ensures var p, q := tr[i].store, tr[k].store;
            && (key in p.compiled ==> key in q.compiled && q.compiled[key] == p.compiled[key])
            && (key in p.inflight && Running(q, p.inflight[key]) ==>
                  key in q.inflight && q.inflight[key] == p.inflight[key])
    decreases k
  {
    hide Next, Enabled, Coalesced, Owned;
    if i < k {
      EntriesStay(tr, es, i, k - 1, key);
      InvHolds(tr, es, k - 1);
      StepOf(tr, es, k - 1);
      EntriesStep(tr[k - 1], es[k - 1], k - 1, key);
      if key in tr[i].store.inflight {
        InflightIsCall(tr, es, i, key);
        RunsLonger(tr, es, i, k - 1, k, tr[i].store.inflight[key]);
      }
    }
  }

  lemma InflightIsCall(tr: seq<System>, es: seq<Event>, i: nat, key: string)
    requires IsRun(tr, es) && i < |tr| && key in tr[i].store.inflight
    ensures tr[i].store.inflight[key] < |tr[i].store.calls|
  {
    InvHolds(tr, es, i);
  }

  /** A compile that still runs later ran all the time. */
  lemma RunsLonger(tr: seq<System>, es: seq<Event>, i: nat, j: nat, k: nat, c: nat)
    requires IsRun(tr, es) && i <= j <= k < |tr| && c < |tr[i].store.calls|
    ensures Running(tr[k].store, c) ==> Running(tr[j].store, c)
  {
    RunGrows(tr, es, i, j);
    RunGrows(tr, es, j, k);
    assert CallGrows(tr[j].store.calls[c], tr[k].store.calls[c]);
  }
}
