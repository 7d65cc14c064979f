/** What a change of watched files leaves behind, uninterrupted, told by the state of the
    pipeline and of the tree renderer instead of by the steps. */
module WatchedFiles {
  import opened FlateTree
  import opened Options
  import opened RenderFreshness
  import opened RenderPipeline

  lemma {:induction false} LeadsSplit(s: System, a: seq<Event>, b: seq<Event>, now: nat, t: System)
      returns (m: System)
    requires Leads(s, a + b, now, t)
    ensures Leads(s, a, now, m) && Leads(m, b, now, t)
    decreases |a|
  {
    hide Next, Enabled;
    if a == [] {
      m := s;
      assert a + b == b;
    } else {
      assert (a + b)[0] == a[0] && (a + b)[1..] == a[1..] + b;
      m := LeadsSplit(Next(s, a[0], now), a[1..], b, now, t);
    }
  }

  lemma LeadsOne(s: System, e: Event, now: nat, t: System)
    requires Leads(s, [e], now, t)
    ensures Enabled(s, e) && t == Next(s, e, now)
  {
    hide Next, Enabled;
    assert [e][1..] == [];
  }

  // --- documents ---

  /** One step a document, in order. */
  lemma {:induction false} SchedulesAre(sources: seq<Source>)
    ensures |Schedules(sources)| == |sources|
    ensures forall n :: 0 <= n < |sources| ==>
              Schedules(sources)[n] == Schedule(sources[n].uri, sources[n].text, sources[n].found)
  {
    if sources != [] {
      SchedulesAre(sources[..|sources| - 1]);
    }
  }

  /** Document n has a renderer and does not come again. */
  predicate ToRender(sources: seq<Source>, n: nat) {
    && n < |sources| && sources[n].found
    && forall m :: n < m < |sources| ==> sources[m].uri != sources[n].uri
  }

  /** A new render of this text is under way. */
  predicate Awaits(p: PipeState, uri: string, text: string) {
    uri in p.pending && p.jobs[p.pending[uri]].(armedAt := 0) == Job(uri, text, p.epoch, 0, Live, Armed)
  }

  lemma ScheduledNext(p: PipeState, d: Source, now: nat, uri: string, text: string)
    requires p.cache == map[]
    ensures var q := DoSchedule(p, d.uri, d.text, d.found, now);
            && q.cache == map[] && q.epoch == p.epoch
            && (d.found ==> Awaits(q, d.uri, d.text))
            && (Awaits(p, uri, text) && d.uri != uri ==> Awaits(q, uri, text))
  {
    hide DoSchedule;
    if d.found {
      ScheduleLaw(p, d.uri, d.text, now);
    } else {
      NobodyWants(p, d.uri, d.text, now);
    }
  }

  /** With nothing cached, scheduling leaves each document with a new render of its text. */
  lemma {:induction false} DocumentsAwait(s: System, sources: seq<Source>, now: nat, t: System)
    requires Leads(s, Schedules(sources), now, t) && s.pipe.cache == map[]
    ensures t.tree == s.tree && t.pipe.cache == map[] && t.pipe.epoch == s.pipe.epoch
    ensures forall n :: 0 <= n < |sources| && ToRender(sources, n) ==> Awaits(t.pipe, sources[n].uri, sources[n].text)
  {
    hide DoSchedule, Awaits, Leads;
    if sources == [] {
      StaysPut(s, now, t);
    } else {
      var init, d := sources[..|sources| - 1], sources[|sources| - 1];
      var e := Schedule(d.uri, d.text, d.found);
      var m := LeadsSplit(s, Schedules(init), [e], now, t);
      DocumentsAwait(s, init, now, m);
      LeadsOne(m, e, now, t);
      forall n | 0 <= n < |sources| && ToRender(sources, n)
        ensures Awaits(t.pipe, sources[n].uri, sources[n].text)
      {
        ScheduledNext(m.pipe, d, now, sources[n].uri, sources[n].text);
        if n < |init| {
          assert ToRender(init, n) by {
            assert forall k :: n < k < |init| ==> init[k] == sources[k];
          }
          assert init[n] == sources[n];
        }
      }
      ScheduledNext(m.pipe, d, now, d.uri, d.text);
    }
  }

  lemma StaysPut(s: System, now: nat, t: System)
    requires Leads(s, [], now, t)
    ensures t == s
  {
  }

  // --- trees ---

  /** One of the changed files lies below the root, or its place is not known. */
  ghost predicate SomeInside(tree: TreeState, changes: seq<Change>) {
    exists path: Option<Path> :: OtherFile(path) in changes && GoesOnFrom(tree, path)
  }

  /** The generation rises exactly when a changed file counts; nothing else changes. */
  lemma {:induction false} TreesAge(s: System, changes: seq<Change>, now: nat, t: System)
    requires Leads(s, TreeEvents(changes), now, t)
    ensures t.pipe == s.pipe && t.tree == s.tree.(gen := t.tree.gen) && t.tree.gen >= s.tree.gen
    ensures t.tree.gen > s.tree.gen <==> SomeInside(s.tree, changes)
    decreases |changes|
  {
    hide GoesOnFrom, TreeEvents, Leads;
    if changes == [] {
      NoChanges();
      StaysPut(s, now, t);
    } else {
      var init, c := changes[..|changes| - 1], changes[|changes| - 1];
      assert changes == init + [c];
      TreeEventsSnoc(init, c);
      var m := LeadsSplit(s, TreeEvents(init), TreeEventOf(c), now, t);
      TreesAge(s, init, now, m);
      OneChange(m, c, now, t);
      assert c in changes && forall x <- init :: x in changes;
      RootAlone(s.tree, m.tree, c);
    }
  }

  lemma RootAlone(a: TreeState, b: TreeState, c: Change)
    requires a.root == b.root
    ensures c.OtherFile? ==> (GoesOnFrom(a, c.path) <==> GoesOnFrom(b, c.path))
  {
  }

  lemma OneChange(s: System, c: Change, now: nat, t: System)
    requires Leads(s, TreeEventOf(c), now, t)
    ensures t.pipe == s.pipe
    ensures c.ConfigFile? ==> t.tree == s.tree
    ensures c.OtherFile? ==> t.tree == s.tree.(gen := if GoesOnFrom(s.tree, c.path) then s.tree.gen + 1 else s.tree.gen)
  {
    hide GoesOnFrom, DoInvalidateTree, Leads;
    match c
    case ConfigFile => StaysPut(s, now, t);
    case OtherFile(path) =>
      LeadsOne(s, InvalidateTree(path), now, t);
      ChangeOutcome(s.tree, path);
  }

  lemma ChangeOutcome(tree: TreeState, path: Option<Path>)
    ensures DoInvalidateTree(tree, path) ==
            tree.(gen := if GoesOnFrom(tree, path) then tree.gen + 1 else tree.gen)
  {
    InvalidatesBelow(tree, path);
  }

  // --- the handler ---

  /** A reload puts the renderer's root in force. If the configuration differs, nothing rendered
      before is kept, and the open documents await new renders. */
  lemma ReloadLaw(s: System, r: Reload, k8sEnabled: bool, now: nat, t: System)
    requires Leads(s, ReloadEvents(r, k8sEnabled), now, t)
    ensures t.tree == s.tree.(root := r.root)
    ensures t.pipe.epoch == s.pipe.epoch + if r.changed then 1 else 0
    ensures r.changed ==> t.pipe.cache == map[]
    ensures r.changed && k8sEnabled ==>
              forall n :: 0 <= n < |r.documents| && ToRender(r.documents, n) ==>
                Awaits(t.pipe, r.documents[n].uri, r.documents[n].text)
    ensures !r.changed && !k8sEnabled ==> t.pipe == s.pipe
  {
    hide DoSchedule, Awaits, Leads, Schedules;
    var clears := if r.changed then [InvalidateAll] else [];
    var renders := if k8sEnabled then Schedules(r.documents) else [];
    var roots := [Reconfigure(r.workspace), Reconfigure(r.root)];
    assert roots + clears + renders == roots + (clears + renders);
    var a := LeadsSplit(s, roots, clears + renders, now, t);
    RootsChange(s, r, now, a);
    var b := LeadsSplit(a, clears, renders, now, t);
    if r.changed {
      LeadsOne(a, InvalidateAll, now, b);
      InvalidateAllLaw(a.pipe);
    } else {
      StaysPut(a, now, b);
    }
    RendersKeep(b, r.documents, k8sEnabled, now, t);
    if r.changed && k8sEnabled {
      DocumentsAwait(b, r.documents, now, t);
    }
  }

  lemma RootsChange(s: System, r: Reload, now: nat, t: System)
    requires Leads(s, [Reconfigure(r.workspace), Reconfigure(r.root)], now, t)
    ensures t == s.(tree := s.tree.(root := r.root))
  {
    hide Leads;
    assert [Reconfigure(r.workspace), Reconfigure(r.root)] == [Reconfigure(r.workspace)] + [Reconfigure(r.root)];
    var m := LeadsSplit(s, [Reconfigure(r.workspace)], [Reconfigure(r.root)], now, t);
    LeadsOne(s, Reconfigure(r.workspace), now, m);
    LeadsOne(m, Reconfigure(r.root), now, t);
  }

  /** Scheduling changes neither the tree nor the cache nor the epoch. */
  lemma {:induction false} SchedulingKeeps(s: System, sources: seq<Source>, now: nat, t: System)
    requires Leads(s, Schedules(sources), now, t)
    ensures t.tree == s.tree && t.pipe.cache == s.pipe.cache && t.pipe.epoch == s.pipe.epoch
  {
    hide DoSchedule, Leads;
    if sources == [] {
      StaysPut(s, now, t);
    } else {
      var init, d := sources[..|sources| - 1], sources[|sources| - 1];
      var e := Schedule(d.uri, d.text, d.found);
      var m := LeadsSplit(s, Schedules(init), [e], now, t);
      SchedulingKeeps(s, init, now, m);
      LeadsOne(m, e, now, t);
      if d.found {
        ScheduleLaw(m.pipe, d.uri, d.text, now);
      } else {
        NobodyWants(m.pipe, d.uri, d.text, now);
      }
    }
  }

  lemma RendersKeep(s: System, sources: seq<Source>, k8sEnabled: bool, now: nat, t: System)
    requires Leads(s, if k8sEnabled then Schedules(sources) else [], now, t)
    ensures t.tree == s.tree && t.pipe.cache == s.pipe.cache && t.pipe.epoch == s.pipe.epoch
    ensures !k8sEnabled ==> t == s
  {
    hide Leads, Schedules;
    if k8sEnabled {
      SchedulingKeeps(s, sources, now, t);
    } else {
      StaysPut(s, now, t);
    }
  }

  predicate OtherChanged(changes: seq<Change>) { exists n :: 0 <= n < |changes| && changes[n] != ConfigFile }

  /** After the handler: the generation is higher exactly when a changed file counts, the root
      is the reloaded one if the configuration changed and can be read, and when any other file
      changed, nothing rendered before is kept and every open document with a renderer awaits a
      new render of its text. A change of an unreadable configuration alone does nothing. */
  lemma HandlerLaw(s: System, changes: seq<Change>, k8sEnabled: bool, reload: Option<Reload>, sources: seq<Source>,
                   now: nat, t: System)
    requires Leads(s, WatchedFilesScript(changes, k8sEnabled, reload, Schedules(sources)), now, t)
    ensures t.tree.root == if ConfigFile in changes && reload.Some? then reload.value.root else s.tree.root
    ensures t.tree.gen >= s.tree.gen && (t.tree.gen > s.tree.gen <==> SomeInside(s.tree, changes))
    ensures t.tree.cached == s.tree.cached && t.tree.watched == s.tree.watched
    ensures OtherChanged(changes) && k8sEnabled ==>
              && t.pipe.cache == map[] && t.pipe.epoch > s.pipe.epoch
              && forall n :: 0 <= n < |sources| && ToRender(sources, n) ==>
                   Awaits(t.pipe, sources[n].uri, sources[n].text)
    ensures !OtherChanged(changes) && ConfigFile in changes && reload.Some? ==>
              Leads(s, ReloadEvents(reload.value, k8sEnabled), now, t)
    ensures !OtherChanged(changes) && reload.None? ==> t == s
  {
    hide DoSchedule, Awaits, Leads, Schedules, TreeEvents, ReloadEvents, SomeInside;
    OtherKinds(changes);
    var reloads := if ConfigChanged(changes) && reload.Some? then ReloadEvents(reload.value, k8sEnabled) else [];
    var renders := if TreeChanged(changes) && k8sEnabled then [InvalidateAll] + Schedules(sources) else [];
    assert TreeEvents(changes) + reloads + renders == TreeEvents(changes) + (reloads + renders);
    var a := LeadsSplit(s, TreeEvents(changes), reloads + renders, now, t);
    var b := LeadsSplit(a, reloads, renders, now, t);
    TreesAge(s, changes, now, a);
    if ConfigChanged(changes) && reload.Some? {
      ReloadLaw(a, reload.value, k8sEnabled, now, b);
    } else {
      StaysPut(a, now, b);
    }
    if TreeChanged(changes) && k8sEnabled {
      var c := LeadsSplit(b, [InvalidateAll], Schedules(sources), now, t);
      LeadsOne(b, InvalidateAll, now, c);
      InvalidateAllLaw(b.pipe);
      DocumentsAwait(c, sources, now, t);
    } else {
      StaysPut(b, now, t);
    }
    if !TreeChanged(changes) {
      StaysPut(s, now, a);
    }
  }

  lemma OtherKinds(changes: seq<Change>)
    ensures ConfigChanged(changes) <==> ConfigFile in changes
    ensures TreeChanged(changes) <==> OtherChanged(changes)
    ensures !TreeChanged(changes) ==> TreeEvents(changes) == []
  {
    if !TreeChanged(changes) && TreeEvents(changes) != [] {
      assert TreeEvents(changes)[0] in TreeEvents(changes);
    }
  }
}
