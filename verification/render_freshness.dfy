/** Pipeline and tree renderer together, under every interleaving of their
    sections. Step i of a run leads from tr[i] to tr[i + 1]; i is the clock that
    jobs and builds are stamped with. */
module RenderFreshness {
  import opened FlateTree
  import opened Options
  import opened RenderPipeline

  datatype System = System(pipe: PipeState, tree: TreeState)

  datatype Event =
    | Schedule(uri: string, text: string, found: bool)
    | Cancel(uri: string)
    | InvalidateAll
    | Commit(job: nat)
    | InvalidateTree(path: Option<Path>)
    | Reconfigure(root: Option<Path>)
    | WatchOn
    | TimerFires(job: nat)
    | DeadlinePasses(job: nat)
    | RenderWithoutTree(job: nat, err: RenderError)
    | ReadRoot(job: nat)
    | LoadMode(job: nat)
    | ReadGen(job: nat)
    | WalkTree(job: nat, fingerprint: string)
    | EnterTree(job: nat, docErr: RenderError)
    | LeaveTree(job: nat, buildErr: RenderError, docErr: RenderError)

  predicate InPhase(s: System, j: nat, ok: Phase -> bool) {
    j < |s.pipe.jobs| && ok(s.pipe.jobs[j].phase)
  }

  predicate Enabled(s: System, e: Event) {
    match e
    case Schedule(_, _, _) => true
    case Cancel(_) => true
    case InvalidateAll => true
    case InvalidateTree(_) => true
    case Reconfigure(_) => true
    case WatchOn => true
    case Commit(j) => InPhase(s, j, (ph: Phase) => ph.Rendered?)
    case TimerFires(j) => InPhase(s, j, (ph: Phase) => ph.Armed?)
    case DeadlinePasses(j) => j < |s.pipe.jobs| && s.pipe.jobs[j].ctx.Live?
    case RenderWithoutTree(j, err) =>
      // no name to scope to, no build root, or the fingerprint walk failed
      InPhase(s, j, (ph: Phase) => ph.Fired? || ph.Walking?) && !err.ContextError?
    case ReadRoot(j) => InPhase(s, j, (ph: Phase) => ph.Fired?) && s.tree.root.Some?
    case LoadMode(j) => InPhase(s, j, (ph: Phase) => ph.Rooted?)
    case ReadGen(j) => InPhase(s, j, (ph: Phase) => ph.Watching?)
    case WalkTree(j, fingerprint) => InPhase(s, j, (ph: Phase) => ph.Walking?) && fingerprint != ""
    case EnterTree(j, docErr) =>
      InPhase(s, j, (ph: Phase) => ph.Keyed?) && s.tree.holder.None? && !docErr.ContextError?
    case LeaveTree(j, _, docErr) =>
      InPhase(s, j, (ph: Phase) => ph.Building?) && s.tree.holder == Some(j) && !docErr.ContextError?
  }

  function Next(s: System, e: Event, now: nat): System
    requires Enabled(s, e)
  {
    match e
    case Schedule(uri, text, found) => s.(pipe := DoSchedule(s.pipe, uri, text, found, now))
    case Cancel(uri) => s.(pipe := DoCancel(s.pipe, uri))
    case InvalidateAll => s.(pipe := DoInvalidateAll(s.pipe))
    case Commit(j) => s.(pipe := DoCommit(s.pipe, j))
    case InvalidateTree(path) => s.(tree := DoInvalidateTree(s.tree, path))
    case Reconfigure(root) => s.(tree := s.tree.(root := root))
    case WatchOn => s.(tree := s.tree.(watched := true))
    case TimerFires(j) => s.(pipe := SetPhase(s.pipe, j, Fired))
    case DeadlinePasses(j) => s.(pipe := s.pipe.(jobs := s.pipe.jobs[j := s.pipe.jobs[j].(ctx := Expired)]))
    case RenderWithoutTree(j, err) => s.(pipe := SetPhase(s.pipe, j, Rendered(NoTree, err)))
    case ReadRoot(j) => s.(pipe := SetPhase(s.pipe, j, Rooted(s.tree.root.value)))
    case LoadMode(j) =>
      var root := s.pipe.jobs[j].phase.root;
      s.(pipe := SetPhase(s.pipe, j, if s.tree.watched then Watching(root) else Walking(root)))
    case ReadGen(j) => s.(pipe := SetPhase(s.pipe, j, Keyed(TreeKey(s.pipe.jobs[j].phase.root, "", s.tree.gen))))
    case WalkTree(j, fingerprint) =>
      s.(pipe := SetPhase(s.pipe, j, Keyed(TreeKey(s.pipe.jobs[j].phase.root, fingerprint, 0))))
    case EnterTree(j, docErr) =>
      var job := s.pipe.jobs[j];
      var (tree, phase) := DoEnter(s.tree, j, job.phase.key, job.ctx, docErr, now);
      System(SetPhase(s.pipe, j, phase), tree)
    case LeaveTree(j, buildErr, docErr) =>
      var job := s.pipe.jobs[j];
      var (tree, phase) := DoLeave(s.tree, job.phase.key, job.phase.began, job.ctx, buildErr, docErr);
      System(SetPhase(s.pipe, j, phase), tree)
  }

  /** Step i of the run was possible and led on. */
  ghost predicate Stepped(tr: seq<System>, es: seq<Event>, i: nat)
    requires |tr| == |es| + 1 && i < |es|
  {
    Enabled(tr[i], es[i]) && tr[i + 1] == Next(tr[i], es[i], i)
  }

  ghost predicate IsRun(tr: seq<System>, es: seq<Event>) {
    && |tr| == |es| + 1
    && tr[0].pipe == PipeData(map[], map[], 0, [])
    && tr[0].tree == TreeState(tr[0].tree.root, 0, false, None, None)
    && forall i: nat :: i < |es| ==> Stepped(tr, es, i)
  }

  lemma StepOf(tr: seq<System>, es: seq<Event>, i: nat)
    requires IsRun(tr, es) && i < |es|
    ensures Enabled(tr[i], es[i]) && tr[i + 1] == Next(tr[i], es[i], i)
  {
    assert Stepped(tr, es, i);
  }

  // --- what single steps do ---

  /** A scheduled document is answered from the cache if and only if its very text was rendered;
      otherwise a render of that text is armed under the current epoch. */
  lemma ScheduleStep(tr: seq<System>, es: seq<Event>, i: nat)
    requires IsRun(tr, es) && i < |es| && es[i].Schedule? && es[i].found
    ensures var p, q, uri, text := tr[i].pipe, tr[i + 1].pipe, es[i].uri, es[i].text;
            && q.cache == p.cache
            && if uri in p.cache && p.jobs[p.cache[uri].out.job].text == text then
                 |q.jobs| == |p.jobs| && uri !in q.pending
               else
                 && |q.jobs| == |p.jobs| + 1 && uri in q.pending && q.pending[uri] == |p.jobs|
                 && q.jobs[|p.jobs|] == Job(uri, text, p.epoch, i, Live, Armed)
  {
    hide DoSchedule;
    StepOf(tr, es, i);
    ScheduleLaw(tr[i].pipe, es[i].uri, es[i].text, i);
  }

  /** A cancelled document has neither a pending nor a cached render. */
  lemma CancelStep(tr: seq<System>, es: seq<Event>, i: nat)
    requires IsRun(tr, es) && i < |es| && es[i].Cancel?
    ensures es[i].uri !in tr[i + 1].pipe.pending && es[i].uri !in tr[i + 1].pipe.cache
  {
    hide DoCancel;
    StepOf(tr, es, i);
    CancelLaw(tr[i].pipe, es[i].uri);
  }

  predicate Ended(p: PipeState, j: nat, armed: bool) {
    j < |p.jobs| && p.jobs[j].ctx != Live && (armed ==> p.jobs[j].phase == Stopped)
  }

  lemma EndedStep(s: System, e: Event, now: nat, j: nat, armed: bool)
    requires Enabled(s, e) && Ended(s.pipe, j, armed)
    ensures Ended(Next(s, e, now).pipe, j, armed)
  {
    hide DoCommit, Supersede, CacheHit;
    if e.Commit? {
      CommitLaw(s.pipe, e.job);
    } else if e.Schedule? || e.Cancel? {
      SupersedeLaw(s.pipe, e.uri);
    }
  }

  lemma {:induction false} EndedRun(tr: seq<System>, es: seq<Event>, i: nat, k: nat, j: nat, armed: bool)
    requires IsRun(tr, es) && i <= k < |tr| && Ended(tr[i].pipe, j, armed)
    ensures Ended(tr[k].pipe, j, armed)
    decreases k
  {
    hide Next, Enabled, Ended;
    if i < k {
      EndedRun(tr, es, i, k - 1, j, armed);
      StepOf(tr, es, k - 1);
      EndedStep(tr[k - 1], es[k - 1], k - 1, j, armed);
    }
  }

  /** A render that is superseded or cancelled has its context cancelled for good, and if its
      timer had not fired yet, it never fires. */
  lemma SupersededStaysEnded(tr: seq<System>, es: seq<Event>, i: nat, k: nat, uri: string)
    requires IsRun(tr, es) && i < |es| && i < k < |tr| && uri in tr[i].pipe.pending
    requires (es[i].Schedule? && es[i].found && es[i].uri == uri) || es[i] == Cancel(uri)
    ensures var j := tr[i].pipe.pending[uri];
            && j < |tr[k].pipe.jobs| && tr[k].pipe.jobs[j].ctx != Live
            && (tr[i].pipe.jobs[j].phase == Armed ==> tr[k].pipe.jobs[j].phase == Stopped)
  {
    hide DoSchedule, DoCancel, IsRun;
    var p, j := tr[i].pipe, tr[i].pipe.pending[uri];
    StepOf(tr, es, i);
    SupersededEnds(p, es[i], i, uri);
    EndedRun(tr, es, i + 1, k, j, p.jobs[j].phase == Armed);
  }

  lemma SupersededEnds(p: PipeState, e: Event, now: nat, uri: string)
    requires uri in p.pending
    ensures e.Schedule? && e.found && e.uri == uri ==>
              Ended(DoSchedule(p, uri, e.text, true, now), p.pending[uri], p.jobs[p.pending[uri]].phase == Armed)
    ensures e == Cancel(uri) ==> Ended(DoCancel(p, uri), p.pending[uri], p.jobs[p.pending[uri]].phase == Armed)
  {
    SupersedeLaw(p, uri);
  }

  /** A build whose render was superseded leaves the cached tree as it was; one that ran out of
      time leaves only that error. */
  lemma LeaveStep(tr: seq<System>, es: seq<Event>, i: nat)
    requires IsRun(tr, es) && i < |es| && es[i].LeaveTree?
    ensures es[i].job < |tr[i].pipe.jobs| && tr[i].pipe.jobs[es[i].job].phase.Building?
    ensures var job, was, now := tr[i].pipe.jobs[es[i].job], tr[i].tree.cached, tr[i + 1].tree.cached;
            var key, began := job.phase.key, job.phase.began;
            && (job.ctx == Canceled ==> now == was)
            && (job.ctx == Expired ==> now == Some(CachedTree(key, began, ContextError)))
            && (job.ctx == Live ==> now == Some(CachedTree(key, began, es[i].buildErr)))
  {
    StepOf(tr, es, i);
  }

  // --- two kinds of steps ---

  /** Steps that only touch the pipeline leave a job's render where it was, or end it. */
  predicate PipelineStep(e: Event) {
    || e.Schedule? || e.Cancel? || e.InvalidateAll? || e.Commit? || e.InvalidateTree? || e.Reconfigure? || e.WatchOn?
    || e.DeadlinePasses?
  }

  lemma PipelineStepPhases(s: System, e: Event, now: nat, j: nat)
    requires Enabled(s, e) && PipelineStep(e) && j < |Next(s, e, now).pipe.jobs|
    ensures var phase := Next(s, e, now).pipe.jobs[j].phase;
            phase.Armed? || phase.Stopped? || phase.Finished? || (j < |s.pipe.jobs| && phase == s.pipe.jobs[j].phase)
    ensures j >= |s.pipe.jobs| ==>
              Next(s, e, now).pipe.jobs[j].armedAt == now && Next(s, e, now).pipe.jobs[j].epoch == s.pipe.epoch
  {
    hide DoCommit, Supersede, CacheHit;
    if e.Commit? {
      CommitLaw(s.pipe, e.job);
    } else if e.Schedule? || e.Cancel? {
      SupersedeLaw(s.pipe, e.uri);
    }
  }

  lemma TreeStays(s: System, e: Event, now: nat)
    requires Enabled(s, e) && PipelineStep(e)
    ensures Next(s, e, now).tree.cached == s.tree.cached
  {
    hide DoCommit, DoSchedule, DoCancel;
  }

  lemma RenderStepPhases(s: System, e: Event, now: nat, j: nat)
    requires Enabled(s, e) && !PipelineStep(e) && j < |s.pipe.jobs|
    ensures |Next(s, e, now).pipe.jobs| == |s.pipe.jobs|
    ensures j != e.job ==> Next(s, e, now).pipe.jobs[j] == s.pipe.jobs[j]
    ensures Next(s, e, now).pipe.cache == s.pipe.cache && Next(s, e, now).pipe.epoch == s.pipe.epoch
  {
  }

  // --- what only grows along a run ---

  predicate Grows(s: System, t: System) {
    && s.tree.gen <= t.tree.gen
    && s.pipe.epoch <= t.pipe.epoch
    && (s.tree.watched ==> t.tree.watched)
    && |s.pipe.jobs| <= |t.pipe.jobs|
    && forall j {:trigger t.pipe.jobs[j]} :: 0 <= j < |s.pipe.jobs| ==>
         && t.pipe.jobs[j].uri == s.pipe.jobs[j].uri
         && t.pipe.jobs[j].text == s.pipe.jobs[j].text
         && t.pipe.jobs[j].epoch == s.pipe.jobs[j].epoch
         && t.pipe.jobs[j].armedAt == s.pipe.jobs[j].armedAt
         && (s.pipe.jobs[j].phase.Finished? ==> t.pipe.jobs[j].phase.Finished?)
  }

  lemma PipelineStepGrows(s: System, e: Event, now: nat)
    requires Enabled(s, e) && PipelineStep(e)
    ensures Grows(s, Next(s, e, now))
  {
    hide DoCommit, Supersede, CacheHit;
    if e.Commit? {
      CommitLaw(s.pipe, e.job);
    } else if e.Schedule? || e.Cancel? {
      SupersedeLaw(s.pipe, e.uri);
    }
  }

  lemma RenderStepGrows(s: System, e: Event, now: nat)
    requires Enabled(s, e) && !PipelineStep(e)
    ensures Grows(s, Next(s, e, now))
  {
    if e.job < |s.pipe.jobs| {
      RenderStepPhases(s, e, now, e.job);
    }
  }

  lemma StepGrows(s: System, e: Event, now: nat)
    requires Enabled(s, e)
    ensures Grows(s, Next(s, e, now))
  {
    hide Enabled, Next, Grows;
    if PipelineStep(e) {
      PipelineStepGrows(s, e, now);
    } else {
      RenderStepGrows(s, e, now);
    }
  }

  lemma {:induction false} RunGrows(tr: seq<System>, es: seq<Event>, i: nat, k: nat)
    requires IsRun(tr, es) && i <= k < |tr|
    ensures Grows(tr[i], tr[k])
    decreases k
  {
    hide Next, Enabled;
    if i < k {
      RunGrows(tr, es, i, k - 1);
      StepOf(tr, es, k - 1);
      StepGrows(tr[k - 1], es[k - 1], k - 1);
    }
  }

  // --- the invariant behind freshness ---

  /** The generation when the build began was no older than when the job was armed. */
  predicate BegunSince(tr: seq<System>, armedAt: nat, began: nat)
    requires armedAt < |tr|
  {
    began < |tr| && tr[armedAt].tree.gen <= tr[began].tree.gen
  }

  /** A key of a job armed while files are watched is a generation read since. */
  predicate KeyReadSince(tr: seq<System>, armedAt: nat, key: TreeKey)
    requires armedAt < |tr|
  {
    key.fingerprint == "" && tr[armedAt].tree.gen <= key.gen
  }

  predicate GenNoLaterThan(tr: seq<System>, key: TreeKey, began: nat) {
    began < |tr| && (key.fingerprint == "" ==> key.gen <= tr[began].tree.gen)
  }

  predicate JobInv(tr: seq<System>, i: nat, job: Job)
    requires i < |tr|
  {
    && job.armedAt < i
    && job.epoch == tr[job.armedAt].pipe.epoch
    && (job.phase.Keyed? ==> (job.phase.key.fingerprint == "" ==> job.phase.key.gen <= tr[i].tree.gen))
    && (job.phase.Building? ==> job.phase.began < i && GenNoLaterThan(tr, job.phase.key, job.phase.began))
    && (tr[job.armedAt].tree.watched ==>
          && !job.phase.Walking?
          && (job.phase.Keyed? ==> KeyReadSince(tr, job.armedAt, job.phase.key))
          && (job.phase.Building? ==> KeyReadSince(tr, job.armedAt, job.phase.key))
          && (job.phase.Rendered? && job.phase.origin.FromTree? ==>
                BegunSince(tr, job.armedAt, job.phase.origin.began)))
  }

  predicate EntryInv(tr: seq<System>, i: nat, uri: string)
    requires i < |tr| && uri in tr[i].pipe.cache
  {
    var s, c := tr[i].pipe, tr[i].pipe.cache[uri];
    && c.out.job < |s.jobs|
    && s.jobs[c.out.job].armedAt < i
    && s.jobs[c.out.job].uri == uri
    && c.hash == ContentHash(s.jobs[c.out.job].text)
    && s.jobs[c.out.job].epoch == s.epoch
    && !c.err.ContextError?
    && (tr[s.jobs[c.out.job].armedAt].tree.watched && c.out.origin.FromTree? ==>
          BegunSince(tr, s.jobs[c.out.job].armedAt, c.out.origin.began))
  }

  ghost predicate Inv(tr: seq<System>, i: nat)
    requires i < |tr|
  {
    && (forall j {:trigger tr[i].pipe.jobs[j]} :: 0 <= j < |tr[i].pipe.jobs| ==> JobInv(tr, i, tr[i].pipe.jobs[j]))
    && (forall uri :: uri in tr[i].pipe.cache ==> EntryInv(tr, i, uri))
    && TreeInv(tr, i)
  }

  /** The cached tree was built before now, under a key no newer than its build. */
  predicate TreeInv(tr: seq<System>, i: nat)
    requires i < |tr|
  {
    tr[i].tree.cached.Some? ==>
      && tr[i].tree.cached.value.began < i
      && GenNoLaterThan(tr, tr[i].tree.cached.value.key, tr[i].tree.cached.value.began)
  }

  /** The job a render step moves on: its new phase carries what its old one, or the
      cached tree, knew. */
  lemma RenderStepKeepsInv(tr: seq<System>, es: seq<Event>, i: nat)
    requires IsRun(tr, es) && i < |es| && !PipelineStep(es[i]) && Inv(tr, i)
    ensures Stepped(tr, es, i) && JobInv(tr, i + 1, tr[i + 1].pipe.jobs[es[i].job])
  {
    var s, t, j := tr[i], tr[i + 1], es[i].job;
    StepOf(tr, es, i);
    var job := s.pipe.jobs[j];
    assert JobInv(tr, i, job);
    RunGrows(tr, es, job.armedAt, i);
  }

  lemma JobsKeepInv(tr: seq<System>, es: seq<Event>, i: nat, j: nat)
    requires IsRun(tr, es) && i < |es| && Inv(tr, i) && j < |tr[i + 1].pipe.jobs|
    ensures JobInv(tr, i + 1, tr[i + 1].pipe.jobs[j])
  {
    var s, t := tr[i], tr[i + 1];
    StepOf(tr, es, i);
    RunGrows(tr, es, i, i + 1);
    if j < |s.pipe.jobs| {
      assert JobInv(tr, i, s.pipe.jobs[j]);
    }
    if PipelineStep(es[i]) {
      PipelineStepPhases(s, es[i], i, j);
    } else {
      RenderStepPhases(s, es[i], i, es[i].job);
      RenderStepKeepsInv(tr, es, i);
      RenderStepPhases(s, es[i], i, j);
    }
  }

  /** A cached entry was there before the step, in the same epoch, or the step is the
      commit that wrote it. */
  lemma EntryOrigin(s: System, e: Event, now: nat, uri: string)
    requires Enabled(s, e) && uri in Next(s, e, now).pipe.cache
    ensures var t := Next(s, e, now).pipe;
            || (uri in s.pipe.cache && t.cache[uri] == s.pipe.cache[uri] && t.epoch == s.pipe.epoch)
            || (e.Commit? && Current(s.pipe, e.job) && s.pipe.jobs[e.job].uri == uri && t.epoch == s.pipe.epoch &&
                var job := s.pipe.jobs[e.job];
                !job.phase.err.ContextError? &&
                t.cache[uri] == CacheEntry(ContentHash(job.text), Output(e.job, job.phase.origin), job.phase.err))
  {
    hide DoCommit, Supersede, CacheHit;
    if e.Commit? {
      CommitLaw(s.pipe, e.job);
    } else if e.Schedule? || e.Cancel? {
      SupersedeLaw(s.pipe, e.uri);
    }
  }

  lemma EntriesKeepInv(tr: seq<System>, es: seq<Event>, i: nat, uri: string)
    requires IsRun(tr, es) && i < |es| && Inv(tr, i) && uri in tr[i + 1].pipe.cache
    ensures EntryInv(tr, i + 1, uri)
  {
    var s := tr[i].pipe;
    StepOf(tr, es, i);
    RunGrows(tr, es, i, i + 1);
    EntryOrigin(tr[i], es[i], i, uri);
    if uri in s.cache && tr[i + 1].pipe.cache[uri] == s.cache[uri] && tr[i + 1].pipe.epoch == s.epoch {
      assert EntryInv(tr, i, uri);
    } else {
      assert JobInv(tr, i, s.jobs[es[i].job]);
    }
  }

  lemma TreeKeepsInv(tr: seq<System>, es: seq<Event>, i: nat)
    requires IsRun(tr, es) && i < |es| && Inv(tr, i)
    ensures TreeInv(tr, i + 1)
  {
    hide EntryInv, DoCommit, DoSchedule, DoCancel;
    StepOf(tr, es, i);
    if PipelineStep(es[i]) {
      TreeStays(tr[i], es[i], i);
    } else {
      assert JobInv(tr, i, tr[i].pipe.jobs[es[i].job]);
    }
  }

  lemma InvStarts(tr: seq<System>, es: seq<Event>)
    requires IsRun(tr, es)
    ensures Inv(tr, 0)
  {
  }

  lemma {:induction false} InvHolds(tr: seq<System>, es: seq<Event>, i: nat)
    requires IsRun(tr, es) && i < |tr|
    ensures Inv(tr, i)
  {
    hide JobInv, EntryInv, TreeInv, Next, Enabled;
    if i == 0 {
      InvStarts(tr, es);
    } else {
      InvHolds(tr, es, i - 1);
      TreeKeepsInv(tr, es, i - 1);
      forall j {:trigger tr[i].pipe.jobs[j]} | 0 <= j < |tr[i].pipe.jobs|
        ensures JobInv(tr, i, tr[i].pipe.jobs[j])
      {
        JobsKeepInv(tr, es, i - 1, j);
      }
      forall uri | uri in tr[i].pipe.cache
        ensures EntryInv(tr, i, uri)
      {
        EntriesKeepInv(tr, es, i - 1, uri);
      }
    }
  }

  // --- freshness ---

  /** Step a is a watched-file event that counts; step b, later, forgets every
      cached render while files are watched. */
  ghost predicate Invalidated(tr: seq<System>, es: seq<Event>, a: nat, b: nat)
    requires |tr| == |es| + 1
  {
    && a < b < |es|
    && es[a].InvalidateTree? && GoesOnFrom(tr[a].tree, es[a].path)
    && es[b].InvalidateAll? && tr[b].tree.watched
  }

  lemma ArmedInNewEpochIsFresh(tr: seq<System>, es: seq<Event>, a: nat, b: nat, k: nat, armedAt: nat, began: nat)
    requires IsRun(tr, es) && Invalidated(tr, es, a, b) && b < k < |tr| && armedAt < k
    requires tr[armedAt].pipe.epoch == tr[k].pipe.epoch
    requires tr[armedAt].tree.watched ==> BegunSince(tr, armedAt, began)
    ensures b < armedAt && tr[armedAt].tree.watched && a < began
  {
    StepOf(tr, es, b);
    StepOf(tr, es, a);
    InvalidatesBelow(tr[a].tree, es[a].path);
    RunGrows(tr, es, b + 1, k);
    if armedAt <= b {
      RunGrows(tr, es, armedAt, b);
      assert false;
    } else {
      RunGrows(tr, es, b, armedAt);
      RunGrows(tr, es, a + 1, armedAt);
      if began <= a {
        RunGrows(tr, es, began, a);
      }
    }
  }

  /** Every cached output, so every later lookup, is cut from a tree begun after
      the event. */
  lemma CachedRendersAreFresh(tr: seq<System>, es: seq<Event>, a: nat, b: nat, k: nat, uri: string)
    requires IsRun(tr, es) && Invalidated(tr, es, a, b) && b < k < |tr|
    requires uri in tr[k].pipe.cache && tr[k].pipe.cache[uri].out.origin.FromTree?
    ensures a < tr[k].pipe.cache[uri].out.origin.began
  {
    InvHolds(tr, es, k);
    assert EntryInv(tr, k, uri);
    var c := tr[k].pipe.cache[uri];
    var job := tr[k].pipe.jobs[c.out.job];
    assert JobInv(tr, k, job);
    ArmedInNewEpochIsFresh(tr, es, a, b, k, job.armedAt, c.out.origin.began);
  }

  /** So it is for every file below the root that is in force when its change is reported. */
  lemma ChangedFilesAreFresh(tr: seq<System>, es: seq<Event>, a: nat, b: nat, k: nat, rest: Path, uri: string)
    requires IsRun(tr, es) && a < b < k < |tr| && es[b] == InvalidateAll && tr[b].tree.watched
    requires tr[a].tree.root.Some? && es[a] == InvalidateTree(Some(tr[a].tree.root.value + rest))
    requires uri in tr[k].pipe.cache && tr[k].pipe.cache[uri].out.origin.FromTree?
    ensures a < tr[k].pipe.cache[uri].out.origin.began
  {
    assert GoesOnFrom(tr[a].tree, es[a].path);
    CachedRendersAreFresh(tr, es, a, b, k, uri);
  }

  /** Every later commit that takes effect hands on such an output too, whether or
      not it is cached. */
  lemma CommittedRendersAreFresh(tr: seq<System>, es: seq<Event>, a: nat, b: nat, k: nat)
    requires IsRun(tr, es) && Invalidated(tr, es, a, b) && b < k < |es|
    requires es[k].Commit? && Stepped(tr, es, k) && Current(tr[k].pipe, es[k].job)
            && tr[k].pipe.jobs[es[k].job].phase.origin.FromTree?
    ensures a < tr[k].pipe.jobs[es[k].job].phase.origin.began
  {
    InvHolds(tr, es, k);
    var job := tr[k].pipe.jobs[es[k].job];
    assert JobInv(tr, k, job);
    ArmedInNewEpochIsFresh(tr, es, a, b, k, job.armedAt, job.phase.origin.began);
  }

  // --- the commit rule ---

  /** Steps that take the pipeline lock against a render of uri. */
  predicate Disturbs(e: Event, uri: string) {
    match e
    case Schedule(u, _, found) => u == uri && found
    case Cancel(u) => u == uri
    case InvalidateAll => true
    case _ => false
  }

  /** Step i armed job j. */
  predicate Arms(tr: seq<System>, es: seq<Event>, i: nat, j: nat)
    requires |tr| == |es| + 1
  {
    && i < |es|
    && es[i].Schedule? && es[i].found && !CacheHit(tr[i].pipe, es[i].uri, es[i].text)
    && j == |tr[i].pipe.jobs|
  }

  lemma RenderStepStaysCurrent(s: System, e: Event, now: nat, j: nat)
    requires Enabled(s, e) && !PipelineStep(e) && j < |s.pipe.jobs| && Current(s.pipe, j)
    ensures j < |Next(s, e, now).pipe.jobs| && Current(Next(s, e, now).pipe, j)
  {
    RenderStepPhases(s, e, now, j);
  }

  lemma CommitStaysCurrent(p: PipeState, i: nat, j: nat)
    requires i < |p.jobs| && p.jobs[i].phase.Rendered? && j < |p.jobs| && Current(p, j)
    ensures var q := DoCommit(p, i);
            j < |q.jobs| && (Current(q, j) || q.jobs[j].phase.Finished?)
  {
  }

  /** One step that does not disturb the document of a current render. */
  lemma StaysCurrentOneStep(s: System, e: Event, now: nat, j: nat)
    requires Enabled(s, e) && j < |s.pipe.jobs| && !Disturbs(e, s.pipe.jobs[j].uri)
    requires Current(s.pipe, j)
    ensures var t := Next(s, e, now).pipe;
            j < |t.jobs| && (Current(t, j) || t.jobs[j].phase.Finished?)
  {
    hide DoCommit, Supersede, CacheHit;
    if e.Commit? {
      CommitStaysCurrent(s.pipe, e.job, j);
    } else if e.Schedule? || e.Cancel? {
      SupersedeLaw(s.pipe, e.uri);
    } else if !PipelineStep(e) {
      RenderStepStaysCurrent(s, e, now, j);
    }
  }

  lemma ArmedIsCurrent(p: PipeState, uri: string, text: string, now: nat)
    requires !CacheHit(p, uri, text)
    ensures var q := DoSchedule(p, uri, text, true, now);
            var j := |p.jobs|;
            |q.jobs| == j + 1 && q.jobs[j].uri == uri && Current(q, j)
  {
  }

  lemma {:induction false} UndisturbedStaysCurrent(tr: seq<System>, es: seq<Event>, i: nat, j: nat, k: nat)
    requires IsRun(tr, es) && Arms(tr, es, i, j) && i < k < |tr|
    requires forall m :: i < m < k ==> !Disturbs(es[m], es[i].uri)
    ensures j < |tr[k].pipe.jobs| && tr[k].pipe.jobs[j].uri == es[i].uri
    ensures Current(tr[k].pipe, j) || tr[k].pipe.jobs[j].phase.Finished?
    decreases k
  {
    if k == i + 1 {
      ArmedIsCurrent(tr[i].pipe, es[i].uri, es[i].text, i);
      StepOf(tr, es, i);
      assert tr[k].pipe == DoSchedule(tr[i].pipe, es[i].uri, es[i].text, true, i);
    } else {
      UndisturbedStaysCurrent(tr, es, i, j, k - 1);
      StepOf(tr, es, k - 1);
      RunGrows(tr, es, k - 1, k);
      if Current(tr[k - 1].pipe, j) {
        StaysCurrentOneStep(tr[k - 1], es[k - 1], k - 1, j);
      }
    }
  }

  lemma StaleOneStep(s: System, e: Event, now: nat, j: nat)
    requires Enabled(s, e) && j < |s.pipe.jobs| && s.pipe.jobs[j].epoch <= s.pipe.epoch
    requires !Current(s.pipe, j) || Disturbs(e, s.pipe.jobs[j].uri)
    ensures j < |Next(s, e, now).pipe.jobs| && !Current(Next(s, e, now).pipe, j)
  {
    hide DoCommit, Supersede, CacheHit;
    if e.Commit? {
      CommitLaw(s.pipe, e.job);
    } else if e.Schedule? || e.Cancel? {
      SupersedeLaw(s.pipe, e.uri);
    }
    StepGrows(s, e, now);
    if !PipelineStep(e) {
      RenderStepPhases(s, e, now, j);
    }
  }

  lemma {:induction false} DisturbedStaysStale(tr: seq<System>, es: seq<Event>, j: nat, m: nat, k: nat)
    requires IsRun(tr, es) && m < k < |tr| && j < |tr[m].pipe.jobs|
    requires Disturbs(es[m], tr[m].pipe.jobs[j].uri)
    ensures j < |tr[k].pipe.jobs| && !Current(tr[k].pipe, j)
    decreases k
  {
    if k > m + 1 {
      DisturbedStaysStale(tr, es, j, m, k - 1);
    }
    RunGrows(tr, es, m, k - 1);
    InvHolds(tr, es, k - 1);
    assert JobInv(tr, k - 1, tr[k - 1].pipe.jobs[j]);
    RunGrows(tr, es, tr[k - 1].pipe.jobs[j].armedAt, k - 1);
    StepOf(tr, es, k - 1);
    StaleOneStep(tr[k - 1], es[k - 1], k - 1, j);
  }

  /** A finished render commits exactly when nothing took the lock against it since
      it was armed. */
  lemma CommitRule(tr: seq<System>, es: seq<Event>, i: nat, j: nat, k: nat)
    requires IsRun(tr, es) && Arms(tr, es, i, j) && i < k < |es| && es[k] == Commit(j)
    ensures Enabled(tr[k], es[k])
    ensures Current(tr[k].pipe, j) <==> forall m :: i < m < k ==> !Disturbs(es[m], es[i].uri)
  {
    StepOf(tr, es, i);
    StepOf(tr, es, k);
    if m :| i < m < k && Disturbs(es[m], es[i].uri) {
      RunGrows(tr, es, i + 1, m);
      DisturbedStaysStale(tr, es, j, m, k);
    } else {
      UndisturbedStaysCurrent(tr, es, i, j, k);
    }
  }

  lemma FinishedStays(s: System, e: Event, now: nat, j: nat)
    requires Enabled(s, e) && j < |s.pipe.jobs| && s.pipe.jobs[j].phase.Finished?
    ensures j < |Next(s, e, now).pipe.jobs| && Next(s, e, now).pipe.jobs[j].phase.Finished?
  {
    hide Next, Enabled;
    StepGrows(s, e, now);
    assert Next(s, e, now).pipe.jobs[j].uri == s.pipe.jobs[j].uri;
  }

  /** What is cached was committed. */
  lemma {:induction false} CachedIsFinished(tr: seq<System>, es: seq<Event>, i: nat, uri: string)
    requires IsRun(tr, es) && i < |tr| && uri in tr[i].pipe.cache
    ensures var p := tr[i].pipe;
            p.cache[uri].out.job < |p.jobs| && p.jobs[p.cache[uri].out.job].phase.Finished?
  {
    hide Next, Enabled;
    if i > 0 {
      StepOf(tr, es, i - 1);
      EntryCommitted(tr[i - 1], es[i - 1], i - 1, uri);
      if uri in tr[i - 1].pipe.cache && tr[i].pipe.cache[uri] == tr[i - 1].pipe.cache[uri] {
        CachedIsFinished(tr, es, i - 1, uri);
        FinishedStays(tr[i - 1], es[i - 1], i - 1, tr[i].pipe.cache[uri].out.job);
      }
    }
  }

  lemma EntryCommitted(s: System, e: Event, now: nat, uri: string)
    requires Enabled(s, e) && uri in Next(s, e, now).pipe.cache
    ensures var p, q := s.pipe, Next(s, e, now).pipe;
            || (uri in p.cache && q.cache[uri] == p.cache[uri])
            || (q.cache[uri].out.job < |q.jobs| && q.jobs[q.cache[uri].out.job].phase.Finished?)
  {
    hide DoCommit, Supersede, CacheHit;
    EntryOrigin(s, e, now, uri);
    if e.Commit? {
      CommitLaw(s.pipe, e.job);
    }
  }

  /** What a commit leaves in the cache for the render's document: the render if it is
      current and its context did not end it, else what was there. */
  lemma CommitEffect(s: System, j: nat, now: nat)
    requires Enabled(s, Commit(j))
    ensures var job, q := s.pipe.jobs[j], Next(s, Commit(j), now).pipe;
            if Current(s.pipe, j) && !job.phase.err.ContextError? then
              job.uri in q.cache && q.cache[job.uri].out.job == j && q.cache[job.uri].hash == ContentHash(job.text)
            else q.cache == s.pipe.cache
  {
  }

  /** The render armed at step i is what its document has in the cache after its commit at
      step k if and only if nothing took the lock against it in between and its context did
      not end it; and it is there under the text it was armed for. */
  lemma CommitCaches(tr: seq<System>, es: seq<Event>, i: nat, j: nat, k: nat)
    requires IsRun(tr, es) && Arms(tr, es, i, j) && i < k < |es| && es[k] == Commit(j)
    ensures Enabled(tr[k], es[k])
    ensures var uri, q := es[i].uri, tr[k + 1].pipe;
            && (uri in q.cache && q.cache[uri].out.job == j <==>
                  (forall m :: i < m < k ==> !Disturbs(es[m], uri)) && !tr[k].pipe.jobs[j].phase.err.ContextError?)
            && (uri in q.cache && q.cache[uri].out.job == j ==> q.cache[uri].hash == ContentHash(es[i].text))
  {
    hide Next, Current, Disturbs;
    CommitRule(tr, es, i, j, k);
    StepOf(tr, es, k);
    CommitEffect(tr[k], j, k);
    ArmedFor(tr, es, i, j, k);
    if es[i].uri in tr[k].pipe.cache {
      CachedIsFinished(tr, es, k, es[i].uri);
    }
  }

  lemma ArmedFor(tr: seq<System>, es: seq<Event>, i: nat, j: nat, k: nat)
    requires IsRun(tr, es) && Arms(tr, es, i, j) && i < k < |es| && es[k] == Commit(j)
    ensures Enabled(tr[k], es[k]) && j < |tr[k].pipe.jobs|
    ensures tr[k].pipe.jobs[j].phase.Rendered?
    ensures tr[k].pipe.jobs[j].uri == es[i].uri && tr[k].pipe.jobs[j].text == es[i].text
  {
    StepOf(tr, es, i);
    StepOf(tr, es, k);
    RunGrows(tr, es, i + 1, k);
  }

  /** Every cached entry in every reachable state: of the current epoch, under the
      hash of the text its own job rendered, and no context error. */
  lemma CacheIsSound(tr: seq<System>, es: seq<Event>, k: nat, uri: string)
    requires IsRun(tr, es) && k < |tr| && uri in tr[k].pipe.cache
    ensures var p, c := tr[k].pipe, tr[k].pipe.cache[uri];
            && c.out.job < |p.jobs|
            && p.jobs[c.out.job].uri == uri
            && p.jobs[c.out.job].epoch == p.epoch
            && c.hash == ContentHash(p.jobs[c.out.job].text)
            && !c.err.ContextError?
  {
    InvHolds(tr, es, k);
    assert EntryInv(tr, k, uri);
  }

  // --- the handler ---

  datatype Change = ConfigFile | OtherFile(path: Option<Path>)

  predicate ConfigChanged(changes: seq<Change>) { ConfigFile in changes }

  predicate TreeChanged(changes: seq<Change>) { exists c <- changes :: c.OtherFile? }

  function TreeEvents(changes: seq<Change>): (r: seq<Event>)
    ensures forall c <- changes :: c.OtherFile? ==> InvalidateTree(c.path) in r
    ensures forall e <- r :: e.InvalidateTree? && OtherFile(e.path) in changes
  {
    if changes == [] then [] else TreeEventOf(changes[0]) + TreeEvents(changes[1..])
  }

  function TreeEventOf(c: Change): (r: seq<Event>) {
    match c
    case ConfigFile => []
    case OtherFile(path) => [InvalidateTree(path)]
  }

  /** A document the server schedules a render for, and whether a renderer wants it. */
  datatype Source = Source(uri: string, text: string, found: bool)

  function Schedules(sources: seq<Source>): seq<Event> {
    if sources == [] then []
    else
      var last := sources[|sources| - 1];
      Schedules(sources[..|sources| - 1]) + [Schedule(last.uri, last.text, last.found)]
  }

  /** A configuration that could be read: the build root once the workspace's and then the
      renderer's own part of it is in force, whether the renderers' configuration changed, and
      the documents open then. */
  datatype Reload = Reload(workspace: Option<Path>, root: Option<Path>, changed: bool, documents: seq<Source>)

  function ReloadEvents(r: Reload, k8sEnabled: bool): seq<Event> {
    [Reconfigure(r.workspace), Reconfigure(r.root)]
    + (if r.changed then [InvalidateAll] else [])
    + (if k8sEnabled then Schedules(r.documents) else [])
  }

  /** What `didChangeWatchedFiles` does before it clears the pipeline for the changed trees: it
      bumps their generations, and reloads a changed configuration if it can be read. */
  function BeforeClearing(changes: seq<Change>, k8sEnabled: bool, reload: Option<Reload>): seq<Event> {
    TreeEvents(changes) +
    (if ConfigChanged(changes) && reload.Some? then ReloadEvents(reload.value, k8sEnabled) else [])
  }

  /** All its sections in order: then the pipeline cache, and new renders of the open
      documents. */
  function WatchedFilesScript(changes: seq<Change>, k8sEnabled: bool, reload: Option<Reload>,
                              reschedules: seq<Event>): seq<Event> {
    BeforeClearing(changes, k8sEnabled, reload) +
    (if TreeChanged(changes) && k8sEnabled then [InvalidateAll] + reschedules else [])
  }

  /** A list of steps, one after the other with nothing in between. */
  ghost predicate Leads(s: System, script: seq<Event>, now: nat, t: System)
    decreases |script|
  {
    if script == [] then t == s
    else Enabled(s, script[0]) && Leads(Next(s, script[0], now), script[1..], now, t)
  }

  lemma {:induction false} LeadsOneMore(s: System, script: seq<Event>, now: nat, t: System, e: Event)
    requires Leads(s, script, now, t) && Enabled(t, e)
    ensures Leads(s, script + [e], now, Next(t, e, now))
    decreases |script|
  {
    if script == [] {
      assert (script + [e])[1..] == [];
    } else {
      assert (script + [e])[1..] == script[1..] + [e];
      LeadsOneMore(Next(s, script[0], now), script[1..], now, t, e);
    }
  }

  lemma {:induction false} TreeEventsSnoc(changes: seq<Change>, c: Change)
    ensures TreeEvents(changes + [c]) == TreeEvents(changes) + TreeEventOf(c)
    decreases |changes|
  {
    hide TreeEventOf;
    if changes == [] {
      assert (changes + [c])[1..] == [];
      assert TreeEventOf(c) + [] == TreeEventOf(c);
    } else {
      assert (changes + [c])[1..] == changes[1..] + [c];
      TreeEventsSnoc(changes[1..], c);
      assert TreeEventOf(changes[0]) + (TreeEvents(changes[1..]) + TreeEventOf(c))
          == TreeEventOf(changes[0]) + TreeEvents(changes[1..]) + TreeEventOf(c);
    }
  }

  /** Schedules every document, one after the other. */
  method ScheduleAll(pipeline: Pipeline, renderer: Renderer, sources: seq<Source>, now: nat, ghost start: System,
                     ghost before: seq<Event>)
    requires pipeline.Valid() && Leads(start, before, now, System(pipeline.View(), renderer.View()))
    modifies pipeline
    ensures pipeline.Valid()
    ensures Leads(start, before + Schedules(sources), now, System(pipeline.View(), renderer.View()))
  {
    hide Next, DoSchedule, CacheHit, Leads, Supersede, Enabled;
    assert before + Schedules(sources[..0]) == before;
    for n := 0 to |sources|
      invariant pipeline.Valid()
      invariant Leads(start, before + Schedules(sources[..n]), now, System(pipeline.View(), renderer.View()))
    {
      var d := sources[n];
      ghost var e, script := Schedule(d.uri, d.text, d.found), before + Schedules(sources[..n]);
      TakesStep(System(pipeline.View(), renderer.View()), e, now);
      LeadsOneMore(start, script, now, System(pipeline.View(), renderer.View()), e);
      assert sources[..n + 1][..n] == sources[..n];
      assert before + Schedules(sources[..n + 1]) == script + [e];
      var _ := pipeline.Schedule(d.uri, d.text, d.found, now);
    }
    assert sources[..|sources|] == sources;
  }

  /** The first loop: what kinds of file changed, and a new generation for the trees. */
  method InvalidateTrees(ghost pipe: PipeState, renderer: Renderer, changes: seq<Change>, now: nat)
      returns (configChanged: bool, treeChanged: bool)
    modifies renderer
    ensures configChanged == ConfigChanged(changes) && treeChanged == TreeChanged(changes)
    ensures Leads(old(System(pipe, renderer.View())), TreeEvents(changes), now, System(pipe, renderer.View()))
  {
    hide Next, DoInvalidateTree, Leads, Enabled, ConfigChanged, TreeChanged, TreeEvents;
    ghost var start, script: seq<Event> := System(pipe, renderer.View()), [];
    LeadsNowhere(start, now);
    NoChanges();
    configChanged, treeChanged := false, false;
    for n := 0 to |changes|
      invariant script == TreeEvents(changes[..n])
      invariant configChanged == ConfigChanged(changes[..n]) && treeChanged == TreeChanged(changes[..n])
      invariant Leads(start, script, now, System(pipe, renderer.View()))
    {
      TreeEventsSnoc(changes[..n], changes[n]);
      OneMoreChange(changes[..n], changes[n]);
      assert changes[..n + 1] == changes[..n] + [changes[n]];
      match changes[n] {
        case ConfigFile =>
          configChanged := true;
        case OtherFile(path) =>
          TakesStep(System(pipe, renderer.View()), InvalidateTree(path), now);
          LeadsOneMore(start, script, now, System(pipe, renderer.View()), InvalidateTree(path));
          script := script + [InvalidateTree(path)];
          renderer.InvalidateTree(path);
          treeChanged := true;
      }
    }
    assert changes[..|changes|] == changes;
  }

  lemma NoChanges()
    ensures !ConfigChanged([]) && !TreeChanged([]) && TreeEvents([]) == []
  {
  }

  lemma OneMoreChange(changes: seq<Change>, c: Change)
    ensures ConfigChanged(changes + [c]) <==> ConfigChanged(changes) || c.ConfigFile?
    ensures TreeChanged(changes + [c]) <==> TreeChanged(changes) || c.OtherFile?
  {
    assert c in changes + [c];
  }

  /** A configuration reload: new roots, then a cleared pipeline if the configuration differs,
      and only then new renders. */
  method ReloadConfig(pipeline: Pipeline, renderer: Renderer, reload: Reload, k8sEnabled: bool, now: nat,
                      ghost start: System, ghost before: seq<Event>)
    requires pipeline.Valid() && Leads(start, before, now, System(pipeline.View(), renderer.View()))
    modifies pipeline, renderer
    ensures pipeline.Valid()
    ensures Leads(start, before + ReloadEvents(reload, k8sEnabled), now, System(pipeline.View(), renderer.View()))
  {
    hide Next, DoInvalidateAll, Leads, Enabled, Schedules;
    ghost var script := before;
    TakesStep(System(pipeline.View(), renderer.View()), Reconfigure(reload.workspace), now);
    LeadsOneMore(start, script, now, System(pipeline.View(), renderer.View()), Reconfigure(reload.workspace));
    script := script + [Reconfigure(reload.workspace)];
    renderer.SetRoot(reload.workspace);
    TakesStep(System(pipeline.View(), renderer.View()), Reconfigure(reload.root), now);
    LeadsOneMore(start, script, now, System(pipeline.View(), renderer.View()), Reconfigure(reload.root));
    script := script + [Reconfigure(reload.root)];
    renderer.SetRoot(reload.root);
    if reload.changed {
      TakesStep(System(pipeline.View(), renderer.View()), InvalidateAll, now);
      LeadsOneMore(start, script, now, System(pipeline.View(), renderer.View()), InvalidateAll);
      script := script + [InvalidateAll];
      pipeline.InvalidateAll();
    }
    if k8sEnabled {
      ScheduleAll(pipeline, renderer, reload.documents, now, start, script);
      script := script + Schedules(reload.documents);
    }
    assert script == before + ReloadEvents(reload, k8sEnabled);
  }

  /** The handler, uninterrupted: every tree generation is bumped before the pipeline
      forgets its renders, and that before any document is scheduled for the new tree.
      `reload` is the changed configuration, None when it cannot be read; `sources` are the
      open documents as the last loop finds them. */
  method DidChangeWatchedFiles(pipeline: Pipeline, renderer: Renderer, changes: seq<Change>, k8sEnabled: bool,
                               reload: Option<Reload>, sources: seq<Source>, now: nat)
    requires pipeline.Valid()
    modifies pipeline, renderer
    ensures pipeline.Valid()
    ensures Leads(old(System(pipeline.View(), renderer.View())),
                  WatchedFilesScript(changes, k8sEnabled, reload, Schedules(sources)), now,
                  System(pipeline.View(), renderer.View()))
  {
    hide Next, DoInvalidateAll, Leads, Enabled, Schedules, TreeEvents, ReloadEvents, ConfigChanged, TreeChanged;
    ghost var start, pipe := System(pipeline.View(), renderer.View()), pipeline.View();
    var configChanged, treeChanged := InvalidateTrees(pipe, renderer, changes, now);
    assert pipeline.View() == pipe;
    ghost var script := TreeEvents(changes);
    if configChanged && reload.Some? {
      ReloadConfig(pipeline, renderer, reload.value, k8sEnabled, now, start, script);
      script := script + ReloadEvents(reload.value, k8sEnabled);
    }
    assert script == BeforeClearing(changes, k8sEnabled, reload);
    if treeChanged && k8sEnabled {
      TakesStep(System(pipeline.View(), renderer.View()), InvalidateAll, now);
      LeadsOneMore(start, script, now, System(pipeline.View(), renderer.View()), InvalidateAll);
      pipeline.InvalidateAll();
      ScheduleAll(pipeline, renderer, sources, now, start, script + [InvalidateAll]);
      assert script + [InvalidateAll] + Schedules(sources) == script + ([InvalidateAll] + Schedules(sources));
    } else {
      assert script == script + [];
    }
  }

  lemma LeadsNowhere(s: System, now: nat)
    ensures Leads(s, [], now, s)
  {
  }

  lemma TakesStep(s: System, e: Event, now: nat)
    ensures e.InvalidateTree? ==> Enabled(s, e) && Next(s, e, now) == System(s.pipe, DoInvalidateTree(s.tree, e.path))
    ensures e.Reconfigure? ==> Enabled(s, e) && Next(s, e, now) == System(s.pipe, s.tree.(root := e.root))
    ensures e.InvalidateAll? ==> Enabled(s, e) && Next(s, e, now) == System(DoInvalidateAll(s.pipe), s.tree)
    ensures e.Schedule? ==>
              Enabled(s, e) && Next(s, e, now) == System(DoSchedule(s.pipe, e.uri, e.text, e.found, now), s.tree)
  {
  }

  /** The script took place at these steps of the run, others in between. */
  predicate TookPlace(es: seq<Event>, script: seq<Event>, at: seq<nat>) {
    && |at| == |script|
    && (forall n :: 0 <= n < |at| ==> at[n] < |es| && es[at[n]] == script[n])
    && (forall n, m :: 0 <= n < m < |at| ==> at[n] < at[m])
  }

  /** After the handler forgot the cached renders, no lookup yields an output of a tree begun
      before any change it reported inside the build root that was in force then. */
  lemma WatchedFilesAreFresh(tr: seq<System>, es: seq<Event>, changes: seq<Change>, reload: Option<Reload>,
                             reschedules: seq<Event>, at: seq<nat>, n: nat, k: nat, uri: string)
    requires IsRun(tr, es)
    requires TookPlace(es, WatchedFilesScript(changes, true, reload, reschedules), at)
    requires n < |TreeEvents(changes)| && GoesOnFrom(tr[at[n]].tree, TreeEvents(changes)[n].path)
    requires var last := |BeforeClearing(changes, true, reload)|;
             tr[at[last]].tree.watched && at[last] < k < |tr|
    requires uri in tr[k].pipe.cache && tr[k].pipe.cache[uri].out.origin.FromTree?
    ensures at[n] < tr[k].pipe.cache[uri].out.origin.began
  {
    hide ReloadEvents;
    var script := WatchedFilesScript(changes, true, reload, reschedules);
    var last := |BeforeClearing(changes, true, reload)|;
    assert script[n] == TreeEvents(changes)[n] && script[last] == InvalidateAll;
    assert es[at[n]] == script[n] && es[at[last]] == script[last] && at[n] < at[last];
    CachedRendersAreFresh(tr, es, at[n], at[last], k, uri);
  }
}
