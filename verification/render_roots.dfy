/** The build root while it is reconfigured: renders after a reload are cut from the new root,
    and what happens to a root that is left and taken up again. */
module RenderRoots {
  import opened FlateTree
  import opened Options
  import opened RenderFreshness
  import opened RenderPipeline

  // --- after a reload ---

  /** The root a render has settled on. */
  function PhaseRoot(phase: Phase): Option<Path> {
    match phase
    case Rooted(root) => Some(root)
    case Watching(root) => Some(root)
    case Walking(root) => Some(root)
    case Keyed(key) => Some(key.root)
    case Building(key, _) => Some(key.root)
    case Rendered(FromTree(root, _), _) => Some(root)
    case _ => None
  }

  /** The job was armed before that step, or has settled on the current root if on any. */
  predicate JobRooted(s: System, since: nat, job: Job) {
    job.armedAt < since || PhaseRoot(job.phase).None? || PhaseRoot(job.phase) == s.tree.root
  }

  predicate EntryRooted(s: System, since: nat, entry: CacheEntry) {
    && entry.out.job < |s.pipe.jobs|
    && (entry.out.origin.FromTree? ==>
          s.pipe.jobs[entry.out.job].armedAt < since || s.tree.root == Some(entry.out.origin.root))
  }

  ghost predicate AllRooted(s: System, since: nat) {
    && (forall j {:trigger s.pipe.jobs[j]} :: 0 <= j < |s.pipe.jobs| ==> JobRooted(s, since, s.pipe.jobs[j]))
    && (forall uri <- s.pipe.cache :: EntryRooted(s, since, s.pipe.cache[uri]))
  }

  /** Only a reconfiguration changes the root. */
  lemma RootStays(s: System, e: Event, now: nat)
    requires Enabled(s, e)
    ensures Next(s, e, now).tree.root == if e.Reconfigure? then e.root else s.tree.root
  {
  }

  lemma RenderStepRooted(s: System, e: Event, now: nat, since: nat)
    requires Enabled(s, e) && !PipelineStep(e) && e.job < |s.pipe.jobs| && JobRooted(s, since, s.pipe.jobs[e.job])
    ensures var t := Next(s, e, now);
            e.job < |t.pipe.jobs| && JobRooted(t, since, t.pipe.jobs[e.job])
  {
  }

  lemma RenderStepsHaveJobs(s: System, e: Event)
    requires Enabled(s, e) && !PipelineStep(e)
    ensures e.job < |s.pipe.jobs|
  {
  }

  lemma JobsStayRooted(s: System, e: Event, now: nat, since: nat, j: nat)
    requires Enabled(s, e) && !e.Reconfigure? && AllRooted(s, since) && j < |Next(s, e, now).pipe.jobs|
    ensures JobRooted(Next(s, e, now), since, Next(s, e, now).pipe.jobs[j])
  {
    hide Enabled, Next;
    RootStays(s, e, now);
    StepGrows(s, e, now);
    if PipelineStep(e) {
      PipelineStepPhases(s, e, now, j);
      if j < |s.pipe.jobs| {
        assert JobRooted(s, since, s.pipe.jobs[j]);
      }
    } else {
      RenderStepsHaveJobs(s, e);
      RenderStepPhases(s, e, now, e.job);
      assert JobRooted(s, since, s.pipe.jobs[e.job]);
      RenderStepRooted(s, e, now, since);
      if j != e.job {
        RenderStepPhases(s, e, now, j);
        assert JobRooted(s, since, s.pipe.jobs[j]);
      }
    }
  }

  lemma EntriesStayRooted(s: System, e: Event, now: nat, since: nat, uri: string)
    requires Enabled(s, e) && !e.Reconfigure? && AllRooted(s, since) && uri in Next(s, e, now).pipe.cache
    ensures EntryRooted(Next(s, e, now), since, Next(s, e, now).pipe.cache[uri])
  {
    hide Next;
    RootStays(s, e, now);
    StepGrows(s, e, now);
    EntryOrigin(s, e, now, uri);
    if uri in s.pipe.cache && Next(s, e, now).pipe.cache[uri] == s.pipe.cache[uri] {
      assert EntryRooted(s, since, s.pipe.cache[uri]);
    } else {
      assert JobRooted(s, since, s.pipe.jobs[e.job]);
    }
  }

  /** From step `since` on, while the root stays as it is, every render armed since is one
      of that root. */
  lemma {:induction false} RootedRun(tr: seq<System>, es: seq<Event>, since: nat, k: nat)
    requires IsRun(tr, es) && since <= k < |tr| && forall m :: since <= m < k ==> !es[m].Reconfigure?
    ensures AllRooted(tr[k], since) && tr[k].tree.root == tr[since].tree.root
    decreases k
  {
    hide Enabled, Next, EntryRooted, JobRooted;
    if k == since {
      StartsRooted(tr, es, since);
    } else {
      RootedRun(tr, es, since, k - 1);
      StepOf(tr, es, k - 1);
      RootStays(tr[k - 1], es[k - 1], k - 1);
      forall j {:trigger tr[k].pipe.jobs[j]} | 0 <= j < |tr[k].pipe.jobs|
        ensures JobRooted(tr[k], since, tr[k].pipe.jobs[j])
      {
        JobsStayRooted(tr[k - 1], es[k - 1], k - 1, since, j);
      }
      forall uri | uri in tr[k].pipe.cache
        ensures EntryRooted(tr[k], since, tr[k].pipe.cache[uri])
      {
        EntriesStayRooted(tr[k - 1], es[k - 1], k - 1, since, uri);
      }
    }
  }

  lemma StartsRooted(tr: seq<System>, es: seq<Event>, since: nat)
    requires IsRun(tr, es) && since < |tr|
    ensures AllRooted(tr[since], since)
  {
    InvHolds(tr, es, since);
    var s := tr[since];
    forall j {:trigger s.pipe.jobs[j]} | 0 <= j < |s.pipe.jobs|
      ensures JobRooted(s, since, s.pipe.jobs[j])
    {
      assert JobInv(tr, since, s.pipe.jobs[j]);
    }
    forall uri | uri in s.pipe.cache
      ensures EntryRooted(s, since, s.pipe.cache[uri])
    {
      assert EntryInv(tr, since, uri);
    }
  }

  /** What a render armed in the epoch of a later state was armed after. */
  lemma ArmedAfterClearing(tr: seq<System>, es: seq<Event>, b: nat, k: nat, uri: string)
    requires IsRun(tr, es) && b < k < |tr| && es[b].InvalidateAll? && uri in tr[k].pipe.cache
    ensures var p := tr[k].pipe;
            p.cache[uri].out.job < |p.jobs| && b < p.jobs[p.cache[uri].out.job].armedAt
  {
    InvHolds(tr, es, k);
    assert EntryInv(tr, k, uri);
    var job := tr[k].pipe.jobs[tr[k].pipe.cache[uri].out.job];
    assert JobInv(tr, k, job);
    StepOf(tr, es, b);
    RunGrows(tr, es, b + 1, k);
    if job.armedAt <= b {
      RunGrows(tr, es, job.armedAt, b);
    }
  }

  /** Step a puts a root in force, step b, later, clears the pipeline. Until the next
      reconfiguration, whatever is cached was cut from that root. */
  lemma CachedRendersUseNewRoot(tr: seq<System>, es: seq<Event>, a: nat, b: nat, k: nat, uri: string)
    requires IsRun(tr, es) && a < b < k < |tr| && es[a].Reconfigure? && es[b].InvalidateAll?
    requires forall m :: a < m < k ==> !es[m].Reconfigure?
    requires uri in tr[k].pipe.cache && tr[k].pipe.cache[uri].out.origin.FromTree?
    ensures es[a].root == Some(tr[k].pipe.cache[uri].out.origin.root)
  {
    hide Enabled, Next;
    StepOf(tr, es, a);
    RootStays(tr[a], es[a], a);
    RootedRun(tr, es, a + 1, k);
    ArmedAfterClearing(tr, es, b, k, uri);
    assert EntryRooted(tr[k], a + 1, tr[k].pipe.cache[uri]);
  }

  /** In particular after a reload whose configuration differed. */
  lemma ReloadedRendersUseNewRoot(tr: seq<System>, es: seq<Event>, reload: Reload, k8sEnabled: bool, at: seq<nat>,
                                  k: nat, uri: string)
    requires IsRun(tr, es) && reload.changed && TookPlace(es, ReloadEvents(reload, k8sEnabled), at)
    requires at[2] < k < |tr| && forall m :: at[1] < m < k ==> !es[m].Reconfigure?
    requires uri in tr[k].pipe.cache && tr[k].pipe.cache[uri].out.origin.FromTree?
    ensures reload.root == Some(tr[k].pipe.cache[uri].out.origin.root)
  {
    hide IsRun, Schedules;
    var script := ReloadEvents(reload, k8sEnabled);
    assert script[1] == Reconfigure(reload.root) && script[2] == InvalidateAll;
    assert es[at[1]] == script[1] && es[at[2]] == script[2] && at[1] < at[2];
    CachedRendersUseNewRoot(tr, es, at[1], at[2], k, uri);
  }

  // --- a root that is left and taken up again ---

  lemma ExtendRun(tr: seq<System>, es: seq<Event>, e: Event) returns (tr': seq<System>, es': seq<Event>)
    requires IsRun(tr, es) && Enabled(tr[|es|], e)
    ensures IsRun(tr', es') && es' == es + [e] && |tr'| == |es'| + 1 && tr'[|es'|] == Next(tr[|es|], e, |es|)
  {
    hide Next, Enabled;
    tr', es' := tr + [Next(tr[|es|], e, |es|)], es + [e];
    forall i: nat | i < |es'|
      ensures Stepped(tr', es', i)
    {
      if i < |es| {
        assert Stepped(tr, es, i);
        assert es'[i] == es[i] && tr'[i] == tr[i] && tr'[i + 1] == tr[i + 1];
      }
    }
  }

  /** Job j is scheduled and rendered with files watched, up to the tree lock. */
  function UpToTree(uri: string, text: string, j: nat): seq<Event> {
    [Schedule(uri, text, true), TimerFires(j), ReadRoot(j), LoadMode(j), ReadGen(j)]
  }

  /** A document is rendered from root a; while root b is in force, a file below a changes; and
      a is put in force again. */
  function AwayAndBack(a: Path, b: Path, path: Path, uri: string, text: string): seq<Event> {
    [WatchOn] + UpToTree(uri, text, 0) + [EnterTree(0, NoError), LeaveTree(0, NoError, NoError), Commit(0)]
    + [Reconfigure(Some(b)), InvalidateAll, InvalidateTree(Some(path)), Reconfigure(Some(a)), InvalidateAll]
    + UpToTree(uri, text, 1) + [EnterTree(1, NoError), Commit(1)]
  }

  /** The pipeline with these jobs and nothing pending or cached. */
  function Empty(epoch: nat, jobs: seq<Job>): PipeState { PipeData(map[], map[], epoch, jobs) }

  function Tree(a: Path): TreeState {
    TreeState(Some(a), 0, true, Some(CachedTree(TreeKey(a, "", 0), 6, NoError)), None)
  }

  function DoneJob(uri: string, text: string): Job { Job(uri, text, 0, 1, Live, Finished) }

  lemma UpToTreeRuns(tr: seq<System>, es: seq<Event>, uri: string, text: string, a: Path)
      returns (tr': seq<System>, es': seq<Event>)
    requires IsRun(tr, es)
    requires var s := tr[|es|];
             s.pipe == Empty(s.pipe.epoch, s.pipe.jobs) && s.tree.watched && s.tree.root == Some(a)
    ensures IsRun(tr', es') && es' == es + UpToTree(uri, text, |tr[|es|].pipe.jobs|)
    ensures var s, t := tr[|es|], tr'[|es'|];
            var job := Job(uri, text, s.pipe.epoch, |es|, Live, Keyed(TreeKey(a, "", s.tree.gen)));
            && t.pipe == PipeData(map[uri := |s.pipe.jobs|], map[], s.pipe.epoch, s.pipe.jobs + [job])
            && t.tree == s.tree
  {
    var j := |tr[|es|].pipe.jobs|;
    tr', es' := ExtendRun(tr, es, Schedule(uri, text, true));
    tr', es' := ExtendRun(tr', es', TimerFires(j));
    tr', es' := ExtendRun(tr', es', ReadRoot(j));
    tr', es' := ExtendRun(tr', es', LoadMode(j));
    tr', es' := ExtendRun(tr', es', ReadGen(j));
    assert es' == es + UpToTree(uri, text, j);
  }

  lemma FirstRender(a: Path, uri: string, text: string) returns (tr: seq<System>, es: seq<Event>)
    ensures IsRun(tr, es)
    ensures es == [WatchOn] + UpToTree(uri, text, 0) + [EnterTree(0, NoError), LeaveTree(0, NoError, NoError),
            Commit(0)]
    ensures tr[|es|].tree == Tree(a)
    ensures var p := tr[|es|].pipe;
            p.pending == map[] && p.epoch == 0 && p.jobs == [DoneJob(uri, text)]
  {
    hide IsRun, DoSchedule, DoCancel, DoInvalidateAll;
    tr, es := WatchedRun(a);
    tr, es := UpToTreeRuns(tr, es, uri, text, a);
    tr, es := ExtendRun(tr, es, EnterTree(0, NoError));
    tr, es := ExtendRun(tr, es, LeaveTree(0, NoError, NoError));
    tr, es := ExtendRun(tr, es, Commit(0));
  }

  lemma WatchedRun(a: Path) returns (tr: seq<System>, es: seq<Event>)
    ensures IsRun(tr, es) && es == [WatchOn]
    ensures tr[1] == System(Empty(0, []), TreeState(Some(a), 0, true, None, None))
  {
    hide IsRun;
    tr, es := NewRun(a);
    tr, es := ExtendRun(tr, es, WatchOn);
  }

  lemma NewRun(a: Path) returns (tr: seq<System>, es: seq<Event>)
    ensures IsRun(tr, es) && es == []
    ensures tr[0] == System(Empty(0, []), TreeState(Some(a), 0, false, None, None))
  {
    tr, es := [System(Empty(0, []), TreeState(Some(a), 0, false, None, None))], [];
  }

  /** The path does not go on from the root. */
  predicate Beside(root: Path, path: Path) {
    |path| < |root| || exists k :: 0 <= k < |root| && path[k] != root[k]
  }

  lemma AwayAndBackRuns(tr: seq<System>, es: seq<Event>, a: Path, b: Path, path: Path, uri: string, text: string)
      returns (tr': seq<System>, es': seq<Event>)
    requires IsRun(tr, es) && Beside(b, path) && tr[|es|].tree == Tree(a)
    requires var p := tr[|es|].pipe;
             p.pending == map[] && p.epoch == 0 && p.jobs == [DoneJob(uri, text)]
    ensures IsRun(tr', es')
    ensures es' == es + [Reconfigure(Some(b)), InvalidateAll, InvalidateTree(Some(path)), Reconfigure(Some(a)),
            InvalidateAll]
    ensures tr'[|es'|] == System(Empty(2, [DoneJob(uri, text)]), Tree(a))
  {
    hide IsRun;
    tr', es' := ExtendRun(tr, es, Reconfigure(Some(b)));
    tr', es' := ExtendRun(tr', es', InvalidateAll);
    ElsewhereDoesNot(tr'[|es'|].tree, path);
    tr', es' := ExtendRun(tr', es', InvalidateTree(Some(path)));
    tr', es' := ExtendRun(tr', es', Reconfigure(Some(a)));
    tr', es' := ExtendRun(tr', es', InvalidateAll);
  }

  /** Events outside the root in force do not count, also when their root is taken up again:
      after that run, which ends with the root a in force and two clearings after it changed,
      the document's cached render is cut from a tree of a whose build began at step 6, before
      the change of step 11. */
  lemma StaleAfterRootReturns(a: Path, b: Path, rest: Path, uri: string, text: string)
    requires Beside(b, a + rest)
    ensures exists tr: seq<System> ::
              var es := AwayAndBack(a, b, a + rest, uri, text);
              && IsRun(tr, es) && |es| == 21 && es[11] == InvalidateTree(Some(a + rest))
              && tr[21].tree.root == Some(a)
              && uri in tr[21].pipe.cache && tr[21].pipe.cache[uri].out.origin == FromTree(a, 6)
  {
    hide IsRun;
    var tr, es := FirstRender(a, uri, text);
    tr, es := AwayAndBackRuns(tr, es, a, b, a + rest, uri, text);
    tr, es := UpToTreeRuns(tr, es, uri, text, a);
    tr, es := ExtendRun(tr, es, EnterTree(1, NoError));
    tr, es := ExtendRun(tr, es, Commit(1));
    assert es == AwayAndBack(a, b, a + rest, uri, text);
  }
}
