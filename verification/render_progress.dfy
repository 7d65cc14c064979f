/** No render gets stuck: at most one tree is built at a time, its builder can always leave, and
    every render whose timer fired can take its next step or waits for that builder. */
module RenderProgress {
  import opened FlateTree
  import opened Options
  import opened RenderFreshness
  import opened RenderPipeline

  /** The tree's section is held by exactly the render that is building. */
  ghost predicate OneBuilder(s: System) {
    && (s.tree.holder.Some? ==> Builds(s, s.tree.holder.value))
    && forall j: nat :: Builds(s, j) ==> s.tree.holder == Some(j)
  }

  predicate Builds(s: System, j: nat) { j < |s.pipe.jobs| && s.pipe.jobs[j].phase.Building? }

  lemma PipelineStepBuilds(s: System, e: Event, now: nat, j: nat)
    requires Enabled(s, e) && PipelineStep(e)
    ensures Builds(Next(s, e, now), j) <==> Builds(s, j)
    ensures Next(s, e, now).tree.holder == s.tree.holder
  {
    hide DoCommit, Supersede, CacheHit;
    if e.Commit? {
      CommitLaw(s.pipe, e.job);
    } else if e.Schedule? || e.Cancel? {
      SupersedeLaw(s.pipe, e.uri);
    }
  }

  lemma RenderStepBuilds(s: System, e: Event, now: nat, j: nat)
    requires Enabled(s, e) && !PipelineStep(e) && OneBuilder(s)
    ensures e.job < |s.pipe.jobs| && (j != e.job ==> (Builds(Next(s, e, now), j) <==> Builds(s, j)))
    ensures e.EnterTree? ==>
              s.tree.holder == None &&
              Next(s, e, now).tree.holder == if Builds(Next(s, e, now), e.job) then Some(e.job) else None
    ensures e.LeaveTree? ==>
              s.tree.holder == Some(e.job) && Next(s, e, now).tree.holder == None && !Builds(Next(s, e, now), e.job)
    ensures !e.EnterTree? && !e.LeaveTree? ==>
              !Builds(s, e.job) && !Builds(Next(s, e, now), e.job) && Next(s, e, now).tree.holder == s.tree.holder
  {
  }

  lemma StepKeepsOneBuilder(s: System, e: Event, now: nat)
    requires Enabled(s, e) && OneBuilder(s)
    ensures OneBuilder(Next(s, e, now))
  {
    hide Next, Enabled, Builds;
    var t := Next(s, e, now);
    forall j: nat
      ensures Builds(t, j) ==> t.tree.holder == Some(j)
    {
      if PipelineStep(e) {
        PipelineStepBuilds(s, e, now, j);
      } else {
        RenderStepBuilds(s, e, now, j);
      }
    }
    var h: nat := if t.tree.holder.Some? then t.tree.holder.value else 0;
    if PipelineStep(e) {
      PipelineStepBuilds(s, e, now, h);
    } else {
      RenderStepBuilds(s, e, now, h);
    }
  }

  /** In every reachable state at most one tree is being built. */
  lemma {:induction false} OneBuildAtATime(tr: seq<System>, es: seq<Event>, k: nat)
    requires IsRun(tr, es) && k < |tr|
    ensures OneBuilder(tr[k])
    decreases k
  {
    hide Next, Enabled;
    if k > 0 {
      OneBuildAtATime(tr, es, k - 1);
      StepOf(tr, es, k - 1);
      StepKeepsOneBuilder(tr[k - 1], es[k - 1], k - 1);
    }
  }

  /** The render can take a step of its own. */
  ghost predicate CanStep(s: System, j: nat) {
    exists e :: OwnStep(e, j) && Enabled(s, e)
  }

  predicate OwnStep(e: Event, j: nat) {
    e == Commit(j) || e == TimerFires(j) || (!PipelineStep(e) && e.job == j)
  }

  /** A render that is not over can always go on, unless another one is building the tree it is
      about to enter; and that one can go on. */
  lemma NoRenderIsStuck(tr: seq<System>, es: seq<Event>, k: nat, j: nat)
    requires IsRun(tr, es) && k < |tr| && j < |tr[k].pipe.jobs|
    ensures var s, phase := tr[k], tr[k].pipe.jobs[j].phase;
            || phase == Stopped || phase == Finished || CanStep(s, j)
            || (phase.Keyed? && s.tree.holder.Some? && s.tree.holder.value != j && CanStep(s, s.tree.holder.value))
  {
    OneBuildAtATime(tr, es, k);
    var s := tr[k];
    if s.tree.holder.Some? {
      assert Enabled(s, LeaveTree(s.tree.holder.value, NoError, NoError));
      assert OwnStep(LeaveTree(s.tree.holder.value, NoError, NoError), s.tree.holder.value);
    }
    var e := match s.pipe.jobs[j].phase
      case Armed => TimerFires(j)
      case Fired => if s.tree.root.Some? then ReadRoot(j) else RenderWithoutTree(j, NoError)
      case Rooted(_) => LoadMode(j)
      case Watching(_) => ReadGen(j)
      case Walking(_) => WalkTree(j, "f")
      case Keyed(_) => EnterTree(j, NoError)
      case Building(_, _) => LeaveTree(j, NoError, NoError)
      case _ => Commit(j);
    assert OwnStep(e, j);
  }

  /** Callers of the pipeline and of the renderer's settings wait for no render. */
  lemma CallsNeverWait(s: System, uri: string, text: string, found: bool, path: Option<Path>)
    ensures Enabled(s, Schedule(uri, text, found)) && Enabled(s, Cancel(uri)) && Enabled(s, InvalidateAll)
    ensures Enabled(s, InvalidateTree(path)) && Enabled(s, Reconfigure(path)) && Enabled(s, WatchOn)
  {
  }

  /** How far a render has come. */
  function Progress(phase: Phase): nat {
    match phase
    case Armed => 0
    case Fired => 1
    case Rooted(_) => 2
    case Watching(_) => 3
    case Walking(_) => 3
    case Keyed(_) => 4
    case Building(_, _) => 5
    case Rendered(_, _) => 6
    case Stopped => 7
    case Finished => 7
  }

  lemma PipelineStepProgress(s: System, e: Event, now: nat, j: nat)
    requires Enabled(s, e) && PipelineStep(e) && j < |s.pipe.jobs|
    ensures j < |Next(s, e, now).pipe.jobs|
    ensures Progress(Next(s, e, now).pipe.jobs[j].phase) >= Progress(s.pipe.jobs[j].phase)
    ensures e == Commit(j) ==> Progress(Next(s, e, now).pipe.jobs[j].phase) > Progress(s.pipe.jobs[j].phase)
  {
    hide DoCommit, Supersede, CacheHit;
    if e.Commit? {
      CommitLaw(s.pipe, e.job);
    } else if e.Schedule? || e.Cancel? {
      SupersedeLaw(s.pipe, e.uri);
    }
  }

  /** No step takes a render back, and each step of its own takes it on: it ends after at most
      seven. */
  lemma StepsLeadOn(s: System, e: Event, now: nat, j: nat)
    requires Enabled(s, e) && j < |s.pipe.jobs|
    ensures j < |Next(s, e, now).pipe.jobs|
    ensures Progress(Next(s, e, now).pipe.jobs[j].phase) >=
            Progress(s.pipe.jobs[j].phase) + if OwnStep(e, j) then 1 else 0
    ensures Progress(Next(s, e, now).pipe.jobs[j].phase) <= 7
  {
    hide DoCommit, DoSchedule, DoCancel;
    if PipelineStep(e) {
      PipelineStepProgress(s, e, now, j);
    }
  }

  /** How many of the first k steps were the render's own. */
  function OwnSteps(es: seq<Event>, j: nat, k: nat): nat
    requires k <= |es|
  {
    if k == 0 then 0 else OwnSteps(es, j, k - 1) + if OwnStep(es[k - 1], j) then 1 else 0
  }

  lemma OwnStepNeedsJob(s: System, e: Event, j: nat)
    requires Enabled(s, e) && OwnStep(e, j)
    ensures j < |s.pipe.jobs|
  {
  }

  /** A render takes at most seven steps of its own in any run. */
  lemma {:induction false} AtMostSevenSteps(tr: seq<System>, es: seq<Event>, k: nat, j: nat)
    requires IsRun(tr, es) && k <= |es|
    ensures OwnSteps(es, j, k) <= 7
    ensures OwnSteps(es, j, k) <= if j < |tr[k].pipe.jobs| then Progress(tr[k].pipe.jobs[j].phase) else 0
    decreases k
  {
    hide Next, Enabled, OwnStep;
    if k > 0 {
      AtMostSevenSteps(tr, es, k - 1, j);
      StepOf(tr, es, k - 1);
      if j < |tr[k - 1].pipe.jobs| {
        StepsLeadOn(tr[k - 1], es[k - 1], k - 1, j);
      } else if OwnStep(es[k - 1], j) {
        OwnStepNeedsJob(tr[k - 1], es[k - 1], j);
        assert false;
      }
    }
  }
}
