/** The render pipeline: one pending render and one cached result per document,
    plus an epoch that InvalidateAll bumps. A `*pending` record of the program is
    an index into `jobs`, the records ever armed, so that two records are never
    confused. An output is opaque; the model keeps which job asked for it and when
    the tree it was cut from began to be built. Content hashes are injective here:
    a hash is the text. */
module RenderPipeline {
  import opened Options

  /** What `isContextErr` distinguishes. */
  datatype RenderError = NoError | ContextError | OtherError

  /** Components of an absolute cleaned path. */
  type Path = seq<string>

  /** What an output was cut from: the tree of which root, and when its build began. */
  datatype Origin = NoTree | FromTree(root: Path, began: nat)

  datatype Output = Output(job: nat, origin: Origin)

  datatype CacheEntry = CacheEntry(hash: string, out: Output, err: RenderError)

  datatype Context = Live | Canceled | Expired

  /** What a tree is cached under. */
  datatype TreeKey = TreeKey(root: Path, fingerprint: string, gen: nat)

  /** Where a render is: its timer, then the sections of the tree renderer, then
      waiting for the pipeline lock with a result. */
  datatype Phase =
    | Armed
    | Stopped
    | Fired
    | Rooted(root: Path)
    | Watching(root: Path)
    | Walking(root: Path)
    | Keyed(key: TreeKey)
    | Building(key: TreeKey, began: nat)
    | Rendered(origin: Origin, err: RenderError)
    | Finished

  datatype Job = Job(uri: string, text: string, epoch: nat, armedAt: nat, ctx: Context, phase: Phase)

  datatype PipeData = PipeData(
    pending: map<string, nat>,
    cache: map<string, CacheEntry>,
    epoch: nat,
    jobs: seq<Job>)

  /** A pending render is one of the document's; a cached result was rendered for the document
      from the text whose hash it carries. */
  predicate WellFormed(p: PipeData) {
    && (forall uri <- p.pending :: p.pending[uri] < |p.jobs| && p.jobs[p.pending[uri]].uri == uri)
    && (forall uri <- p.cache ::
          var c := p.cache[uri];
          c.out.job < |p.jobs| && p.jobs[c.out.job].uri == uri && c.hash == ContentHash(p.jobs[c.out.job].text))
  }

  type PipeState = p: PipeData | WellFormed(p) witness PipeData(map[], map[], 0, [])

  function ContentHash(text: string): string { text }

  /** Stopping the timer only helps a job that has not fired; its context is
      cancelled either way, unless the deadline came first. */
  function StopJob(j: Job): Job {
    j.(phase := if j.phase.Armed? then Stopped else j.phase,
       ctx := if j.ctx.Live? then Canceled else j.ctx)
  }

  function Supersede(p: PipeState, uri: string): (q: PipeState)
    ensures uri !in q.pending && |q.jobs| == |p.jobs|
  {
    if uri !in p.pending then p
    else p.(pending := p.pending - {uri}, jobs := p.jobs[p.pending[uri] := StopJob(p.jobs[p.pending[uri]])])
  }

  predicate CacheHit(p: PipeState, uri: string, text: string) {
    uri in p.cache && p.cache[uri].hash == ContentHash(text)
  }

  function Arm(p: PipeState, uri: string, text: string, now: nat): PipeState {
    p.(jobs := p.jobs + [Job(uri, text, p.epoch, now, Live, Armed)], pending := p.pending[uri := |p.jobs|])
  }

  function DoSchedule(p: PipeState, uri: string, text: string, found: bool, now: nat): PipeState {
    if !found then p
    else if CacheHit(p, uri, text) then Supersede(p, uri)
    else Arm(Supersede(p, uri), uri, text, now)
  }

  function DoCancel(p: PipeState, uri: string): PipeState {
    var q := Supersede(p, uri);
    q.(cache := q.cache - {uri})
  }

  function DoInvalidateAll(p: PipeState): PipeState {
    p.(cache := map[], epoch := p.epoch + 1)
  }

  /** The finished render is neither superseded nor from an earlier epoch. */
  predicate Current(p: PipeState, j: nat)
    requires j < |p.jobs|
  {
    var job := p.jobs[j];
    job.uri in p.pending && p.pending[job.uri] == j && job.epoch == p.epoch
  }

  function SetPhase(p: PipeState, j: nat, phase: Phase): PipeState
    requires j < |p.jobs|
  {
    p.(jobs := p.jobs[j := p.jobs[j].(phase := phase)])
  }

  function DoCommit(p: PipeState, j: nat): PipeState
    requires j < |p.jobs| && p.jobs[j].phase.Rendered?
  {
    var job := p.jobs[j];
    var q := SetPhase(p, j, Finished);
    if !Current(p, j) then q
    else
      q.(pending := q.pending - {job.uri},
         cache := if job.phase.err.ContextError? then q.cache
         else q.cache[job.uri := CacheEntry(ContentHash(job.text), Output(j, job.phase.origin), job.phase.err)])
  }

  // --- what the sections do ---

  /** Superseding a document's pending render drops it, stops its timer if that has not fired,
      and cancels its context unless the deadline came first. Nothing else changes. */
  lemma SupersedeLaw(p: PipeState, uri: string)
    ensures var q := Supersede(p, uri);
            && q.cache == p.cache && q.epoch == p.epoch && |q.jobs| == |p.jobs|
            && uri !in q.pending
            && (forall u :: u != uri ==> (u in q.pending <==> u in p.pending))
            && (forall u <- q.pending :: q.pending[u] == p.pending[u])
            && (forall j :: 0 <= j < |p.jobs| && !(uri in p.pending && p.pending[uri] == j) ==> q.jobs[j] == p.jobs[j])
            && (uri in p.pending ==>
                  var was, now := p.jobs[p.pending[uri]], q.jobs[p.pending[uri]];
                  && now.uri == was.uri && now.text == was.text && now.epoch == was.epoch && now.armedAt == was.armedAt
                  && now.ctx == (if was.ctx == Live then Canceled else was.ctx)
                  && now.phase == (if was.phase == Armed then Stopped else was.phase))
  {
  }

  /** A cached result answers for the very text it was rendered from, and for no other. */
  lemma HitIsSameText(p: PipeState, uri: string, text: string)
    ensures CacheHit(p, uri, text) <==> uri in p.cache && p.jobs[p.cache[uri].out.job].text == text
  {
  }

  /** Scheduling a document that a renderer wants: with its text already rendered nothing new
      is armed, otherwise one render of this text is, and is the pending one. */
  lemma ScheduleLaw(p: PipeState, uri: string, text: string, now: nat)
    ensures var q := DoSchedule(p, uri, text, true, now);
            && q.cache == p.cache && q.epoch == p.epoch
            && (forall u :: u != uri ==> (u in q.pending <==> u in p.pending))
            && (forall u <- p.pending :: u != uri ==> q.pending[u] == p.pending[u])
            && (if uri in p.cache && p.jobs[p.cache[uri].out.job].text == text then
                  |q.jobs| == |p.jobs| && uri !in q.pending
                else
                  && |q.jobs| == |p.jobs| + 1 && uri in q.pending && q.pending[uri] == |p.jobs|
                  && q.jobs[|p.jobs|] == Job(uri, text, p.epoch, now, Live, Armed))
            && (forall j :: 0 <= j < |p.jobs| && !(uri in p.pending && p.pending[uri] == j) ==> q.jobs[j] == p.jobs[j])
            && (uri in p.pending ==> q.jobs[p.pending[uri]].ctx != Live && q.jobs[p.pending[uri]].phase != Armed)
  {
    hide Supersede, CacheHit;
    SupersedeLaw(p, uri);
    HitIsSameText(p, uri, text);
  }

  lemma SameTexts(p: PipeState, uri: string)
    ensures var q := Supersede(p, uri);
            |q.jobs| == |p.jobs| && forall j :: 0 <= j < |p.jobs| ==> q.jobs[j].text == p.jobs[j].text
  {
  }

  lemma NobodyWants(p: PipeState, uri: string, text: string, now: nat)
    ensures DoSchedule(p, uri, text, false, now) == p
  {
  }

  /** Cancelling a document drops its pending render and its cached result, and leaves all
      other documents alone. */
  lemma CancelLaw(p: PipeState, uri: string)
    ensures var q := DoCancel(p, uri);
            && uri !in q.pending && uri !in q.cache && q.epoch == p.epoch && |q.jobs| == |p.jobs|
            && (forall u :: u != uri ==> (u in q.pending <==> u in p.pending) && (u in q.cache <==> u in p.cache))
            && (forall u <- q.pending :: q.pending[u] == p.pending[u])
            && (forall u <- q.cache :: q.cache[u] == p.cache[u])
            && (uri in p.pending ==> q.jobs[p.pending[uri]].ctx != Live && q.jobs[p.pending[uri]].phase != Armed)
  {
    hide Supersede;
    SupersedeLaw(p, uri);
  }

  /** Clearing the pipeline forgets every result and lets the pending renders run on, but under
      an epoch that is not theirs. */
  lemma InvalidateAllLaw(p: PipeState)
    ensures var q := DoInvalidateAll(p);
            q.cache == map[] && q.epoch == p.epoch + 1 && q.pending == p.pending && q.jobs == p.jobs
  {
  }

  /** A render that is still the pending one of this epoch stops being pending, and its result
      is cached as it is unless its context ended it; any other changes neither map. */
  lemma CommitLaw(p: PipeState, j: nat)
    requires j < |p.jobs| && p.jobs[j].phase.Rendered?
    ensures var job, q := p.jobs[j], DoCommit(p, j);
            var counts := job.uri in p.pending && p.pending[job.uri] == j && job.epoch == p.epoch;
            && q.epoch == p.epoch && q.jobs == p.jobs[j := job.(phase := Finished)]
            && (forall u :: u in q.pending <==> u in p.pending && !(counts && u == job.uri))
            && (forall u <- q.pending :: q.pending[u] == p.pending[u])
            && (counts && job.phase.err != ContextError ==>
                  && job.uri in q.cache
                  && q.cache[job.uri].out == Output(j, job.phase.origin) && q.cache[job.uri].err == job.phase.err)
            && (forall u :: u != job.uri || !counts || job.phase.err == ContextError ==>
                  (u in q.cache <==> u in p.cache) && (u in p.cache ==> q.cache[u] == p.cache[u]))
  {
  }

  /** The pipeline as the program keeps it. Each method is one critical section. */
  class Pipeline {
    var pending: map<string, nat>
    var cache: map<string, CacheEntry>
    var epoch: nat
    var jobs: seq<Job>

    ghost predicate Valid()
      reads this
    {
      WellFormed(PipeData(pending, cache, epoch, jobs))
    }

    ghost function View(): PipeState
      reads this
      requires Valid()
    {
      PipeData(pending, cache, epoch, jobs)
    }

    constructor ()
      ensures Valid() && View() == PipeData(map[], map[], 0, [])
    {
      pending, cache, epoch, jobs := map[], map[], 0, [];
    }

    method CancelPendingLocked(uri: string)
      requires Valid()
      modifies this`pending, this`jobs
      ensures Valid() && View() == Supersede(old(View()), uri)
    {
      if uri !in pending {
        return;
      }
      var previous := pending[uri];
      if jobs[previous].phase.Armed? {
        jobs := jobs[previous := jobs[previous].(phase := Stopped)];
      }
      if jobs[previous].ctx.Live? {
        jobs := jobs[previous := jobs[previous].(ctx := Canceled)];
      }
      pending := pending - {uri};
    }

    /** `notified` is the cached result handed to the sink on a hit. */
    method Schedule(uri: string, text: string, found: bool, now: nat) returns (notified: Option<CacheEntry>)
      requires Valid()
      modifies this
      ensures Valid() && View() == DoSchedule(old(View()), uri, text, found, now)
      ensures notified.Some? <==> found && uri in old(cache) && old(jobs[cache[uri].out.job].text == text)
      ensures notified.Some? ==> notified.value == old(cache)[uri] && |jobs| == |old(jobs)|
      ensures found && notified.None? ==>
                |jobs| == |old(jobs)| + 1 && uri in pending && pending[uri] == |old(jobs)|
                && jobs[|old(jobs)|].uri == uri && jobs[|old(jobs)|].text == text
    {
      hide Supersede, StopJob, CacheHit;
      HitIsSameText(View(), uri, text);
      SameTexts(View(), uri);
      notified := None;
      if !found {
        return;
      }
      CancelPendingLocked(uri);
      HitIsSameText(View(), uri, text);
      if uri in cache && cache[uri].hash == ContentHash(text) {
        notified := Some(cache[uri]);
        return;
      }
      jobs := jobs + [Job(uri, text, epoch, now, Live, Armed)];
      pending := pending[uri := |jobs| - 1];
    }

    /** The timer callback after `Render` returned; `committed` says whether the
        result reached the sink. */
    method Commit(j: nat) returns (committed: bool)
      requires Valid() && j < |jobs| && jobs[j].phase.Rendered?
      modifies this
      ensures Valid() && View() == DoCommit(old(View()), j)
      ensures committed == Current(old(View()), j)
    {
      var job := jobs[j];
      jobs := jobs[j := job.(phase := Finished)];
      committed := false;
      if !(job.uri in pending && pending[job.uri] == j) || job.epoch != epoch {
        return;
      }
      if !job.phase.err.ContextError? {
        cache := cache[job.uri := CacheEntry(ContentHash(job.text), Output(j, job.phase.origin), job.phase.err)];
      }
      pending := pending - {job.uri};
      committed := true;
    }

    method Latest(uri: string, text: string) returns (out: Option<Output>)
      requires Valid()
      ensures out.Some? <==> uri in cache && jobs[cache[uri].out.job].text == text && cache[uri].err == NoError
      ensures out.Some? ==> out.value == cache[uri].out
    {
      if uri in cache && cache[uri].hash == ContentHash(text) && cache[uri].err.NoError? {
        return Some(cache[uri].out);
      }
      return None;
    }

    method InvalidateAll()
      requires Valid()
      modifies this`cache, this`epoch
      ensures Valid() && View() == DoInvalidateAll(old(View()))
    {
      cache := map[];
      epoch := epoch + 1;
    }

    method Cancel(uri: string)
      requires Valid()
      modifies this
      ensures Valid() && View() == DoCancel(old(View()), uri)
    {
      CancelPendingLocked(uri);
      cache := cache - {uri};
    }
  }
}
