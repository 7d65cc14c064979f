/** The whole-tree renderer: one cached tree under a key, a generation that
    watched-file events bump, and a lock held for the length of a build. A build
    is opaque: it is stamped with the moment it began and the error it ended in. */
module FlateTree {
  import opened Options
  import opened RenderPipeline

  datatype CachedTree = CachedTree(key: TreeKey, began: nat, err: RenderError)

  /** `root` is the build root in force: the configured path, taken relative to the workspace,
      or the workspace itself. */
  datatype TreeState = TreeState(
    root: Option<Path>,
    gen: nat,
    watched: bool,
    cached: Option<CachedTree>,
    holder: Option<nat>)

  /** A relative path from root to path that does not climb. */
  predicate UnderRoot(root: Path, path: Path) { root <= path }

  /** An event whose path is empty, or inside a known build root, counts. */
  predicate Invalidates(t: TreeState, path: Option<Path>) {
    path.None? || (t.root.Some? && UnderRoot(t.root.value, path.value))
  }

  function DoInvalidateTree(t: TreeState, path: Option<Path>): TreeState {
    if Invalidates(t, path) then t.(gen := t.gen + 1) else t
  }

  /** A change of the root itself, or of anything below it, makes the tree stale. */
  lemma BelowRootCounts(t: TreeState, root: Path, rest: Path)
    requires t.root == Some(root)
    ensures DoInvalidateTree(t, Some(root + rest)) == t.(gen := t.gen + 1)
  {
    assert root <= root + rest;
  }

  /** No other change does: not one above the root, nor one beside it, nor any while no root is
      known. */
  lemma ElsewhereDoesNot(t: TreeState, path: Path)
    requires t.root.Some? ==>
               |path| < |t.root.value| || exists k :: 0 <= k < |t.root.value| && path[k] != t.root.value[k]
    ensures DoInvalidateTree(t, Some(path)) == t
  {
  }

  /** A change of unknown place always does. */
  lemma UnknownPlaceCounts(t: TreeState)
    ensures DoInvalidateTree(t, None) == t.(gen := t.gen + 1)
  {
  }

  /** What counts, said of the components: the path goes on from the root. */
  ghost predicate GoesOnFrom(t: TreeState, path: Option<Path>) {
    path.None? || (t.root.Some? && exists rest: Path :: path.value == t.root.value + rest)
  }

  lemma InvalidatesBelow(t: TreeState, path: Option<Path>)
    ensures Invalidates(t, path) <==> GoesOnFrom(t, path)
  {
    if path.Some? && t.root.Some? && t.root.value <= path.value {
      assert path.value == t.root.value + path.value[|t.root.value|..];
    }
  }

  predicate CachedUnder(t: TreeState, key: TreeKey) {
    t.cached.Some? && t.cached.value.key == key
  }

  /** The error of a render cut from a tree: the tree's own, else the one found
      while matching the document against it. */
  function TreeError(treeErr: RenderError, docErr: RenderError): RenderError {
    if treeErr.NoError? then docErr else treeErr
  }

  function DoEnter(t: TreeState, j: nat, key: TreeKey, ctx: Context, docErr: RenderError, now: nat): (TreeState,
                   Phase) {
    if CachedUnder(t, key) then
      (t, Rendered(FromTree(key.root, t.cached.value.began), TreeError(t.cached.value.err, docErr)))
    else if !ctx.Live? then (t, Rendered(NoTree, ContextError))
    else (t.(holder := Some(j)), Building(key, now))
  }

  function DoLeave(t: TreeState, key: TreeKey, began: nat, ctx: Context, buildErr: RenderError, docErr: RenderError):
      (TreeState, Phase)
  {
    var free := t.(holder := None);
    match ctx
    case Canceled => (free, Rendered(NoTree, ContextError))
    case Expired => (free.(cached := Some(CachedTree(key, began, ContextError))), Rendered(NoTree, ContextError))
    case Live =>
      (free.(cached := Some(CachedTree(key, began, buildErr))),
       Rendered(FromTree(key.root, began), TreeError(buildErr, docErr)))
  }

  /** Entering the tree's section: the cached tree serves exactly the root, fingerprint and
      generation it was built for, with its own error or else the document's; otherwise a build
      begins, unless the context is over. */
  lemma EnterLaw(t: TreeState, j: nat, key: TreeKey, ctx: Context, docErr: RenderError, now: nat)
    ensures var (u, phase) := DoEnter(t, j, key, ctx, docErr, now);
            var hit := t.cached.Some? && t.cached.value.key.root == key.root
                       && t.cached.value.key.fingerprint == key.fingerprint && t.cached.value.key.gen == key.gen;
            && u == t.(holder := u.holder)
            && (hit ==>
                  u.holder == t.holder && phase.Rendered? && phase.origin == FromTree(key.root, t.cached.value.began)
                  && phase.err == (if t.cached.value.err == NoError then docErr else t.cached.value.err))
            && (!hit && ctx == Live ==> u.holder == Some(j) && phase == Building(key, now))
            && (!hit && ctx != Live ==> u.holder == t.holder && phase == Rendered(NoTree, ContextError))
  {
  }

  /** Leaving it: a superseded build is not cached, one that ran out of time only as that
      error, a finished one with its own; and only a finished one serves the document. */
  lemma LeaveLaw(t: TreeState, key: TreeKey, began: nat, ctx: Context, buildErr: RenderError, docErr: RenderError)
    ensures var (u, phase) := DoLeave(t, key, began, ctx, buildErr, docErr);
            && u == t.(holder := None, cached := u.cached) && phase.Rendered?
            && (ctx == Canceled ==> u.cached == t.cached)
            && (ctx == Expired ==> u.cached == Some(CachedTree(key, began, ContextError)))
            && (ctx == Live ==> u.cached == Some(CachedTree(key, began, buildErr)))
            && (ctx != Live ==> phase.origin == NoTree && phase.err == ContextError)
            && (ctx == Live ==>
                  phase.origin == FromTree(key.root, began)
                  && phase.err == (if buildErr == NoError then docErr else buildErr))
  {
  }

  /** The renderer as the program keeps it; the methods are the atomic reads and
      the two ends of the critical section of `tree`. */
  class Renderer {
    var root: Option<Path>
    var gen: nat
    var watched: bool
    var cached: Option<CachedTree>
    var holder: Option<nat>

    ghost function View(): TreeState
      reads this
    {
      TreeState(root, gen, watched, cached, holder)
    }

    constructor (root: Option<Path>)
      ensures View() == TreeState(root, 0, false, None, None)
    {
      this.root, gen, watched, cached, holder := root, 0, false, None, None;
    }

    /** Both `Configure` and `SetWorkspaceRoot` change the root and nothing else. */
    method SetRoot(root: Option<Path>)
      modifies this`root
      ensures View() == old(View()).(root := root)
    {
      this.root := root;
    }

    method SetFileWatchActive(active: bool)
      modifies this`watched
      ensures View() == old(View()).(watched := active)
    {
      watched := active;
    }

    method InvalidateTree(path: Option<Path>)
      modifies this`gen
      ensures View() == DoInvalidateTree(old(View()), path)
      ensures gen == old(gen) + if GoesOnFrom(old(View()), path) then 1 else 0
    {
      InvalidatesBelow(View(), path);
      if path.Some? {
        if root.None? || !UnderRoot(root.value, path.value) {
          return;
        }
      }
      gen := gen + 1;
    }

    /** Take the tree lock; either the cached tree or an expired context ends the
        section at once, or the build starts with the lock held. */
    method Enter(j: nat, key: TreeKey, ctx: Context, docErr: RenderError, now: nat) returns (phase: Phase)
      requires holder.None?
      modifies this`holder
      ensures (View(), phase) == DoEnter(old(View()), j, key, ctx, docErr, now)
      ensures cached == old(cached)
      ensures var hit := cached.Some? && cached.value.key.root == key.root
                         && cached.value.key.fingerprint == key.fingerprint && cached.value.key.gen == key.gen;
              && (hit ==>
                    holder == old(holder) && phase.Rendered? && phase.origin == FromTree(key.root, cached.value.began)
                    && phase.err == (if cached.value.err == NoError then docErr else cached.value.err))
              && (!hit && ctx == Live ==> holder == Some(j) && phase == Building(key, now))
              && (!hit && ctx != Live ==> holder == old(holder) && phase == Rendered(NoTree, ContextError))
    {
      if cached.Some? {
        var c := cached.value;
        if c.key.root == key.root && c.key.fingerprint == key.fingerprint && c.key.gen == key.gen {
          return Rendered(FromTree(key.root, c.began), TreeError(c.err, docErr));
        }
      }
      if !ctx.Live? {
        return Rendered(NoTree, ContextError);
      }
      holder := Some(j);
      phase := Building(key, now);
    }

    /** The build returned: cache it, or only the deadline that cut it short. */
    method Leave(key: TreeKey, began: nat, ctx: Context, buildErr: RenderError, docErr: RenderError)
      returns (phase: Phase)
      modifies this`holder, this`cached
      ensures (View(), phase) == DoLeave(old(View()), key, began, ctx, buildErr, docErr)
      ensures holder == None
      ensures ctx == Canceled ==> cached == old(cached)
      ensures ctx == Expired ==> cached == Some(CachedTree(key, began, ContextError))
      ensures ctx == Live ==> cached == Some(CachedTree(key, began, buildErr))
      ensures phase.Rendered?
      ensures ctx != Live ==> phase.origin == NoTree && phase.err == ContextError
      ensures ctx == Live ==>
                phase.origin == FromTree(key.root, began)
                 && phase.err == if buildErr == NoError then docErr else buildErr
    {
      holder := None;
      if !ctx.Live? {
        if ctx.Expired? {
          cached := Some(CachedTree(key, began, ContextError));
        }
        return Rendered(NoTree, ContextError);
      }
      cached := Some(CachedTree(key, began, buildErr));
      phase := Rendered(FromTree(key.root, began), TreeError(buildErr, docErr));
    }
  }
}
