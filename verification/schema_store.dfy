/** The schema store: compiles shared per key, and a trust generation that keeps a
    compile started under an old trust set out of the caches. An `*inflightCompile`
    is an index into `calls`, the compiles ever started; a compiled schema or a
    compile error is known by the call that produced it. */
module SchemaStore {
  import opened Options

  /** What a file load reads under the loader's lock; `version` counts the changes. */
  datatype Trust = Trust(version: nat, enforce: bool, root: string, trusted: seq<string>)

  datatype Answer = Schema(call: nat) | CompileError(call: nat)

  /** `loads` are the trust snapshots its file loads took; `answer` is set, and the
      done channel closed (`closes` times), when the compile finishes. */
  datatype Call = Call(
    key: string,
    gen: nat,
    startedAt: nat,
    owner: nat,
    loads: seq<Trust>,
    answer: Option<Answer>,
    closes: nat)

  datatype StoreState = StoreState(
    compiled: map<string, Answer>,
    failures: map<string, Answer>,
    inflight: map<string, nat>,
    gen: nat,
    calls: seq<Call>)

  predicate SameTrust(t: Trust, root: string, trusted: seq<string>) {
    t.enforce && t.root == root && t.trusted == trusted
  }

  function DoSetRoot(t: Trust, root: string, trusted: seq<string>): Trust {
    if SameTrust(t, root, trusted) then t else Trust(t.version + 1, true, root, trusted)
  }

  /** After the call the set asked for is in force, and the version counts the calls that
      changed anything. */
  lemma SetRootLaw(t: Trust, root: string, trusted: seq<string>)
    ensures var u := DoSetRoot(t, root, trusted);
            && u.enforce && u.root == root && u.trusted == trusted
            && u.version == t.version + if (t.enforce, t.root, t.trusted) == (true, root, trusted) then 0 else 1
    ensures SameTrust(t, root, trusted) <==> (t.enforce, t.root, t.trusted) == (true, root, trusted)
  {
  }

  function DoClear(s: StoreState): StoreState {
    s.(compiled := map[], failures := map[], inflight := map[], gen := s.gen + 1)
  }

  /** How the first critical section of `Get` ends. `young`: a recorded failure, if
      any, is younger than its time to live. */
  datatype Lookup = Hit(answer: Answer) | Join(call: nat) | Own(call: nat)

  function DoLookup(s: StoreState, key: string, young: bool): Lookup {
    if key in s.compiled then Hit(s.compiled[key])
    else if key in s.failures && young then Hit(s.failures[key])
    else if key in s.inflight then Join(s.inflight[key])
    else Own(|s.calls|)
  }

  function DoEnter(s: StoreState, key: string, young: bool, getter: nat, now: nat): StoreState {
    if DoLookup(s, key, young).Own? then
      s.(inflight := s.inflight[key := |s.calls|],
         calls := s.calls + [Call(key, s.gen, now, getter, [], None, 0)])
    else s
  }

  /** The second critical section of the owner of call c. */
  function DoFinish(s: StoreState, c: nat, ok: bool): StoreState
    requires c < |s.calls|
  {
    var call := s.calls[c];
    var answer := if ok then Schema(c) else CompileError(c);
    var done := s.(calls := s.calls[c := call.(answer := Some(answer), closes := call.closes + 1)]);
    if call.gen != s.gen then done
    else if ok then done.(inflight := s.inflight - {call.key}, compiled := s.compiled[call.key := answer])
    else done.(inflight := s.inflight - {call.key}, failures := s.failures[call.key := answer])
  }

  class SecureFileLoader {
    var trust: Trust

    constructor ()
      ensures trust == Trust(0, false, "", [])
    {
      trust := Trust(0, false, "", []);
    }

    method SetRoot(root: string, trusted: seq<string>) returns (changed: bool)
      modifies this
      ensures trust == DoSetRoot(old(trust), root, trusted)
      ensures trust.enforce && trust.root == root && trust.trusted == trusted
      ensures changed <==> (old(trust.enforce), old(trust.root), old(trust.trusted)) != (true, root, trusted)
      ensures trust.version == old(trust.version) + if changed then 1 else 0
    {
      if trust.enforce && trust.root == root && trust.trusted == trusted {
        return false;
      }
      trust := Trust(trust.version + 1, true, root, trusted);
      changed := true;
    }
  }

  class Store {
    const fileLoader: SecureFileLoader
    var compiled: map<string, Answer>
    var failures: map<string, Answer>
    var inflight: map<string, nat>
    var trustGen: nat
    var calls: seq<Call>

    ghost function View(): StoreState
      reads this
    {
      StoreState(compiled, failures, inflight, trustGen, calls)
    }

    constructor ()
      ensures fresh(fileLoader) && fileLoader.trust == Trust(0, false, "", [])
      ensures View() == StoreState(map[], map[], map[], 0, [])
    {
      fileLoader := new SecureFileLoader();
      compiled, failures, inflight, trustGen, calls := map[], map[], map[], 0, [];
    }

    /** The loader first, then the caches, in two critical sections. */
    method SetTrustRoot(root: string, trusted: seq<string>)
      modifies this, fileLoader
      ensures fileLoader.trust == DoSetRoot(old(fileLoader.trust), root, trusted)
      ensures var t := fileLoader.trust;
              t.enforce && t.root == root && t.trusted == trusted
      ensures var t := old(fileLoader.trust);
              if (t.enforce, t.root, t.trusted) == (true, root, trusted) then View() == old(View())
              else
                && compiled == map[] && failures == map[] && inflight == map[]
                && trustGen == old(trustGen) + 1 && calls == old(calls)
    {
      var changed := fileLoader.SetRoot(root, trusted);
      if !changed {
        return;
      }
      Clear();
    }

    method Clear()
      modifies this
      ensures View() == DoClear(old(View()))
      ensures compiled == map[] && failures == map[] && inflight == map[]
      ensures trustGen == old(trustGen) + 1 && calls == old(calls)
    {
      trustGen := trustGen + 1;
      compiled := map[];
      failures := map[];
      inflight := map[];
    }

    method Cached(key: string) returns (sch: Option<Answer>)
      ensures sch == if key in compiled then Some(compiled[key]) else None
    {
      if key in compiled {
        return Some(compiled[key]);
      }
      return None;
    }

    method Enter(key: string, young: bool, getter: nat, now: nat) returns (lookup: Lookup)
      modifies this`inflight, this`calls
      ensures lookup == DoLookup(old(View()), key, young)
      ensures View() == DoEnter(old(View()), key, young, getter, now)
      ensures key in compiled ==> lookup == Hit(compiled[key])
      ensures key !in compiled && key in failures && young ==> lookup == Hit(failures[key])
      ensures key !in compiled && !(key in failures && young) && key in old(inflight) ==> lookup == Join(inflight[key])
      ensures lookup != Own(|old(calls)|) ==> inflight == old(inflight) && calls == old(calls)
      ensures key !in compiled && !(key in failures && young) && key !in old(inflight) ==>
                && lookup == Own(|old(calls)|) && inflight == old(inflight)[key := |old(calls)|]
                && calls == old(calls) + [Call(key, trustGen, now, getter, [], None, 0)]
    {
      if key in compiled {
        return Hit(compiled[key]);
      }
      if key in failures && young {
        return Hit(failures[key]);
      }
      if key in inflight {
        return Join(inflight[key]);
      }
      lookup := Own(|calls|);
      inflight := inflight[key := |calls|];
      calls := calls + [Call(key, trustGen, now, getter, [], None, 0)];
    }

    method Finish(c: nat, ok: bool) returns (answer: Answer)
      requires c < |calls|
      modifies this
      ensures answer == if ok then Schema(c) else CompileError(c)
      ensures View() == DoFinish(old(View()), c, ok)
      ensures trustGen == old(trustGen) && |calls| == |old(calls)|
      ensures calls[c].answer == Some(answer) && calls[c].closes == old(calls[c].closes) + 1
      ensures old(calls[c].gen) == trustGen ==>
                && inflight == old(inflight) - {old(calls[c].key)}
                && compiled == (if ok then old(compiled)[old(calls[c].key) := answer] else old(compiled))
                && failures == (if ok then old(failures) else old(failures)[old(calls[c].key) := answer])
      ensures old(calls[c].gen) != trustGen ==>
                inflight == old(inflight) && compiled == old(compiled) && failures == old(failures)
    {
      var call := calls[c];
      var current := call.gen == trustGen;
      if current {
        inflight := inflight - {call.key};
      }
      if !ok {
        answer := CompileError(c);
        if current {
          failures := failures[call.key := answer];
        }
      } else {
        answer := Schema(c);
        if current {
          compiled := compiled[call.key := answer];
        }
      }
      calls := calls[c := call.(answer := Some(answer), closes := call.closes + 1)];
    }
  }
}
