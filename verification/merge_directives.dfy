/** Projecting a decoded document onto its shape after a strategic merge: directive keys and
    mappings made of nothing else disappear. */
module MergeDirectives {
  import opened Options

  datatype Value =
    | Map(entries: map<string, Value>)
    | List(items: seq<Value>)
    | Scalar(text: string)

  predicate IsDirectiveKey(k: string) {
    || k == "$patch" || k == "$retainKeys"
    || "$setElementOrder/" <= k || "$deleteFromPrimitiveList/" <= k
  }

  /** A mapping of directive keys alone, and at least one. */
  predicate DirectiveOnly(v: Value) {
    v.Map? && v.entries != map[] && forall k <- v.entries :: IsDirectiveKey(k)
  }

  predicate Kept(k: string, child: Value) {
    !IsDirectiveKey(k) && !DirectiveOnly(child)
  }

  function Normalize(v: Value): Value {
    match v
    case Map(entries) => Map(map k | k in entries && Kept(k, entries[k]) :: Normalize(entries[k]))
    case List(items) => List(NormalizeItems(items))
    case Scalar(_) => v
  }

  function NormalizeItems(items: seq<Value>): seq<Value> {
    if items == [] then []
    else (if DirectiveOnly(items[0]) then [] else [Normalize(items[0])]) + NormalizeItems(items[1..])
  }

  // --- what is a directive, and what becomes of each value ---

  /** The names of directives: two of them, and everything behind two prefixes. */
  lemma DirectiveNames(k: string)
    ensures IsDirectiveKey(k) <==>
              || k == "$patch" || k == "$retainKeys"
              || (exists field: string :: k == "$setElementOrder/" + field)
              || (exists field: string :: k == "$deleteFromPrimitiveList/" + field)
  {
    if "$setElementOrder/" <= k {
      assert k == "$setElementOrder/" + k[17..];
    }
    if "$deleteFromPrimitiveList/" <= k {
      assert k == "$deleteFromPrimitiveList/" + k[25..];
    }
  }

  /** A mapping that has keys, all of them names of directives. */
  ghost predicate Marker(v: Value) {
    match v
    case Map(entries) => |entries| > 0 && forall k :: k in entries ==> IsDirectiveKey(k)
    case _ => false
  }

  lemma MarkersAre(v: Value)
    ensures DirectiveOnly(v) <==> Marker(v)
  {
  }

  /** An entry stays exactly when its key is no directive and its value no marker, and is then
      projected itself. */
  lemma EntryLaw(entries: map<string, Value>, k: string)
    ensures Normalize(Map(entries)).Map?
    ensures var out := Normalize(Map(entries)).entries;
            && (k in out <==> k in entries && !IsDirectiveKey(k) && !Marker(entries[k]))
            && (k in out ==> out[k] == Normalize(entries[k]))
  {
    if k in entries {
      MarkersAre(entries[k]);
    }
  }

  /** So does an item, in its order; a scalar stays as it is. */
  lemma {:induction false} ItemLaw(items: seq<Value>, last: Value, text: string)
    ensures Normalize(Scalar(text)) == Scalar(text)
    ensures Normalize(List([])) == List([])
    ensures Normalize(List(items)).List?
    ensures Normalize(List(items + [last])) ==
            List(Normalize(List(items)).items + if Marker(last) then [] else [Normalize(last)])
  {
    MarkersAre(last);
    if items == [] {
      assert [last][1..] == [] && items + [last] == [last];
      assert NormalizeItems([]) == [];
    } else {
      assert (items + [last])[0] == items[0] && (items + [last])[1..] == items[1..] + [last];
      ItemLaw(items[1..], last, text);
    }
  }

  // --- what is left ---

  /** No mapping has a directive key, and nothing inside the value is a mere directive. */
  predicate DirectiveFree(v: Value) {
    match v
    case Map(entries) => forall k <- entries :: Kept(k, entries[k]) && DirectiveFree(entries[k])
    case List(items) => forall i :: 0 <= i < |items| ==> !DirectiveOnly(items[i]) && DirectiveFree(items[i])
    case Scalar(_) => true
  }

  /** A projected value is never a mere directive. */
  lemma ProjectedIsData(v: Value)
    ensures !DirectiveOnly(Normalize(v))
  {
    if v.Map? {
      var out := Normalize(v).entries;
      if out != map[] {
        var k :| k in out;
        assert !IsDirectiveKey(k);
      }
    }
  }

  /** Nothing of a directive survives at any depth. */
  lemma {:induction false} ProjectionIsDirectiveFree(v: Value)
    ensures DirectiveFree(Normalize(v))
  {
    match v
    case Map(entries) =>
      forall k | k in entries && Kept(k, entries[k])
        ensures Kept(k, Normalize(entries[k])) && DirectiveFree(Normalize(entries[k]))
      {
        ProjectionIsDirectiveFree(entries[k]);
        ProjectedIsData(entries[k]);
      }
    case List(items) => ProjectedItemsAreFree(items);
    case Scalar(_) =>
  }

  lemma {:induction false} ProjectedItemsAreFree(items: seq<Value>)
    ensures forall x <- NormalizeItems(items) :: !DirectiveOnly(x) && DirectiveFree(x)
  {
    if items != [] {
      ProjectionIsDirectiveFree(items[0]);
      ProjectedIsData(items[0]);
      ProjectedItemsAreFree(items[1..]);
    }
  }

  lemma {:induction false} FreeIsKept(v: Value)
    requires DirectiveFree(v)
    ensures Normalize(v) == v
  {
    match v
    case Map(entries) =>
      forall k | k in entries
        ensures Kept(k, entries[k]) && Normalize(entries[k]) == entries[k]
      {
        FreeIsKept(entries[k]);
      }
      assert Normalize(v).entries == entries;
    case List(items) => FreeItemsAreKept(items);
    case Scalar(_) =>
  }

  lemma {:induction false} FreeItemsAreKept(items: seq<Value>)
    requires forall i :: 0 <= i < |items| ==> !DirectiveOnly(items[i]) && DirectiveFree(items[i])
    ensures NormalizeItems(items) == items
  {
    if items != [] {
      FreeIsKept(items[0]);
      FreeItemsAreKept(items[1..]);
      assert items == [items[0]] + items[1..];
    }
  }

  /** The projection leaves a document alone if and only if it holds no directive. */
  lemma FixedPoints(v: Value)
    ensures Normalize(v) == v <==> DirectiveFree(v)
  {
    ProjectionIsDirectiveFree(v);
    if DirectiveFree(v) {
      FreeIsKept(v);
    }
  }

  /** Projecting twice is projecting once. */
  lemma Idempotent(v: Value)
    ensures Normalize(Normalize(v)) == Normalize(v)
  {
    ProjectionIsDirectiveFree(v);
    FreeIsKept(Normalize(v));
  }

  // --- nothing else is lost ---

  datatype Step = Key(k: string) | Index(i: nat)

  /** What a path leads to. */
  function At(v: Value, path: seq<Step>): Option<Value> {
    if path == [] then Some(v)
    else
      match path[0]
      case Key(k) => if v.Map? && k in v.entries then At(v.entries[k], path[1..]) else None
      case Index(i) => if v.List? && i < |v.items| then At(v.items[i], path[1..]) else None
  }

  /** No step of the path is a directive key or leads to a mere directive. */
  predicate KeptPath(v: Value, path: seq<Step>)
    requires At(v, path).Some?
  {
    path == [] ||
    match path[0]
    case Key(k) => Kept(k, v.entries[k]) && KeptPath(v.entries[k], path[1..])
    case Index(i) => !DirectiveOnly(v.items[i]) && KeptPath(v.items[i], path[1..])
  }

  /** How many of the first n items stay. */
  function Staying(items: seq<Value>, n: nat): nat
    requires n <= |items|
  {
    if n == 0 then 0 else Staying(items, n - 1) + if DirectiveOnly(items[n - 1]) then 0 else 1
  }

  /** Where a path leads after the projection: indices drop by the items removed before. */
  function Moved(v: Value, path: seq<Step>): seq<Step>
    requires At(v, path).Some?
  {
    if path == [] then []
    else
      match path[0]
      case Key(k) => [path[0]] + Moved(v.entries[k], path[1..])
      case Index(i) => [Index(Staying(v.items, i))] + Moved(v.items[i], path[1..])
  }

  lemma {:induction false} StayingFromFirst(items: seq<Value>, n: nat)
    requires 0 < n <= |items|
    ensures Staying(items, n) == (if DirectiveOnly(items[0]) then 0 else 1) + Staying(items[1..], n - 1)
  {
    if n > 1 {
      StayingFromFirst(items, n - 1);
    }
  }

  lemma {:induction false} ItemMoves(items: seq<Value>, i: nat)
    requires i < |items| && !DirectiveOnly(items[i])
    ensures var out := NormalizeItems(items);
            Staying(items, i) < |out| && out[Staying(items, i)] == Normalize(items[i])
  {
    hide Normalize, DirectiveOnly;
    if i > 0 {
      ItemMoves(items[1..], i - 1);
      StayingFromFirst(items, i);
    }
  }

  lemma {:induction false} ItemsCount(items: seq<Value>)
    ensures |NormalizeItems(items)| == Staying(items, |items|)
  {
    hide Normalize, DirectiveOnly;
    if items != [] {
      ItemsCount(items[1..]);
      StayingFromFirst(items, |items|);
    }
  }

  /** Everything that is not under a directive is still there, projected. */
  lemma {:induction false} NothingElseIsLost(v: Value, path: seq<Step>)
    requires At(v, path).Some? && KeptPath(v, path)
    ensures At(Normalize(v), Moved(v, path)) == Some(Normalize(At(v, path).value))
  {
    if path != [] {
      match path[0]
      case Key(k) =>
        NothingElseIsLost(v.entries[k], path[1..]);
        assert Moved(v, path)[1..] == Moved(v.entries[k], path[1..]);
      case Index(i) =>
        NothingElseIsLost(v.items[i], path[1..]);
        ItemMoves(v.items, i);
        assert Moved(v, path)[1..] == Moved(v.items[i], path[1..]);
    }
  }

  lemma EntriesKept(entries: map<string, Value>, k: string)
    ensures k in Normalize(Map(entries)).entries <==> k in entries && Kept(k, entries[k])
  {
  }

  /** The p-th item of the projected list is a kept item, with p kept ones before it. */
  lemma {:induction false} ItemCameFrom(items: seq<Value>, p: nat) returns (i: nat)
    requires p < |NormalizeItems(items)|
    ensures i < |items| && !DirectiveOnly(items[i]) && Staying(items, i) == p
  {
    hide Normalize, DirectiveOnly;
    ItemsCount(items);
    i := LastCounted(items, p, |items|);
  }

  lemma {:induction false} LastCounted(items: seq<Value>, p: nat, n: nat) returns (i: nat)
    requires n <= |items| && p < Staying(items, n)
    ensures i < n && !DirectiveOnly(items[i]) && Staying(items, i) == p
  {
    hide DirectiveOnly;
    if p < Staying(items, n - 1) {
      i := LastCounted(items, p, n - 1);
    } else {
      i := n - 1;
    }
  }

  /** Nothing is added: every path of the projected document is where a kept path of the
      original moved to. */
  lemma {:induction false} NothingIsAdded(v: Value, q: seq<Step>) returns (path: seq<Step>)
    requires At(Normalize(v), q).Some?
    ensures At(v, path).Some? && KeptPath(v, path) && Moved(v, path) == q
    decreases |q|
  {
    if q == [] {
      path := [];
    } else {
      match q[0]
      case Key(k) =>
        EntriesKept(v.entries, k);
        var rest := NothingIsAdded(v.entries[k], q[1..]);
        path := [q[0]] + rest;
        assert path[1..] == rest;
        assert q == [q[0]] + q[1..];
      case Index(p) =>
        var i := ItemCameFrom(v.items, p);
        ItemMoves(v.items, i);
        var rest := NothingIsAdded(v.items[i], q[1..]);
        path := [Index(i)] + rest;
        assert path[1..] == rest;
        assert q == [q[0]] + q[1..];
    }
  }
}
