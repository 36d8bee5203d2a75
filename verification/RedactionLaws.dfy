/** What the traversal hides, reaches and keeps, on every object graph on which it ends. */
module RedactionLaws {
  import opened Common
  import R = Redaction
  import T = RedactionTheorems
  import opened RedactionStack

  /** At every depth of the result, whatever stood under a sensitive key is the placeholder. */
  lemma EndedIsClean(g: Graph, v: Word, stack: nat)
    requires Redact(g, v, [], stack).Some?
    ensures T.Clean(Redact(g, v, [], stack).value.0)
  {
    EndedIsRedacted(g, v, stack);
    T.ResultIsClean(UnfoldGraph(g, stack), Unfold(g, v, stack), []);
  }

  /** The tree is what the value redacts to, after some others. */
  ghost predicate ComesFrom(g: Graph, v: Word, stack: nat, out: R.Tree) {
    exists before :: Redact(g, v, before, stack).Some? && Redact(g, v, before, stack).value.0 == out
  }

  lemma RedactsTo(g: Graph, v: Word, before: seq<nat>, stack: nat)
    requires Redact(g, v, before, stack).Some?
    ensures ComesFrom(g, v, stack, Redact(g, v, before, stack).value.0)
  {
  }

  /** An object keeps its keys, in order. Under a sensitive one stands the placeholder, under every other one
      what its value redacts to, after the values before it. */
  lemma {:induction false} FieldsKeepTheirPlaces(g: Graph, fields: Fields, seen: seq<nat>, stack: nat, i: nat)
    requires RedactFields(g, fields, seen, stack).Some?
    ensures var out := RedactFields(g, fields, seen, stack).value.0;
      && |out| == |fields|
      && (i < |fields| ==> out[i].key == fields[i].0)
      && (i < |fields| && R.IsSensitive(fields[i].0) ==> out[i].tree == R.Leaf(R.Str("[REDACTED]")))
      && (i < |fields| && !R.IsSensitive(fields[i].0) ==> ComesFrom(g, fields[i].1, stack, out[i].tree))
    decreases |fields|
  {
    if fields != [] {
      R.SensitiveExactlyWhen(fields[0].0);
      if !R.ShouldRedactKey(fields[0].0) {
        RedactsTo(g, fields[0].1, seen, stack);
      }
      var first := RedactField(g, fields[0].0, fields[0].1, seen, stack);
      FieldsKeepTheirPlaces(g, fields[1..], first.value.1, stack, if i > 0 then i - 1 else 0);
    }
  }

  /** Dates become their text, errors a record of name, message and stack, an object met before a mark; other
      values stay, and arrays and new objects are gone through. */
  lemma ShapesAreKept(g: Graph, v: Word, seen: seq<nat>, stack: nat)
    requires Redact(g, v, seen, stack).Some?
    ensures var out := Redact(g, v, seen, stack).value.0;
      match v
      case Plain(s) => out == R.Leaf(s)
      case Time(iso) => out == R.Leaf(R.Str(iso))
      case Error(name, message, trace) =>
        out == R.Record([R.Field("name", R.Leaf(R.Str(name))), R.Field("message", R.Leaf(R.Str(message))),
                         R.Field("stack", R.Leaf(trace))])
      case Ref(id) => id in g ==>
        match g[id]
        case Array(items) => out.List? && |out.items| == |items|
        case Object(fields) =>
          if id in seen then out == R.Leaf(R.Str("[Circular]")) else out.Record? && |out.fields| == |fields|
  {
    if v.Ref? && v.id in g {
      match g[v.id]
      case Array(items) => ItemsKeepTheirPlaces(g, items, seen, stack - 1, 0);
      case Object(fields) =>
        if v.id !in seen {
          FieldsKeepTheirPlaces(g, fields, seen + [v.id], stack - 1, 0);
        }
    }
  }

  lemma {:induction false} ItemsKeepTheirPlaces(g: Graph, items: seq<Word>, seen: seq<nat>, stack: nat, i: nat)
    requires RedactAll(g, items, seen, stack).Some?
    ensures var out := RedactAll(g, items, seen, stack).value.0;
      && |out| == |items|
      && (i < |items| ==> ComesFrom(g, items[i], stack, out[i]))
    decreases |items|
  {
    if items != [] {
      var first := Redact(g, items[0], seen, stack);
      RedactsTo(g, items[0], seen, stack);
      ItemsKeepTheirPlaces(g, items[1..], first.value.1, stack, if i > 0 then i - 1 else 0);
    }
  }

  // ---- What stands under a sensitive key has no influence at all ----

  ghost predicate SameButSecrets(a: Fields, b: Fields) {
    |a| == |b| && forall i :: 0 <= i < |a| ==> a[i].0 == b[i].0 && (R.IsSensitive(a[i].0) || a[i].1 == b[i].1)
  }

  ghost predicate SameNode(a: Node, b: Node) {
    (a.Array? && a == b) || (a.Object? && b.Object? && SameButSecrets(a.fields, b.fields))
  }

  // The word refers to nothing, or to something in `c`.
  predicate Stays(g: Graph, h: Graph, c: set<nat>, v: Word) {
    v.Ref? ==> v.id in c || (v.id !in g && v.id !in h)
  }

  /** On `c`, which no way but one under a sensitive key leaves, the graphs differ under sensitive keys
      only. Elsewhere they may differ in anything. */
  ghost predicate AgreeOn(g: Graph, h: Graph, c: set<nat>) {
    forall id :: id in c ==>
      && id in g && id in h && SameNode(g[id], h[id])
      && match g[id]
         case Array(items) => forall x :: x in items ==> Stays(g, h, c, x)
         case Object(fields) =>
           forall i :: 0 <= i < |fields| && !R.ShouldRedactKey(fields[i].0) ==> Stays(g, h, c, fields[i].1)
  }

  lemma {:induction false} SecretsAreSkipped(g: Graph, h: Graph, c: set<nat>, v: Word, seen: seq<nat>, stack: nat)
    requires AgreeOn(g, h, c) && Stays(g, h, c, v)
    ensures Redact(g, v, seen, stack) == Redact(h, v, seen, stack)
    decreases stack, 0
  {
    if stack > 0 && v.Ref? && v.id in c {
      assert SameNode(g[v.id], h[v.id]);
      match g[v.id]
      case Array(items) => SecretsAreSkippedInAll(g, h, c, items, seen, stack - 1);
      case Object(fields) =>
        if v.id !in seen {
          SecretsAreSkippedInFields(g, h, c, fields, h[v.id].fields, seen + [v.id], stack - 1);
        }
    }
  }

  lemma {:induction false} SecretsAreSkippedInAll(g: Graph, h: Graph, c: set<nat>, items: seq<Word>, seen: seq<nat>,
                                                  stack: nat)
    requires AgreeOn(g, h, c) && forall x :: x in items ==> Stays(g, h, c, x)
    ensures RedactAll(g, items, seen, stack) == RedactAll(h, items, seen, stack)
    decreases stack, |items|
  {
    if items != [] {
      SecretsAreSkipped(g, h, c, items[0], seen, stack);
      if Redact(g, items[0], seen, stack).Some? {
        SecretsAreSkippedInAll(g, h, c, items[1..], Redact(g, items[0], seen, stack).value.1, stack);
      }
    }
  }

  lemma {:induction false} SecretsAreSkippedInFields(g: Graph, h: Graph, c: set<nat>, a: Fields, b: Fields,
                                                     seen: seq<nat>,
                                                     stack: nat)
    requires AgreeOn(g, h, c) && SameButSecrets(a, b)
    requires forall i :: 0 <= i < |a| && !R.ShouldRedactKey(a[i].0) ==> Stays(g, h, c, a[i].1)
    ensures RedactFields(g, a, seen, stack) == RedactFields(h, b, seen, stack)
    decreases stack, |a| + 1
  {
    if a != [] {
      R.SensitiveExactlyWhen(a[0].0);
      if !R.ShouldRedactKey(a[0].0) {
        SecretsAreSkipped(g, h, c, a[0].1, seen, stack);
      }
      var first := RedactField(g, a[0].0, a[0].1, seen, stack);
      if first.Some? {
        SecretsAreSkippedInFields(g, h, c, a[1..], b[1..], first.value.1, stack);
      }
    }
  }

  /** Graphs that differ only under sensitive keys, and in what only those lead to, redact to the same tree
      on every stack, or overflow it alike. */
  lemma SecretsDoNotMatter(g: Graph, h: Graph, c: set<nat>, v: Word)
    requires AgreeOn(g, h, c) && Stays(g, h, c, v)
    ensures forall stack :: Redact(g, v, [], stack) == Redact(h, v, [], stack)
    ensures Ends(g, v) <==> Ends(h, v)
  {
    forall stack ensures Redact(g, v, [], stack) == Redact(h, v, [], stack) {
      SecretsAreSkipped(g, h, c, v, [], stack);
    }
  }

  // ---- Exactly the reachable objects are expanded, each once ----

  ghost predicate Distinct(log: seq<nat>) {
    forall i, j :: 0 <= i < j < |log| ==> log[i] != log[j]
  }

  ghost predicate Reaches(g: Graph, v: Word, id: nat) {
    exists walk :: Walk(g, v, walk) && walk[|walk| - 1] == id
  }

  // What a traversal adds to the log is objects that the root reaches, none twice.
  ghost predicate AddsReached(g: Graph, root: Word, seen: seq<nat>, log: seq<nat>) {
    && (Distinct(seen) ==> Distinct(log))
    && (forall id :: id in log && id !in seen ==> Reaches(g, root, id) && id in g && g[id].Object?)
  }

  lemma {:induction false} LogIsReached(g: Graph, root: Word, walk: seq<nat>, v: Word, seen: seq<nat>, stack: nat)
    requires (walk != [] ==> Walk(g, root, walk)) && LeadsTo(g, root, walk, v) && Redact(g, v, seen, stack).Some?
    ensures AddsReached(g, root, seen, Redact(g, v, seen, stack).value.1)
    decreases stack, 0
  {
    if v.Ref? && v.id in g {
      WalkFurther(g, root, walk, v.id);
      var on := walk + [v.id];
      match g[v.id]
      case Array(items) => LogIsReachedByAll(g, root, on, items, seen, stack - 1);
      case Object(fields) =>
        if v.id !in seen {
          LogIsReachedByFields(g, root, on, fields, seen + [v.id], stack - 1);
          assert on[|on| - 1] == v.id;
        }
    }
  }

  lemma {:induction false} LogIsReachedByAll(g: Graph, root: Word, walk: seq<nat>, items: seq<Word>, seen: seq<nat>,
                                             stack: nat)
    requires walk != [] && Walk(g, root, walk) && RedactAll(g, items, seen, stack).Some?
    requires forall x :: x in items ==> LeadsTo(g, root, walk, x)
    ensures AddsReached(g, root, seen, RedactAll(g, items, seen, stack).value.1)
    decreases stack, |items|
  {
    if items != [] {
      LogIsReached(g, root, walk, items[0], seen, stack);
      LogIsReachedByAll(g, root, walk, items[1..], Redact(g, items[0], seen, stack).value.1, stack);
    }
  }

  lemma {:induction false} LogIsReachedByFields(g: Graph, root: Word, walk: seq<nat>, fields: Fields, seen: seq<nat>,
                                                stack: nat)
    requires walk != [] && Walk(g, root, walk) && RedactFields(g, fields, seen, stack).Some?
    requires forall i :: 0 <= i < |fields| && !R.ShouldRedactKey(fields[i].0) ==> LeadsTo(g, root, walk, fields[i].1)
    ensures AddsReached(g, root, seen, RedactFields(g, fields, seen, stack).value.1)
    decreases stack, |fields| + 1
  {
    if fields != [] {
      if !R.ShouldRedactKey(fields[0].0) {
        LogIsReached(g, root, walk, fields[0].1, seen, stack);
      }
      var mid := RedactField(g, fields[0].0, fields[0].1, seen, stack).value.1;
      LogIsReachedByFields(g, root, walk, fields[1..], mid, stack);
    }
  }

  /** With cycles and sharing, a traversal that ends has expanded exactly the objects that some way reaches
      without passing under a sensitive key, each once. */
  lemma ExpandsExactlyTheReachable(g: Graph, v: Word, stack: nat)
    requires Redact(g, v, [], stack).Some?
    ensures var log := Redact(g, v, [], stack).value.1;
      Distinct(log) && forall id :: id in log <==> Reaches(g, v, id) && id in g && g[id].Object?
  {
    var log := Redact(g, v, [], stack).value.1;
    LogIsReached(g, v, [], v, [], stack);
    RedactSettles(g, v, [], stack);
    forall id | Reaches(g, v, id) && id in g && g[id].Object? ensures id in log {
      var walk :| Walk(g, v, walk) && walk[|walk| - 1] == id;
      WalkIsSettled(g, v, walk, |walk| - 1, log, stack);
    }
  }

  // ---- Clean data comes through unchanged, wherever in memory it lies ----

  function Objects(t: R.Tree): nat {
    match t
    case Leaf(_) => 0
    case List(items) => ObjectsAll(items)
    case Record(fields) => 1 + ObjectsOfFields(fields)
  }

  function ObjectsAll(ts: seq<R.Tree>): nat {
    if ts == [] then 0 else Objects(ts[0]) + ObjectsAll(ts[1..])
  }

  function ObjectsOfFields(ts: seq<R.Field>): nat {
    if ts == [] then 0 else Objects(ts[0].tree) + ObjectsOfFields(ts[1..])
  }

  /** How deep the calls of a traversal of the tree nest. */
  function Depth(t: R.Tree): nat {
    match t
    case Leaf(_) => 1
    case List(items) => 1 + DepthOfAll(items)
    case Record(fields) => 1 + DepthOfFields(fields)
  }

  function DepthOfAll(ts: seq<R.Tree>): nat {
    if ts == [] then 0 else Max(Depth(ts[0]), DepthOfAll(ts[1..]))
  }

  function DepthOfFields(ts: seq<R.Field>): nat {
    if ts == [] then 0 else Max(Depth(ts[0].tree), DepthOfFields(ts[1..]))
  }

  /** The tree lies in the graph at `v`, its objects being `ids`, in the order of the traversal. */
  predicate LaidOut(g: Graph, v: Word, t: R.Tree, ids: seq<nat>)
    decreases t
  {
    match t
    case Leaf(s) => v == Plain(s) && ids == []
    case List(items) => v.Ref? && v.id in g && g[v.id].Array? && AllLaidOut(g, g[v.id].items, items, ids)
    case Record(fields) =>
      && ids != [] && v == Ref(ids[0]) && ids[0] in g && g[ids[0]].Object?
      && FieldsLaidOut(g, g[ids[0]].fields, fields, ids[1..])
  }

  predicate AllLaidOut(g: Graph, vs: seq<Word>, ts: seq<R.Tree>, ids: seq<nat>)
    decreases ts
  {
    if ts == [] then vs == [] && ids == []
    else
      var n := Objects(ts[0]);
      && vs != [] && n <= |ids| && LaidOut(g, vs[0], ts[0], ids[..n]) && AllLaidOut(g, vs[1..], ts[1..], ids[n..])
  }

  predicate FieldsLaidOut(g: Graph, vs: Fields, ts: seq<R.Field>, ids: seq<nat>)
    decreases ts
  {
    if ts == [] then vs == [] && ids == []
    else
      var n := Objects(ts[0].tree);
      && vs != [] && vs[0].0 == ts[0].key && n <= |ids| && LaidOut(g, vs[0].1, ts[0].tree, ids[..n])
      && FieldsLaidOut(g, vs[1..], ts[1..], ids[n..])
  }

  lemma {:induction false} LaidOutStays(g: Graph, v: Word, t: R.Tree, ids: seq<nat>, seen: seq<nat>, stack: nat)
    requires LaidOut(g, v, t, ids) && T.Clean(t) && Distinct(seen + ids) && Depth(t) <= stack
    ensures Redact(g, v, seen, stack) == Some((t, seen + ids))
    decreases t
  {
    match t
    case Leaf(_) => assert seen + [] == seen;
    case List(items) => AllLaidOutStay(g, g[v.id].items, items, ids, seen, stack - 1);
    case Record(fields) =>
      assert (seen + [ids[0]]) + ids[1..] == seen + ids;
      assert v.id !in seen by {
        assert (seen + ids)[|seen|] == ids[0];
        assert forall i :: 0 <= i < |seen| ==> (seen + ids)[i] == seen[i];
      }
      FieldsLaidOutStay(g, g[v.id].fields, fields, ids[1..], seen + [ids[0]], stack - 1);
  }

  // The ids of a first tree and of the rest, put behind those seen.
  lemma InTurn(seen: seq<nat>, ids: seq<nat>, n: nat)
    requires n <= |ids| && Distinct(seen + ids)
    ensures (seen + ids[..n]) + ids[n..] == seen + ids && Distinct(seen + ids[..n])
  {
    assert seen + ids[..n] == (seen + ids)[..|seen| + n];
  }

  lemma {:induction false} AllLaidOutStay(g: Graph, vs: seq<Word>, ts: seq<R.Tree>, ids: seq<nat>, seen: seq<nat>,
                                          stack: nat)
    requires AllLaidOut(g, vs, ts, ids) && T.CleanAll(ts) && Distinct(seen + ids) && DepthOfAll(ts) <= stack
    ensures RedactAll(g, vs, seen, stack) == Some((ts, seen + ids))
    decreases ts
  {
    if ts == [] {
      assert seen + ids == seen;
    } else {
      var n := Objects(ts[0]);
      InTurn(seen, ids, n);
      LaidOutStays(g, vs[0], ts[0], ids[..n], seen, stack);
      AllLaidOutStay(g, vs[1..], ts[1..], ids[n..], seen + ids[..n], stack);
      assert [ts[0]] + ts[1..] == ts;
    }
  }

  lemma {:induction false} FieldsLaidOutStay(g: Graph, vs: Fields, ts: seq<R.Field>, ids: seq<nat>, seen: seq<nat>,
                                             stack: nat)
    requires FieldsLaidOut(g, vs, ts, ids) && T.CleanEntries(ts) && Distinct(seen + ids) && DepthOfFields(ts) <= stack
    ensures RedactFields(g, vs, seen, stack) == Some((ts, seen + ids))
    decreases ts
  {
    if ts == [] {
      assert seen + ids == seen;
    } else {
      FirstFieldStays(g, vs, ts, ids, seen, stack);
    }
  }

  // A placeholder under a sensitive key is replaced by itself.
  lemma {:induction false} FirstFieldStays(g: Graph, vs: Fields, ts: seq<R.Field>, ids: seq<nat>, seen: seq<nat>,
                                           stack: nat)
    requires ts != [] && FieldsLaidOut(g, vs, ts, ids) && T.CleanEntries(ts) && Distinct(seen + ids)
    requires DepthOfFields(ts) <= stack
    ensures RedactFields(g, vs, seen, stack) == Some((ts, seen + ids))
    decreases ts, 0
  {
    var n := Objects(ts[0].tree);
    InTurn(seen, ids, n);
    R.SensitiveExactlyWhen(ts[0].key);
    if R.ShouldRedactKey(ts[0].key) {
      assert seen + ids[..0] == seen;
    } else {
      LaidOutStays(g, vs[0].1, ts[0].tree, ids[..n], seen, stack);
    }
    assert RedactField(g, vs[0].0, vs[0].1, seen, stack) == Some((ts[0].tree, seen + ids[..n]));
    FieldsLaidOutStay(g, vs[1..], ts[1..], ids[n..], seen + ids[..n], stack);
    assert [ts[0]] + ts[1..] == ts;
  }

  // ---- Every tree can be laid out in memory ----

  predicate Holds(g: Graph, h: Graph) {
    forall id :: id in g ==> id in h && h[id] == g[id]
  }

  lemma {:induction false} LargerGraph(g: Graph, h: Graph, v: Word, t: R.Tree, ids: seq<nat>)
    requires LaidOut(g, v, t, ids) && Holds(g, h)
    ensures LaidOut(h, v, t, ids)
    decreases t
  {
    match t
    case Leaf(_) =>
    case List(items) => LargerGraphForAll(g, h, g[v.id].items, items, ids);
    case Record(fields) => LargerGraphForFields(g, h, g[v.id].fields, fields, ids[1..]);
  }

  lemma {:induction false} LargerGraphForAll(g: Graph, h: Graph, vs: seq<Word>, ts: seq<R.Tree>, ids: seq<nat>)
    requires AllLaidOut(g, vs, ts, ids) && Holds(g, h)
    ensures AllLaidOut(h, vs, ts, ids)
    decreases ts
  {
    if ts != [] {
      var n := Objects(ts[0]);
      LargerGraph(g, h, vs[0], ts[0], ids[..n]);
      LargerGraphForAll(g, h, vs[1..], ts[1..], ids[n..]);
    }
  }

  lemma {:induction false} LargerGraphForFields(g: Graph, h: Graph, vs: Fields, ts: seq<R.Field>, ids: seq<nat>)
    requires FieldsLaidOut(g, vs, ts, ids) && Holds(g, h)
    ensures FieldsLaidOut(h, vs, ts, ids)
    decreases ts
  {
    if ts != [] {
      var n := Objects(ts[0].tree);
      LargerGraph(g, h, vs[0].1, ts[0].tree, ids[..n]);
      LargerGraphForFields(g, h, vs[1..], ts[1..], ids[n..]);
    }
  }

  // The graph's nodes, and the ids, lie in [lo, hi).
  ghost predicate Within(g: Graph, ids: seq<nat>, lo: nat, hi: nat) {
    lo <= hi && Distinct(ids) && (forall id :: id in g ==> lo <= id < hi) && (forall id :: id in ids ==> lo <= id < hi)
  }

  lemma {:induction false} CountsMatch(g: Graph, v: Word, t: R.Tree, ids: seq<nat>)
    requires LaidOut(g, v, t, ids)
    ensures |ids| == Objects(t)
    decreases t
  {
    match t
    case Leaf(_) =>
    case List(items) => CountsMatchForAll(g, g[v.id].items, items, ids);
    case Record(fields) => CountsMatchForFields(g, g[v.id].fields, fields, ids[1..]);
  }

  lemma {:induction false} CountsMatchForAll(g: Graph, vs: seq<Word>, ts: seq<R.Tree>, ids: seq<nat>)
    requires AllLaidOut(g, vs, ts, ids)
    ensures |ids| == ObjectsAll(ts)
    decreases ts
  {
    if ts != [] {
      CountsMatchForAll(g, vs[1..], ts[1..], ids[Objects(ts[0])..]);
    }
  }

  lemma {:induction false} CountsMatchForFields(g: Graph, vs: Fields, ts: seq<R.Field>, ids: seq<nat>)
    requires FieldsLaidOut(g, vs, ts, ids)
    ensures |ids| == ObjectsOfFields(ts)
    decreases ts
  {
    if ts != [] {
      CountsMatchForFields(g, vs[1..], ts[1..], ids[Objects(ts[0].tree)..]);
    }
  }

  lemma DistinctBoth(a: seq<nat>, b: seq<nat>, mid: nat)
    requires Distinct(a) && Distinct(b) && (forall id :: id in a ==> id < mid) && (forall id :: id in b ==> mid <= id)
    ensures Distinct(a + b)
  {
    var both := a + b;
    forall i, j | 0 <= i < j < |both| ensures both[i] != both[j] {
      if i < |a| <= j {
        assert both[i] in a && both[j] in b;
      }
    }
  }

  lemma BothWithin(g: Graph, a: seq<nat>, h: Graph, b: seq<nat>, lo: nat, mid: nat, hi: nat)
    requires Within(g, a, lo, mid) && Within(h, b, mid, hi)
    ensures Within(g + h, a + b, lo, hi) && Holds(g, g + h) && Holds(h, g + h)
  {
    DistinctBoth(a, b, mid);
  }

  lemma {:induction false} LayOut(t: R.Tree, lo: nat) returns (g: Graph, v: Word, ids: seq<nat>, hi: nat)
    ensures LaidOut(g, v, t, ids) && Within(g, ids, lo, hi)
    decreases t
  {
    g, ids, hi := map[], [], lo;
    match t
    case Leaf(s) => v := Plain(s);
    case List(items) =>
      var below, vs;
      below, vs, ids, hi := LayOutAll(items, lo + 1);
      g, v := below[lo := Array(vs)], Ref(lo);
      LargerGraphForAll(below, g, vs, items, ids);
    case Record(fields) =>
      var below, vs, rest;
      below, vs, rest, hi := LayOutFields(fields, lo + 1);
      g, v, ids := below[lo := Object(vs)], Ref(lo), [lo] + rest;
      DistinctBoth([lo], rest, lo + 1);
      LargerGraphForFields(below, g, vs, fields, rest);
      assert ids[1..] == rest;
  }

  lemma {:induction false} LayOutAll(ts: seq<R.Tree>, lo: nat) returns (g: Graph, vs: seq<Word>, ids: seq<nat>, hi: nat)
    ensures AllLaidOut(g, vs, ts, ids) && Within(g, ids, lo, hi)
    decreases ts
  {
    g, vs, ids, hi := map[], [], [], lo;
    if ts != [] {
      var g1, v, ids1, mid := LayOut(ts[0], lo);
      var g2, others, ids2, hi2 := LayOutAll(ts[1..], mid);
      BothWithin(g1, ids1, g2, ids2, lo, mid, hi2);
      g, vs, ids, hi := g1 + g2, [v] + others, ids1 + ids2, hi2;
      CountsMatch(g1, v, ts[0], ids1);
      LargerGraph(g1, g, v, ts[0], ids1);
      LargerGraphForAll(g2, g, others, ts[1..], ids2);
      assert ids[..|ids1|] == ids1 && ids[|ids1|..] == ids2 && vs[1..] == others;
    }
  }

  lemma {:induction false} LayOutFields(ts: seq<R.Field>, lo: nat)
    returns (g: Graph, vs: Fields, ids: seq<nat>, hi: nat)
    ensures FieldsLaidOut(g, vs, ts, ids) && Within(g, ids, lo, hi)
    decreases ts
  {
    g, vs, ids, hi := map[], [], [], lo;
    if ts != [] {
      var g1, v, ids1, mid := LayOut(ts[0].tree, lo);
      var g2, others, ids2, hi2 := LayOutFields(ts[1..], mid);
      BothWithin(g1, ids1, g2, ids2, lo, mid, hi2);
      g, vs, ids, hi := g1 + g2, [(ts[0].key, v)] + others, ids1 + ids2, hi2;
      CountsMatch(g1, v, ts[0].tree, ids1);
      LargerGraph(g1, g, v, ts[0].tree, ids1);
      LargerGraphForFields(g2, g, others, ts[1..], ids2);
      assert ids[..|ids1|] == ids1 && ids[|ids1|..] == ids2 && vs[1..] == others;
    }
  }

  /** Data without a sensitive key, wherever in memory it lies, each object used once, comes through
      unchanged on every stack as deep as it is. */
  lemma CleanDataIsUnchanged(g: Graph, v: Word, t: R.Tree, ids: seq<nat>, stack: nat)
    requires LaidOut(g, v, t, ids) && Distinct(ids) && T.Clean(t) && Depth(t) <= stack
    ensures Redact(g, v, [], stack) == Some((t, ids))
  {
    assert [] + ids == ids;
    LaidOutStays(g, v, t, ids, [], stack);
  }

  /** Every result can be laid out in memory, and redacted again, from wherever it lies, it is unchanged. */
  lemma RedactIsIdempotent(g: Graph, v: Word, stack: nat)
    requires Redact(g, v, [], stack).Some?
    ensures var t := Redact(g, v, [], stack).value.0;
      && (exists h, u, ids :: LaidOut(h, u, t, ids) && Distinct(ids))
      && (forall h, u, ids, n :: LaidOut(h, u, t, ids) && Distinct(ids) && Depth(t) <= n ==>
            Redact(h, u, [], n) == Some((t, ids)))
  {
    var t := Redact(g, v, [], stack).value.0;
    var h0, u0, ids0, hi := LayOut(t, 0);
    EndedIsClean(g, v, stack);
    forall h, u, ids, n | LaidOut(h, u, t, ids) && Distinct(ids) && Depth(t) <= n
      ensures Redact(h, u, [], n) == Some((t, ids))
    {
      CleanDataIsUnchanged(h, u, t, ids, n);
    }
  }
}
