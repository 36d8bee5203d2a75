/** Log redaction as the code runs it: arrays and plain objects are known by identity, only plain objects
    are remembered, and every nested call takes a frame of the stack. It comes to an end exactly when no
    cycle of arrays alone is in reach, and then computes what module Redaction says. */
module RedactionStack {
  import opened Common
  import R = Redaction

  datatype Word =
    | Plain(scalar: R.Scalar)
    | Time(iso: string)
    | Error(name: string, message: string, stack: R.Scalar)
    | Ref(id: nat)

  type Fields = seq<(string, Word)>

  datatype Node = Array(items: seq<Word>) | Object(fields: Fields)

  type Graph = map<nat, Node>

  const Circular := R.Leaf(R.Str(R.CIRCULAR))

  /** The redacted tree and the plain objects expanded so far, in order; None when the stack overflows.
      (A reference that dangles, which memory never holds, is treated like one already seen.) */
  function Redact(g: Graph, v: Word, seen: seq<nat>, stack: nat): (r: Option<(R.Tree, seq<nat>)>)
    ensures r.Some? ==> seen <= r.value.1
    decreases stack, 0
  {
    if stack == 0 then None
    else match v
      case Plain(s) => Some((R.Leaf(s), seen))
      case Time(iso) => Some((R.Leaf(R.Str(iso)), seen))
      case Error(name, message, trace) => Some((R.Record(R.ErrorReport(name, message, trace)), seen))
      case Ref(id) =>
        if id !in g then Some((Circular, seen))
        else match g[id]
          case Array(items) =>
            var out := RedactAll(g, items, seen, stack - 1);
            if out.None? then None else Some((R.List(out.value.0), out.value.1))
          case Object(fields) =>
            if id in seen then Some((Circular, seen))
            else
              var out := RedactFields(g, fields, seen + [id], stack - 1);
              if out.None? then None else Some((R.Record(out.value.0), out.value.1))
  }

  function RedactAll(g: Graph, items: seq<Word>, seen: seq<nat>, stack: nat): (r: Option<(seq<R.Tree>, seq<nat>)>)
    ensures r.Some? ==> seen <= r.value.1
    decreases stack, |items|
  {
    if items == [] then Some(([], seen))
    else
      var first := Redact(g, items[0], seen, stack);
      if first.None? then None
      else
        var rest := RedactAll(g, items[1..], first.value.1, stack);
        if rest.None? then None else Some(([first.value.0] + rest.value.0, rest.value.1))
  }

  function RedactField(g: Graph, key: string, v: Word, seen: seq<nat>, stack: nat): (r: Option<(R.Tree, seq<nat>)>)
    ensures r.Some? ==> seen <= r.value.1
    decreases stack, 1
  {
    if R.ShouldRedactKey(key) then Some((R.Leaf(R.Str(R.REDACTED)), seen)) else Redact(g, v, seen, stack)
  }

  function RedactFields(g: Graph, fields: Fields, seen: seq<nat>, stack: nat): (r: Option<(seq<R.Field>, seq<nat>)>)
    ensures r.Some? ==> seen <= r.value.1
    decreases stack, |fields| + 1
  {
    if fields == [] then Some(([], seen))
    else
      var first := RedactField(g, fields[0].0, fields[0].1, seen, stack);
      if first.None? then None
      else
        var rest := RedactFields(g, fields[1..], first.value.1, stack);
        if rest.None? then None else Some(([R.Field(fields[0].0, first.value.0)] + rest.value.0, rest.value.1))
  }

  // ---- The traversal, with the set of seen objects shared and updated in place ----

  class SeenSet {
    var log: seq<nat>

    constructor ()
      ensures log == []
    {
      log := [];
    }
  }

  // What is done so far, in front of what remains.
  function Prepend<T>(done: seq<T>, rest: Option<(seq<T>, seq<nat>)>): Option<(seq<T>, seq<nat>)> {
    if rest.None? then None else Some((done + rest.value.0, rest.value.1))
  }

  lemma PrependNothing<T>(rest: Option<(seq<T>, seq<nat>)>)
    ensures Prepend([], rest) == rest
  {
    assert rest.Some? ==> [] + rest.value.0 == rest.value.0;
  }

  lemma PrependOne<T>(done: seq<T>, x: T, rest: Option<(seq<T>, seq<nat>)>)
    ensures Prepend(done, Prepend([x], rest)) == Prepend(done + [x], rest)
  {
    assert rest.Some? ==> done + ([x] + rest.value.0) == (done + [x]) + rest.value.0;
  }

  // One turn of either loop.
  lemma ItemsTurn(g: Graph, items: seq<Word>, i: nat, seen: seq<nat>, stack: nat, done: seq<R.Tree>)
    requires i < |items|
    ensures var out := Redact(g, items[i], seen, stack);
      Prepend(done, RedactAll(g, items[i..], seen, stack))
      == if out.None? then None
         else Prepend(done + [out.value.0], RedactAll(g, items[i + 1..], out.value.1, stack))
  {
    assert items[i..][1..] == items[i + 1..];
    var out := Redact(g, items[i], seen, stack);
    if out.Some? {
      PrependOne(done, out.value.0, RedactAll(g, items[i + 1..], out.value.1, stack));
    }
  }

  lemma FieldsTurn(g: Graph, fields: Fields, i: nat, seen: seq<nat>, stack: nat, done: seq<R.Field>)
    requires i < |fields|
    ensures var out := RedactField(g, fields[i].0, fields[i].1, seen, stack);
      Prepend(done, RedactFields(g, fields[i..], seen, stack))
      == if out.None? then None
         else Prepend(done + [R.Field(fields[i].0, out.value.0)], RedactFields(g, fields[i + 1..], out.value.1, stack))
  {
    assert fields[i..][1..] == fields[i + 1..];
    var out := RedactField(g, fields[i].0, fields[i].1, seen, stack);
    if out.Some? {
      PrependOne(done, R.Field(fields[i].0, out.value.0), RedactFields(g, fields[i + 1..], out.value.1, stack));
    }
  }

  method RedactValue(g: Graph, v: Word, seen: SeenSet, stack: nat) returns (out: Option<R.Tree>)
    modifies seen
    ensures var r := Redact(g, v, old(seen.log), stack);
      if r.None? then out.None? else out == Some(r.value.0) && seen.log == r.value.1
    decreases stack, 0
  {
    if stack == 0 {
      return None;
    }
    match v
    case Plain(s) => out := Some(R.Leaf(s));
    case Time(iso) => out := Some(R.Leaf(R.Str(iso)));
    case Error(name, message, trace) => out := Some(R.Record(R.ErrorReport(name, message, trace)));
    case Ref(id) =>
      if id !in g {
        out := Some(Circular);
      } else if g[id].Array? {
        var outs := RedactItems(g, g[id].items, seen, stack - 1);
        out := if outs.None? then None else Some(R.List(outs.value));
      } else if id in seen.log {
        out := Some(Circular);
      } else {
        seen.log := seen.log + [id];
        var outs := RedactObject(g, g[id].fields, seen, stack - 1);
        out := if outs.None? then None else Some(R.Record(outs.value));
      }
  }

  method RedactItems(g: Graph, items: seq<Word>, seen: SeenSet, stack: nat) returns (outs: Option<seq<R.Tree>>)
    modifies seen
    ensures var r := RedactAll(g, items, old(seen.log), stack);
      if r.None? then outs.None? else outs == Some(r.value.0) && seen.log == r.value.1
    decreases stack, |items| + 1
  {
    ghost var all := RedactAll(g, items, seen.log, stack);
    var done: seq<R.Tree> := [];
    assert items[0..] == items;
    PrependNothing(all);
    for i := 0 to |items|
      invariant all == Prepend(done, RedactAll(g, items[i..], seen.log, stack))
    {
      ItemsTurn(g, items, i, seen.log, stack, done);
      var out := RedactValue(g, items[i], seen, stack);
      if out.None? {
        return None;
      }
      done := done + [out.value];
    }
    assert done + [] == done;
    outs := Some(done);
  }

  method RedactKeyed(g: Graph, key: string, v: Word, seen: SeenSet, stack: nat) returns (out: Option<R.Tree>)
    modifies seen
    ensures var r := RedactField(g, key, v, old(seen.log), stack);
      if r.None? then out.None? else out == Some(r.value.0) && seen.log == r.value.1
    ensures R.IsSensitive(key) ==> out == Some(R.Leaf(R.Str("[REDACTED]"))) && seen.log == old(seen.log)
    decreases stack, 1
  {
    R.SensitiveExactlyWhen(key);
    if R.ShouldRedactKey(key) {
      out := Some(R.Leaf(R.Str(R.REDACTED)));
    } else {
      out := RedactValue(g, v, seen, stack);
    }
  }

  method RedactObject(g: Graph, fields: Fields, seen: SeenSet, stack: nat) returns (outs: Option<seq<R.Field>>)
    modifies seen
    ensures var r := RedactFields(g, fields, old(seen.log), stack);
      if r.None? then outs.None? else outs == Some(r.value.0) && seen.log == r.value.1
    decreases stack, |fields| + 2
  {
    ghost var all := RedactFields(g, fields, seen.log, stack);
    var done: seq<R.Field> := [];
    assert fields[0..] == fields;
    PrependNothing(all);
    for i := 0 to |fields|
      invariant all == Prepend(done, RedactFields(g, fields[i..], seen.log, stack))
    {
      FieldsTurn(g, fields, i, seen.log, stack, done);
      var out := RedactKeyed(g, fields[i].0, fields[i].1, seen, stack);
      if out.None? {
        return None;
      }
      done := done + [R.Field(fields[i].0, out.value)];
    }
    assert done + [] == done;
    outs := Some(done);
  }

  // ---- A larger stack changes nothing once the traversal ends ----

  lemma {:induction false} MoreStack(g: Graph, v: Word, seen: seq<nat>, n: nat, m: nat)
    requires n <= m && Redact(g, v, seen, n).Some?
    ensures Redact(g, v, seen, m) == Redact(g, v, seen, n)
    decreases n, 0
  {
    if v.Ref? && v.id in g {
      match g[v.id]
      case Array(items) => MoreStackForAll(g, items, seen, n - 1, m - 1);
      case Object(fields) =>
        if v.id !in seen {
          MoreStackForFields(g, fields, seen + [v.id], n - 1, m - 1);
        }
    }
  }

  lemma {:induction false} MoreStackForAll(g: Graph, items: seq<Word>, seen: seq<nat>, n: nat, m: nat)
    requires n <= m && RedactAll(g, items, seen, n).Some?
    ensures RedactAll(g, items, seen, m) == RedactAll(g, items, seen, n)
    decreases n, |items|
  {
    if items != [] {
      MoreStack(g, items[0], seen, n, m);
      MoreStackForAll(g, items[1..], Redact(g, items[0], seen, n).value.1, n, m);
    }
  }

  lemma {:induction false} MoreStackForFields(g: Graph, fields: Fields, seen: seq<nat>, n: nat, m: nat)
    requires n <= m && RedactFields(g, fields, seen, n).Some?
    ensures RedactFields(g, fields, seen, m) == RedactFields(g, fields, seen, n)
    decreases n, |fields| + 1
  {
    if fields != [] {
      if !R.ShouldRedactKey(fields[0].0) {
        MoreStack(g, fields[0].1, seen, n, m);
      }
      MoreStackForFields(g, fields[1..], RedactField(g, fields[0].0, fields[0].1, seen, n).value.1, n, m);
    }
  }

  // ---- A traversal that ends computes the redaction of the unfolded graph ----

  /** The word with its arrays written out, to depth `n`. */
  function Unfold(g: Graph, v: Word, n: nat): R.Value
    decreases n, 0
  {
    match v
    case Plain(s) => R.Plain(s)
    case Time(iso) => R.Time(iso)
    case Error(name, message, trace) => R.Error(name, message, trace)
    case Ref(id) =>
      if id !in g || g[id].Object? then R.Ref(id)
      else if n == 0 then R.Plain(R.Str("")) else R.Arr(UnfoldAll(g, g[id].items, n - 1))
  }

  function UnfoldAll(g: Graph, items: seq<Word>, n: nat): seq<R.Value>
    decreases n, |items|
  {
    if items == [] then [] else [Unfold(g, items[0], n)] + UnfoldAll(g, items[1..], n)
  }

  function UnfoldFields(g: Graph, fields: Fields, n: nat): R.Entries
    decreases n, |fields|
  {
    if fields == [] then [] else [(fields[0].0, Unfold(g, fields[0].1, n))] + UnfoldFields(g, fields[1..], n)
  }

  /** The plain objects with their arrays written out. */
  function UnfoldGraph(g: Graph, n: nat): R.Heap {
    map id | id in g && g[id].Object? :: UnfoldFields(g, g[id].fields, n)
  }

  lemma {:induction false} EndedAgrees(g: Graph, v: Word, seen: seq<nat>, stack: nat, n: nat, m: nat)
    requires stack <= n && stack <= m && Redact(g, v, seen, stack).Some?
    ensures R.Redact(UnfoldGraph(g, m), Unfold(g, v, n), seen) == Redact(g, v, seen, stack).value
    decreases stack, 0
  {
    if v.Ref? && v.id in g {
      match g[v.id]
      case Array(items) => EndedAgreesForAll(g, items, seen, stack - 1, n - 1, m);
      case Object(fields) =>
        if v.id !in seen {
          EndedAgreesForFields(g, fields, seen + [v.id], stack - 1, m, m);
        }
    }
  }

  lemma {:induction false} EndedAgreesForAll(g: Graph, items: seq<Word>, seen: seq<nat>, stack: nat, n: nat, m: nat)
    requires stack <= n && stack <= m && RedactAll(g, items, seen, stack).Some?
    ensures R.RedactAll(UnfoldGraph(g, m), UnfoldAll(g, items, n), seen) == RedactAll(g, items, seen, stack).value
    decreases stack, |items|
  {
    if items != [] {
      EndedAgrees(g, items[0], seen, stack, n, m);
      EndedAgreesForAll(g, items[1..], Redact(g, items[0], seen, stack).value.1, stack, n, m);
      assert UnfoldAll(g, items, n)[1..] == UnfoldAll(g, items[1..], n);
    }
  }

  lemma {:induction false} EndedAgreesForFields(g: Graph, fields: Fields, seen: seq<nat>, stack: nat, n: nat, m: nat)
    requires stack <= n && stack <= m && RedactFields(g, fields, seen, stack).Some?
    ensures R.RedactEntries(UnfoldGraph(g, m), UnfoldFields(g, fields, n), seen)
         == RedactFields(g, fields, seen, stack).value
    decreases stack, |fields| + 1
  {
    if fields != [] {
      if !R.ShouldRedactKey(fields[0].0) {
        EndedAgrees(g, fields[0].1, seen, stack, n, m);
      }
      EndedAgreesForFields(g, fields[1..], RedactField(g, fields[0].0, fields[0].1, seen, stack).value.1, stack, n, m);
      assert UnfoldFields(g, fields, n)[1..] == UnfoldFields(g, fields[1..], n);
    }
  }

  /** A traversal that ends has computed the redaction of the graph with its arrays written out. */
  lemma EndedIsRedacted(g: Graph, v: Word, stack: nat)
    requires Redact(g, v, [], stack).Some?
    ensures Redact(g, v, [], stack).value == R.Redact(UnfoldGraph(g, stack), Unfold(g, v, stack), [])
  {
    EndedAgrees(g, v, [], stack, stack, stack);
  }

  // ---- It ends exactly when no cycle of arrays alone is in reach ----

  /** `b` is an item of the array `a`, or stands in the object `a` under a key that is not sensitive. */
  predicate Leads(g: Graph, a: nat, b: nat) {
    a in g && b in g &&
    match g[a]
    case Array(items) => Ref(b) in items
    case Object(fields) => exists i :: 0 <= i < |fields| && !R.ShouldRedactKey(fields[i].0) && fields[i].1 == Ref(b)
  }

  /** A way through the graph from `v`. */
  ghost predicate Walk(g: Graph, v: Word, walk: seq<nat>) {
    && walk != [] && v == Ref(walk[0]) && walk[0] in g
    && forall i, j :: 0 <= i < j < |walk| && j == i + 1 ==> Leads(g, walk[i], walk[j])
  }

  predicate IsArray(g: Graph, id: nat) {
    id in g && g[id].Array?
  }

  /** From `i` on the walk passes through arrays only, and ends where it was at `i`. */
  predicate ArrayLoop(g: Graph, walk: seq<nat>, i: nat) {
    i + 1 < |walk| && walk[i] == walk[|walk| - 1] && forall k :: i <= k < |walk| ==> IsArray(g, walk[k])
  }

  ghost predicate LoopAhead(g: Graph, v: Word) {
    exists walk, i :: Walk(g, v, walk) && ArrayLoop(g, walk, i)
  }

  ghost predicate Ends(g: Graph, v: Word) {
    exists stack :: Redact(g, v, [], stack).Some?
  }

  // What a traversal that ended leaves: at most `n` arrays deep there are objects in the log only.
  ghost predicate Settled(g: Graph, v: Word, log: seq<nat>, n: nat)
    decreases n
  {
    v.Ref? && v.id in g ==>
      match g[v.id]
      case Array(items) => n > 0 && forall x :: x in items ==> Settled(g, x, log, n - 1)
      case Object(_) => v.id in log
  }

  ghost predicate FieldsSettled(g: Graph, fields: Fields, log: seq<nat>, n: nat) {
    forall i :: 0 <= i < |fields| && !R.ShouldRedactKey(fields[i].0) ==> Settled(g, fields[i].1, log, n)
  }

  // The objects added to the log have all their fields settled.
  ghost predicate NewSettled(g: Graph, seen: seq<nat>, log: seq<nat>, n: nat) {
    forall id :: id in log && id !in seen ==> id in g && g[id].Object? && FieldsSettled(g, g[id].fields, log, n)
  }

  lemma {:induction false} SettledMore(g: Graph, v: Word, log: seq<nat>, n: nat, later: seq<nat>, m: nat)
    requires Settled(g, v, log, n) && log <= later && n <= m
    ensures Settled(g, v, later, m)
    decreases n
  {
    if v.Ref? && v.id in g {
      match g[v.id]
      case Array(items) =>
        forall x | x in items ensures Settled(g, x, later, m - 1) {
          SettledMore(g, x, log, n - 1, later, m - 1);
        }
      case Object(_) => assert later[..|log|] == log;
    }
  }

  lemma NewSettledMore(g: Graph, seen: seq<nat>, log: seq<nat>, n: nat, later: seq<nat>, m: nat)
    requires NewSettled(g, seen, log, n) && NewSettled(g, log, later, m) && log <= later && n <= m
    ensures NewSettled(g, seen, later, m)
  {
    forall id | id in later && id !in seen
      ensures id in g && g[id].Object? && FieldsSettled(g, g[id].fields, later, m)
    {
      if id in log {
        var fields := g[id].fields;
        forall i | 0 <= i < |fields| && !R.ShouldRedactKey(fields[i].0) ensures Settled(g, fields[i].1, later, m) {
          SettledMore(g, fields[i].1, log, n, later, m);
        }
      }
    }
  }

  lemma {:induction false} RedactSettles(g: Graph, v: Word, seen: seq<nat>, stack: nat)
    requires Redact(g, v, seen, stack).Some?
    ensures var log := Redact(g, v, seen, stack).value.1; Settled(g, v, log, stack) && NewSettled(g, seen, log, stack)
    decreases stack, 0
  {
    if v.Ref? && v.id in g {
      var log := Redact(g, v, seen, stack).value.1;
      match g[v.id]
      case Array(items) =>
        RedactAllSettles(g, items, seen, stack - 1);
        NewSettledMore(g, seen, log, stack - 1, log, stack);
      case Object(fields) =>
        if v.id !in seen {
          RedactFieldsSettles(g, fields, seen + [v.id], stack - 1);
          assert (seen + [v.id])[|seen|] == v.id && log[|seen|] == v.id;
          NewSettledMore(g, seen + [v.id], log, stack - 1, log, stack);
          forall i | 0 <= i < |fields| && !R.ShouldRedactKey(fields[i].0) ensures Settled(g, fields[i].1, log, stack) {
            SettledMore(g, fields[i].1, log, stack - 1, log, stack);
          }
        }
    }
  }

  lemma {:induction false} RedactAllSettles(g: Graph, items: seq<Word>, seen: seq<nat>, stack: nat)
    requires RedactAll(g, items, seen, stack).Some?
    ensures var log := RedactAll(g, items, seen, stack).value.1;
      (forall x :: x in items ==> Settled(g, x, log, stack)) && NewSettled(g, seen, log, stack)
    decreases stack, |items|
  {
    if items != [] {
      var mid, log := Redact(g, items[0], seen, stack).value.1, RedactAll(g, items, seen, stack).value.1;
      RedactSettles(g, items[0], seen, stack);
      RedactAllSettles(g, items[1..], mid, stack);
      SettledMore(g, items[0], mid, stack, log, stack);
      NewSettledMore(g, seen, mid, stack, log, stack);
    }
  }

  lemma {:induction false} RedactFieldsSettles(g: Graph, fields: Fields, seen: seq<nat>, stack: nat)
    requires RedactFields(g, fields, seen, stack).Some?
    ensures var log := RedactFields(g, fields, seen, stack).value.1;
      FieldsSettled(g, fields, log, stack) && NewSettled(g, seen, log, stack)
    decreases stack, |fields| + 1
  {
    if fields != [] {
      var mid := RedactField(g, fields[0].0, fields[0].1, seen, stack).value.1;
      var log := RedactFields(g, fields, seen, stack).value.1;
      RedactFieldsSettles(g, fields[1..], mid, stack);
      if !R.ShouldRedactKey(fields[0].0) {
        RedactSettles(g, fields[0].1, seen, stack);
        SettledMore(g, fields[0].1, mid, stack, log, stack);
      }
      NewSettledMore(g, seen, mid, stack, log, stack);
      forall i | 0 <= i < |fields| && !R.ShouldRedactKey(fields[i].0) ensures Settled(g, fields[i].1, log, stack) {
        assert i > 0 ==> fields[i] == fields[1..][i - 1];
      }
    }
  }

  // Every place a walk comes to is settled.
  lemma {:induction false} WalkIsSettled(g: Graph, v: Word, walk: seq<nat>, k: nat, log: seq<nat>, n: nat)
    requires Walk(g, v, walk) && k < |walk| && Settled(g, v, log, n) && NewSettled(g, [], log, n)
    ensures Settled(g, Ref(walk[k]), log, n)
    decreases k
  {
    if k > 0 {
      WalkIsSettled(g, v, walk, k - 1, log, n);
      assert Leads(g, walk[k - 1], walk[k]);
      if g[walk[k - 1]].Array? {
        SettledMore(g, Ref(walk[k]), log, n - 1, log, n);
      }
    }
  }

  // One array further along a walk of arrays, one level less is settled.
  lemma {:induction false} ArraysSettleDeeper(g: Graph, v: Word, walk: seq<nat>, i: nat, k: nat, log: seq<nat>, n: nat)
    requires Walk(g, v, walk) && i <= k < |walk| && Settled(g, Ref(walk[i]), log, n)
    requires forall j :: i <= j < |walk| ==> IsArray(g, walk[j])
    ensures k - i < n && Settled(g, Ref(walk[k]), log, n - (k - i))
    decreases k - i
  {
    assert IsArray(g, walk[k]);
    if k > i {
      ArraysSettleDeeper(g, v, walk, i, k - 1, log, n);
      assert IsArray(g, walk[k - 1]) && Leads(g, walk[k - 1], walk[k]);
    }
  }

  lemma {:induction false} LoopIsNotSettled(g: Graph, v: Word, walk: seq<nat>, i: nat, log: seq<nat>, n: nat)
    requires Walk(g, v, walk) && ArrayLoop(g, walk, i)
    ensures !Settled(g, Ref(walk[i]), log, n)
    decreases n
  {
    if Settled(g, Ref(walk[i]), log, n) {
      ArraysSettleDeeper(g, v, walk, i, |walk| - 1, log, n);
      LoopIsNotSettled(g, v, walk, i, log, n - (|walk| - 1 - i));
    }
  }

  lemma EndedHasNoLoop(g: Graph, v: Word, stack: nat)
    requires Redact(g, v, [], stack).Some?
    ensures !LoopAhead(g, v)
  {
    var log := Redact(g, v, [], stack).value.1;
    RedactSettles(g, v, [], stack);
    forall walk, i | Walk(g, v, walk) && ArrayLoop(g, walk, i) ensures false {
      WalkIsSettled(g, v, walk, i, log, stack);
      LoopIsNotSettled(g, v, walk, i, log, stack);
    }
  }

  // The traversal stands at the end of a walk from the root, on its way to `v`; it has passed through
  // arrays only, none twice, since `i`.
  ghost predicate OnTheWay(g: Graph, root: Word, walk: seq<nat>, i: nat) {
    && (walk != [] ==> Walk(g, root, walk)) && i <= |walk|
    && (forall k :: i <= k < |walk| ==> IsArray(g, walk[k]))
    && (forall j, k :: i <= j < k < |walk| ==> walk[j] != walk[k])
  }

  ghost predicate LeadsTo(g: Graph, root: Word, walk: seq<nat>, v: Word) {
    if walk == [] then v == root else v.Ref? && v.id in g ==> Leads(g, walk[|walk| - 1], v.id)
  }

  lemma WalkFurther(g: Graph, root: Word, walk: seq<nat>, id: nat)
    requires (walk != [] ==> Walk(g, root, walk)) && LeadsTo(g, root, walk, Ref(id)) && id in g
    ensures Walk(g, root, walk + [id])
  {
    var on := walk + [id];
    forall j, k | 0 <= j < k < |on| && k == j + 1 ensures Leads(g, on[j], on[k]) {
      assert k < |walk| ==> Leads(g, walk[j], walk[k]);
    }
  }

  lemma BackOnTheWay(g: Graph, root: Word, walk: seq<nat>, i: nat, id: nat)
    requires OnTheWay(g, root, walk, i) && Walk(g, root, walk + [id]) && IsArray(g, id) && id in walk[i..]
    ensures LoopAhead(g, root)
  {
    var j :| i <= j < |walk| && walk[j] == id;
    assert ArrayLoop(g, walk + [id], j);
  }

  lemma WalkOn(g: Graph, root: Word, walk: seq<nat>, i: nat, id: nat)
    requires OnTheWay(g, root, walk, i) && LeadsTo(g, root, walk, Ref(id)) && id in g && !LoopAhead(g, root)
    ensures Walk(g, root, walk + [id])
    ensures OnTheWay(g, root, walk + [id], |walk| + 1)
    ensures g[id].Array? ==> id !in walk[i..] && OnTheWay(g, root, walk + [id], i)
  {
    WalkFurther(g, root, walk, id);
    if g[id].Array? && id in walk[i..] {
      BackOnTheWay(g, root, walk, i, id);
    }
  }

  lemma PassedGrows(g: Graph, walk: seq<nat>, i: nat, id: nat)
    requires i <= |walk| && id !in walk[i..] && id in g
    ensures g.Keys - Elements((walk + [id])[i..]) < g.Keys - Elements(walk[i..])
  {
    assert (walk + [id])[i..] == walk[i..] + [id];
    assert id in g.Keys - Elements(walk[i..]);
    assert (walk[i..] + [id])[|walk[i..]|] == id;
  }

  lemma LogGrows(g: Graph, seen: seq<nat>, after: seq<nat>)
    requires seen <= after
    ensures g.Keys - Elements(after) <= g.Keys - Elements(seen)
  {
  }

  lemma {:induction false} EndsFrom(g: Graph, root: Word, walk: seq<nat>, i: nat, v: Word, seen: seq<nat>)
    returns (n: nat)
    requires !LoopAhead(g, root) && OnTheWay(g, root, walk, i) && LeadsTo(g, root, walk, v)
    ensures Redact(g, v, seen, n).Some?
    decreases g.Keys - Elements(seen), g.Keys - Elements(walk[i..]), 0
  {
    n := 1;
    if v.Ref? && v.id in g {
      var on := walk + [v.id];
      WalkOn(g, root, walk, i, v.id);
      match g[v.id]
      case Array(items) =>
        PassedGrows(g, walk, i, v.id);
        n := EndsAll(g, root, on, i, items, seen);
        n := n + 1;
      case Object(fields) =>
        if v.id !in seen {
          PassedGrows(g, seen, 0, v.id);
          assert seen[0..] == seen && (seen + [v.id])[0..] == seen + [v.id];
          n := EndsFields(g, root, on, |on|, fields, seen + [v.id]);
          n := n + 1;
        }
    }
  }

  lemma {:induction false} EndsAll(g: Graph, root: Word, walk: seq<nat>, i: nat, items: seq<Word>, seen: seq<nat>)
    returns (n: nat)
    requires !LoopAhead(g, root) && OnTheWay(g, root, walk, i) && walk != []
    requires forall x :: x in items ==> LeadsTo(g, root, walk, x)
    ensures RedactAll(g, items, seen, n).Some?
    decreases g.Keys - Elements(seen), g.Keys - Elements(walk[i..]), |items|
  {
    n := 0;
    if items != [] {
      var first := EndsFrom(g, root, walk, i, items[0], seen);
      var mid := Redact(g, items[0], seen, first).value.1;
      LogGrows(g, seen, mid);
      var rest := EndsAll(g, root, walk, i, items[1..], mid);
      n := Max(first, rest);
      MoreStack(g, items[0], seen, first, n);
      MoreStackForAll(g, items[1..], mid, rest, n);
    }
  }

  lemma {:induction false} EndsFields(g: Graph, root: Word, walk: seq<nat>, i: nat, fields: Fields, seen: seq<nat>)
    returns (n: nat)
    requires !LoopAhead(g, root) && OnTheWay(g, root, walk, i) && walk != []
    requires forall j :: 0 <= j < |fields| && !R.ShouldRedactKey(fields[j].0) ==> LeadsTo(g, root, walk, fields[j].1)
    ensures RedactFields(g, fields, seen, n).Some?
    decreases g.Keys - Elements(seen), g.Keys - Elements(walk[i..]), |fields|
  {
    n := 0;
    if fields != [] {
      var first := 0;
      if !R.ShouldRedactKey(fields[0].0) {
        first := EndsFrom(g, root, walk, i, fields[0].1, seen);
      }
      var mid := RedactField(g, fields[0].0, fields[0].1, seen, first).value.1;
      LogGrows(g, seen, mid);
      var rest := EndsFields(g, root, walk, i, fields[1..], mid);
      n := Max(first, rest);
      if !R.ShouldRedactKey(fields[0].0) {
        MoreStack(g, fields[0].1, seen, first, n);
      }
      MoreStackForFields(g, fields[1..], mid, rest, n);
    }
  }

  /** On every graph, the traversal ends, on some stack and hence on every larger one, if and only if no
      way through it, avoiding what stands under sensitive keys, leads into a cycle of arrays alone. */
  lemma EndsExactlyWhen(g: Graph, v: Word)
    ensures Ends(g, v) <==> !LoopAhead(g, v)
  {
    if Ends(g, v) {
      var stack :| Redact(g, v, [], stack).Some?;
      EndedHasNoLoop(g, v, stack);
    }
    if !LoopAhead(g, v) {
      var n := EndsFrom(g, v, [], 0, v, []);
    }
  }
}
