/** No sensitive key keeps its value, at any depth. */
module RedactionTheorems {
  import opened Common
  import opened Redaction

  // ---- Nothing stays under a sensitive key ----

  /** Whatever stands under a sensitive key, at any depth, is the placeholder. */
  ghost predicate Clean(t: Tree) {
    match t
    case Leaf(_) => true
    case List(items) => CleanAll(items)
    case Record(fields) => CleanEntries(fields)
  }

  ghost predicate CleanAll(items: seq<Tree>) {
    items == [] || (Clean(items[0]) && CleanAll(items[1..]))
  }

  ghost predicate CleanEntries(es: seq<Field>) {
    es != [] ==>
      && (IsSensitive(es[0].key) ==> es[0].tree == Leaf(Str("[REDACTED]")))
      && Clean(es[0].tree) && CleanEntries(es[1..])
  }

  // A part is absent when its first character is, wherever it would still fit.
  lemma PartIsAbsent(text: string, part: string)
    requires part != ""
    requires forall i :: 0 <= i <= |text| - |part| ==> text[i] != part[0]
    ensures !Contains(text, part)
  {
    forall i | 0 <= i <= |text| ensures !(part <= text[i..]) {
      if i <= |text| - |part| {
        assert text[i..][0] == text[i];
      }
    }
  }

  // A key of lower-case letters is its own normal form.
  lemma {:induction false} Unchanged(key: string)
    requires forall i :: 0 <= i < |key| ==> 'a' <= key[i] <= 'z'
    ensures NormalizeKey(key) == key
    decreases key
  {
    if key != "" {
      Unchanged(key[1..]);
      assert key == [key[0]] + key[1..];
    }
  }

  // No sensitive key begins like one of the keys of an error report.
  lemma SensitiveKeysBegin(key: string)
    requires key in SENSITIVE_KEYS
    ensures |key| > 1 && key[0] != 'm' && key[0] != 'n' && (key[0] == 's' ==> key[1] == 'e')
  {
  }

  lemma NameIsHarmless()
    ensures !ShouldRedactKey("name")
  {
    Unchanged("name");
    if "name" in SENSITIVE_KEYS { SensitiveKeysBegin("name"); }
    PartIsAbsent("name", "credential");
    PartIsAbsent("name", "password");
    PartIsAbsent("name", "secret");
    PartIsAbsent("name", "token");
    assert "name"[0..][3] != "hash"[3];
  }

  lemma MessageIsHarmless()
    ensures !ShouldRedactKey("message")
  {
    Unchanged("message");
    if "message" in SENSITIVE_KEYS { SensitiveKeysBegin("message"); }
    PartIsAbsent("message", "credential");
    PartIsAbsent("message", "password");
    PartIsAbsent("message", "secret");
    PartIsAbsent("message", "token");
    assert "message"[3..][3] != "hash"[3];
  }

  lemma StackIsHarmless()
    ensures !ShouldRedactKey("stack")
  {
    Unchanged("stack");
    if "stack" in SENSITIVE_KEYS { SensitiveKeysBegin("stack"); }
    PartIsAbsent("stack", "credential");
    PartIsAbsent("stack", "password");
    PartIsAbsent("stack", "secret");
    PartIsAbsent("stack", "token");
    assert "stack"[1..][3] != "hash"[3];
  }

  lemma ErrorReportIsClean(name: string, message: string, stack: Scalar)
    ensures CleanEntries(ErrorReport(name, message, stack))
  {
    NameIsHarmless();
    MessageIsHarmless();
    StackIsHarmless();
    SensitiveExactlyWhen("name");
    SensitiveExactlyWhen("message");
    SensitiveExactlyWhen("stack");
    var fields := ErrorReport(name, message, stack);
    assert fields[1..][1..][1..] == [];
    assert CleanEntries(fields[1..][1..]) && CleanEntries(fields[1..]);
  }

  /** At every depth of the result, whatever stood under a sensitive key is the placeholder. */
  lemma {:induction false} ResultIsClean(h: Heap, v: Value, seen: seq<nat>)
    ensures Clean(Redact(h, v, seen).0)
    decreases h.Keys - Elements(seen), Weight(v), 0
  {
    match v
    case Arr(items) => ResultsAreClean(h, items, seen);
    case Error(name, message, stack) => ErrorReportIsClean(name, message, stack);
    case Ref(id) =>
      if id !in seen && id in h {
        assert id in h.Keys - Elements(seen);
        FieldsAreClean(h, h[id], seen + [id]);
      }
    case _ =>
  }

  lemma {:induction false} ResultsAreClean(h: Heap, items: seq<Value>, seen: seq<nat>)
    ensures CleanAll(RedactAll(h, items, seen).0)
    decreases h.Keys - Elements(seen), WeightAll(items), 1
  {
    if items != [] {
      ResultIsClean(h, items[0], seen);
      LeftShrinks(h, seen, Redact(h, items[0], seen).1);
      ResultsAreClean(h, items[1..], Redact(h, items[0], seen).1);
    }
  }

  lemma {:induction false} FieldsAreClean(h: Heap, es: Entries, seen: seq<nat>)
    ensures CleanEntries(RedactEntries(h, es, seen).0)
    decreases h.Keys - Elements(seen), WeightEntries(es), 1
  {
    if es != [] {
      var (first, mid) := RedactField(h, es[0].0, es[0].1, seen);
      SensitiveExactlyWhen(es[0].0);
      if !ShouldRedactKey(es[0].0) {
        ResultIsClean(h, es[0].1, seen);
      }
      LeftShrinks(h, seen, mid);
      FieldsAreClean(h, es[1..], mid);
    }
  }
}
