/** What log redaction computes, over object graphs with cycles and sharing whose arrays are unfolded. */
module Redaction {
  import opened Common
  import opened Texts

  const REDACTED := "[REDACTED]"
  const CIRCULAR := "[Circular]"

  const SENSITIVE_KEYS := {
    "apikey", "authorization", "clientsecret", "cookie", "credentials", "jwt", "password", "passwordhash", "privatekey",
    "refreshtoken", "secret", "session", "sessionid", "setcookie", "token", "accesstoken"}

  // ---- Which keys are sensitive ----

  predicate IsAlphanumeric(c: char) {
    'a' <= c <= 'z' || 'A' <= c <= 'Z' || '0' <= c <= '9'
  }

  function NormalizeKey(key: string): string {
    if key == "" then ""
    else (if IsAlphanumeric(key[0]) then [LowerChar(key[0])] else "") + NormalizeKey(key[1..])
  }

  predicate Contains(text: string, part: string) {
    exists i :: 0 <= i <= |text| && part <= text[i..]
  }

  predicate EndsWith(text: string, part: string) {
    |part| <= |text| && text[|text| - |part|..] == part
  }

  predicate ShouldRedactKey(key: string) {
    var k := NormalizeKey(key);
    k in SENSITIVE_KEYS || Contains(k, "credential") || Contains(k, "password") || Contains(k, "secret")
    || Contains(k, "token") || EndsWith(k, "hash")
  }

  lemma {:induction false} NormalizeKeyAgain(key: string)
    ensures NormalizeKey(NormalizeKey(key)) == NormalizeKey(key)
    decreases key
  {
    if key != "" {
      NormalizeKeyAgain(key[1..]);
      if IsAlphanumeric(key[0]) {
        var n := NormalizeKey(key);
        assert n[0] == LowerChar(key[0]) && IsAlphanumeric(n[0]) && LowerChar(n[0]) == n[0];
        assert n[1..] == NormalizeKey(key[1..]);
        assert NormalizeKey(n) == [n[0]] + n[1..] == n;
      } else {
        assert NormalizeKey(key) == NormalizeKey(key[1..]);
      }
    }
  }

  /** `kept` reads, in lower case, the characters of the key at the ascending places `at`. */
  predicate ReadsOff(key: string, kept: string, at: seq<nat>) {
    && |at| == |kept| && (forall i, j :: 0 <= i < j < |at| ==> at[i] < at[j])
    && (forall i :: 0 <= i < |at| ==> at[i] < |key|)
    && (forall i :: 0 <= i < |at| ==>
          kept[i] == if 'A' <= key[at[i]] <= 'Z' then (key[at[i]] as int + 32) as char else key[at[i]])
  }

  /** Those are the places of its letters and digits. */
  predicate AreLettersAndDigits(key: string, at: seq<nat>) {
    forall j :: 0 <= j < |key| ==>
      (j in at <==> 'a' <= key[j] <= 'z' || 'A' <= key[j] <= 'Z' || '0' <= key[j] <= '9')
  }

  // The selection from the rest of a key, one place further on.
  function Moved(at: seq<nat>): (r: seq<nat>)
    ensures |r| == |at| && forall i :: 0 <= i < |at| ==> r[i] == at[i] + 1
  {
    seq(|at|, i requires 0 <= i < |at| => at[i] + 1)
  }

  lemma MovedHas(at: seq<nat>, j: nat)
    ensures j in Moved(at) <==> j > 0 && j - 1 in at
  {
    if j > 0 && j - 1 in at {
      var i :| 0 <= i < |at| && at[i] == j - 1;
      assert Moved(at)[i] == j;
    }
  }

  lemma ReadsOffMoved(key: string, kept: string, at: seq<nat>)
    requires key != "" && ReadsOff(key[1..], kept, at)
    ensures ReadsOff(key, kept, Moved(at))
  {
    assert forall i :: 0 <= i < |at| ==> key[1..][at[i]] == key[at[i] + 1];
  }

  lemma ReadsOffFirst(key: string, kept: string, at: seq<nat>)
    requires key != "" && ReadsOff(key, kept, at) && forall i :: 0 <= i < |at| ==> at[i] > 0
    ensures ReadsOff(key, [LowerChar(key[0])] + kept, [0] + at)
  {
  }

  lemma LettersMoved(key: string, at: seq<nat>)
    requires key != "" && AreLettersAndDigits(key[1..], at)
    ensures AreLettersAndDigits(key, if IsAlphanumeric(key[0]) then [0] + Moved(at) else Moved(at))
  {
    forall j | 0 <= j < |key|
      ensures j in Moved(at) <==> j > 0 && IsAlphanumeric(key[j])
    {
      MovedHas(at, j);
      assert j > 0 ==> key[1..][j - 1] == key[j];
    }
  }

  lemma NormalizeStep(key: string)
    requires key != ""
    ensures NormalizeKey(key)
         == if IsAlphanumeric(key[0]) then [LowerChar(key[0])] + NormalizeKey(key[1..]) else NormalizeKey(key[1..])
  {
  }

  lemma LettersStep(key: string, kept: string, at: seq<nat>) returns (at': seq<nat>)
    requires key != "" && ReadsOff(key[1..], kept, at) && AreLettersAndDigits(key[1..], at)
    ensures ReadsOff(key, if IsAlphanumeric(key[0]) then [LowerChar(key[0])] + kept else kept, at')
    ensures AreLettersAndDigits(key, at')
  {
    ReadsOffMoved(key, kept, at);
    LettersMoved(key, at);
    at' := Moved(at);
    if IsAlphanumeric(key[0]) {
      ReadsOffFirst(key, kept, at');
      at' := [0] + at';
    }
  }

  /** What is left of a key to be judged: its letters and digits, all of them and in order, in lower case. */
  lemma {:induction false} NormalizeKeyHolds(key: string) returns (at: seq<nat>)
    ensures ReadsOff(key, NormalizeKey(key), at) && AreLettersAndDigits(key, at)
    decreases key
  {
    at := [];
    if key != "" {
      at := NormalizeKeyHolds(key[1..]);
      at := LettersStep(key, NormalizeKey(key[1..]), at);
      NormalizeStep(key);
    }
  }

  /** The rule, without searching: the letters and digits of the key, in lower case, are one of the names, or
      hold one of the four words anywhere, or end in "hash". */
  ghost predicate IsSensitive(key: string) {
    var k := NormalizeKey(key);
    || k in {"apikey", "authorization", "clientsecret", "cookie", "credentials", "jwt", "password", "passwordhash",
             "privatekey", "refreshtoken", "secret", "session", "sessionid", "setcookie", "token", "accesstoken"}
    || (exists a: string, b: string :: k == a + "credential" + b)
    || (exists a: string, b: string :: k == a + "password" + b)
    || (exists a: string, b: string :: k == a + "secret" + b)
    || (exists a: string, b: string :: k == a + "token" + b)
    || (exists a: string :: k == a + "hash")
  }

  lemma ContainsHolds(text: string, part: string)
    ensures Contains(text, part) <==> exists a: string, b: string :: text == a + part + b
  {
    if Contains(text, part) {
      var i :| 0 <= i <= |text| && part <= text[i..];
      var a, b := text[..i], text[i..][|part|..];
      assert text[i..] == part + b;
      assert text == a + part + b;
    }
    forall a: string, b: string | text == a + part + b ensures Contains(text, part) {
      assert text[|a|..] == part + b;
      assert part <= text[|a|..];
    }
  }

  lemma EndsWithHolds(text: string, part: string)
    ensures EndsWith(text, part) <==> exists a: string :: text == a + part
  {
    if EndsWith(text, part) {
      assert text == text[..|text| - |part|] + part;
    }
    forall a: string | text == a + part ensures EndsWith(text, part) {
      assert text[|a|..] == part;
    }
  }

  /** The test on a key decides the rule. */
  lemma SensitiveExactlyWhen(key: string)
    ensures ShouldRedactKey(key) <==> IsSensitive(key)
  {
    var k := NormalizeKey(key);
    ContainsHolds(k, "credential");
    ContainsHolds(k, "password");
    ContainsHolds(k, "secret");
    ContainsHolds(k, "token");
    EndsWithHolds(k, "hash");
  }

  /** Neither case nor separators hide a key: any spelling is judged by its letters and digits. */
  lemma SpellingDoesNotMatter(a: string, b: string)
    requires NormalizeKey(a) == NormalizeKey(b)
    ensures ShouldRedactKey(a) == ShouldRedactKey(b) == ShouldRedactKey(NormalizeKey(a))
  {
    NormalizeKeyAgain(a);
  }

  // ---- Values and what becomes of them ----

  datatype Scalar = Str(text: string) | Other(code: int) // any string; any other primitive

  // Plain objects are known by identity and live in the heap. Arrays, which redaction does not remember,
  // are written out as the values they hold; RedactionStack says when and how they can be.
  datatype Value =
    | Plain(scalar: Scalar)
    | Arr(items: seq<Value>)
    | Time(iso: string)
    | Error(name: string, message: string, stack: Scalar)
    | Ref(id: nat)

  datatype Tree = Leaf(scalar: Scalar) | List(items: seq<Tree>) | Record(fields: seq<Field>)

  datatype Field = Field(key: string, tree: Tree)

  type Entries = seq<(string, Value)>
  type Heap = map<nat, Entries>

  function Weight(v: Value): nat {
    match v
    case Arr(items) => 1 + WeightAll(items)
    case _ => 1
  }

  function WeightAll(items: seq<Value>): nat {
    if items == [] then 0 else 1 + Weight(items[0]) + WeightAll(items[1..])
  }

  function WeightEntries(es: Entries): nat {
    if es == [] then 0 else 1 + Weight(es[0].1) + WeightEntries(es[1..])
  }

  function ErrorReport(name: string, message: string, stack: Scalar): seq<Field> {
    [Field("name", Leaf(Str(name))), Field("message", Leaf(Str(message))), Field("stack", Leaf(stack))]
  }

  /** The redacted tree, and the plain objects expanded so far, in order: `seen` and the new ones. (A
      reference that dangles, which a heap never holds, is treated like one already seen.) */
  function Redact(h: Heap, v: Value, seen: seq<nat>): (r: (Tree, seq<nat>))
    ensures seen <= r.1
    decreases h.Keys - Elements(seen), Weight(v), 0
  {
    match v
    case Arr(items) =>
      var (out, after) := RedactAll(h, items, seen);
      (List(out), after)
    case Plain(s) => (Leaf(s), seen)
    case Time(iso) => (Leaf(Str(iso)), seen)
    case Error(name, message, stack) =>
      (Record(ErrorReport(name, message, stack)), seen)
    case Ref(id) =>
      if id in seen || id !in h then (Leaf(Str(CIRCULAR)), seen)
      else
        assert id in h.Keys - Elements(seen);
        var (out, after) := RedactEntries(h, h[id], seen + [id]);
        (Record(out), after)
  }

  function RedactAll(h: Heap, items: seq<Value>, seen: seq<nat>): (r: (seq<Tree>, seq<nat>))
    ensures seen <= r.1 && |r.0| == |items|
    decreases h.Keys - Elements(seen), WeightAll(items), 1
  {
    if items == [] then ([], seen)
    else
      var (first, mid) := Redact(h, items[0], seen);
      assert h.Keys - Elements(mid) <= h.Keys - Elements(seen);
      var (rest, after) := RedactAll(h, items[1..], mid);
      ([first] + rest, after)
  }

  function RedactField(h: Heap, key: string, v: Value, seen: seq<nat>): (r: (Tree, seq<nat>))
    ensures seen <= r.1
    decreases h.Keys - Elements(seen), Weight(v), 1
  {
    if ShouldRedactKey(key) then (Leaf(Str(REDACTED)), seen) else Redact(h, v, seen)
  }

  function RedactEntries(h: Heap, es: Entries, seen: seq<nat>): (r: (seq<Field>, seq<nat>))
    ensures seen <= r.1 && |r.0| == |es|
    decreases h.Keys - Elements(seen), WeightEntries(es), 1
  {
    if es == [] then ([], seen)
    else
      var (first, mid) := RedactField(h, es[0].0, es[0].1, seen);
      assert h.Keys - Elements(mid) <= h.Keys - Elements(seen);
      var (rest, after) := RedactEntries(h, es[1..], mid);
      ([Field(es[0].0, first)] + rest, after)
  }

  lemma LeftShrinks(h: Heap, before: seq<nat>, after: seq<nat>)
    requires before <= after
    ensures h.Keys - Elements(after) <= h.Keys - Elements(before)
  {
  }
}
