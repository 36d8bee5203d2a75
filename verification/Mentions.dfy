/** Mentions in text: the pattern's left-to-right matching, the splitter and the extractor. */
module Mentions {
  import opened Common
  import opened Texts

  const MIN_NAME := 3
  const MAX_NAME := 30

  predicate IsWord(c: char) {
    'a' <= c <= 'z' || 'A' <= c <= 'Z' || '0' <= c <= '9' || c == '_'
  }

  predicate IsNameChar(c: char) {
    IsWord(c) || c == '.'
  }

  // ---- What a mention is ----

  /** Between a word character and a character that is none, or the edge of the text. */
  predicate IsBoundary(t: string, j: nat)
    requires j <= |t|
  {
    (j > 0 && IsWord(t[j - 1])) != (j < |t| && IsWord(t[j]))
  }

  /** A name of `k` characters stands at `s` and ends at a word boundary. */
  predicate IsName(t: string, s: nat, k: nat) {
    && MIN_NAME <= k <= MAX_NAME && s + k <= |t|
    && (forall i :: s <= i < s + k ==> IsNameChar(t[i]))
    && IsBoundary(t, s + k)
  }

  predicate IsLongestName(t: string, s: nat, k: nat) {
    IsName(t, s, k) && forall n :: k < n <= MAX_NAME ==> !IsName(t, s, n)
  }

  predicate HasName(t: string, s: nat) {
    exists k :: MIN_NAME <= k <= MAX_NAME && IsName(t, s, k)
  }

  // ---- The pattern ----

  /** Where the greedy run of name characters from `s` ends, at most MAX_NAME later. */
  function GreedyEnd(t: string, s: nat, e: nat): (r: nat)
    ensures e <= r
    decreases s + MAX_NAME - e
  {
    if e < s + MAX_NAME && e < |t| && IsNameChar(t[e]) then GreedyEnd(t, s, e + 1) else e
  }

  lemma {:induction false} GreedyEndHolds(t: string, s: nat, e: nat)
    requires s <= e <= s + MAX_NAME && e <= |t|
    requires forall i :: s <= i < e ==> IsNameChar(t[i])
    ensures var r := GreedyEnd(t, s, e);
      && e <= r <= s + MAX_NAME && r <= |t|
      && (forall i :: s <= i < r ==> IsNameChar(t[i]))
      && (r == s + MAX_NAME || r == |t| || !IsNameChar(t[r]))
    decreases s + MAX_NAME - e
  {
    if e < s + MAX_NAME && e < |t| && IsNameChar(t[e]) {
      GreedyEndHolds(t, s, e + 1);
    }
  }

  /** The run given back one character at a time until it ends at a boundary; 0 when it never does. */
  function GiveBack(t: string, s: nat, k: nat): nat
    decreases k
  {
    if k < MIN_NAME then 0 else if s + k <= |t| && IsBoundary(t, s + k) then k else GiveBack(t, s, k - 1)
  }

  lemma {:induction false} GiveBackHolds(t: string, s: nat, k: nat)
    requires k <= MAX_NAME && s + k <= |t|
    requires forall i :: s <= i < s + k ==> IsNameChar(t[i])
    ensures var r := GiveBack(t, s, k);
      (r == 0 || (IsName(t, s, r) && r <= k)) && forall n :: r < n <= k ==> !IsName(t, s, n)
    decreases k
  {
    if k >= MIN_NAME && !IsBoundary(t, s + k) {
      GiveBackHolds(t, s, k - 1);
    }
  }

  /** What the name group matches at `s`, or 0. */
  function NameLength(t: string, s: nat): nat {
    if s > |t| then 0 else GiveBack(t, s, GreedyEnd(t, s, s) - s)
  }

  /** Greedy matching with backtracking finds the longest name there is, and fails only when there is
      none. */
  lemma NameLengthHolds(t: string, s: nat)
    ensures NameLength(t, s) > 0 ==> IsLongestName(t, s, NameLength(t, s)) && HasName(t, s)
    ensures NameLength(t, s) == 0 ==> !HasName(t, s)
  {
    if s <= |t| {
      var end := GreedyEnd(t, s, s);
      GreedyEndHolds(t, s, s);
      GiveBackHolds(t, s, end - s);
      assert end < s + MAX_NAME && end < |t| ==> !IsNameChar(t[end]);
    }
  }

  /** A mention as the pattern has it: '@' with no name character to its left, and the group matches. */
  predicate IsMention(t: string, q: nat) {
    q < |t| && t[q] == '@' && (q == 0 || !IsNameChar(t[q - 1])) && NameLength(t, q + 1) > 0
  }

  /** All mentions at or after `q`, in order. */
  function MentionsFrom(t: string, q: nat): seq<nat>
    decreases |t| - q
  {
    if q >= |t| then [] else (if IsMention(t, q) then [q] else []) + MentionsFrom(t, q + 1)
  }

  // ---- The rule, without matching ----

  predicate IsLetterDigitOrLine(c: char) {
    'a' <= c <= 'z' || 'A' <= c <= 'Z' || '0' <= c <= '9' || c == '_'
  }

  predicate RuleName(t: string, s: nat, k: nat) {
    && k > 0 && s + k <= |t| && (forall i :: s <= i < s + k ==> IsLetterDigitOrLine(t[i]) || t[i] == '.')
    && (t[s + k - 1] != '.' <==> s + k == |t| || !IsLetterDigitOrLine(t[s + k]))
  }

  predicate RuleHasName(t: string, s: nat) {
    exists k :: 3 <= k <= 30 && RuleName(t, s, k)
  }

  /** An '@', at the start or after a character that is no letter, digit, underscore or dot; then 3 to 30 of
      these, the last of which is no dot exactly if what follows is none of the first three kinds, or the
      end. */
  predicate MeetsRule(t: string, q: nat) {
    q < |t| && t[q] == '@' && (q > 0 ==> !IsLetterDigitOrLine(t[q - 1]) && t[q - 1] != '.') && RuleHasName(t, q + 1)
  }

  lemma SameNames(t: string, s: nat)
    ensures HasName(t, s) <==> RuleHasName(t, s)
  {
    forall k | 3 <= k <= 30 ensures IsName(t, s, k) <==> RuleName(t, s, k) {
      if s + k <= |t| {
        assert IsName(t, s, k) ==> IsNameChar(t[s + k - 1]);
      }
    }
  }

  /** The pattern matches exactly where the rule is met. */
  lemma MentionsAreTheRule(t: string, q: nat)
    ensures IsMention(t, q) <==> MeetsRule(t, q)
  {
    NameLengthHolds(t, q + 1);
    SameNames(t, q + 1);
  }

  // ---- Matching from left to right ----

  datatype Match = Match(index: nat, prefix: nat, name: nat) {
    // Where the '@' is, and where the match ends.
    function At(): nat {
      index + prefix
    }

    function End(): nat {
      index + prefix + 1 + name
    }
  }

  /** The pattern tried at one index: first without a prefix, which only the start of the text
      allows, then with one character that belongs to no name. */
  function TryAt(t: string, i: nat): Option<Match> {
    if i == 0 && |t| > 0 && t[0] == '@' && NameLength(t, 1) > 0 then Some(Match(0, 0, NameLength(t, 1)))
    else if i + 1 < |t| && !IsNameChar(t[i]) && t[i + 1] == '@' && NameLength(t, i + 2) > 0
    then Some(Match(i, 1, NameLength(t, i + 2)))
    else None
  }

  /** The first match at or after `from`. */
  function NextMatch(t: string, from: nat): Option<Match>
    decreases |t| - from
  {
    if from >= |t| then None
    else if TryAt(t, from).Some? then TryAt(t, from) else NextMatch(t, from + 1)
  }

  lemma TryFindsMention(t: string, i: nat)
    requires i < |t|
    ensures TryAt(t, i).Some? ==> var m := TryAt(t, i).value;
      && IsMention(t, m.At()) && m.name == NameLength(t, m.At() + 1)
      && (m.At() == i + 1 || (i == 0 && m.At() == 0))
      && (i == 0 && m.At() == 1 ==> !IsMention(t, 0))
    ensures TryAt(t, i).None? ==> !IsMention(t, i + 1) && (i == 0 ==> !IsMention(t, 0))
  {
  }

  // Inside a name, and right after it, no mention begins.
  lemma {:induction false} NoneInside(t: string, s: nat, n: nat, from: nat)
    requires IsName(t, s, n) && s <= from <= s + n
    ensures MentionsFrom(t, from) == MentionsFrom(t, s + n + 1)
    decreases s + n - from
  {
    if from < s + n {
      assert IsNameChar(t[from]);
      NoneInside(t, s, n, from + 1);
    } else {
      assert IsNameChar(t[from - 1]);
    }
  }

  /** The match is a mention, and the first one at or after `q`. */
  ghost predicate IsFirstMention(t: string, q: nat, m: Match) {
    && q <= m.At() < m.End() <= |t| && IsMention(t, m.At()) && m.name == NameLength(t, m.At() + 1)
    && MentionsFrom(t, q) == [m.At()] + MentionsFrom(t, m.End() + 1)
  }

  lemma NoMentionHere(t: string, q: nat, m: Option<Match>)
    requires !IsMention(t, q)
    ensures MentionsFrom(t, q) == MentionsFrom(t, q + 1)
    ensures m.Some? && IsFirstMention(t, q + 1, m.value) ==> IsFirstMention(t, q, m.value)
  {
  }

  lemma MentionThenRest(t: string, q: nat, n: nat)
    requires IsMention(t, q) && IsName(t, q + 1, n)
    ensures MentionsFrom(t, q) == [q] + MentionsFrom(t, q + 1 + n + 1)
  {
    NoneInside(t, q + 1, n, q + 1);
    assert MentionsFrom(t, q) == [q] + MentionsFrom(t, q + 1);
  }

  // A match is the first mention from where it is.
  lemma FirstFromItself(t: string, m: Match)
    requires IsMention(t, m.At()) && m.name == NameLength(t, m.At() + 1)
    ensures IsFirstMention(t, m.At(), m)
  {
    NameLengthHolds(t, m.At() + 1);
    MentionThenRest(t, m.At(), m.name);
  }

  lemma FirstPast(t: string, from: nat)
    requires 0 < from < |t| && TryAt(t, from).Some?
    ensures IsFirstMention(t, from + 1, TryAt(t, from).value)
  {
    TryFindsMention(t, from);
    FirstFromItself(t, TryAt(t, from).value);
  }

  // Searching from past the start finds the first mention that has its left neighbour in sight.
  lemma {:induction false} NextIsFirstMention(t: string, from: nat)
    requires 0 < from
    ensures var m := NextMatch(t, from);
      if m.None? then MentionsFrom(t, from + 1) == [] else IsFirstMention(t, from + 1, m.value)
    decreases |t| - from
  {
    if from < |t| {
      if TryAt(t, from).Some? {
        FirstPast(t, from);
      } else {
        TryFindsMention(t, from);
        NextIsFirstMention(t, from + 1);
        NoMentionHere(t, from + 1, NextMatch(t, from + 1));
      }
    }
  }

  lemma FirstFromStart(t: string, m: Match)
    requires IsFirstMention(t, m.At(), m) && (m.At() == 0 || (m.At() == 1 && !IsMention(t, 0)))
    ensures IsFirstMention(t, 0, m)
  {
    if m.At() == 1 {
      NoMentionHere(t, 0, Some(m));
    }
  }

  lemma FirstAtStart(t: string)
    requires t != "" && TryAt(t, 0).Some?
    ensures IsFirstMention(t, 0, TryAt(t, 0).value)
  {
    TryFindsMention(t, 0);
    FirstFromItself(t, TryAt(t, 0).value);
    FirstFromStart(t, TryAt(t, 0).value);
  }

  lemma FirstPastStart(t: string)
    requires t != "" && TryAt(t, 0).None?
    ensures var m := NextMatch(t, 1);
      if m.None? then MentionsFrom(t, 0) == [] else IsFirstMention(t, 0, m.value)
  {
    TryFindsMention(t, 0);
    NextIsFirstMention(t, 1);
    NoMentionHere(t, 1, NextMatch(t, 1));
    NoMentionHere(t, 0, NextMatch(t, 1));
  }

  lemma FirstIsFirstMention(t: string)
    ensures var m := NextMatch(t, 0);
      if m.None? then MentionsFrom(t, 0) == [] else IsFirstMention(t, 0, m.value)
  {
    if t != "" {
      if TryAt(t, 0).Some? {
        FirstAtStart(t);
      } else {
        FirstPastStart(t);
      }
    }
  }

  // Where the mentions still to be found begin, once a search stands at `from`.
  function Ahead(from: nat): nat {
    if from == 0 then 0 else from + 1
  }

  /** One turn of the matching loop: the next match is the first mention ahead, wherever the search
      stands, or there is none. */
  lemma NextMatchHolds(t: string, from: nat)
    ensures var m := NextMatch(t, from);
      if m.None? then MentionsFrom(t, Ahead(from)) == [] else IsFirstMention(t, Ahead(from), m.value)
  {
    if from == 0 {
      FirstIsFirstMention(t);
    } else {
      NextIsFirstMention(t, from);
    }
  }

  lemma {:induction false} MentionsFromHas(t: string, q: nat, p: nat)
    ensures p in MentionsFrom(t, q) <==> q <= p && IsMention(t, p)
    decreases |t| - q
  {
    if q < |t| {
      MentionsFromHas(t, q + 1, p);
    }
  }

  /** MentionsFrom is what it says: every place from `q` on that meets the rule, and nothing else. */
  lemma MentionsFromHolds(t: string, q: nat, p: nat)
    ensures p in MentionsFrom(t, q) <==> q <= p && MeetsRule(t, p)
  {
    MentionsFromHas(t, q, p);
    MentionsAreTheRule(t, p);
  }

  lemma {:induction false} MentionsFromAscends(t: string, q: nat, i: nat, j: nat)
    requires i < j < |MentionsFrom(t, q)|
    ensures q <= MentionsFrom(t, q)[i] < MentionsFrom(t, q)[j]
    decreases |t| - q
  {
    var all, rest := MentionsFrom(t, q), MentionsFrom(t, q + 1);
    if IsMention(t, q) {
      assert all == [q] + rest;
      if i > 0 {
        MentionsFromAscends(t, q + 1, i - 1, j - 1);
      } else {
        MentionsFromHas(t, q + 1, rest[j - 1]);
      }
    } else {
      assert all == rest;
      MentionsFromAscends(t, q + 1, i, j);
    }
  }

  // ---- The splitter and the extractor ----

  datatype Part = Text(text: string) | Mention(text: string, username: string)

  function Joined(parts: seq<Part>): string {
    if parts == [] then "" else Joined(parts[..|parts| - 1]) + parts[|parts| - 1].text
  }

  /** Where the mention parts begin in the joined text. */
  function MentionOffsets(parts: seq<Part>): seq<nat> {
    if parts == [] then [] else
      var init := parts[..|parts| - 1];
      MentionOffsets(init) + if parts[|parts| - 1].Mention? then [|Joined(init)|] else []
  }

  function MentionNames(parts: seq<Part>): seq<string> {
    if parts == [] then [] else
      MentionNames(parts[..|parts| - 1]) + if parts[|parts| - 1].Mention? then [parts[|parts| - 1].username] else []
  }

  predicate NoneEmpty(parts: seq<Part>) {
    forall i :: 0 <= i < |parts| ==> parts[i].text != ""
  }

  ghost predicate TextsAreMerged(parts: seq<Part>) {
    forall i, j :: 0 <= i < j < |parts| && j == i + 1 ==> !(parts[i].Text? && parts[j].Text?)
  }

  /** The lower-case name of the mention at `q`. */
  function NameAt(t: string, q: nat): string {
    if q + 1 + NameLength(t, q + 1) <= |t| then Lower(t[q + 1..q + 1 + NameLength(t, q + 1)]) else ""
  }

  function NamesAt(t: string, positions: seq<nat>): seq<string> {
    if positions == [] then [] else
      NamesAt(t, positions[..|positions| - 1]) + [NameAt(t, positions[|positions| - 1])]
  }

  lemma AddName(t: string, positions: seq<nat>, q: nat)
    ensures NamesAt(t, positions + [q]) == NamesAt(t, positions) + [NameAt(t, q)]
  {
    assert (positions + [q])[..|positions|] == positions;
  }

  /** What one turn of the matching loop finds: nothing ahead, or the first mention and its name. */
  ghost predicate Turn(t: string, from: nat, m: Option<Match>) {
    match m
    case None => MentionsFrom(t, Ahead(from)) == []
    case Some(m) =>
      && from <= m.At() < m.At() + 1 < m.End() <= |t| && t[m.At()] == '@'
      && MentionsFrom(t, Ahead(from)) == [m.At()] + MentionsFrom(t, Ahead(m.End()))
      && NameAt(t, m.At()) == Lower(t[m.At() + 1..m.End()])
  }

  lemma NameAtMatch(t: string, q: nat, n: nat)
    requires n == NameLength(t, q + 1) && q + 1 + n <= |t|
    ensures NameAt(t, q) == Lower(t[q + 1..q + 1 + n])
  {
  }

  lemma FirstMentionIsTurn(t: string, from: nat, m: Match)
    requires IsFirstMention(t, Ahead(from), m)
    ensures Turn(t, from, Some(m))
  {
    NameAtMatch(t, m.At(), m.name);
  }

  lemma NextMatchIsTurn(t: string, from: nat)
    ensures Turn(t, from, NextMatch(t, from))
  {
    NextMatchHolds(t, from);
    var m := NextMatch(t, from);
    if m.Some? {
      FirstMentionIsTurn(t, from, m.value);
    }
  }

  /** The positions the pattern's left-to-right matching finds. */
  function Scan(t: string, from: nat): seq<nat>
    decreases |t| - from
  {
    NextMatchIsTurn(t, from);
    var m := NextMatch(t, from);
    if m.None? then [] else [m.value.At()] + Scan(t, m.value.End())
  }

  /** Matching consumes text, yet never a mention's left neighbour: the scan finds exactly the
      positions that satisfy the rule. */
  lemma {:induction false} ScanFindsEveryMention(t: string, from: nat)
    ensures Scan(t, from) == MentionsFrom(t, Ahead(from))
    decreases |t| - from
  {
    NextMatchIsTurn(t, from);
    var m := NextMatch(t, from);
    if m.Some? {
      ScanFindsEveryMention(t, m.value.End());
    }
  }

  // What the joined text, the offsets and the names become when a part is added.
  lemma AddText(parts: seq<Part>, text: string)
    ensures var all := parts + [Text(text)];
      && Joined(all) == Joined(parts) + text
      && MentionOffsets(all) == MentionOffsets(parts) && MentionNames(all) == MentionNames(parts)
  {
    assert (parts + [Text(text)])[..|parts|] == parts;
  }

  lemma AddMention(t: string, parts: seq<Part>, text: string, name: string)
    requires MentionNames(parts) == NamesAt(t, MentionOffsets(parts)) && NameAt(t, |Joined(parts)|) == name
    ensures var all := parts + [Mention(text, name)];
      && Joined(all) == Joined(parts) + text
      && MentionOffsets(all) == MentionOffsets(parts) + [|Joined(parts)|]
      && MentionNames(all) == NamesAt(t, MentionOffsets(all))
  {
    assert (parts + [Mention(text, name)])[..|parts|] == parts;
    AddName(t, MentionOffsets(parts), |Joined(parts)|);
  }

  lemma Regroup<T>(a: seq<T>, x: T, b: seq<T>)
    ensures a + ([x] + b) == (a + [x]) + b
  {
  }

  /** A mention part shows its '@' and its name as written, and carries the name in lower case. */
  predicate WellNamed(p: Part) {
    p.Mention? ==> p.text != "" && p.text[..1] == "@" && p.username == Lower(p.text[1..])
  }

  // The parts are whole, and their texts kept apart by mentions.
  ghost predicate Shaped(parts: seq<Part>) {
    NoneEmpty(parts) && TextsAreMerged(parts) && forall i :: 0 <= i < |parts| ==> WellNamed(parts[i])
  }

  ghost predicate EndsInMention(parts: seq<Part>) {
    parts != [] ==> parts[|parts| - 1].Mention?
  }

  /** The mention parts are the mentions before `last`, names included. */
  ghost predicate FoundUpTo(t: string, last: nat, parts: seq<Part>) {
    && MentionOffsets(parts) + MentionsFrom(t, Ahead(last)) == MentionsFrom(t, 0)
    && MentionNames(parts) == NamesAt(t, MentionOffsets(parts))
  }

  function WithText(parts: seq<Part>, text: string): seq<Part> {
    if text == "" then parts else parts + [Text(text)]
  }

  lemma WithTextHolds(parts: seq<Part>, text: string)
    requires Shaped(parts) && EndsInMention(parts)
    ensures var all := WithText(parts, text);
      && Shaped(all) && Joined(all) == Joined(parts) + text
      && MentionOffsets(all) == MentionOffsets(parts) && MentionNames(all) == MentionNames(parts)
  {
    AddText(parts, text);
  }

  lemma MentionKeepsShape(parts: seq<Part>, p: Part)
    requires Shaped(parts) && p.Mention? && WellNamed(p)
    ensures Shaped(parts + [p]) && EndsInMention(parts + [p])
  {
  }

  lemma FoundOneMore(t: string, last: nat, parts: seq<Part>, m: Match, p: Part)
    requires FoundUpTo(t, last, parts) && Turn(t, last, Some(m)) && |Joined(parts)| == m.At()
    requires p.Mention? && p.username == NameAt(t, m.At())
    ensures FoundUpTo(t, m.End(), parts + [p])
  {
    AddMention(t, parts, p.text, p.username);
    Regroup(MentionOffsets(parts), m.At(), MentionsFrom(t, Ahead(m.End())));
  }

  lemma TextThenMention(t: string, last: nat, at: nat, end: nat)
    requires last <= at < end <= |t| && t[at] == '@'
    ensures t[..last] + t[last..at] == t[..at] && t[..at] + ("@" + t[at + 1..end]) == t[..end]
  {
  }

  // One turn of the splitting loop: what has been pushed covers the text up to the match's end.
  lemma SplitTurn(t: string, last: nat, parts: seq<Part>, at: nat, end: nat, name: string)
    requires last <= at < end <= |t| && t[at] == '@' && name == Lower(t[at + 1..end])
    requires Joined(parts) == t[..last] && Shaped(parts) && EndsInMention(parts)
    ensures var texted := WithText(parts, t[last..at]); var all := texted + [Mention("@" + t[at + 1..end], name)];
      && Joined(texted) == t[..at] && Joined(all) == t[..end] && Shaped(all) && EndsInMention(all)
      && MentionOffsets(texted) == MentionOffsets(parts) && MentionNames(texted) == MentionNames(parts)
  {
    var texted := WithText(parts, t[last..at]);
    WithTextHolds(parts, t[last..at]);
    TextThenMention(t, last, at, end);
    assert ("@" + t[at + 1..end])[1..] == t[at + 1..end];
    MentionKeepsShape(texted, Mention("@" + t[at + 1..end], name));
    assert (texted + [Mention("@" + t[at + 1..end], name)])[..|texted|] == texted;
  }

  lemma SplitEnd(t: string, last: nat, parts: seq<Part>)
    requires last <= |t| && Joined(parts) == t[..last] && Shaped(parts) && EndsInMention(parts)
    requires FoundUpTo(t, last, parts) && Turn(t, last, None)
    ensures var all := WithText(parts, t[last..]);
      && Joined(all) == t && Shaped(all)
      && MentionOffsets(all) == MentionsFrom(t, 0) && MentionNames(all) == NamesAt(t, MentionsFrom(t, 0))
  {
    WithTextHolds(parts, t[last..]);
    assert t[..last] + t[last..] == t;
    assert MentionOffsets(parts) + [] == MentionOffsets(parts);
  }

  /** The engine's search, index by index. */
  method FindNext(t: string, from: nat) returns (m: Option<Match>)
    ensures Turn(t, from, m)
  {
    NextMatchIsTurn(t, from);
    var i := from;
    while i < |t|
      invariant NextMatch(t, from) == NextMatch(t, i)
      decreases |t| - i
    {
      m := TryAt(t, i);
      if m.Some? {
        return;
      }
      i := i + 1;
    }
    m := None;
  }

  /** The parts join back to the text, none is empty and texts are merged; the mention parts stand
      exactly at the text's mentions and carry their names. */
  method SplitMentionText(value: string) returns (parts: seq<Part>)
    ensures Joined(parts) == value && Shaped(parts)
    ensures MentionOffsets(parts) == MentionsFrom(value, 0)
    ensures MentionNames(parts) == NamesAt(value, MentionsFrom(value, 0))
  {
    parts := [];
    var lastIndex: nat := 0;
    var m := FindNext(value, 0);
    while m.Some?
      invariant lastIndex <= |value| && Joined(parts) == value[..lastIndex] && Shaped(parts) && EndsInMention(parts)
      invariant FoundUpTo(value, lastIndex, parts) && Turn(value, lastIndex, m)
      decreases |value| - lastIndex
    {
      parts, lastIndex := PushMatch(value, lastIndex, parts, m.value);
      m := FindNext(value, lastIndex);
    }
    parts := PushRest(value, lastIndex, parts);
  }

  method PushRest(value: string, lastIndex: nat, before: seq<Part>) returns (parts: seq<Part>)
    requires lastIndex <= |value| && Joined(before) == value[..lastIndex] && Shaped(before) && EndsInMention(before)
    requires FoundUpTo(value, lastIndex, before) && Turn(value, lastIndex, None)
    ensures Joined(parts) == value && Shaped(parts)
    ensures MentionOffsets(parts) == MentionsFrom(value, 0)
    ensures MentionNames(parts) == NamesAt(value, MentionsFrom(value, 0))
  {
    SplitEnd(value, lastIndex, before);
    parts := if lastIndex < |value| then before + [Text(value[lastIndex..])] else before;
  }

  // The loop's body: the text since the last mention, if any, then the mention.
  method PushMatch(value: string, lastIndex: nat, before: seq<Part>, m: Match) returns (parts: seq<Part>, next: nat)
    requires lastIndex <= |value| && Joined(before) == value[..lastIndex] && Shaped(before) && EndsInMention(before)
    requires FoundUpTo(value, lastIndex, before) && Turn(value, lastIndex, Some(m))
    ensures next == m.End() <= |value| && Joined(parts) == value[..next] && Shaped(parts) && EndsInMention(parts)
    ensures FoundUpTo(value, next, parts)
  {
    var mentionStart := m.At();
    var username := value[mentionStart + 1..m.End()];
    var mention := Mention("@" + username, Lower(username));
    SplitTurn(value, lastIndex, before, mentionStart, m.End(), Lower(username));
    var texted := before;
    if mentionStart > lastIndex {
      texted := texted + [Text(value[lastIndex..mentionStart])];
    }
    assert texted == WithText(before, value[lastIndex..mentionStart]);
    assert Joined(texted) == value[..mentionStart];
    FoundOneMore(value, lastIndex, texted, m, mention);
    parts := texted + [mention];
    next := mentionStart + |username| + 1;
  }

  // Where the last of the mentions ends, told by offsets and names alone.
  function LastEnd(offsets: seq<nat>, names: seq<string>): nat {
    if offsets == [] || names == [] then 0 else offsets[|offsets| - 1] + 1 + |names[|names| - 1]|
  }

  // Text after the last mention is a part of its own; without it the parts end with that mention.
  lemma {:induction false} LastEndHolds(parts: seq<Part>)
    requires Shaped(parts) && parts != []
    ensures |MentionOffsets(parts)| == |MentionNames(parts)|
    ensures var end, last := LastEnd(MentionOffsets(parts), MentionNames(parts)), parts[|parts| - 1];
      |Joined(parts)| == end + if last.Text? then |last.text| else 0
    decreases |parts|
  {
    var init, last := parts[..|parts| - 1], parts[|parts| - 1];
    assert WellNamed(last);
    if init != [] {
      assert init[|init| - 1] == parts[|parts| - 2];
      LastEndHolds(init);
    }
  }

  lemma SameEnd(a: string, x: string, b: string, y: string)
    requires a + x == b + y && |a| == |b|
    ensures a == b && x == y
  {
    assert a == (a + x)[..|a|] && b == (b + y)[..|b|];
    assert x == (a + x)[|a|..] && y == (b + y)[|b|..];
  }

  // The offsets and names of all parts but the last.
  lemma WithoutLast(parts: seq<Part>)
    requires parts != []
    ensures var init, offsets, names := parts[..|parts| - 1], MentionOffsets(parts), MentionNames(parts);
      if parts[|parts| - 1].Text? then
        MentionOffsets(init) == offsets && MentionNames(init) == names
      else
        offsets != [] && names != []
        && MentionOffsets(init) == offsets[..|offsets| - 1] && MentionNames(init) == names[..|names| - 1]
        && offsets[|offsets| - 1] == |Joined(init)| && names[|names| - 1] == parts[|parts| - 1].username
  {
  }

  // Kind and start of the last part.
  lemma LastPart(parts: seq<Part>)
    requires Shaped(parts) && parts != []
    ensures var offsets, last := MentionOffsets(parts), parts[|parts| - 1];
      var end := LastEnd(offsets, MentionNames(parts));
      && (last.Text? <==> end < |Joined(parts)|)
      && |Joined(parts[..|parts| - 1])|
        == (if last.Text? then end else if offsets != [] then offsets[|offsets| - 1] else 0)
      && (last.Mention? ==> last.text != "" && last.text[..1] == "@" && last.username == Lower(last.text[1..]))
  {
    LastEndHolds(parts);
    WithoutLast(parts);
    assert parts[|parts| - 1].text != "" && WellNamed(parts[|parts| - 1]);
  }

  lemma LastIsDetermined(p: seq<Part>, q: seq<Part>)
    requires Shaped(p) && Shaped(q) && p != [] && q != [] && Joined(p) == Joined(q)
    requires MentionOffsets(p) == MentionOffsets(q) && MentionNames(p) == MentionNames(q)
    ensures p[|p| - 1] == q[|q| - 1] && Joined(p[..|p| - 1]) == Joined(q[..|q| - 1])
  {
    LastPart(p);
    LastPart(q);
    SameEnd(Joined(p[..|p| - 1]), p[|p| - 1].text, Joined(q[..|q| - 1]), q[|q| - 1].text);
  }

  /** What the splitter promises leaves no choice: the text, the positions and the names determine the
      parts. */
  lemma {:induction false} PartsAreDetermined(p: seq<Part>, q: seq<Part>)
    requires Shaped(p) && Shaped(q) && Joined(p) == Joined(q)
    requires MentionOffsets(p) == MentionOffsets(q) && MentionNames(p) == MentionNames(q)
    ensures p == q
    decreases |p|
  {
    if p != [] && q != [] {
      LastIsDetermined(p, q);
      WithoutLast(p);
      WithoutLast(q);
      PartsAreDetermined(p[..|p| - 1], q[..|q| - 1]);
      assert p == p[..|p| - 1] + [p[|p| - 1]] && q == q[..|q| - 1] + [q[|q| - 1]];
    }
  }

  /** Each text once, in the order of its first occurrence. */
  function FirstOccurrences(names: seq<string>): seq<string> {
    if names == [] then [] else
      var init := FirstOccurrences(names[..|names| - 1]);
      if names[|names| - 1] in init then init else init + [names[|names| - 1]]
  }

  lemma AddOccurrence(names: seq<string>, name: string)
    ensures FirstOccurrences(names + [name])
         == if name in FirstOccurrences(names) then FirstOccurrences(names) else FirstOccurrences(names) + [name]
  {
    assert (names + [name])[..|names|] == names;
  }

  lemma {:induction false} FirstOccurrencesHolds(names: seq<string>)
    ensures forall x :: x in FirstOccurrences(names) <==> x in names
    ensures forall i, j :: 0 <= i < j < |FirstOccurrences(names)| ==>
      FirstOccurrences(names)[i] != FirstOccurrences(names)[j]
    decreases |names|
  {
    if names != [] {
      FirstOccurrencesHolds(names[..|names| - 1]);
      assert names == names[..|names| - 1] + [names[|names| - 1]];
    }
  }

  // The extracting loop stands at `from`, past the mentions at `found`.
  ghost predicate Extracted(t: string, from: nat, found: seq<nat>, names: seq<string>) {
    && found + MentionsFrom(t, Ahead(from)) == MentionsFrom(t, 0)
    && names == FirstOccurrences(NamesAt(t, found)) && "" !in names
  }

  function WithName(names: seq<string>, name: string): seq<string> {
    if name in names then names else names + [name]
  }

  lemma NameTurn(t: string, found: seq<nat>, q: nat)
    ensures FirstOccurrences(NamesAt(t, found + [q])) == WithName(FirstOccurrences(NamesAt(t, found)), NameAt(t, q))
  {
    AddName(t, found, q);
    AddOccurrence(NamesAt(t, found), NameAt(t, q));
  }

  lemma PositionTurn(t: string, from: nat, found: seq<nat>, m: Match)
    requires Turn(t, from, Some(m)) && found + MentionsFrom(t, Ahead(from)) == MentionsFrom(t, 0)
    ensures (found + [m.At()]) + MentionsFrom(t, Ahead(m.End())) == MentionsFrom(t, 0)
    ensures NameAt(t, m.At()) == Lower(t[m.At() + 1..m.End()]) != ""
  {
    Regroup(found, m.At(), MentionsFrom(t, Ahead(m.End())));
    assert |Lower(t[m.At() + 1..m.End()])| > 0;
  }

  lemma ExtractTurn(t: string, from: nat, found: seq<nat>, names: seq<string>, m: Match)
    requires Extracted(t, from, found, names) && Turn(t, from, Some(m))
    ensures Extracted(t, m.End(), found + [m.At()], WithName(names, Lower(t[m.At() + 1..m.End()])))
  {
    PositionTurn(t, from, found, m);
    NameTurn(t, found, m.At());
  }

  lemma ExtractEnd(t: string, from: nat, found: seq<nat>, names: seq<string>)
    requires Extracted(t, from, found, names) && Turn(t, from, None)
    ensures names == FirstOccurrences(NamesAt(t, MentionsFrom(t, 0))) && "" !in names
  {
    assert found + [] == found;
  }

  /** The names the splitter shows, each once, in order of first occurrence. */
  method ExtractMentionUsernames(content: string) returns (usernames: seq<string>)
    ensures usernames == FirstOccurrences(NamesAt(content, MentionsFrom(content, 0)))
    ensures "" !in usernames
  {
    usernames := [];
    ghost var found: seq<nat> := [];
    var from: nat := 0;
    var m := FindNext(content, 0);
    while m.Some?
      invariant Turn(content, from, m) && from <= |content| && Extracted(content, from, found, usernames)
      decreases |content| - from
    {
      var name := Lower(content[m.value.At() + 1..m.value.End()]);
      ExtractTurn(content, from, found, usernames, m.value);
      if name !in usernames {
        usernames := usernames + [name];
      }
      found := found + [m.value.At()];
      from := m.value.End();
      m := FindNext(content, from);
    }
    ExtractEnd(content, from, found, usernames);
  }

  /** Splitter and extractor see the same mentions. */
  lemma SplitterAndExtractorAgree(value: string, parts: seq<Part>, usernames: seq<string>)
    requires MentionNames(parts) == NamesAt(value, MentionsFrom(value, 0))
    requires usernames == FirstOccurrences(NamesAt(value, MentionsFrom(value, 0)))
    ensures forall x :: x in usernames <==> x in MentionNames(parts)
  {
    FirstOccurrencesHolds(NamesAt(value, MentionsFrom(value, 0)));
  }
}
