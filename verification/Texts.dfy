/** Trimming and lower-casing of text. */
module Texts {
  // What JavaScript's trim strips: white space and line terminators.
  predicate IsSpace(c: char) {
    '\U{9}' <= c <= '\U{D}' || c == ' ' || c == '\U{A0}' || c == '\U{1680}' || '\U{2000}' <= c <= '\U{200A}'
    || c == '\U{2028}' || c == '\U{2029}' || c == '\U{202F}' || c == '\U{205F}' || c == '\U{3000}' || c == '\U{FEFF}'
  }

  function TrimStart(text: string): string {
    if text != "" && IsSpace(text[0]) then TrimStart(text[1..]) else text
  }

  function TrimEnd(text: string): string {
    if text != "" && IsSpace(text[|text| - 1]) then TrimEnd(text[..|text| - 1]) else text
  }

  function Trim(text: string): string {
    TrimEnd(TrimStart(text))
  }

  predicate AllSpace(text: string) {
    forall i :: 0 <= i < |text| ==> IsSpace(text[i])
  }

  /** `core` is `text` without the white space around it. */
  ghost predicate IsTrimmed(text: string, core: string) {
    && (exists i, j :: 0 <= i <= j <= |text| && core == text[i..j] && AllSpace(text[..i]) && AllSpace(text[j..]))
    && (core != "" ==> !IsSpace(core[0]) && !IsSpace(core[|core| - 1]))
  }

  lemma {:induction false} TrimStartHolds(text: string) returns (i: nat)
    ensures i <= |text| && TrimStart(text) == text[i..] && AllSpace(text[..i])
    ensures i < |text| ==> !IsSpace(text[i])
    decreases |text|
  {
    if text != "" && IsSpace(text[0]) {
      var n := TrimStartHolds(text[1..]);
      i := n + 1;
      assert text[1..][n..] == text[i..];
      assert text[..i] == [text[0]] + text[1..][..n];
    } else {
      i := 0;
    }
  }

  lemma {:induction false} TrimEndHolds(text: string) returns (j: nat)
    ensures j <= |text| && TrimEnd(text) == text[..j] && AllSpace(text[j..])
    ensures j > 0 ==> !IsSpace(text[j - 1])
    decreases |text|
  {
    if text != "" && IsSpace(text[|text| - 1]) {
      var init := text[..|text| - 1];
      j := TrimEndHolds(init);
      assert init[..j] == text[..j];
      assert text[j..] == init[j..] + [text[|text| - 1]];
    } else {
      j := |text|;
      assert text[..j] == text;
    }
  }

  /** Trimming takes the white space off both ends and nothing else. */
  lemma TrimHolds(text: string)
    ensures IsTrimmed(text, Trim(text))
  {
    var i := TrimStartHolds(text);
    var n := TrimEndHolds(text[i..]);
    assert Trim(text) == text[i..i + n];
    assert text[i..][n..] == text[i + n..];
    if 0 < n {
      assert text[i + n - 1] == text[i..][n - 1];
    }
  }

  /** Lower-casing takes every capital ASCII letter to its small one and leaves the rest. */
  lemma LowerHolds(text: string)
    ensures |Lower(text)| == |text|
    ensures forall i :: 0 <= i < |text| ==>
      Lower(text)[i] == if 'A' <= text[i] <= 'Z' then (text[i] as int + 32) as char else text[i]
  {
  }

  /** Blanks and line ends are white space, what names and ids are made of is not. */
  lemma SpacesAreSpaces(c: char)
    ensures c in {' ', '\t', '\n', '\r'} ==> IsSpace(c)
    ensures '!' <= c <= '~' ==> !IsSpace(c)
  {
  }

  lemma AllSpaceTrims(text: string)
    ensures Trim(text) == "" <==> AllSpace(text)
  {
    TrimHolds(text);
    if Trim(text) == "" {
      var i :| 0 <= i <= |text| && AllSpace(text[..i]) && AllSpace(text[i..]);
      assert text == text[..i] + text[i..];
    }
  }

  // toLowerCase, on ASCII letters.
  function LowerChar(c: char): char {
    if 'A' <= c <= 'Z' then (c as int + 32) as char else c
  }

  function Lower(text: string): (r: string)
    ensures |r| == |text|
  {
    seq(|text|, i requires 0 <= i < |text| => LowerChar(text[i]))
  }
}
