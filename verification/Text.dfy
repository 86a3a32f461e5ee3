/** Cell values as text: ASCII-only upper-casing, the input charset, and the comparator. */
module Text {
  import opened Basics

  const MAX_VALUE_LENGTH: nat := 10

  /** A small letter goes to the capital at the same place in the alphabet; anything else stays. */
  function UpperChar(c: char): (r: char)
    ensures if 'a' <= c <= 'z' then 'A' <= r <= 'Z' && r - 'A' == c - 'a' else r == c
  {
    if 'a' <= c <= 'z' then (c as int - 0x20) as char else c
  }

  function AsciiUpper(s: string): (r: string)
    ensures |r| == |s|
  {
    seq(|s|, i requires 0 <= i < |s| => UpperChar(s[i]))
  }

  method AsciiUpperLoop(value: string) returns (out: string)
    ensures out == AsciiUpper(value)
  {
    out := "";
    for i := 0 to |value|
      invariant out == AsciiUpper(value)[..i]
    {
      out := out + [UpperChar(value[i])];
    }
  }

  predicate InCharset(c: char) {
    'A' <= c <= 'Z' || '0' <= c <= '9'
  }

  /** What the board may hold: one to ten characters, upper-case letters and digits. */
  predicate ValidValue(v: string) {
    1 <= |v| <= MAX_VALUE_LENGTH && forall i :: 0 <= i < |v| ==> InCharset(v[i])
  }

  predicate LetterOrDigit(c: char) {
    'A' <= c <= 'Z' || 'a' <= c <= 'z' || '0' <= c <= '9'
  }

  /** Accepted exactly when the raw text is one to ten letters of either case or digits. */
  function NormalizeValue(raw: string): (r: Option<string>)
    ensures r.Some? <==> 1 <= |raw| <= MAX_VALUE_LENGTH && forall i :: 0 <= i < |raw| ==> LetterOrDigit(raw[i])
    ensures r.Some? ==> ValidValue(r.value) && |r.value| == |raw|
    ensures r.Some? ==> forall i :: 0 <= i < |raw| ==> r.value[i] == UpperChar(raw[i])
  {
    var upper := AsciiUpper(raw);
    assert forall i :: 0 <= i < |raw| ==> (LetterOrDigit(raw[i]) <==> InCharset(upper[i]));
    if ValidValue(upper) then Some(upper) else None
  }

  predicate Matches(solution: string, value: string) {
    var s, v := AsciiUpper(solution), AsciiUpper(value);
    v == s || v == s[..Min(1, |s|)]
  }

  /** The same character, or the small and the capital form of one letter. */
  predicate SameLetter(a: char, b: char) {
    || a == b
    || ('a' <= a <= 'z' && 'A' <= b <= 'Z' && a - 'a' == b - 'A')
    || ('A' <= a <= 'Z' && 'a' <= b <= 'z' && a - 'A' == b - 'a')
  }

  ghost predicate SameLetters(s: string, t: string) {
    |s| == |t| && forall i :: 0 <= i < |s| ==> SameLetter(s[i], t[i])
  }

  /** The whole answer letter for letter, or its first character alone, case apart. */
  ghost predicate Right(answer: string, value: string) {
    SameLetters(value, answer) || (|value| == 1 && answer != [] && SameLetter(value[0], answer[0]))
  }

  /** The comparator accepts exactly what is right. */
  lemma MatchesMeans(solution: string, value: string)
    ensures Matches(solution, value) <==> Right(solution, value)
  {
    RaisedAlike(value, solution);
    if solution != [] {
      assert AsciiUpper(solution)[..1] == AsciiUpper(solution[..1]);
      RaisedAlike(value, solution[..1]);
    }
  }

  lemma RaisedAlike(s: string, t: string)
    ensures AsciiUpper(s) == AsciiUpper(t) <==> SameLetters(s, t)
  {
    if AsciiUpper(s) == AsciiUpper(t) {
      forall i | 0 <= i < |s| ensures SameLetter(s[i], t[i]) {
        assert AsciiUpper(s)[i] == AsciiUpper(t)[i];
      }
    }
    if SameLetters(s, t) {
      forall i | 0 <= i < |s| ensures AsciiUpper(s)[i] == AsciiUpper(t)[i] {
        assert SameLetter(s[i], t[i]);
      }
    }
  }

  /** Case never matters to the comparator, whichever side carries it. */
  lemma MatchesIgnoresCase(solution: string, value: string)
    ensures AsciiUpper(AsciiUpper(value)) == AsciiUpper(value)
    ensures Matches(solution, value) == Matches(AsciiUpper(solution), AsciiUpper(value))
  {
    UpperIdempotent(value);
    UpperIdempotent(solution);
  }

  lemma UpperIdempotent(s: string)
    ensures AsciiUpper(AsciiUpper(s)) == AsciiUpper(s)
  {
    forall i | 0 <= i < |s| ensures AsciiUpper(AsciiUpper(s))[i] == AsciiUpper(s)[i] {
    }
  }

  /** A value is stored exactly when its upper-case form is legal, and storing is idempotent. */
  lemma NormalizeIsIdempotent(raw: string)
    ensures NormalizeValue(raw).Some? ==> NormalizeValue(NormalizeValue(raw).value) == NormalizeValue(raw)
  {
    UpperIdempotent(raw);
  }
}
