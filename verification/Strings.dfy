// The few `str` methods the modelled code relies on, for ASCII text.
module Strings {
  predicate IsSpace(c: char) { c == ' ' || 9 <= c as int <= 13 || 28 <= c as int <= 31 }

  function LeftStrip(s: string): string { if s != "" && IsSpace(s[0]) then LeftStrip(s[1..]) else s }

  function RightStrip(s: string): string { if s != "" && IsSpace(s[|s| - 1]) then RightStrip(s[..|s| - 1]) else s }

  function Strip(s: string): string { RightStrip(LeftStrip(s)) }

  predicate Blank(s: string) { Strip(s) == "" }

  lemma {:induction false} LeftStripped(s: string)
    ensures LeftStrip(s) == "" || !IsSpace(LeftStrip(s)[0])
    ensures LeftStrip(s) == "" ==> forall i :: 0 <= i < |s| ==> IsSpace(s[i])
  {
    if s != "" && IsSpace(s[0]) {
      LeftStripped(s[1..]);
      assert s == [s[0]] + s[1..];
    }
  }

  lemma {:induction false} RightStripped(s: string)
    ensures RightStrip(s) == "" || !IsSpace(RightStrip(s)[|RightStrip(s)| - 1])
    ensures RightStrip(s) <= s
  {
    if s != "" && IsSpace(s[|s| - 1]) {
      RightStripped(s[..|s| - 1]);
    }
  }

  // What is left has nothing more to strip.
  lemma StripTwice(s: string)
    ensures Strip(Strip(s)) == Strip(s)
  {
    LeftStripped(s);
    RightStripped(LeftStrip(s));
  }

  // ---- what these methods come to ----

  // The ASCII characters that `strip` removes: tab to carriage return, the four
  // separators, and the space.
  ghost predicate Whitespace(c: char) { c as int in {9, 10, 11, 12, 13, 28, 29, 30, 31, 32} }

  // There is something to read besides whitespace.
  ghost predicate Says(s: string) { exists i :: 0 <= i < |s| && !Whitespace(s[i]) }

  // What is stripped is whitespace at either end, and all of it.
  lemma StripExactly(s: string) returns (before: string, after: string)
    ensures s == before + Strip(s) + after
    ensures forall i :: 0 <= i < |before| ==> Whitespace(before[i])
    ensures forall i :: 0 <= i < |after| ==> Whitespace(after[i])
    ensures Strip(s) != "" ==> !Whitespace(Strip(s)[0]) && !Whitespace(Strip(s)[|Strip(s)| - 1])
  {
    before := LeftStripExactly(s);
    after := RightStripExactly(LeftStrip(s));
    LeftStripped(s);
    RightStripped(LeftStrip(s));
  }

  lemma {:induction false} LeftStripExactly(s: string) returns (before: string)
    ensures s == before + LeftStrip(s) && forall i :: 0 <= i < |before| ==> Whitespace(before[i])
  {
    if s != "" && IsSpace(s[0]) {
      var more := LeftStripExactly(s[1..]);
      before := [s[0]] + more;
    } else {
      before := "";
    }
  }

  lemma {:induction false} RightStripExactly(s: string) returns (after: string)
    ensures s == RightStrip(s) + after && forall i :: 0 <= i < |after| ==> Whitespace(after[i])
  {
    if s != "" && IsSpace(s[|s| - 1]) {
      var more := RightStripExactly(s[..|s| - 1]);
      after := more + [s[|s| - 1]];
    } else {
      after := "";
    }
  }

  lemma BlankExactly(s: string)
    ensures Blank(s) <==> !Says(s)
  {
    var before, after := StripExactly(s);
    if Strip(s) != "" {
      assert s[|before|] == Strip(s)[0];
    } else {
      forall i | 0 <= i < |s| ensures Whitespace(s[i]) {
        assert s[i] == if i < |before| then before[i] else after[i - |before|];
      }
    }
  }

  // ---- letter case ----

  function Lower(s: string): string {
    seq(|s|, i requires 0 <= i < |s| => if 'A' <= s[i] <= 'Z' then (s[i] as int + 32) as char else s[i])
  }

  function Upper(s: string): string {
    seq(|s|, i requires 0 <= i < |s| => if 'a' <= s[i] <= 'z' then (s[i] as int - 32) as char else s[i])
  }

  // Two characters that differ at most in case.
  ghost predicate SameLetter(a: char, b: char) {
    a == b || ('a' <= a <= 'z' && b as int == a as int - 32) || ('A' <= a <= 'Z' && b as int == a as int + 32)
  }

  ghost predicate SameLetters(s: string, t: string) {
    |s| == |t| && forall i :: 0 <= i < |s| ==> SameLetter(s[i], t[i])
  }

  // Folding either way identifies exactly the strings that differ in case alone,
  // and leaves no letter of the other case.
  lemma FoldingExactly(s: string, t: string)
    ensures Upper(s) == Upper(t) <==> SameLetters(s, t)
    ensures Lower(s) == Lower(t) <==> SameLetters(s, t)
    ensures SameLetters(s, Upper(s)) && forall i :: 0 <= i < |s| ==> !('a' <= Upper(s)[i] <= 'z')
    ensures SameLetters(s, Lower(s)) && forall i :: 0 <= i < |s| ==> !('A' <= Lower(s)[i] <= 'Z')
  {
    if Upper(s) == Upper(t) {
      forall i | 0 <= i < |s| ensures SameLetter(s[i], t[i]) {
        assert Upper(s)[i] == Upper(t)[i];
      }
    }
    if Lower(s) == Lower(t) {
      forall i | 0 <= i < |s| ensures SameLetter(s[i], t[i]) {
        assert Lower(s)[i] == Lower(t)[i];
      }
    }
  }
}
