/** JavaScript text operations: `trim`, and `toUpperCase` on ASCII letters. */
module Text {

  /** White space and line terminators: what `trim` removes and `\s` matches. */
  predicate IsSpace(c: char) {
    || c in " \t\n\r" || c == '\U{b}' || c == '\U{c}' || c == '\U{a0}' || c == '\U{1680}'
    || '\U{2000}' <= c <= '\U{200a}' || c == '\U{2028}' || c == '\U{2029}'
    || c == '\U{202f}' || c == '\U{205f}' || c == '\U{3000}' || c == '\U{feff}'
  }

  function TrimStart(s: string): string {
    if s != [] && IsSpace(s[0]) then TrimStart(s[1..]) else s
  }

  function TrimEnd(s: string): string {
    if s != [] && IsSpace(s[|s| - 1]) then TrimEnd(s[..|s| - 1]) else s
  }

  function Trim(s: string): string {
    TrimEnd(TrimStart(s))
  }

  function UpperChar(c: char): char {
    if 'a' <= c <= 'z' then (c as int - 32) as char else c
  }

  function Upper(s: string): string {
    seq(|s|, i requires 0 <= i < |s| => UpperChar(s[i]))
  }

  predicate HasNoOuterSpace(s: string) {
    s != [] ==> !IsSpace(s[0]) && !IsSpace(s[|s| - 1])
  }

  lemma {:induction false} TrimEndKeepsFirst(s: string)
    requires s != [] ==> !IsSpace(s[0])
    ensures HasNoOuterSpace(TrimEnd(s))
    ensures s != [] ==> TrimEnd(s) != [] && TrimEnd(s)[0] == s[0]
  {
    if s != [] && IsSpace(s[|s| - 1]) {
      TrimEndKeepsFirst(s[..|s| - 1]);
    }
  }

  lemma {:induction false} TrimStartStops(s: string)
    ensures TrimStart(s) != [] ==> !IsSpace(TrimStart(s)[0])
  {
    if s != [] && IsSpace(s[0]) {
      TrimStartStops(s[1..]);
    }
  }

  lemma TrimTrims(s: string)
    ensures HasNoOuterSpace(Trim(s))
  {
    TrimStartStops(s);
    TrimEndKeepsFirst(TrimStart(s));
  }

  lemma {:induction false} TrimStartThenSpace(s: string)
    ensures TrimStart(s + " ") == if TrimStart(s) == "" then "" else TrimStart(s) + " "
  {
    var t := s + " ";
    if s == [] {
      assert t[1..] == [];
    } else if IsSpace(s[0]) {
      assert t[1..] == s[1..] + " ";
      TrimStartThenSpace(s[1..]);
    }
  }

  /** A space added at the end is trimmed away again. */
  lemma TrimIgnoresAddedSpace(s: string)
    ensures Trim(s + " ") == Trim(s)
  {
    TrimStartThenSpace(s);
    var t := TrimStart(s) + " ";
    assert t[..|t| - 1] == TrimStart(s);
  }

  /** Normalising a prefix twice is normalising it once. */
  lemma UpperTrimIdempotent(s: string)
    ensures Upper(Trim(Upper(Trim(s)))) == Upper(Trim(s))
  {
    hide IsSpace;
    TrimTrims(s);
    var p := Upper(Trim(s));
    assert p != [] ==> !IsSpace(p[0]) && !IsSpace(p[|p| - 1]) by {
      if p != [] {
        UpperKeepsSpace(Trim(s)[0]);
        UpperKeepsSpace(Trim(s)[|p| - 1]);
      }
    }
    assert Trim(p) == p;
    UpperTwice(Trim(s));
  }

  lemma UpperKeepsSpace(c: char)
    ensures IsSpace(UpperChar(c)) <==> IsSpace(c)
  {
  }

  lemma UpperTwice(s: string)
    ensures Upper(Upper(s)) == Upper(s)
  {
  }

  /** The letters that change, and to what. */
  lemma UpperLetters(c: char)
    ensures var lower, upper := "abcdefghijklmnopqrstuvwxyz", "ABCDEFGHIJKLMNOPQRSTUVWXYZ";
      && (c !in lower ==> UpperChar(c) == c)
      && forall i :: 0 <= i < 26 && lower[i] == c ==> UpperChar(c) == upper[i]
  {
    var lower, upper := "abcdefghijklmnopqrstuvwxyz", "ABCDEFGHIJKLMNOPQRSTUVWXYZ";
    assert forall i :: 0 <= i < 26 ==> lower[i] as int == 97 + i && upper[i] as int == 65 + i;
    if 'a' <= c <= 'z' {
      assert lower[c as int - 97] == c;
    }
  }

  /** The white space and line terminators of sections 12.2 and 12.3 of ECMA-262, by code point. */
  lemma SpaceCodes(c: char)
    ensures IsSpace(c) <==>
      || c as int in {9, 10, 11, 12, 13, 32, 0xa0, 0x1680, 0x2028, 0x2029, 0x202f, 0x205f, 0x3000, 0xfeff}
      || 0x2000 <= c as int <= 0x200a
  {
  }
}
