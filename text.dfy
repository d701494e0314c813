/** The JavaScript string primitives the search relies on: `String.prototype.includes`,
    `toLowerCase` (ASCII letters only), `trim`, and the removal of the combining
    diacritical marks U+0300..U+036F. */
module Text {

  /** `hay.includes(needle)`: needle occurs in hay at some offset.
      The empty string occurs in every string. */
  predicate Includes(hay: string, needle: string) {
    exists i :: 0 <= i <= |hay| - |needle| && needle <= hay[i..]
  }

  lemma IncludesEmpty(hay: string)
    ensures Includes(hay, [])
  {
    assert [] <= hay[0..];
  }

  lemma IncludesSelf(s: string)
    ensures Includes(s, s)
  {
    assert s <= s[0..];
  }

  /** `needle` occurs in `a + needle + b`, at offset |a|. */
  lemma IncludesInfix(a: string, needle: string, b: string)
    ensures Includes(a + needle + b, needle)
  {
    var s := a + needle + b;
    assert s[|a|..] == needle + b;
    assert needle <= s[|a|..];
  }

  // ---------------------------------------------------------------- lower case

  /** `toLowerCase` on one character, restricted to the ASCII letters. */
  function LowerChar(c: char): char {
    if 'A' <= c <= 'Z' then (c as int + 32) as char else c
  }

  function Lower(s: string): string {
    seq(|s|, i requires 0 <= i < |s| => LowerChar(s[i]))
  }

  /** Lower-casing twice is lower-casing once (the source lower-cases the term twice). */
  lemma LowerIdempotent(s: string)
    ensures Lower(Lower(s)) == Lower(s)
  {
    var l := Lower(s);
    assert forall i :: 0 <= i < |s| ==> Lower(l)[i] == LowerChar(LowerChar(s[i])) == l[i];
  }

  // ---------------------------------------------------------------- trim

  /** The ECMAScript WhiteSpace and LineTerminator code points, which `trim` removes. */
  predicate IsSpace(c: char) {
    || c == '\t' || c == '\n' || c == '\U{B}' || c == '\U{C}' || c == '\r' || c == ' '
    || c == '\U{A0}' || c == '\U{1680}' || ('\U{2000}' <= c <= '\U{200A}')
    || c == '\U{2028}' || c == '\U{2029}' || c == '\U{202F}' || c == '\U{205F}'
    || c == '\U{3000}' || c == '\U{FEFF}'
  }

  /** Drops the leading white space: what is left is a suffix of `s` that does not
      begin with white space, and everything dropped is white space. */
  function TrimStart(s: string): (r: string)
    ensures |r| <= |s| && r == s[|s| - |r|..]
    ensures r == [] || !IsSpace(r[0])
    ensures forall i :: 0 <= i < |s| - |r| ==> IsSpace(s[i])
  {
    if s != [] && IsSpace(s[0]) then TrimStart(s[1..]) else s
  }

  /** Drops the trailing white space: what is left is a prefix of `s` that does not
      end with white space, and everything dropped is white space. */
  function TrimEnd(s: string): (r: string)
    ensures |r| <= |s| && r == s[..|r|]
    ensures r == [] || !IsSpace(r[|r| - 1])
    ensures forall i :: |r| <= i < |s| ==> IsSpace(s[i])
  {
    if s != [] && IsSpace(s[|s| - 1]) then TrimEnd(s[..|s| - 1]) else s
  }

  function Trim(s: string): string {
    TrimEnd(TrimStart(s))
  }

  /** `trim()` yields the empty string exactly when the input is all white space. */
  lemma TrimEmptyIff(s: string)
    ensures Trim(s) == [] <==> forall i :: 0 <= i < |s| ==> IsSpace(s[i])
  {
    var t := TrimStart(s);
    if Trim(s) == [] {
      forall i | 0 <= i < |s| ensures IsSpace(s[i]) {
        if i >= |s| - |t| {
          assert s[i] == t[i - (|s| - |t|)];
        }
      }
    } else {
      var r := Trim(s);
      assert r[0] == t[0];
      assert t[0] == s[|s| - |t|];
    }
  }

  // ---------------------------------------------------------------- diacritics

  /** The block U+0300..U+036F of combining diacritical marks. */
  predicate IsCombiningMark(c: char) {
    '\U{300}' <= c <= '\U{36F}'
  }

  /** Removal of every combining mark: no mark survives, every character kept comes
      from `s`, nothing is left exactly when `s` is all marks, and a string without
      marks is returned unchanged. */
  function StripMarks(s: string): (r: string)
    ensures |r| <= |s|
    ensures forall i :: 0 <= i < |r| ==> !IsCombiningMark(r[i])
    ensures forall i :: 0 <= i < |r| ==> r[i] in s
    ensures r == [] <==> forall i :: 0 <= i < |s| ==> IsCombiningMark(s[i])
    ensures (forall i :: 0 <= i < |s| ==> !IsCombiningMark(s[i])) ==> r == s
    ensures |s| == 1 ==> r == if IsCombiningMark(s[0]) then [] else s
  {
    if s == [] then []
    else
      var rest := StripMarks(s[1..]);
      assert forall i :: 0 <= i < |rest| ==> rest[i] in s by {
        forall i | 0 <= i < |rest| ensures rest[i] in s {
          assert rest[i] in s[1..];
        }
      }
      if IsCombiningMark(s[0]) then rest else [s[0]] + rest
  }

  /** Removal works character by character: stripping a concatenation strips each
      part, so together with the one-character case every non-mark is kept, in order. */
  lemma {:induction false} StripMarksAppend(a: string, b: string)
    ensures StripMarks(a + b) == StripMarks(a) + StripMarks(b)
  {
    if a != [] {
      assert (a + b)[1..] == a[1..] + b;
      StripMarksAppend(a[1..], b);
    } else {
      assert a + b == b;
    }
  }
}
