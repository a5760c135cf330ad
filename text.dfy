/** Character-level helpers of the JavaScript runtime that the core relies on:
    `String.prototype.toLowerCase` on ASCII letters and the `\s` class of
    regular expressions. */
module Text {

  predicate IsUpper(c: char) { 'A' <= c <= 'Z' }

  /** Lower-cases one ASCII letter; every other character is kept. */
  function LowerChar(c: char): (d: char)
    ensures IsUpper(c) ==> d as int == c as int + 32
    ensures !IsUpper(c) ==> d == c
  {
    if IsUpper(c) then (c as int + 32) as char else c
  }

  /** `s.toLowerCase()`, restricted to ASCII letters. */
  function ToLower(s: string): (r: string)
    ensures |r| == |s|
  {
    if s == [] then [] else [LowerChar(s[0])] + ToLower(s[1..])
  }

  /** Character `i` of `ToLower(s)` is `s[i]` lower-cased: no character is moved, added or dropped. */
  lemma {:induction false} ToLowerAt(s: string, i: nat)
    requires i < |s|
    ensures ToLower(s)[i] == LowerChar(s[i])
  {
    if i > 0 {
      ToLowerAt(s[1..], i - 1);
    }
  }

  /** `a.toLowerCase() == b.toLowerCase()`. */
  predicate EqualsIgnoringCase(a: string, b: string) {
    ToLower(a) == ToLower(b)
  }

  /** An independent statement of "the same letter up to case", one character at a time. */
  predicate SameLetter(c: char, d: char) {
    c == d || (IsUpper(c) && d as int == c as int + 32) || (IsUpper(d) && c as int == d as int + 32)
  }

  lemma LowerCharAgree(c: char, d: char)
    ensures LowerChar(c) == LowerChar(d) <==> SameLetter(c, d)
  {
  }

  /** Case-insensitive equality holds exactly when the strings have the same length
      and agree letter by letter up to case. */
  lemma {:induction false} EqualsIgnoringCaseIff(a: string, b: string)
    ensures EqualsIgnoringCase(a, b) <==> |a| == |b| && forall i :: 0 <= i < |a| ==> SameLetter(a[i], b[i])
  {
    if EqualsIgnoringCase(a, b) {
      forall i | 0 <= i < |a| ensures SameLetter(a[i], b[i]) {
        ToLowerAt(a, i);
        ToLowerAt(b, i);
        LowerCharAgree(a[i], b[i]);
      }
    }
    if |a| == |b| && forall i :: 0 <= i < |a| ==> SameLetter(a[i], b[i]) {
      forall i | 0 <= i < |a| ensures ToLower(a)[i] == ToLower(b)[i] {
        ToLowerAt(a, i);
        ToLowerAt(b, i);
        LowerCharAgree(a[i], b[i]);
      }
    }
  }

  /** The characters matched by `\s` in an ECMAScript regular expression
      (WhiteSpace and LineTerminator, section 22.2.2.9 of ECMA-262). */
  predicate IsSpace(c: char) {
    var n := c as int;
    n == 0x09 || n == 0x0A || n == 0x0B || n == 0x0C || n == 0x0D || n == 0x20 ||
    n == 0xA0 || n == 0x1680 || (0x2000 <= n <= 0x200A) || n == 0x2028 || n == 0x2029 ||
    n == 0x202F || n == 0x205F || n == 0x3000 || n == 0xFEFF
  }

  predicate AllSpace(s: string) { forall i :: 0 <= i < |s| ==> IsSpace(s[i]) }

  predicate NoSpace(s: string) { forall i :: 0 <= i < |s| ==> !IsSpace(s[i]) }

  lemma NoSpacePrepend(c: char, w: string)
    requires !IsSpace(c) && NoSpace(w)
    ensures NoSpace([c] + w)
  {
    forall i | 0 <= i < |[c] + w| ensures !IsSpace(([c] + w)[i]) {
      if i > 0 {
        assert ([c] + w)[i] == w[i - 1];
      }
    }
  }
}
