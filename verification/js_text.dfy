/**
 * The character classes JavaScript's regular expressions and `String.prototype.trim`
 * rely on: line terminators (what `.` refuses) and white space (`\s`, and what `trim`
 * removes), following sections 12.2 and 12.3 of ECMA-262.
 */
module JsText {
  /** LF, CR, LINE SEPARATOR and PARAGRAPH SEPARATOR. */
  predicate IsLineTerminator(c: char) {
    c == '\n' || c == '\r' || c == '\U{2028}' || c == '\U{2029}'
  }

  /** The `\s` class: white space and line terminators. */
  predicate IsJsWhitespace(c: char) {
    c == '\t' || c == '\U{000B}' || c == '\U{000C}' || c == ' ' || c == '\U{00A0}' || c == '\U{1680}'
    || ('\U{2000}' <= c <= '\U{200A}') || c == '\U{202F}' || c == '\U{205F}' || c == '\U{3000}'
    || c == '\U{FEFF}' || IsLineTerminator(c)
  }

  predicate AllWhitespace(s: string) {
    forall i :: 0 <= i < |s| ==> IsJsWhitespace(s[i])
  }

  /** `w` occurs in `text` at position p. */
  predicate HasAt(text: string, p: nat, w: string) {
    p + |w| <= |text| && text[p..p + |w|] == w
  }

  /** Number of leading white-space characters of s. */
  function LeadingSpace(s: string): (n: nat)
    ensures n <= |s|
    ensures forall i :: 0 <= i < n ==> IsJsWhitespace(s[i])
    ensures n < |s| ==> !IsJsWhitespace(s[n])
  {
    if |s| == 0 || !IsJsWhitespace(s[0]) then 0 else 1 + LeadingSpace(s[1..])
  }

  /** Number of trailing white-space characters of s. */
  function TrailingSpace(s: string): (n: nat)
    ensures n <= |s|
    ensures forall i :: |s| - n <= i < |s| ==> IsJsWhitespace(s[i])
    ensures n < |s| ==> !IsJsWhitespace(s[|s| - n - 1])
  {
    if |s| == 0 || !IsJsWhitespace(s[|s| - 1]) then 0 else 1 + TrailingSpace(s[..|s| - 1])
  }

  /** `String.prototype.trim`: white space removed from both ends. */
  function Trim(s: string): (t: string)
    ensures |t| <= |s|
    ensures |t| > 0 ==> !IsJsWhitespace(t[0]) && !IsJsWhitespace(t[|t| - 1])
    ensures AllWhitespace(s) <==> t == []
  {
    var lead := LeadingSpace(s);
    var rest := s[lead..];
    var trail := TrailingSpace(rest);
    assert lead < |s| ==> trail < |rest|;
    rest[..|rest| - trail]
  }

  /** Trimming removes exactly a white-space prefix and a white-space suffix. */
  lemma TrimIsInfix(s: string)
    ensures var lead, t := LeadingSpace(s), Trim(s);
            lead + |t| <= |s| && s[lead..lead + |t|] == t
            && AllWhitespace(s[..lead]) && AllWhitespace(s[lead + |t|..])
  {
    var lead := LeadingSpace(s);
    var rest := s[lead..];
    var trail := TrailingSpace(rest);
    var t := Trim(s);
    assert t == rest[..|rest| - trail];
    assert s[lead..lead + |t|] == t;
    assert AllWhitespace(s[..lead]) by {
      forall i | 0 <= i < lead ensures IsJsWhitespace(s[..lead][i]) {
        assert s[..lead][i] == s[i];
      }
    }
    var tail := s[lead + |t|..];
    assert AllWhitespace(tail) by {
      forall i | 0 <= i < |tail| ensures IsJsWhitespace(tail[i]) {
        assert tail[i] == rest[|rest| - trail + i];
      }
    }
  }
}
