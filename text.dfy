/**
 * The string tests behind the request validators: JavaScript's `\s`
 * whitespace and the `trim()` sanitizer built on it, the `[a-z]` and
 * `[A-Z]` patterns, and validator.js's character count for `isLength`.
 */
module Text {

  /** The characters JavaScript's `\s` matches: WhiteSpace and LineTerminator. */
  predicate IsWhitespace(c: char) {
    || c == '\t' || c == '\n' || c == '\U{B}' || c == '\U{C}' || c == '\r' || c == ' '
    || c == '\U{A0}' || c == '\U{1680}' || ('\U{2000}' <= c <= '\U{200A}')
    || c == '\U{2028}' || c == '\U{2029}' || c == '\U{202F}' || c == '\U{205F}'
    || c == '\U{3000}' || c == '\U{FEFF}'
  }

  predicate AllWhitespace(s: string) {
    forall i :: 0 <= i < |s| ==> IsWhitespace(s[i])
  }

  /** validator.js `ltrim`: drop the leading whitespace. */
  function TrimStart(s: string): (r: string)
    ensures |r| <= |s| && r == s[|s| - |r|..]
    ensures AllWhitespace(s[..|s| - |r|])
    ensures r == [] || !IsWhitespace(r[0])
  {
    if s != [] && IsWhitespace(s[0]) then TrimStart(s[1..]) else s
  }

  /** validator.js `rtrim`: drop the trailing whitespace. */
  function TrimEnd(s: string): (r: string)
    ensures |r| <= |s| && r == s[..|r|]
    ensures AllWhitespace(s[|r|..])
    ensures r == [] || !IsWhitespace(r[|r| - 1])
  {
    if s != [] && IsWhitespace(s[|s| - 1]) then TrimEnd(s[..|s| - 1]) else s
  }

  /** The `trim()` sanitizer. */
  function Trim(s: string): (r: string)
    ensures |r| <= |s|
    ensures r == [] || (!IsWhitespace(r[0]) && !IsWhitespace(r[|r| - 1]))
  {
    var t := TrimStart(s);
    assert TrimEnd(t) == [] || TrimEnd(t)[0] == t[0];
    TrimEnd(t)
  }

  /** `trim()` keeps the middle of the text: it drops whitespace around a slice and nothing else. */
  lemma TrimKeepsMiddle(s: string)
    ensures exists i, j :: 0 <= i <= j <= |s| && Trim(s) == s[i..j] && AllWhitespace(s[..i]) && AllWhitespace(s[j..])
  {
    var t := TrimStart(s);
    var i := |s| - |t|;
    var j := i + |Trim(s)|;
    assert Trim(s) == s[i..j];
    assert s[j..] == t[|Trim(s)|..];
  }

  /** Trimming leaves nothing exactly when the text is whitespace only. */
  lemma TrimEmptyIffBlank(s: string)
    ensures Trim(s) == "" <==> AllWhitespace(s)
  {
    var t := TrimStart(s);
    if AllWhitespace(s) {
      assert TrimEnd(t) == [];
    }
    if Trim(s) == "" {
      assert t[0..] == t;
      assert AllWhitespace(t);
      assert t == [];
      assert s[..|s|] == s;
    }
  }

  /** The `[a-z]` pattern. */
  predicate HasLower(s: string) {
    exists i :: 0 <= i < |s| && 'a' <= s[i] <= 'z'
  }

  /** The `[A-Z]` pattern. */
  predicate HasUpper(s: string) {
    exists i :: 0 <= i < |s| && 'A' <= s[i] <= 'Z'
  }

  /** Text variation selectors, which validator.js's `isLength` does not count. */
  predicate IsPresentationSelector(c: char) {
    c == '\U{FE0E}' || c == '\U{FE0F}'
  }

  /** The length validator.js's `isLength` compares: characters other than presentation selectors. */
  function VisibleLength(s: string): (n: nat)
    ensures n <= |s|
    ensures n == 0 <==> forall i :: 0 <= i < |s| ==> IsPresentationSelector(s[i])
  {
    if s == [] then 0
    else VisibleLength(s[1..]) + (if IsPresentationSelector(s[0]) then 0 else 1)
  }

  /** Text without presentation selectors counts every character. */
  lemma {:induction false} VisibleLengthOfPlainText(s: string)
    requires forall i :: 0 <= i < |s| ==> !IsPresentationSelector(s[i])
    ensures VisibleLength(s) == |s|
  {
    if s != [] {
      assert forall i :: 0 <= i < |s[1..]| ==> s[1..][i] == s[i + 1];
      VisibleLengthOfPlainText(s[1..]);
    }
  }

  /** Text that starts or ends with whitespace gets shorter when trimmed. */
  lemma TrimShortensPadded(s: string)
    requires s != [] && (IsWhitespace(s[0]) || IsWhitespace(s[|s| - 1]))
    ensures |Trim(s)| < |s|
  {
    var t := TrimStart(s);
    if |t| == |s| {
      assert t == s;
      assert TrimEnd(t) != t;
    }
  }
}
