/** String.prototype.trim, over strings taken as sequences of characters. */
module JsText {

  /** The characters trim strips: ECMAScript's WhiteSpace (tab, vertical tab,
      form feed, the byte order mark and every space separator) and
      LineTerminator (line feed, carriage return, U+2028, U+2029). */
  predicate IsWhitespace(c: char)
  {
    || c == '\t' || c == '\U{B}' || c == '\U{C}' || c == ' ' || c == '\U{A0}' || c == '\U{FEFF}'
    || c == '\U{1680}' || ('\U{2000}' <= c <= '\U{200A}') || c == '\U{202F}' || c == '\U{205F}'
    || c == '\U{3000}' || c == '\n' || c == '\r' || c == '\U{2028}' || c == '\U{2029}'
  }

  /** s without its leading whitespace. */
  function TrimStart(s: string): (r: string)
    ensures |r| <= |s| && r == s[|s| - |r|..]
    ensures forall i :: 0 <= i < |s| - |r| ==> IsWhitespace(s[i])
    ensures r != [] ==> !IsWhitespace(r[0])
  {
    if s != [] && IsWhitespace(s[0]) then TrimStart(s[1..]) else s
  }

  /** s without its trailing whitespace. */
  function TrimEnd(s: string): (r: string)
    ensures |r| <= |s| && r == s[..|r|]
    ensures forall i :: |r| <= i < |s| ==> IsWhitespace(s[i])
    ensures r != [] ==> !IsWhitespace(r[|r| - 1])
  {
    if s != [] && IsWhitespace(s[|s| - 1]) then TrimEnd(s[..|s| - 1]) else s
  }

  /** `s.trim()`: the part of s between its leading and its trailing whitespace. */
  function Trim(s: string): (r: string)
    ensures exists a: nat :: TrimmedAt(s, r, a)
    ensures r != [] ==> !IsWhitespace(r[0]) && !IsWhitespace(r[|r| - 1])
  {
    var t := TrimStart(s);
    var r := TrimEnd(t);
    assert TrimmedAt(s, r, |s| - |t|);
    r
  }

  /** r is the slice of s that starts at a, and everything of s around it is whitespace. */
  ghost predicate TrimmedAt(s: string, r: string, a: nat)
  {
    && a + |r| <= |s|
    && r == s[a..a + |r|]
    && (forall i :: 0 <= i < a ==> IsWhitespace(s[i]))
    && (forall i :: a + |r| <= i < |s| ==> IsWhitespace(s[i]))
  }

  /** `s.trim().length === 0` exactly when s consists of whitespace only. */
  lemma TrimEmptyIff(s: string)
    ensures Trim(s) == [] <==> forall i :: 0 <= i < |s| ==> IsWhitespace(s[i])
  {
    var r := Trim(s);
    var a: nat :| TrimmedAt(s, r, a);
    if r != [] {
      assert s[a] == r[0];
    } else {
      forall i | 0 <= i < |s| ensures IsWhitespace(s[i]) {
        if i >= a {
          assert a + |r| <= i;
        }
      }
    }
  }

  /** Trimming a trimmed string changes nothing. */
  lemma TrimIdempotent(s: string)
    ensures Trim(Trim(s)) == Trim(s)
  {
    var r := Trim(s);
    assert TrimStart(r) == r;
    assert TrimEnd(r) == r;
  }

  /** A string of whitespace only. */
  ghost predicate AllWhitespace(w: string)
  {
    forall i :: 0 <= i < |w| ==> IsWhitespace(w[i])
  }

  /** Leading whitespace is all TrimStart removes. */
  lemma {:induction false} TrimStartPadding(w: string, s: string)
    requires AllWhitespace(w)
    requires s != [] && !IsWhitespace(s[0])
    ensures TrimStart(w + s) == s
  {
    if w == [] {
      assert w + s == s;
    } else {
      assert (w + s)[1..] == w[1..] + s;
      TrimStartPadding(w[1..], s);
    }
  }

  /** Trailing whitespace is all TrimEnd removes. */
  lemma {:induction false} TrimEndPadding(s: string, w: string)
    requires AllWhitespace(w)
    requires s != [] && !IsWhitespace(s[|s| - 1])
    ensures TrimEnd(s + w) == s
  {
    if w == [] {
      assert s + w == s;
    } else {
      assert (s + w)[..|s + w| - 1] == s + w[..|w| - 1];
      TrimEndPadding(s, w[..|w| - 1]);
    }
  }

  /** Trim removes exactly the whitespace padding around text whose ends are
      not whitespace. */
  lemma TrimPadding(w: string, s: string, v: string)
    requires AllWhitespace(w) && AllWhitespace(v)
    requires s != [] && !IsWhitespace(s[0]) && !IsWhitespace(s[|s| - 1])
    ensures Trim(w + s + v) == s
  {
    assert w + s + v == w + (s + v);
    TrimStartPadding(w, s + v);
    TrimEndPadding(s, v);
  }

  /** The comment the service tests trim loses the two spaces on either side. */
  lemma TrimPaddedComment()
    ensures Trim("  Test comment with spaces  ") == "Test comment with spaces"
  {
    var body := "Test comment with spaces";
    assert "  Test comment with spaces  " == "  " + body + "  ";
    TrimPadding("  ", body, "  ");
  }
}
