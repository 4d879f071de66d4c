/** Text normalisation applied to every field the posting form and the comment
    inputs read: ECMAScript's String.prototype.trim and the "Anonymous" default
    for a name left blank. */
module Text {

  /** The name shown when the author field is left blank. */
  const Anonymous: string := "Anonymous"

  /** The characters String.prototype.trim strips: ECMAScript's WhiteSpace
      (TAB, VT, FF, ZWNBSP and every space separator Zs) and LineTerminator
      (LF, CR, LS, PS). */
  predicate IsWhitespace(c: char) {
    || c == '\t' || c == '\n' || c == '\U{000B}' || c == '\U{000C}' || c == '\r'
    || c == ' ' || c == '\U{00A0}' || c == '\U{1680}'
    || ('\U{2000}' <= c <= '\U{200A}')
    || c == '\U{2028}' || c == '\U{2029}' || c == '\U{202F}' || c == '\U{205F}'
    || c == '\U{3000}' || c == '\U{FEFF}'
  }

  /** True when the string holds nothing but whitespace (the empty string included). */
  predicate Blank(s: string) {
    forall i :: 0 <= i < |s| ==> IsWhitespace(s[i])
  }

  /** True when the string neither starts nor ends with whitespace. */
  predicate Trimmed(s: string) {
    s == [] || (!IsWhitespace(s[0]) && !IsWhitespace(s[|s| - 1]))
  }

  /** The number of whitespace characters at the start of `s`. */
  function LeadingBlanks(s: string): (n: nat)
    ensures n <= |s|
    ensures forall i :: 0 <= i < n ==> IsWhitespace(s[i])
    ensures n == |s| || !IsWhitespace(s[n])
  {
    if s != [] && IsWhitespace(s[0]) then 1 + LeadingBlanks(s[1..]) else 0
  }

  /** The number of whitespace characters at the end of `s`. */
  function TrailingBlanks(s: string): (n: nat)
    ensures n <= |s|
    ensures forall i :: |s| - n <= i < |s| ==> IsWhitespace(s[i])
    ensures n == |s| || !IsWhitespace(s[|s| - 1 - n])
  {
    if s != [] && IsWhitespace(s[|s| - 1]) then 1 + TrailingBlanks(s[..|s| - 1]) else 0
  }

  /** String.prototype.trim: the infix of `s` that neither starts nor ends
      with whitespace and has only whitespace around it. It is empty exactly
      when `s` is blank. */
  function Trim(s: string): (r: string)
    ensures Trimmed(r)
    ensures r == [] <==> Blank(s)
    ensures var lead := LeadingBlanks(s);
      && lead + |r| <= |s| && r == s[lead..lead + |r|]
      && (forall i :: 0 <= i < lead ==> IsWhitespace(s[i]))
      && (forall i :: lead + |r| <= i < |s| ==> IsWhitespace(s[i]))
  {
    var lead := LeadingBlanks(s);
    if lead == |s| then []
    else s[lead..|s| - TrailingBlanks(s)]
  }

  /** A name field after the submit handler's normalisation: trimmed, and
      "Anonymous" when nothing but whitespace was typed. */
  function NameOrAnonymous(field: string): (name: string)
    ensures name != [] && Trimmed(name)
    ensures Blank(field) ==> name == Anonymous
    ensures !Blank(field) ==> name == Trim(field)
  {
    var t := Trim(field);
    if t == [] then Anonymous else t
  }

  /** A string that has no whitespace at either end is its own trim. */
  lemma TrimOfTrimmed(s: string)
    requires Trimmed(s)
    ensures Trim(s) == s
  {
    if s != [] {
      assert LeadingBlanks(s) == 0 && TrailingBlanks(s) == 0;
      assert s[0..|s|] == s;
    }
  }

  /** Trimming twice is trimming once: a value already stored is unchanged
      by the normalisation the handlers apply. */
  lemma TrimIdempotent(s: string)
    ensures Trim(Trim(s)) == Trim(s)
  {
    TrimOfTrimmed(Trim(s));
  }
}
