/** The string operations the forms rely on: `String.prototype.trim`,
    `String.prototype.toLowerCase`, `String.prototype.includes` and the decimal
    rendering of an integer (`String(n)`, `n.toString()`). */
module Text {

  /** ECMAScript WhiteSpace and LineTerminator code points, the set `trim` strips. */
  predicate IsWhitespace(c: char)
  {
    || c == '\t' || c == '\U{000B}' || c == '\U{000C}' || c == ' ' || c == '\U{00A0}' || c == '\U{FEFF}'
    || c == '\n' || c == '\r' || c == '\U{2028}' || c == '\U{2029}'
    || c == '\U{1680}' || ('\U{2000}' <= c <= '\U{200A}') || c == '\U{202F}' || c == '\U{205F}' || c == '\U{3000}'
  }

  predicate AllWhitespace(s: string)
  {
    forall i :: 0 <= i < |s| ==> IsWhitespace(s[i])
  }

  /** Neither end of `s` is whitespace: what `trim` leaves behind. */
  predicate IsTrimmed(s: string)
  {
    |s| == 0 || (!IsWhitespace(s[0]) && !IsWhitespace(s[|s| - 1]))
  }

  function TrimStart(s: string): (r: string)
    ensures |r| <= |s| && r == s[|s| - |r|..]
    ensures AllWhitespace(s[..|s| - |r|])
    ensures |r| > 0 ==> !IsWhitespace(r[0])
  {
    if |s| > 0 && IsWhitespace(s[0]) then TrimStart(s[1..]) else s
  }

  function TrimEnd(s: string): (r: string)
    ensures |r| <= |s| && r == s[..|r|]
    ensures AllWhitespace(s[|r|..])
    ensures |r| > 0 ==> !IsWhitespace(r[|r| - 1])
  {
    if |s| > 0 && IsWhitespace(s[|s| - 1]) then TrimEnd(s[..|s| - 1]) else s
  }

  /** `r` sits at offset `i` of `s` with only whitespace on either side of it. */
  predicate SplitAt(s: string, i: int, r: string)
  {
    && 0 <= i && i + |r| <= |s| && r == s[i..i + |r|]
    && AllWhitespace(s[..i]) && AllWhitespace(s[i + |r|..])
  }

  /** Where the text left by `trim` starts: the length of the leading whitespace. */
  function TrimOffset(s: string): (i: nat)
    ensures i <= |s|
  {
    |s| - |TrimStart(s)|
  }

  /** `s.trim()`: the slice of `s` left after dropping whitespace at both ends. */
  function Trim(s: string): (r: string)
    ensures IsTrimmed(r)
    ensures SplitAt(s, TrimOffset(s), r)
  {
    var i := TrimOffset(s);
    var t := TrimStart(s);
    LeadingSplit(s);
    var r := TrimEnd(t);
    TrimSplits(s, i, t, r);
    r
  }

  /** `TrimStart` leaves the suffix of `s` from `TrimOffset(s)` on, after a run of
      whitespace, and that suffix does not start with whitespace. */
  lemma LeadingSplit(s: string)
    ensures var i, t := TrimOffset(s), TrimStart(s);
            && t == s[i..] && AllWhitespace(s[..i])
            && (|t| > 0 ==> !IsWhitespace(t[0]))
  {
    var t := TrimStart(s);
    assert TrimOffset(s) == |s| - |t|;
  }

  /** Whitespace, then `t` from offset `i` on; `t` is `r` followed by whitespace; `t`
      does not start with whitespace and `r` does not end with it: then `r` sits at
      offset `i` between two runs of whitespace and is trimmed. */
  lemma TrimSplits(s: string, i: int, t: string, r: string)
    requires 0 <= i <= |s| && t == s[i..] && |r| <= |t| && r == t[..|r|]
    requires AllWhitespace(s[..i]) && AllWhitespace(t[|r|..])
    requires |t| > 0 ==> !IsWhitespace(t[0])
    requires |r| > 0 ==> !IsWhitespace(r[|r| - 1])
    ensures SplitAt(s, i, r) && IsTrimmed(r)
  {
    assert s[i..][..|r|] == s[i..i + |r|];
    assert s[i..][|r|..] == s[i + |r|..];
    assert |r| > 0 ==> r[0] == t[0];
  }

  /** The trimmed text is empty exactly when the input is all whitespace, the
      condition under which `!x.trim()` holds. */
  lemma TrimEmptyIff(s: string)
    ensures Trim(s) == "" <==> AllWhitespace(s)
  {
    var r := Trim(s);
    var i := TrimOffset(s);
    if r == "" {
      WhitespaceHalves(s, i);
    } else {
      assert r[0] == s[i] && !IsWhitespace(r[0]);
    }
  }

  /** Whitespace before and after a cut is whitespace throughout. */
  lemma WhitespaceHalves(s: string, i: int)
    requires 0 <= i <= |s| && AllWhitespace(s[..i]) && AllWhitespace(s[i..])
    ensures AllWhitespace(s)
  {
    forall k | 0 <= k < |s| ensures IsWhitespace(s[k]) {
      if k < i { assert s[k] == s[..i][k]; } else { assert s[k] == s[i..][k - i]; }
    }
  }

  /** Trimming twice is trimming once. */
  lemma TrimIdempotent(s: string)
    ensures Trim(Trim(s)) == Trim(s)
  {
    var r := Trim(s);
    TrimmedIsFixed(r);
  }

  lemma TrimmedIsFixed(r: string)
    requires IsTrimmed(r)
    ensures Trim(r) == r
  {
    assert TrimStart(r) == r;
    assert TrimEnd(r) == r;
  }

  /** `toLowerCase` on the Basic Latin and Latin-1 letters (A-Z, U+00C0-U+00DE
      except the multiplication sign). */
  function LowerChar(c: char): (r: char)
    ensures (c == r) <==> !(('A' <= c <= 'Z') || ('\U{00C0}' <= c <= '\U{00DE}' && c != '\U{00D7}'))
  {
    if ('A' <= c <= 'Z') || ('\U{00C0}' <= c <= '\U{00DE}' && c != '\U{00D7}') then
      (c as int + 32) as char
    else c
  }

  function Lower(s: string): (r: string)
    ensures |r| == |s|
    ensures forall i :: 0 <= i < |s| ==> r[i] == LowerChar(s[i])
  {
    seq(|s|, i requires 0 <= i < |s| => LowerChar(s[i]))
  }

  lemma LowerIdempotent(s: string)
    ensures Lower(Lower(s)) == Lower(s)
  {
  }

  /** `needle` occurs in `hay` starting at position `i`. */
  predicate OccursAt(hay: string, needle: string, i: int)
  {
    0 <= i && i + |needle| <= |hay| && hay[i..i + |needle|] == needle
  }

  /** `hay.includes(needle)`, scanning start positions from the left. */
  function Contains(hay: string, needle: string): (r: bool)
    ensures r <==> exists i :: OccursAt(hay, needle, i)
    decreases |hay|
  {
    if |needle| <= |hay| && hay[..|needle|] == needle then
      assert OccursAt(hay, needle, 0);
      true
    else if |hay| <= |needle| then
      assert forall i :: !OccursAt(hay, needle, i);
      false
    else
      ContainsStep(hay, needle);
      Contains(hay[1..], needle)
  }

  /** An occurrence past the first position is an occurrence in the tail. */
  lemma ContainsStep(hay: string, needle: string)
    requires |hay| > 0
    ensures (exists i :: OccursAt(hay, needle, i)) <==>
            OccursAt(hay, needle, 0) || exists j :: OccursAt(hay[1..], needle, j)
  {
    forall j | OccursAt(hay[1..], needle, j)
      ensures OccursAt(hay, needle, j + 1)
    {
      assert hay[j + 1..j + 1 + |needle|] == hay[1..][j..j + |needle|];
    }
    forall i | OccursAt(hay, needle, i) && i >= 1
      ensures OccursAt(hay[1..], needle, i - 1)
    {
      var tail := hay[1..];
      assert forall j :: i <= j < i + |needle| ==> tail[j - 1] == hay[j];
      assert tail[i - 1..i - 1 + |needle|] == hay[i..i + |needle|];
    }
  }

  /** Decimal digits of `n`, most significant first (`String(n)` for n >= 0). */
  function NatToString(n: nat): (r: string)
    ensures |r| >= 1
    ensures forall i :: 0 <= i < |r| ==> '0' <= r[i] <= '9'
    ensures DigitsValue(r) == n
    decreases n
  {
    var d := [(('0' as int) + n % 10) as char];
    if n < 10 then
      d
    else
      var init := NatToString(n / 10);
      assert (init + d)[..|init + d| - 1] == init;
      init + d
  }

  /** Value of a string of decimal digits; the inverse of `NatToString`. */
  function DigitsValue(s: string): int
  {
    if |s| == 0 then 0 else DigitsValue(s[..|s| - 1]) * 10 + (s[|s| - 1] as int - '0' as int)
  }

  /** `String(n)` for any integer: a minus sign in front of the magnitude. */
  function IntToString(n: int): (r: string)
    ensures |r| >= 1 && !AllWhitespace(r)
    ensures n >= 0 ==> r == NatToString(n)
    ensures n < 0 ==> r == "-" + NatToString(-n)
    ensures DecimalValue(r) == n
  {
    var r := if n >= 0 then NatToString(n) else "-" + NatToString(-n);
    assert !IsWhitespace(r[0]);
    r
  }

  /** Value of an optionally signed string of decimal digits, the way `parseInt` reads
      what `String(n)` wrote. */
  function DecimalValue(s: string): int
  {
    if |s| > 0 && s[0] == '-' then -DigitsValue(s[1..]) else DigitsValue(s)
  }
}
