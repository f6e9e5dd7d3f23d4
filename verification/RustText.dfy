/** The parts of Rust's string library the shape language leans on. */
module RustText {
  import opened Ascii
  import opened Bytes
  import opened Wrappers

  /** char::is_whitespace: the Unicode White_Space property. */
  predicate IsWhitespace(c: char) {
    || '\t' <= c <= '\r'
    || c == ' ' || c == '\U{0085}' || c == '\U{00A0}' || c == '\U{1680}'
    || '\U{2000}' <= c <= '\U{200A}'
    || c == '\U{2028}' || c == '\U{2029}' || c == '\U{202F}' || c == '\U{205F}' || c == '\U{3000}'
  }

  function TrimStart(s: string): (t: string)
    ensures |t| <= |s|
  {
    if s != [] && IsWhitespace(s[0]) then TrimStart(s[1..]) else s
  }

  function TrimEnd(s: string): (t: string)
    ensures |t| <= |s|
  {
    if s != [] && IsWhitespace(s[|s| - 1]) then TrimEnd(s[..|s| - 1]) else s
  }

  function Trim(s: string): string {
    TrimEnd(TrimStart(s))
  }

  predicate Trimmed(s: string) {
    s != [] ==> !IsWhitespace(s[0]) && !IsWhitespace(s[|s| - 1])
  }

  lemma {:induction false} TrimStartFirst(s: string)
    ensures TrimStart(s) != [] ==> !IsWhitespace(TrimStart(s)[0])
  {
    if s != [] && IsWhitespace(s[0]) {
      TrimStartFirst(s[1..]);
    }
  }

  lemma {:induction false} TrimEndEnds(s: string)
    ensures TrimEnd(s) <= s
    ensures TrimEnd(s) != [] ==> !IsWhitespace(TrimEnd(s)[|TrimEnd(s)| - 1])
  {
    if s != [] && IsWhitespace(s[|s| - 1]) {
      TrimEndEnds(s[..|s| - 1]);
    }
  }

  /** Trimming leaves nothing to trim, and changes only what had something to trim. */
  lemma TrimIsTrimmed(s: string)
    ensures Trimmed(Trim(s))
    ensures Trim(s) == s <==> Trimmed(s)
  {
    TrimStartFirst(s);
    TrimEndEnds(TrimStart(s));
  }

  predicate IsLineBreakOrTab(c: char) {
    c == '\n' || c == '\r' || c == '\t'
  }

  function WithoutLineBreaks(s: string): string {
    if s == [] then [] else (if IsLineBreakOrTab(s[0]) then [] else [s[0]]) + WithoutLineBreaks(s[1..])
  }

  predicate NoWhitespace(s: string) {
    forall i :: 0 <= i < |s| ==> !IsWhitespace(s[i])
  }

  lemma {:induction false} WithoutNoLineBreaks(s: string)
    requires NoWhitespace(s)
    ensures WithoutLineBreaks(s) == s
  {
    if s != [] {
      WithoutNoLineBreaks(s[1..]);
      assert s == [s[0]] + s[1..];
    }
  }

  predicate AllDigits(s: string) {
    forall i :: 0 <= i < |s| ==> IsDigit(s[i])
  }

  function DecimalValue(digits: string): nat
    requires AllDigits(digits)
  {
    if digits == [] then 0
    else DecimalValue(digits[..|digits| - 1]) * 10 + DigitValue(digits[|digits| - 1])
  }

  function DigitValue(c: char): nat
    requires IsDigit(c)
  {
    c as int - '0' as int
  }

  function DigitChar(v: nat): (c: char)
    requires v < 10
    ensures IsDigit(c) && DigitValue(c) == v
  {
    ('0' as int + v) as char
  }

  /** A number written in decimal, without leading zeros. */
  function DecimalText(v: nat): (digits: string)
    ensures digits != [] && AllDigits(digits)
  {
    if v < 10 then [DigitChar(v)] else DecimalText(v / 10) + [DigitChar(v % 10)]
  }

  lemma {:induction false} DecimalReadsBack(v: nat)
    ensures DecimalValue(DecimalText(v)) == v
  {
    if v < 10 {
      assert DecimalText(v)[..0] == [];
    } else {
      DecimalReadsBack(v / 10);
      assert DecimalText(v)[..|DecimalText(v)| - 1] == DecimalText(v / 10);
    }
  }

  /** str::parse::<usize>: digits, with an optional plus sign before the first one. */
  function ParseUsize(s: string): Option<nat> {
    var digits := if |s| > 1 && s[0] == '+' then s[1..] else s;
    if digits != [] && AllDigits(digits) && DecimalValue(digits) < TWO_64
    then Some(DecimalValue(digits))
    else None
  }

  /** str::trim_start_matches: drops every leading copy of the prefix. */
  function TrimStartMatches(s: string, prefix: string): string
    requires prefix != []
  {
    if prefix <= s then TrimStartMatches(s[|prefix|..], prefix) else s
  }
}
