/**
 * The two formatting verbs the rollback uses to build release descriptions:
 * `%d` on a revision number and `%q` on a release name. Each rendering comes
 * with the parser that reads it back, and a lemma that the two round-trip.
 */
module Format {
  import opened Wrappers

  predicate IsDigit(c: char) { '0' <= c <= '9' }

  predicate AllDigits(s: string) { forall i :: 0 <= i < |s| ==> IsDigit(s[i]) }

  function DigitChar(d: nat): (c: char)
    requires d < 10
    ensures IsDigit(c) && c as int - '0' as int == d
  {
    ('0' as int + d) as char
  }

  /** `n` in base ten, most significant digit first, with no leading zero. */
  function NatDigits(n: nat): (s: string)
    ensures |s| >= 1 && AllDigits(s)
    ensures |s| > 1 ==> s[0] != '0'
    ensures n < 10 <==> |s| == 1
  {
    if n < 10 then [DigitChar(n)] else NatDigits(n / 10) + [DigitChar(n % 10)]
  }

  /** The number a string of decimal digits denotes. */
  function DigitsValue(s: string): nat
    requires AllDigits(s)
  {
    if s == [] then 0 else DigitsValue(s[..|s| - 1]) * 10 + (s[|s| - 1] as int - '0' as int)
  }

  lemma {:induction false} NatDigitsRoundTrip(n: nat)
    ensures DigitsValue(NatDigits(n)) == n
  {
    if n >= 10 {
      var s := NatDigits(n);
      assert s[..|s| - 1] == NatDigits(n / 10);
      NatDigitsRoundTrip(n / 10);
    }
  }

  /** Go's `%d` verb on a signed integer: a minus sign for negatives, then the digits. */
  function Decimal(n: int): (s: string)
  {
    if n < 0 then "-" + NatDigits(-n) else NatDigits(n)
  }

  /** Reads back what `Decimal` writes: an optional minus sign, then at least one digit. */
  function ParseDecimal(s: string): Option<int>
  {
    if |s| >= 2 && s[0] == '-' && AllDigits(s[1..]) then var v: int := DigitsValue(s[1..]); Some(-v)
    else if |s| >= 1 && AllDigits(s) then var v: int := DigitsValue(s); Some(v)
    else None
  }

  lemma DecimalRoundTrip(n: int)
    ensures ParseDecimal(Decimal(n)) == Some(n)
  {
    var s := Decimal(n);
    if n < 0 {
      assert s[1..] == NatDigits(-n);
      NatDigitsRoundTrip(-n);
    } else {
      assert IsDigit(s[0]);
      NatDigitsRoundTrip(n);
    }
  }

  /** The characters `%q` prefixes with a backslash. */
  predicate NeedsEscape(c: char) { c == '"' || c == '\\' }

  function Escape(s: string): (e: string)
    ensures |e| >= |s|
  {
    if s == [] then []
    else (if NeedsEscape(s[0]) then ['\\', s[0]] else [s[0]]) + Escape(s[1..])
  }

  /** Go's `%q` verb on a string: the text in double quotes, with `"` and `\` escaped. */
  function Quote(s: string): (q: string)
  {
    "\"" + Escape(s) + "\""
  }

  /** Reads back what `Escape` writes; a lone backslash or an unescaped quote is rejected. */
  function Unescape(e: string): Option<string>
  {
    if e == [] then Some([])
    else if e[0] == '\\' then
      if |e| >= 2 && NeedsEscape(e[1]) then
        match Unescape(e[2..])
        case Some(rest) => Some([e[1]] + rest)
        case None => None
      else None
    else if e[0] == '"' then None
    else
      match Unescape(e[1..])
      case Some(rest) => Some([e[0]] + rest)
      case None => None
  }

  function Unquote(q: string): Option<string>
  {
    if |q| >= 2 && q[0] == '"' && q[|q| - 1] == '"' then Unescape(q[1..|q| - 1]) else None
  }

  lemma {:induction false} UnescapeEscape(s: string)
    ensures Unescape(Escape(s)) == Some(s)
  {
    if s != [] {
      var e := Escape(s);
      UnescapeEscape(s[1..]);
      assert s == [s[0]] + s[1..];
      if NeedsEscape(s[0]) {
        assert e[2..] == Escape(s[1..]);
      } else {
        assert e[0] == s[0] && e[1..] == Escape(s[1..]);
      }
    }
  }

  lemma UnquoteQuote(s: string)
    ensures Unquote(Quote(s)) == Some(s)
  {
    var q := Quote(s);
    assert q[1..|q| - 1] == Escape(s);
    UnescapeEscape(s);
  }

  /** A string with neither `"` nor `\` is quoted verbatim. */
  lemma {:induction false} QuotePlain(s: string)
    requires forall i :: 0 <= i < |s| ==> !NeedsEscape(s[i])
    ensures Quote(s) == "\"" + s + "\""
    ensures Escape(s) == s
  {
    if s != [] {
      QuotePlain(s[1..]);
    }
  }
}
