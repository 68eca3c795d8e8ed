/** The parts of JavaScript's value semantics that the modelled code relies on: strict equality,
    `parseInt` on route parameters, `String(n)`, and the case-insensitive substring match that
    Prisma's `contains` with `mode: 'insensitive'` performs. */
module Js {
  import opened Wrappers

  /** The primitive values a request body or route can carry. Numbers are integers in this model. */
  datatype JsValue = Undefined | Null | Number(n: int) | Str(s: string)

  /** `a === b` on primitives: the same type and the same value. A number never equals a string. */
  predicate StrictEquals(a: JsValue, b: JsValue)
  {
    a == b
  }

  predicate StartsWith(s: string, prefix: string)
  {
    |prefix| <= |s| && s[..|prefix|] == prefix
  }

  // ---------------------------------------------------------------------------------------------
  // Decimal digits, parseInt and String(n)
  // ---------------------------------------------------------------------------------------------

  predicate IsDigit(c: char)
  {
    '0' <= c <= '9'
  }

  predicate AllDigits(s: string)
  {
    forall i | 0 <= i < |s| :: IsDigit(s[i])
  }

  predicate IsSpace(c: char)
  {
    c == ' ' || c == '\t' || c == '\n' || c == '\r'
  }

  function DigitValue(c: char): (d: nat)
    ensures IsDigit(c) ==> d < 10
  {
    if IsDigit(c) then (c as int) - ('0' as int) else 0
  }

  function DigitChar(d: nat): (c: char)
    requires d < 10
    ensures IsDigit(c) && DigitValue(c) == d
  {
    ('0' as int + d) as char
  }

  /** The longest prefix of `s` made of decimal digits: where `parseInt` stops reading. */
  function LeadingDigits(s: string): string
  {
    if s == [] || !IsDigit(s[0]) then [] else [s[0]] + LeadingDigits(s[1..])
  }

  /** The number a string of decimal digits denotes, most significant digit first. */
  function DigitsValue(d: string): nat
  {
    if d == [] then 0 else 10 * DigitsValue(d[..|d| - 1]) + DigitValue(d[|d| - 1])
  }

  /** `s` without its leading white space, as `parseInt` skips it. */
  function TrimStart(s: string): string
  {
    if s != [] && IsSpace(s[0]) then TrimStart(s[1..]) else s
  }

  /** An optional sign followed by digits, read as `parseInt` reads them once white space is gone. */
  function SignedDigits(t: string): Option<int>
  {
    var negative := t != [] && t[0] == '-';
    var body := if t != [] && (t[0] == '-' || t[0] == '+') then t[1..] else t;
    var digits := LeadingDigits(body);
    var magnitude: int := DigitsValue(digits);
    if digits == [] then None else Some(if negative then -magnitude else magnitude)
  }

  /** `parseInt(s)` with radix 10: optional white space, an optional sign, then the longest run of
      digits; `None` stands for `NaN` (no digit at all). */
  function ParseInt(s: string): (r: Option<int>)
    ensures s != [] && AllDigits(s) ==> r == Some(DigitsValue(s))
    ensures TrimStart(s) == [] ==> r.None?
  {
    DigitsParse(s);
    SignedDigits(TrimStart(s))
  }

  /** A string of digits alone reads back as its value. */
  lemma DigitsParse(s: string)
    ensures s != [] && AllDigits(s) ==> SignedDigits(TrimStart(s)) == Some(DigitsValue(s))
  {
    if s != [] && AllDigits(s) {
      SignedDigitsOfUnsigned(s, []);
      assert s + [] == s;
    }
  }

  /** `String(n)` for a natural number. */
  function NatToDecimal(n: nat): (s: string)
    ensures s != [] && AllDigits(s)
  {
    if n < 10 then [DigitChar(n)] else NatToDecimal(n / 10) + [DigitChar(n % 10)]
  }

  /** `String(n)` for an integer: how a numeric id becomes a route segment such as `/categories/7`. */
  function IntToDecimal(n: int): string
  {
    if n < 0 then "-" + NatToDecimal(-n) else NatToDecimal(n)
  }

  lemma {:induction false} DigitsValueOfDecimal(n: nat)
    ensures DigitsValue(NatToDecimal(n)) == n
  {
    if n >= 10 {
      var s := NatToDecimal(n);
      var front := NatToDecimal(n / 10);
      assert s == front + [DigitChar(n % 10)];
      assert s[..|s| - 1] == front;
      DigitsValueOfDecimal(n / 10);
    }
  }

  lemma {:induction false} LeadingDigitsStopsAtNonDigit(d: string, rest: string)
    requires AllDigits(d)
    requires rest == [] || !IsDigit(rest[0])
    ensures LeadingDigits(d + rest) == d
  {
    if d != [] {
      assert (d + rest)[1..] == d[1..] + rest;
      LeadingDigitsStopsAtNonDigit(d[1..], rest);
      assert d == [d[0]] + d[1..];
    } else {
      assert d + rest == rest;
    }
  }

  /** Unsigned digits followed by a non-digit read back as their value. */
  lemma SignedDigitsOfUnsigned(d: string, rest: string)
    requires d != [] && AllDigits(d)
    requires rest == [] || !IsDigit(rest[0])
    ensures SignedDigits(d + rest) == Some(DigitsValue(d) as int)
  {
    LeadingDigitsStopsAtNonDigit(d, rest);
    var t := d + rest;
    assert t[0] == d[0] && IsDigit(t[0]);
  }

  /** A minus sign, digits and a non-digit read back as the negated value. */
  lemma SignedDigitsOfNegative(d: string, rest: string)
    requires d != [] && AllDigits(d)
    requires rest == [] || !IsDigit(rest[0])
    ensures SignedDigits("-" + d + rest) == Some(-(DigitsValue(d) as int))
  {
    LeadingDigitsStopsAtNonDigit(d, rest);
    var t := "-" + d + rest;
    assert t[1..] == d + rest;
  }

  /** `parseInt(String(n) + rest) === n` whenever `rest` does not continue the digits: a numeric id
      survives the trip through a route segment, and trailing text such as `"7abc"` is ignored. */
  lemma ParseIntOfDecimal(n: int, rest: string)
    requires rest == [] || !IsDigit(rest[0])
    ensures ParseInt(IntToDecimal(n) + rest) == Some(n)
  {
    var m: nat := if n < 0 then -n else n;
    var d := NatToDecimal(m);
    DigitsValueOfDecimal(m);
    var s := IntToDecimal(n) + rest;
    if n < 0 {
      SignedDigitsOfNegative(d, rest);
      assert s == "-" + d + rest;
      assert s[0] == '-';
    } else {
      SignedDigitsOfUnsigned(d, rest);
      assert s == d + rest;
      assert s[0] == d[0] && IsDigit(s[0]);
    }
    assert TrimStart(s) == s;
  }

  /** `String(v)`, which is what `parseInt(v)` reads when `v` is not already a string. */
  function ToString(v: JsValue): string
  {
    match v
    case Undefined => "undefined"
    case Null => "null"
    case Number(n) => IntToDecimal(n)
    case Str(s) => s
  }

  /** `parseInt(v)` on a request value: a number comes back unchanged, `undefined` and `null` give
      `NaN`, a string is parsed. */
  lemma ParseIntOfValue(v: JsValue)
    ensures v.Number? ==> ParseInt(ToString(v)) == Some(v.n)
    ensures v.Undefined? || v.Null? ==> ParseInt(ToString(v)) == None
    ensures v.Str? ==> ParseInt(ToString(v)) == ParseInt(v.s)
  {
    match v
    case Number(n) =>
      ParseIntOfDecimal(n, []);
      assert IntToDecimal(n) + [] == IntToDecimal(n);
    case Undefined =>
      assert TrimStart("undefined") == "undefined";
      assert LeadingDigits("undefined") == [];
    case Null =>
      assert TrimStart("null") == "null";
      assert LeadingDigits("null") == [];
    case Str(_) =>
  }

  // ---------------------------------------------------------------------------------------------
  // Case-insensitive substring match
  // ---------------------------------------------------------------------------------------------

  /** Lower-casing of the ASCII letters; other characters are left as they are. */
  function LowerChar(c: char): char
  {
    if 'A' <= c <= 'Z' then (c as int + 32) as char else c
  }

  function Lower(s: string): (r: string)
    ensures |r| == |s|
  {
    seq(|s|, i requires 0 <= i < |s| => LowerChar(s[i]))
  }

  /** `needle` occurs in `hay` at some position (SQL `LIKE '%needle%'`). */
  predicate Contains(hay: string, needle: string)
  {
    exists i | 0 <= i <= |hay| - |needle| :: OccursAt(hay, needle, i)
  }

  predicate OccursAt(hay: string, needle: string, i: int)
  {
    0 <= i <= |hay| - |needle| && hay[i..i + |needle|] == needle
  }

  /** Prisma's `{ contains: needle, mode: 'insensitive' }` on `hay`. */
  predicate ContainsIgnoreCase(hay: string, needle: string)
    ensures |needle| > |hay| ==> !ContainsIgnoreCase(hay, needle)
    ensures needle == [] ==> ContainsIgnoreCase(hay, needle)
  {
    assert needle == [] ==> OccursAt(Lower(hay), Lower(needle), 0);
    Contains(Lower(hay), Lower(needle))
  }

  /** Every slice of a name matches it, so the empty string and the name itself do too. */
  lemma SliceMatches(s: string, i: int, j: int)
    requires 0 <= i <= j <= |s|
    ensures ContainsIgnoreCase(s, s[i..j])
  {
    var l := Lower(s);
    assert Lower(s[i..j]) == l[i..j];
    assert OccursAt(l, Lower(s[i..j]), i);
  }

  /** Two names that differ only in the case of their letters match each other. */
  lemma SameIgnoringCaseMatches(hay: string, needle: string)
    requires Lower(hay) == Lower(needle)
    ensures ContainsIgnoreCase(hay, needle)
  {
    var l := Lower(hay);
    assert OccursAt(l, Lower(needle), 0);
  }
}
