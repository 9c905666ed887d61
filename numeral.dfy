/**
 * Decimal literals as the portal sends them (`saldo`, `rest`) and the
 * `"%.2f"` rendering the client stores for the balance.
 *
 * A literal is an optional sign, a run of whole digits, and optionally a
 * point followed by fraction digits, with at least one digit in all. This is
 * the part of Python's `Decimal(...)` and `float(...)` syntax the model covers.
 */
module Numeral {
  import opened Outcomes

  predicate IsDigit(c: char) { '0' <= c <= '9' }

  predicate AllDigits(s: string)
  {
    forall i :: 0 <= i < |s| ==> IsDigit(s[i])
  }

  function Pow10(k: nat): (p: nat)
    ensures p >= 1
  {
    if k == 0 then 1 else 10 * Pow10(k - 1)
  }

  /** The number a run of decimal digits denotes, most significant first. */
  function Value(s: string): (n: nat)
    requires AllDigits(s)
    ensures n < Pow10(|s|)
  {
    if s == [] then 0
    else
      var d := s[0] as int - '0' as int;
      var rest := Value(s[1..]);
      DigitTimes(d, Pow10(|s| - 1));
      d * Pow10(|s| - 1) + rest
  }

  lemma DigitTimes(d: int, p: nat)
    requires 0 <= d <= 9
    ensures 0 <= d * p <= 9 * p
  {
  }

  /** Appending a digit multiplies by ten and adds that digit. */
  lemma {:induction false} ValueAppend(s: string, c: char)
    requires AllDigits(s) && IsDigit(c)
    ensures AllDigits(s + [c])
    ensures Value(s + [c]) == 10 * Value(s) + (c as int - '0' as int)
  {
    if s != [] {
      var t := s + [c];
      var d, e := s[0] as int - '0' as int, c as int - '0' as int;
      var p, q := Pow10(|s| - 1), Pow10(|s|);
      assert t[0] == s[0] && t[1..] == s[1..] + [c];
      var vt, vs := Value(s[1..] + [c]), Value(s[1..]);
      assert Value(t) == d * q + vt;
      assert Value(s) == d * p + vs;
      ValueAppend(s[1..], c);
      TimesTen(d, p, q);
    }
  }

  lemma TimesTen(d: int, p: int, q: int)
    requires q == 10 * p
    ensures d * q == 10 * (d * p)
  {
  }

  /** The decimal digit of `d`. */
  function DigitChar(d: nat): (c: char)
    requires d < 10
    ensures IsDigit(c) && c as int - '0' as int == d
  {
    ('0' as int + d) as char
  }

  /** `str(n)`: the decimal digits of `n`, without leading zeros. */
  function Digits(n: nat): (s: string)
    ensures AllDigits(s) && |s| >= 1
    ensures Value(s) == n
    ensures s[0] != '0' || s == "0"
  {
    if n < 10 then [DigitChar(n)]
    else
      var s := Digits(n / 10) + [DigitChar(n % 10)];
      ValueAppend(Digits(n / 10), DigitChar(n % 10));
      s
  }

  /** `s.find(c)`, except that a missing `c` gives `|s|`. */
  function IndexOf(s: string, c: char): (k: nat)
    ensures k <= |s|
    ensures k < |s| ==> s[k] == c
    ensures forall i :: 0 <= i < k ==> s[i] != c
  {
    if s == [] then 0
    else if s[0] == c then 0
    else 1 + IndexOf(s[1..], c)
  }

  /** A parsed decimal literal: its sign and its whole and fraction digits. */
  datatype Numeral = Numeral(negative: bool, whole: string, fraction: string)
  {
    predicate Valid()
    {
      AllDigits(whole) && AllDigits(fraction) && |whole| + |fraction| > 0
    }
  }

  /**
   * Reads a decimal literal with `.` as the separator; `None` when `s` is not
   * one. What an accepted text looks like is stated by `ParseShape`.
   */
  function Parse(s: string): (r: Option<Numeral>)
    ensures r.Some? ==> r.value.Valid()
  {
    if |s| > 0 && (s[0] == '-' || s[0] == '+') then ParseBody(s[1..], s[0] == '-')
    else ParseBody(s, false)
  }

  /** The literal after its sign: whole digits, then optionally a point and fraction digits. */
  function ParseBody(body: string, negative: bool): (r: Option<Numeral>)
    ensures r.Some? ==> r.value.Valid() && r.value.negative == negative && |body| > 0
  {
    var k := IndexOf(body, '.');
    var whole := body[..k];
    var fraction := if k < |body| then body[k + 1..] else [];
    if AllDigits(whole) && AllDigits(fraction) && |whole| + |fraction| > 0
    then Some(Numeral(negative, whole, fraction))
    else None
  }

  /** An accepted body is the whole digits alone, or the whole digits, a point and the fraction digits. */
  lemma ParseBodyShape(body: string, negative: bool)
    ensures var r := ParseBody(body, negative); r.Some? ==>
      || (r.value.fraction == [] && body == r.value.whole)
      || body == r.value.whole + "." + r.value.fraction
  {
    var k := IndexOf(body, '.');
    if k < |body| {
      assert body == body[..k] + "." + body[k + 1..];
    }
  }

  /**
   * An accepted text is an optional sign followed by the whole digits, or by
   * the whole digits, a point and the fraction digits; the literal is
   * negative exactly for a leading `-`.
   */
  lemma ParseShape(s: string)
    ensures var r := Parse(s); r.Some? ==> |s| > 0 && (r.value.negative <==> s[0] == '-')
    ensures var r := Parse(s); r.Some? ==>
      var body := if s[0] == '-' || s[0] == '+' then s[1..] else s;
      || (r.value.fraction == [] && body == r.value.whole)
      || body == r.value.whole + "." + r.value.fraction
  {
    if |s| > 0 && (s[0] == '-' || s[0] == '+') {
      ParseBodyShape(s[1..], s[0] == '-');
    } else {
      ParseBodyShape(s, false);
    }
  }

  /** The whole digits with leading zeros removed, and `"0"` when none are left. */
  function Canonical(whole: string): (r: string)
    requires AllDigits(whole)
    ensures AllDigits(r) && |r| >= 1
    ensures r[0] != '0' || r == "0"
    ensures Value(r) == Value(whole)
  {
    if whole == [] then "0"
    else if whole[0] == '0' then
      assert Value(whole) == Value(whole[1..]);
      Canonical(whole[1..])
    else whole
  }

  /** Fraction digits filled up to two places with zeros. */
  function PadTwo(fraction: string): (r: string)
    requires |fraction| <= 2
    ensures |r| == 2 && r[..|fraction|] == fraction
    ensures AllDigits(fraction) ==> AllDigits(r)
    decreases 2 - |fraction|
  {
    if |fraction| == 2 then fraction else PadTwo(fraction + "0")
  }

  /** The amount a literal with at most two fraction digits denotes, in hundredths. */
  function Hundredths(n: Numeral): int
    requires n.Valid() && |n.fraction| <= 2
  {
    var magnitude := Value(n.whole) * 100 + Value(PadTwo(n.fraction));
    if n.negative then -magnitude else magnitude
  }

  /**
   * `"%.2f"` applied to the literal: the sign (kept for a negative zero, as
   * Python does), the whole digits without leading zeros, a point and exactly
   * two fraction digits.
   */
  function FixedTwo(n: Numeral): (r: string)
    requires n.Valid() && |n.fraction| <= 2
    ensures |r| >= 4 && r[|r| - 3] == '.' && IsDigit(r[|r| - 2]) && IsDigit(r[|r| - 1])
  {
    var digits := Canonical(n.whole) + "." + PadTwo(n.fraction);
    if n.negative then "-" + digits else digits
  }

  /** The text of `FixedTwo(n)` reads back as the canonical literal. */
  lemma ParseFixedTwo(n: Numeral)
    requires n.Valid() && |n.fraction| <= 2
    ensures Parse(FixedTwo(n)) == Some(Numeral(n.negative, Canonical(n.whole), PadTwo(n.fraction)))
  {
    var w, f := Canonical(n.whole), PadTwo(n.fraction);
    var sign := if n.negative then "-" else "";
    assert FixedTwo(n) == sign + w + "." + f;
    ParseAccepts(sign, w, f);
  }

  /** The rendered balance is made of a sign, digits and one point only: it has no `,`. */
  lemma FixedTwoHasNoComma(n: Numeral)
    requires n.Valid() && |n.fraction| <= 2
    ensures ',' !in FixedTwo(n)
  {
    var w, f := Canonical(n.whole), PadTwo(n.fraction);
    assert forall i :: 0 <= i < |w| ==> w[i] != ',';
    assert forall i :: 0 <= i < |f| ==> f[i] != ',';
  }

  /** A literal `w.f` splits at its point into `w` and `f`. */
  lemma SplitAtPoint(w: string, f: string)
    requires AllDigits(w)
    ensures IndexOf(w + "." + f, '.') == |w|
    ensures (w + "." + f)[..|w|] == w && (w + "." + f)[|w| + 1..] == f
  {
    var body := w + "." + f;
    assert body[|w|] == '.';
    assert forall i :: 0 <= i < |w| ==> body[i] == w[i] && IsDigit(w[i]);
  }

  /**
   * Every literal with a point is accepted: an optional sign, whole digits, a
   * point and fraction digits, with at least one digit (`1.` and `.5` too).
   */
  lemma ParseAccepts(sign: string, w: string, f: string)
    requires sign == "" || sign == "+" || sign == "-"
    requires AllDigits(w) && AllDigits(f) && |w| + |f| > 0
    ensures Parse(sign + w + "." + f) == Some(Numeral(sign == "-", w, f))
  {
    var body := w + "." + f;
    SplitAtPoint(w, f);
    assert body[0] == '.' || IsDigit(body[0]);
    assert sign + w + "." + f == sign + body;
    ParseSigned(sign, body);
  }

  /** Every literal without a point is accepted: an optional sign and at least one whole digit (`007`, `+5`). */
  lemma ParseAcceptsWhole(sign: string, w: string)
    requires sign == "" || sign == "+" || sign == "-"
    requires AllDigits(w) && |w| > 0
    ensures Parse(sign + w) == Some(Numeral(sign == "-", w, []))
  {
    assert IsDigit(w[0]);
    assert IndexOf(w, '.') == |w|;
    assert w[..|w|] == w;
    ParseSigned(sign, w);
  }

  /** A sign in front of a body that does not start with one is read as that sign. */
  lemma ParseSigned(sign: string, body: string)
    requires sign == "" || sign == "+" || sign == "-"
    requires |body| > 0 && body[0] != '-' && body[0] != '+'
    ensures Parse(sign + body) == ParseBody(body, sign == "-")
  {
    if sign != "" {
      assert (sign + body)[1..] == body;
    } else {
      assert sign + body == body;
    }
  }

  /** Rendering keeps the amount: the stored text denotes the same number of hundredths. */
  lemma FixedTwoKeepsAmount(n: Numeral)
    requires n.Valid() && |n.fraction| <= 2
    ensures Parse(FixedTwo(n)).Some?
    ensures var m := Parse(FixedTwo(n)).value; |m.fraction| == 2 && Hundredths(m) == Hundredths(n)
  {
    ParseFixedTwo(n);
  }

  /** Rendering an already rendered literal gives the same text. */
  lemma FixedTwoIdempotent(n: Numeral)
    requires n.Valid() && |n.fraction| <= 2
    ensures Parse(FixedTwo(n)).Some?
    ensures FixedTwo(Parse(FixedTwo(n)).value) == FixedTwo(n)
  {
    ParseFixedTwo(n);
    CanonicalIdempotent(n.whole);
  }

  /** Removing leading zeros a second time removes nothing. */
  lemma CanonicalIdempotent(whole: string)
    requires AllDigits(whole)
    ensures Canonical(Canonical(whole)) == Canonical(whole)
  {
  }

  /** The digits of a natural number read back as that number. */
  lemma ParseDigits(n: nat)
    ensures Parse(Digits(n)) == Some(Numeral(false, Digits(n), []))
  {
    var s := Digits(n);
    assert IsDigit(s[0]);
    var k := IndexOf(s, '.');
    assert k == |s|;
    assert s[..k] == s;
  }
}
