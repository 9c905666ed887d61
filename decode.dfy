/**
 * The decode rules of the `TenetAPI` property setters: each maps the terse
 * code the portal sends for one field to the value the client stores.
 * tenet/__init__.py and tenet/api.py apply the same rules.
 */
module Decode {
  import opened Outcomes
  import opened Text
  import opened Numeral

  /** `ACC_STATE_NORMAL`, `ACC_STATE_LOCKED`, `ACC_STATE_WARNING`. */
  datatype AccountState = Normal | Locked | Warning

  /** `BONUS_ENABLED`, `BONUS_DISABLED`, `BONUS_ENDED`. */
  datatype BonusState = Enabled | Disabled | Ended

  /** `account_state` setter: lower-cased `n` is Normal, `l` is Locked, anything else Warning. */
  function AccountStateOf(code: string): AccountState
  {
    var c := Lower(code);
    if c == "n" then Normal else if c == "l" then Locked else Warning
  }

  /** The account-state decoding is total, and each state has exactly these codes. */
  lemma AccountStateCodes(code: string)
    ensures AccountStateOf(code) == Normal <==> code == "n" || code == "N"
    ensures AccountStateOf(code) == Locked <==> code == "l" || code == "L"
    ensures AccountStateOf(code) == Warning <==> code !in {"n", "N", "l", "L"}
  {
    LowerIsWord(code, "n");
    LowerIsWord(code, "l");
    OneLetterCodes(code, 'n');
    OneLetterCodes(code, 'l');
  }

  /** A one-letter code matches a lower-case letter exactly in its two cases. */
  lemma OneLetterCodes(code: string, letter: char)
    requires IsLower(letter) && letter != 'i' && letter != 'k'
    ensures LowerMatches(code, [letter]) <==> code == [letter] || code == [UpperChar(letter)]
  {
    if LowerMatches(code, [letter]) {
      assert code == [code[0]];
    }
  }

  /** `account_enabled` setter: the switch is on exactly when the text upper-cases to `ON`. */
  function IsOn(value: string): bool
  {
    Upper(value) == "ON"
  }

  /** `good_day` setter: the service is active exactly when the text upper-cases to `YES`. */
  function IsYes(value: string): bool
  {
    Upper(value) == "YES"
  }

  /** The account is enabled for the four spellings of `on`, and for nothing else. */
  lemma OnSpellings(value: string)
    ensures IsOn(value) <==> value in {"ON", "On", "oN", "on"}
  {
    UpperIsWord(value, "ON");
    if IsOn(value) {
      assert value == [value[0], value[1]];
    }
  }

  /**
   * Good Day is active exactly when each letter upper-cases to `YES`: any
   * mix of cases, and also `ſ` (long s) for `S`; the empty text is not one.
   */
  lemma YesIgnoresCase(value: string)
    ensures IsYes(value) <==> UpperMatches(value, "YES")
    ensures IsYes("yes") && IsYes("Yes") && IsYes("ye\U{017F}") && !IsYes("") && !IsYes("no")
  {
    UpperIsWord(value, "YES");
    UpperIsWord("yes", "YES");
    UpperIsWord("Yes", "YES");
    UpperIsWord("ye\U{017F}", "YES");
    UpperIsWord("no", "YES");
  }

  /** The bonus code the `bonus_state` setter recognises, if any. */
  function BonusCode(value: string): Option<BonusState>
  {
    var v := Upper(value);
    if v == "ON" then Some(Enabled)
    else if v == "OFF" then Some(Disabled)
    else if v == "END" then Some(Ended)
    else None
  }

  /** `bonus_state` setter: a recognised code replaces the state, any other text leaves it. */
  function NextBonusState(current: Option<BonusState>, value: string): (next: Option<BonusState>)
    ensures BonusCode(value).None? ==> next == current
    ensures BonusCode(value).Some? ==> next == BonusCode(value)
  {
    match BonusCode(value)
    case Some(s) => Some(s)
    case None => current
  }

  /** Each bonus state has one code, matched when each letter upper-cases to it; all other text is unrecognised. */
  lemma BonusCodes(value: string)
    ensures BonusCode(value) == Some(Enabled) <==> UpperMatches(value, "ON")
    ensures BonusCode(value) == Some(Disabled) <==> UpperMatches(value, "OFF")
    ensures BonusCode(value) == Some(Ended) <==> UpperMatches(value, "END")
  {
    UpperIsWord(value, "ON");
    UpperIsWord(value, "OFF");
    UpperIsWord(value, "END");
  }

  /** Setting the same bonus text twice is setting it once. */
  lemma NextBonusStateIdempotent(current: Option<BonusState>, value: string)
    ensures NextBonusState(NextBonusState(current, value), value) == NextBonusState(current, value)
  {
  }

  /** The text with `,` replaced by `.`, as `value.replace(',', '.')`. */
  function Normalized(value: string): (r: string)
    ensures ',' !in r
  {
    ReplaceIdempotent(value, ',', '.');
    Replace(value, ',', '.')
  }

  /**
   * Whole parts below 10^13: `"%.2f" % Decimal(...)` goes through a binary
   * double, which lies within 2^-9 of such a literal, so rounding to two
   * places gives the literal back.
   */
  const MaxExactWhole: nat := 10000000000000

  /** The balances the model covers: a literal with at most two fraction digits. */
  predicate SaldoInModel(value: string)
  {
    var p := Parse(Normalized(value));
    p.Some? && |p.value.fraction| <= 2 && Value(p.value.whole) < MaxExactWhole
  }

  /** `saldo` setter: `"%.2f" % Decimal(value.replace(',', '.'))`. */
  function Saldo(value: string): string
    requires SaldoInModel(value)
  {
    FixedTwo(Parse(Normalized(value)).value)
  }

  /** Comma and point are the same separator for the balance. */
  lemma SaldoSeparatorInsensitive(value: string)
    ensures Normalized(Normalized(value)) == Normalized(value)
    ensures SaldoInModel(value) ==> SaldoInModel(Normalized(value)) && Saldo(Normalized(value)) == Saldo(value)
  {
    ReplaceIdempotent(value, ',', '.');
  }

  /** The stored balance has two fraction digits and denotes the amount that was sent. */
  lemma SaldoKeepsAmount(value: string)
    requires SaldoInModel(value)
    ensures Parse(Saldo(value)).Some?
    ensures var stored := Parse(Saldo(value)).value;
      |stored.fraction| == 2 && Hundredths(stored) == Hundredths(Parse(Normalized(value)).value)
  {
    FixedTwoKeepsAmount(Parse(Normalized(value)).value);
  }

  /** A stored balance, sent back again, is stored unchanged. */
  lemma SaldoIdempotent(value: string)
    requires SaldoInModel(value)
    ensures SaldoInModel(Saldo(value)) && Saldo(Saldo(value)) == Saldo(value)
  {
    var n := Parse(Normalized(value)).value;
    var s := Saldo(value);
    ParseFixedTwo(n);
    FixedTwoIdempotent(n);
    FixedTwoHasNoComma(n);
    ReplaceAbsent(s, ',', '.');
  }

  /** Both separators give the same stored balance. */
  lemma SaldoExample()
    ensures SaldoInModel("1234,56") && Saldo("1234,56") == "1234.56"
    ensures SaldoInModel("1234.56") && Saldo("1234.56") == "1234.56"
  {
    NormalizedExample();
    ParseExample();
    BoundExample();
    RenderExample();
  }

  lemma NormalizedExample()
    ensures Normalized("1234,56") == "1234.56" && Normalized("1234.56") == "1234.56"
  {
    ReplaceAbsent("1234.56", ',', '.');
  }

  lemma ParseExample()
    ensures Parse("1234.56") == Some(Numeral(false, "1234", "56"))
  {
    var s := "1234.56";
    assert s == "" + "1234" + "." + "56";
    ParseAccepts("", "1234", "56");
    assert "1234" + "." + "56" == "1234.56";
  }

  lemma BoundExample()
    ensures Value("1234") < MaxExactWhole
  {
    assert Pow10(4) == 10000;
  }

  lemma RenderExample()
    ensures FixedTwo(Numeral(false, "1234", "56")) == "1234.56"
  {
    assert Canonical("1234") == "1234" && PadTwo("56") == "56";
  }

  const BytesPerMegabyte: nat := 1024 * 1024

  /** Whole megabytes below 2^33: as a double they and their byte count are exact. */
  const MaxExactMegabytes: nat := 8589934592

  predicate AllZeros(s: string)
  {
    forall i :: 0 <= i < |s| ==> s[i] == '0'
  }

  /** The bonus remainders the model covers: a whole number of megabytes. */
  predicate RestInModel(value: string)
  {
    var p := Parse(Normalized(value));
    p.Some? && AllZeros(p.value.fraction) && Value(p.value.whole) < MaxExactMegabytes
  }

  /** The signed whole number a literal denotes. */
  function WholeValue(n: Numeral): int
    requires n.Valid()
  {
    var v: int := Value(n.whole);
    if n.negative then -v else v
  }

  /** `bonus_rest` setter: megabytes, with either separator, times 1024 * 1024. */
  function RestBytes(value: string): int
    requires RestInModel(value)
  {
    WholeValue(Parse(Normalized(value)).value) * BytesPerMegabyte
  }

  /** Sending a number of megabytes stores that many mebibytes in bytes. */
  lemma RestOfMegabytes(n: nat)
    requires n < MaxExactMegabytes
    ensures RestInModel(Digits(n)) && RestBytes(Digits(n)) == n * BytesPerMegabyte
  {
    var s := Digits(n);
    assert ',' !in s by {
      forall i | 0 <= i < |s| ensures s[i] != ',' { assert IsDigit(s[i]); }
    }
    ReplaceAbsent(s, ',', '.');
    ParseDigits(n);
  }

  /** Comma and point are the same separator for the remainder. */
  lemma RestSeparatorInsensitive(value: string)
    requires RestInModel(value)
    ensures RestInModel(Normalized(value)) && RestBytes(Normalized(value)) == RestBytes(value)
  {
    ReplaceIdempotent(value, ',', '.');
  }

  /** Two megabytes are 2 * 1024 * 1024 bytes. */
  lemma RestExample()
    ensures RestInModel("2") && RestBytes("2") == 2097152
  {
    RestOfMegabytes(2);
    assert Digits(2) == "2";
  }
}
