# py-tenet `TenetAPI`, modelled in Dafny

`TenetAPI` is a client for the stats.tenet.ua subscriber portal. An object holds
the user's login and password hash and eight fields last read from the portal:
account id, account state, whether the account is switched on, balance
(saldo), tariff name, whether "Good Day" is active, bonus-traffic state and
remaining bonus traffic. `update()` POSTs to the account-state endpoint and then
to the bonus-check endpoint; `toggle_bonus()` POSTs to the bonus-switch endpoint
and, if the portal answers `OK`, re-reads the bonus state; any other switch reply
is ignored. Every reply is a flat XML document. For the account and bonus-check
replies, the `result` tag must be exactly `OK`; otherwise the client raises
`TenetServerError` with the stripped `error_desc`, or `"Unknown Error"`.

The package ships the class twice: `tenet/__init__.py` and the older
`tenet/api.py`. They differ in the constructor's credential check (a `raise`
against an `assert`) and in which transport failures `_request` converts.

Layout:

- `outcomes.dfy` (`Outcomes`): `Option` for Python's `None`, `Result` for a call that returns or raises.
- `text.dfy` (`Text`): the Python 2 string builtins the setters use: `upper`, `lower`, `strip`, `replace`. Python 2's ElementTree returns a text as a byte string when it is pure ASCII and as `unicode` otherwise. `strip()` therefore removes ASCII whitespace from the first and Unicode whitespace (no-break space and the like) from the second. Case mapping follows the Unicode tables, under which `ı` upper-cases to `I`, `ſ` to `S`, `İ` lower-cases to `i` and the Kelvin sign to `k`.
- `numeral.dfy` (`Numeral`): decimal literals, and the `"%.2f"` rendering of the balance.
- `wire.dfy` (`Wire`): a reply as a tag-to-text map, the transport outcome, the exception classes, and the result-discriminator check.
- `decode.dfy` (`Decode`): the decode rule of each property setter.
- `account.dfy` (`Account`): the eight fields as a value; the credential rules; what `_check_account`, `_check_bonus`, `update` and `toggle_bonus` do to the fields; and the properties of these operations.
- `tenet.dfy` (`Tenet`) and `legacy_api.dfy` (`LegacyApi`): the class of each source file. The fields are updated in place through one setter method per property. Each operation is proved to end in the state that the matching function of `Account` gives.

Inputs the model takes as parameters:

- The answer to each POST (`Wire.Transport`): a parsed reply, an HTTP status error, or a failed connection.
- The MD5 function, passed as `md5: string -> string`.
- For `tenet/api.py`, whether Python runs with assertions disabled (`optimized`, i.e. `python -O`).

Behaviour worth knowing, as written in the source:

- `error_desc` made only of whitespace is not empty. It therefore becomes the empty message after `strip`, not `"Unknown Error"` (`Wire.BlankDescriptionGivesEmptyMessage`).
- A negative zero balance renders as `-0.00`, as Python's `"%.2f"` of `-0.0` does.
- `tenet/api.py` calls `post` outside its `try`. A failed connection therefore escapes as the transport library's own exception, not as `TenetBadRequest`.

## Model

| member | source | states |
|---|---|---|
| Text.UpperEach | tenet/__init__.py:114 | `upper()` (`Text.Upper`) keeps the length and maps each character on its own: ASCII small letters, `ı` and `ſ` to their capitals, every other character kept |
| Text.LowerEach | tenet/__init__.py:98 | `lower()` (`Text.Lower`) keeps the length and maps each character on its own: ASCII capitals, `İ` and the Kelvin sign to small letters, every other character kept |
| Text.UpperIsWord | tenet/__init__.py:114 | for an upper-case ASCII word, `v.upper() == word` holds exactly when each character of `v` is that letter, its small form, or `ı`/`ſ` for `I`/`S` |
| Text.LowerIsWord | tenet/__init__.py:98-99 | for a lower-case ASCII word, `v.lower() == word` holds exactly when each character of `v` is that letter, its capital, or `İ`/Kelvin sign for `i`/`k` |
| Text.Replace | tenet/__init__.py:124 | `replace(',', '.')` keeps the length and replaces every occurrence and nothing else |
| Text.ReplaceIdempotent | tenet/api.py:104 | after the replacement no `,` is left, so replacing again changes nothing |
| Text.Strip | tenet/__init__.py:192 | `strip()` returns the slice after the leading whitespace; neither of its ends is whitespace, and only whitespace was removed on either side. Whitespace is ASCII whitespace for a pure-ASCII text and Unicode whitespace otherwise |
| Text.StripEmpty | tenet/api.py:172 | `strip()` gives the empty string exactly when the text is all whitespace |
| Text.StripPadded | tenet/__init__.py:192 | `strip()` of any whitespace, then a text that neither starts nor ends in whitespace, then whitespace, is that text |
| Text.StripIdempotent | tenet/__init__.py:192 | stripping a stripped message changes nothing, also when stripping left only ASCII |
| Numeral.Parse | tenet/__init__.py:124 | an accepted literal is well formed: whole and fraction digits, with at least one digit in all |
| Numeral.ParseShape | tenet/__init__.py:124 | an accepted literal is the text itself: an optional sign, then the whole digits alone or the whole digits, a point and the fraction digits; it is negative exactly for a leading `-` |
| Numeral.ParseBody | tenet/__init__.py:124 | after the sign, the text is split at its first point; an accepted literal is well formed, non-empty and keeps the sign it was given |
| Numeral.ParseBodyShape | tenet/__init__.py:124 | an accepted body is the whole digits alone, or the whole digits, a point and the fraction digits |
| Numeral.ParseAccepts | tenet/__init__.py:124 | every literal with a point (`[+-]w.f`, including `1.` and `.5`) is accepted with its own sign and digits |
| Numeral.ParseAcceptsWhole | tenet/__init__.py:168 | every literal without a point (`[+-]w`, including `007` and `+5`) is accepted with its own sign and digits |
| Numeral.FixedTwo | tenet/__init__.py:124 | the `"%.2f"` text ends in a point and exactly two digits |
| Numeral.ParseFixedTwo | tenet/__init__.py:124 | the `"%.2f"` text reads back as the same sign, the whole digits without leading zeros and the fraction padded to two digits |
| Numeral.FixedTwoKeepsAmount | tenet/__init__.py:124 | the `"%.2f"` text has exactly two fraction digits and denotes the same number of hundredths as the literal |
| Numeral.FixedTwoIdempotent | tenet/api.py:104 | rendering an already rendered balance gives the same text |
| Wire.IsOk | tenet/__init__.py:189-190 | definition: the reply passes the check when `findtext("./result")` is exactly `OK` (a missing tag is `None`); its consequences are stated by `Wire.CheckResult` |
| Wire.ServerErrorMessage | tenet/__init__.py:191-192 | the message has no ASCII whitespace at either end; it is `"Unknown Error"` when `error_desc` is absent or empty, and otherwise the stripped `error_desc`, trimmed by that text's kind of whitespace |
| Wire.CheckResult | tenet/api.py:186-191 | no error exactly when `result` is `OK`; otherwise a `TenetServerError` carrying that message |
| Wire.ServerErrorTrimsDescription | tenet/__init__.py:207-209 | a failed reply whose `error_desc` is a text with whitespace around it raises `TenetServerError` with that text alone |
| Wire.NoBreakSpaceIsStripped | tenet/__init__.py:191-192 | a description ending in a no-break space is `unicode` text, and the message drops that space |
| Wire.ServerErrorWithoutDescription | tenet/api.py:168-172 | a failed reply without `error_desc` raises `TenetServerError("Unknown Error")` |
| Wire.BlankDescriptionGivesEmptyMessage | tenet/api.py:169-172 | a non-empty `error_desc` made only of whitespace (of its own kind) gives the empty message |
| Wire.MissingResultFails | tenet/__init__.py:189-190 | a reply without `result` is a failure |
| Decode.AccountStateOf | tenet/__init__.py:96-104 | definition: the state for `value.lower()` being `n`, `l` or anything else; characterised by `Decode.AccountStateCodes` |
| Decode.AccountStateCodes | tenet/__init__.py:96-104 | Normal exactly for `n`/`N`, Locked exactly for `l`/`L`, Warning for every other string |
| Decode.IsOn | tenet/__init__.py:111-115 | definition: `value.upper() == "ON"`; characterised by `Decode.OnSpellings` |
| Decode.OnSpellings | tenet/__init__.py:111-115 | the account is enabled exactly for `ON`, `On`, `oN`, `on` |
| Decode.IsYes | tenet/__init__.py:140-144 | definition: `value.upper() == "YES"`; characterised by `Decode.YesIgnoresCase` |
| Decode.YesIgnoresCase | tenet/__init__.py:140-144 | Good Day is on exactly when each letter upper-cases to `YES`: any mix of cases, and `ſ` for `S` (`yeſ` counts); `""` and `no` give false |
| Decode.BonusCode | tenet/__init__.py:151-158 | definition: the state for `value.upper()` being `ON`, `OFF` or `END`, and none otherwise; characterised by `Decode.BonusCodes` |
| Decode.BonusCodes | tenet/__init__.py:151-158 | Enabled, Disabled and Ended are recognised exactly for case-insensitive `ON`, `OFF` and `END` |
| Decode.NextBonusState | tenet/api.py:128-135 | a recognised code replaces the bonus state; any other text leaves the previous state |
| Decode.NextBonusStateIdempotent | tenet/__init__.py:151-158 | setting the same bonus text twice is setting it once |
| Decode.Normalized | tenet/__init__.py:124 | the normalised balance text contains no `,` |
| Decode.Saldo | tenet/__init__.py:122-124 | definition: `"%.2f"` of the literal with `,` read as `.`; its properties are `Decode.SaldoKeepsAmount`, `Decode.SaldoIdempotent` and `Decode.SaldoSeparatorInsensitive` |
| Decode.SaldoSeparatorInsensitive | tenet/api.py:102-104 | a balance sent with `,` is stored exactly as the same balance sent with `.` |
| Decode.SaldoKeepsAmount | tenet/__init__.py:122-124 | the stored balance has two fraction digits and denotes the amount the portal sent, in hundredths |
| Decode.SaldoIdempotent | tenet/api.py:102-104 | a stored balance, sent again, is stored unchanged |
| Decode.SaldoExample | tenet/__init__.py:124 | `"1234,56"` and `"1234.56"` are both stored as `"1234.56"` |
| Decode.RestBytes | tenet/__init__.py:165-169 | definition: the signed whole megabytes times 1024 * 1024; its properties are `Decode.RestOfMegabytes` and `Decode.RestSeparatorInsensitive` |
| Decode.RestOfMegabytes | tenet/__init__.py:165-169 | a remainder of `n` megabytes is stored as `n * 1024 * 1024` bytes |
| Decode.RestSeparatorInsensitive | tenet/api.py:141-145 | a remainder sent with `,` is stored as the same remainder sent with `.` |
| Decode.RestExample | tenet/api.py:144 | `"2"` megabytes are stored as 2097152 bytes |
| Account.HasCredentials | tenet/__init__.py:47-48 | definition: some key set of `all_opts` is contained in the keyword arguments; characterised by `Account.HasCredentialsIff` |
| Account.HasCredentialsIff | tenet/__init__.py:47-48 | the `all_opts` check passes exactly for `username` together with `passcode` or `md5passcode` |
| Account.ResolveLogin | tenet/__init__.py:72-75 | a non-empty `md5passcode` is kept unchanged; otherwise the credential is `md5(passcode)`; with neither, hashing `None` raises `TypeError` |
| Account.ResolveLoginAfterCheck | tenet/api.py:56-59 | once the check passed, resolving fails only for an empty hash given without a password, and the username is kept |
| Account.WithAccount | tenet/__init__.py:194-199 | definition: the six account fields set from their tags in source order; characterised by `Account.AccountCheckDecodes` |
| Account.WithBonus | tenet/__init__.py:211-212 | definition: the bonus state advanced by the code and the remainder set; characterised by `Account.BonusCheckDecodes` |
| Account.AfterAccountCheck | tenet/__init__.py:184-199 | definition: `_check_account` on values; characterised by `Account.AccountCheckRaisesIffNotOk` and `Account.AccountCheckDecodes` |
| Account.AfterBonusCheck | tenet/__init__.py:201-212 | definition: `_check_bonus` on values; characterised by `Account.BonusCheckRaisesIffNotOk` and `Account.BonusCheckDecodes` |
| Account.AfterUpdate | tenet/__init__.py:214-217 | definition: the account check, then the bonus check if the first returned; characterised by the `Account.Update*` lemmas |
| Account.AfterToggle | tenet/__init__.py:219-228 | definition: `toggle_bonus` on values; characterised by `Account.ToggleIgnoresRefusal` and `Account.ToggleRefreshesBonus` |
| Account.AccountCheckRaisesIffNotOk | tenet/__init__.py:184-192 | the account check raises exactly on a transport error or a non-`OK` result, with that error or the server error, and then writes no field; it never writes a bonus field |
| Account.AccountCheckDecodes | tenet/api.py:174-179 | an `OK` account reply sets id, state, enabled, saldo, service name and Good Day each from its own tag, and leaves the bonus fields |
| Account.BonusCheckRaisesIffNotOk | tenet/api.py:181-191 | the bonus check raises exactly on a transport error or a non-`OK` result, then writes nothing; it never writes an account field |
| Account.BonusCheckDecodes | tenet/__init__.py:211-212 | an `OK` bonus reply sets the remainder, and sets the state only for a recognised code |
| Account.UpdateStopsAtAccountFailure | tenet/__init__.py:214-217 | when the account check raises, `update` raises the same, leaves every field, and its outcome does not depend on the bonus reply |
| Account.UpdateKeepsAccountOnBonusFailure | tenet/api.py:196-198 | when only the bonus check raises, the account fields already written stay written |
| Account.UpdatePopulates | tenet/__init__.py:184-217 | `update` returns exactly when both replies are `OK`; then the fields are exactly those decoded from the account reply and then the bonus reply, so state, enabled, saldo, Good Day and remainder are set, and the bonus state is set unless both the old state and the code are missing |
| Account.UpdateOverwrites | tenet/api.py:162-198 | two objects given the same successful replies agree on every field, except a bonus state that an unrecognised code left unchanged |
| Account.UpdateIdempotent | tenet/__init__.py:214-217 | refreshing twice with the same replies ends as refreshing once |
| Account.ChecksIndependent | tenet/__init__.py:194-212 | no field is computed from another: the account writes and the bonus writes commute |
| Account.ToggleIgnoresRefusal | tenet/__init__.py:224-228 | a switch reply that is not `OK` returns without error and writes no field |
| Account.ToggleRefreshesBonus | tenet/api.py:200-208 | an `OK` switch reply is followed by exactly the bonus check, a transport error raises, and no account field is ever written |
| Account.RefusedToggleThenCheck | tenet/__init__.py:219-228 | after an ignored toggle, the next bonus check leaves exactly what it would have left without the toggle |
| Tenet.Credentials | tenet/__init__.py:47-75 | construction raises `TenetBaseException(usage)` exactly when `username` or both password keys are missing; the only other failure is `TypeError`; on success the username is the one given |
| Tenet.Request | tenet/__init__.py:171-182 | a delivered reply is returned; every transport failure raises `TenetBadRequest` with its text, which `except TenetBaseException` catches |
| Tenet.TenetApi.constructor | tenet/__init__.py:55-75 | a new object has all eight derived fields `None` and keeps the resolved username and passcode |
| Tenet.TenetApi.Create | tenet/__init__.py:34-80 | construction fails exactly as `Credentials` says; otherwise it yields a fresh object with every derived field `None` and the resolved credentials |
| Tenet.TenetApi.SetAccountId | tenet/__init__.py:87-89 | stores the value as given, `None` included |
| Tenet.TenetApi.SetAccountState | tenet/__init__.py:96-104 | stores the decoded account state |
| Tenet.TenetApi.SetAccountEnabled | tenet/__init__.py:111-115 | stores whether the text is `ON` up to case |
| Tenet.TenetApi.SetSaldo | tenet/__init__.py:122-124 | stores the two-decimal balance |
| Tenet.TenetApi.SetServiceName | tenet/__init__.py:131-133 | stores the value as given, `None` included |
| Tenet.TenetApi.SetGoodDay | tenet/__init__.py:140-144 | stores whether the text is `YES` up to case |
| Tenet.TenetApi.SetBonusState | tenet/__init__.py:151-158 | stores the next bonus state, keeping the old one for an unknown code |
| Tenet.TenetApi.SetBonusRest | tenet/__init__.py:165-169 | stores the remainder in bytes |
| Tenet.TenetApi.CheckAccount | tenet/__init__.py:184-199 | ends in the status and fields of `Account.AfterAccountCheck`, and may write only the six account fields |
| Tenet.TenetApi.StoreAccount | tenet/__init__.py:194-199 | the six setter calls leave the fields of `Account.WithAccount`: each account field decoded from its own tag, the bonus fields untouched |
| Tenet.TenetApi.StoreStatus | tenet/__init__.py:194-196 | the account number, state and switch are set from `LS`, `lsstate` and `usrstate`; every other field is unchanged |
| Tenet.TenetApi.StoreBalance | tenet/__init__.py:197-199 | the balance, service name and good-day flag are set from `saldo`, `evpkt` and `good_day`; every other field is unchanged |
| Tenet.TenetApi.CheckBonus | tenet/__init__.py:201-212 | ends in the status and fields of `Account.AfterBonusCheck`, and may write only the two bonus fields |
| Tenet.TenetApi.Update | tenet/__init__.py:214-217 | ends in the status and fields of `Account.AfterUpdate` |
| Tenet.TenetApi.ToggleBonus | tenet/__init__.py:219-228 | ends in the status and fields of `Account.AfterToggle`, and may write only the two bonus fields |
| LegacyApi.Credentials | tenet/api.py:32-37 | with assertions on, construction raises `AssertionError(TenetBaseException(usage))` exactly when credentials are missing; no construction error is ever a `TenetBaseException`; with assertions off the check is skipped |
| LegacyApi.OptimizedSkipsCheck | tenet/api.py:34-37 | under `python -O` a hash alone builds an object with no username, where tenet/__init__.py raises |
| LegacyApi.RejectionIsNotTenetException | tenet/api.py:34-37 | with assertions on, rejected credentials raise an error that `except TenetBaseException` does not catch |
| LegacyApi.Request | tenet/api.py:147-160 | a delivered reply is returned; an HTTP status error raises `TenetBadRequest`; a failed connection escapes as the transport library's exception |
| LegacyApi.RequestAgreesExceptConnection | tenet/api.py:154-158 | apart from failed connections, both versions of `_request` agree |
| LegacyApi.TenetApi.constructor | tenet/api.py:39-59 | a new object has all eight derived fields `None` and keeps the resolved username and passcode |
| LegacyApi.TenetApi.Create | tenet/api.py:31-64 | construction fails exactly as `LegacyApi.Credentials` says; otherwise it yields a fresh object with every derived field `None` |
| LegacyApi.TenetApi.SetAccountId | tenet/api.py:70-72 | stores the value as given |
| LegacyApi.TenetApi.SetAccountState | tenet/api.py:78-86 | stores the decoded account state |
| LegacyApi.TenetApi.SetAccountEnabled | tenet/api.py:93-96 | stores whether the text is `ON` up to case |
| LegacyApi.TenetApi.SetSaldo | tenet/api.py:102-104 | stores the two-decimal balance |
| LegacyApi.TenetApi.SetServiceName | tenet/api.py:110-112 | stores the value as given |
| LegacyApi.TenetApi.SetGoodDay | tenet/api.py:119-122 | stores whether the text is `YES` up to case |
| LegacyApi.TenetApi.SetBonusState | tenet/api.py:128-135 | stores the next bonus state, keeping the old one for an unknown code |
| LegacyApi.TenetApi.SetBonusRest | tenet/api.py:141-145 | stores the remainder in bytes |
| LegacyApi.TenetApi.CheckAccount | tenet/api.py:162-179 | ends in the status and fields of `Account.AfterAccountCheck`, and may write only the six account fields |
| LegacyApi.TenetApi.StoreAccount | tenet/api.py:174-179 | the six setter calls leave the fields of `Account.WithAccount` |
| LegacyApi.TenetApi.StoreStatus | tenet/api.py:174-176 | the account number, state and switch are set from `LS`, `lsstate` and `usrstate`; every other field is unchanged |
| LegacyApi.TenetApi.StoreBalance | tenet/api.py:177-179 | the balance, service name and good-day flag are set from `saldo`, `evpkt` and `good_day`; every other field is unchanged |
| LegacyApi.TenetApi.CheckBonus | tenet/api.py:181-194 | ends in the status and fields of `Account.AfterBonusCheck`, and may write only the two bonus fields |
| LegacyApi.TenetApi.Update | tenet/api.py:196-198 | ends in the status and fields of `Account.AfterUpdate` |
| LegacyApi.TenetApi.ToggleBonus | tenet/api.py:200-208 | ends in the status and fields of `Account.AfterToggle`, and may write only the two bonus fields |

## Left out

- HTTP transport is not modelled: the `requests.Session`, the `User-Agent` header, the form payload (`login`, `md5pass`, the `time.time()` stamp) and the 5-second timeout. Each POST's outcome is an input (`Wire.Transport`).
- XML parsing (`ElementTree.fromstring`) is a library call. A reply is the map from direct-child tag to text, read through `Wire.Find` (`findtext`). A malformed body, which raises `ParseError`, is not modelled, and neither is a reply that repeats a tag: `findtext` returns the first such element, and a map holds one text per tag.
- MD5 hashing (`password_to_hash`, tenet/utils.py) is a foreign call. It is the parameter `md5`.
- `sizeof_fmt` (tenet/utils.py) is float formatting, outside the client object.
- tenet/exceptions.py is a class hierarchy. It appears as constructors of `Wire.Error`, with `Wire.IsTenetException` for `except TenetBaseException`.
- Keyword-argument values other than strings (an explicit `None`, say) are not modelled.
- Text.Upper: exact for byte strings, which are ASCII. For `unicode` text it maps only the characters whose upper case is ASCII (`ı`, `ſ`) and keeps every other non-ASCII character, whereas Python also maps letters such as `é` to `É`. The model only compares the result with ASCII words, and no other character upper-cases to an ASCII letter, so those comparisons agree with Python.
- Text.Lower: the same for lower case. Only `İ` and the Kelvin sign are mapped beyond ASCII.
- Text.Strip: Unicode whitespace is the table of Python 2.7 (Unicode 5.2, where U+180E is a space). A Python built on other tables is not modelled.
- Decode.Saldo: covers literals `[+-]w[.f]` (whole digits `w`, fraction digits `f`, at least one digit in all, so `.5` and `1.` are included) with at most two fraction digits and a whole part below 10^13. `"%.2f" % Decimal(...)` goes through the nearest double, and below that bound it is close enough that rounding it to two places gives the literal back. Other `Decimal` syntax is excluded by `SaldoInModel`: whitespace, exponents, `Infinity`/`NaN`, longer fractions, and non-ASCII digits that `Decimal` accepts in `unicode` text. Text that `Decimal` rejects, which raises, is excluded too.
- Decode.RestBytes: covers whole megabytes only (fraction digits all zero, below 2^33, a conservative bound: multiplying by 2^20 stays exact up to 2^53 megabytes). The stored value is the integer number of bytes; Python stores it as a float. Fractional megabytes are not modelled, because Python rounds them to a binary double. Other `float` syntax is excluded by `RestInModel`: whitespace, exponents, `inf`/`nan`, and non-ASCII digits that `float` accepts in `unicode` text. Text that `float` rejects, which raises `ValueError`, is excluded too.
- Tenet.TenetApi.CheckAccount: requires an `OK` reply to carry `lsstate`, `usrstate`, `saldo` and `good_day`. Without one, Python crashes with `AttributeError` partway through the setters, after `account_id` has been written.
- LegacyApi.TenetApi.CheckAccount: the same requirement as `Tenet.TenetApi.CheckAccount`.
- Tenet.TenetApi.CheckBonus: requires an `OK` reply to carry `bonus` and `rest`. A missing `bonus` crashes in `upper()`; a missing `rest` crashes in `float("None")`.
- LegacyApi.TenetApi.CheckBonus: the same requirement as `Tenet.TenetApi.CheckBonus`.
- Tenet.TenetApi.Update: also requires the bonus reply to be in the model when the account check raises and the bonus request is never made.
- LegacyApi.TenetApi.Update: the same as `Tenet.TenetApi.Update`.
- Tenet.TenetApi.ToggleBonus: requires the bonus reply to be in the model even when the switch reply is refused.
- LegacyApi.TenetApi.ToggleBonus: the same as `Tenet.TenetApi.ToggleBonus`.
- The property getters are not separate members: `TenetApi.Snapshot()` reads all eight fields at once.

## Findings

| source | as written | input that shows it | evidently intended | confidence | as-written member | corrected member |
|---|---|---|---|---|---|---|
| tenet/api.py:34-37 | the credential check is an `assert` with the exception object as its message. `python -O` removes it; otherwise it raises `AssertionError`, not `TenetBaseException` | under `python -O`, `TenetAPI(md5passcode='h')` builds an object with no username | raise `TenetBaseException` with the usage text, as tenet/__init__.py:49-53 does | not executed | LegacyApi.OptimizedSkipsCheck | Tenet.Credentials |
