/**
 * The older `TenetAPI` client of tenet/api.py. Its fields, setters, checks,
 * `update` and `toggle_bonus` are those of tenet/__init__.py; it differs in
 * two places: the credential check is an `assert`, and `_request` converts
 * only HTTP status errors, so a failed connection escapes as the transport
 * library's own exception.
 */
module LegacyApi {
  import opened Outcomes
  import opened Text
  import opened Wire
  import opened Decode
  import opened Account
  import Tenet

  /**
   * The constructor's credential handling. `assert is_ok, TenetBaseException(...)`
   * raises `AssertionError` whose argument is the exception object; when
   * Python runs with assertions disabled (`optimized`) the check does not run
   * at all.
   */
  function Credentials(kwargs: map<string, string>, md5: string -> string, optimized: bool): (r: Result<Login, Error>)
    ensures !optimized ==>
      (r == Failure(AssertionError(TenetBaseException(Usage))) <==>
        !("username" in kwargs && ("passcode" in kwargs || "md5passcode" in kwargs)))
    ensures r.Failure? ==> !IsTenetException(r.error)
    ensures optimized ==> r == ResolveLogin(kwargs, md5)
  {
    HasCredentialsIff(kwargs);
    if !optimized && !HasCredentials(kwargs) then Failure(AssertionError(TenetBaseException(Usage)))
    else ResolveLogin(kwargs, md5)
  }

  /**
   * With assertions disabled, a hash alone is accepted: the object is built
   * with no username, where tenet/__init__.py raises `TenetBaseException`.
   */
  lemma OptimizedSkipsCheck(md5: string -> string)
    ensures Credentials(map["md5passcode" := "h"], md5, true) == Success(Login(None, "h"))
    ensures Tenet.Credentials(map["md5passcode" := "h"], md5) == Failure(TenetBaseException(Usage))
  {
    var kwargs := map["md5passcode" := "h"];
    assert "username" !in kwargs;
    HasCredentialsIff(kwargs);
  }

  /**
   * Even with assertions enabled, the rejection is an `AssertionError`: a
   * caller's `except TenetBaseException` does not catch it.
   */
  lemma RejectionIsNotTenetException(kwargs: map<string, string>, md5: string -> string)
    requires !HasCredentials(kwargs)
    ensures Credentials(kwargs, md5, false).Failure?
    ensures !IsTenetException(Credentials(kwargs, md5, false).error)
  {
  }

  /**
   * `_request`: `raise_for_status` errors become `TenetBadRequest`; a failure
   * of the POST itself is outside the `try` and propagates unconverted.
   */
  function Request(t: Transport): (r: Result<Reply, Error>)
    ensures t.Delivered? <==> r.Success?
    ensures t.Delivered? ==> r.value == t.doc
    ensures t.HttpStatusError? ==> r.error == TenetBadRequest(t.message)
    ensures t.ConnectionFailure? ==> r.error == RequestException(t.message) && !IsTenetException(r.error)
  {
    match t
    case Delivered(doc) => Success(doc)
    case HttpStatusError(m) => Failure(TenetBadRequest(m))
    case ConnectionFailure(m) => Failure(RequestException(m))
  }

  /** On every delivered reply and every HTTP status error, both clients' `_request` agree. */
  lemma RequestAgreesExceptConnection(t: Transport)
    requires !t.ConnectionFailure?
    ensures Request(t) == Tenet.Request(t)
  {
  }

  class TenetApi {
    var accountId: Option<string>
    var accountState: Option<AccountState>
    var accountEnabled: Option<bool>
    var saldo: Option<string>
    var serviceName: Option<string>
    var goodDay: Option<bool>
    var bonusState: Option<BonusState>
    var bonusRest: Option<int>

    const username: Option<string>
    const passcode: string

    /** The eight property getters read together. */
    function Snapshot(): Fields
      reads this
    {
      Fields(accountId, accountState, accountEnabled, saldo, serviceName, goodDay, bonusState, bonusRest)
    }

    /** The object `__init__` builds once the credentials are resolved: every derived field is `None`. */
    constructor (login: Login)
      ensures Snapshot() == Unset
      ensures username == login.username && passcode == login.passcode
    {
      accountId, accountState, accountEnabled, saldo := None, None, None, None;
      serviceName, goodDay, bonusState, bonusRest := None, None, None, None;
      username := login.username;
      passcode := login.passcode;
    }

    /** `TenetAPI(**kwargs)`: the asserted credential check, then the object. */
    static method Create(kwargs: map<string, string>, md5: string -> string, optimized: bool) returns (r: Result<TenetApi, Error>)
      ensures r.Failure? ==> Credentials(kwargs, md5, optimized) == Failure(r.error)
      ensures r.Success? ==> Credentials(kwargs, md5, optimized) == Success(Login(r.value.username, r.value.passcode))
      ensures r.Success? ==> fresh(r.value) && r.value.Snapshot() == Unset
    {
      if !optimized && !HasCredentials(kwargs) {
        return Failure(AssertionError(TenetBaseException(Usage)));
      }
      var login := ResolveLogin(kwargs, md5);
      if login.Failure? {
        return Failure(login.error);
      }
      var api := new TenetApi(login.value);
      return Success(api);
    }

    method SetAccountId(value: Option<string>)
      modifies this`accountId
      ensures accountId == value
    {
      accountId := value;
    }

    method SetAccountState(value: string)
      modifies this`accountState
      ensures accountState == Some(AccountStateOf(value))
    {
      var code := Lower(value);
      if code == "n" {
        accountState := Some(Normal);
      } else if code == "l" {
        accountState := Some(Locked);
      } else {
        accountState := Some(Warning);
      }
    }

    method SetAccountEnabled(value: string)
      modifies this`accountEnabled
      ensures accountEnabled == Some(IsOn(value))
    {
      accountEnabled := Some(false);
      if Upper(value) == "ON" {
        accountEnabled := Some(true);
      }
    }

    method SetSaldo(value: string)
      requires SaldoInModel(value)
      modifies this`saldo
      ensures saldo == Some(Saldo(value))
    {
      saldo := Some(Saldo(value));
    }

    method SetServiceName(value: Option<string>)
      modifies this`serviceName
      ensures serviceName == value
    {
      serviceName := value;
    }

    method SetGoodDay(value: string)
      modifies this`goodDay
      ensures goodDay == Some(IsYes(value))
    {
      goodDay := Some(false);
      if Upper(value) == "YES" {
        goodDay := Some(true);
      }
    }

    method SetBonusState(value: string)
      modifies this`bonusState
      ensures bonusState == NextBonusState(old(bonusState), value)
    {
      var code := Upper(value);
      if code == "ON" {
        bonusState := Some(Enabled);
      } else if code == "OFF" {
        bonusState := Some(Disabled);
      } else if code == "END" {
        bonusState := Some(Ended);
      }
    }

    method SetBonusRest(value: string)
      requires RestInModel(value)
      modifies this`bonusRest
      ensures bonusRest == Some(RestBytes(value))
    {
      bonusRest := Some(RestBytes(value));
    }

    /** `_check_account`: fetch, check the discriminator, then the six account setters. */
    method CheckAccount(t: Transport) returns (status: Status)
      requires AccountReplyInModel(Request(t))
      modifies this`accountId, this`accountState, this`accountEnabled, this`saldo, this`serviceName, this`goodDay
      ensures Step(status, Snapshot()) == AfterAccountCheck(old(Snapshot()), Request(t))
    {
      var body := Request(t);
      if body.Failure? {
        return Raised(body.error);
      }
      var doc := body.value;
      var failure := CheckResult(doc);
      if failure.Some? {
        return Raised(failure.value);
      }
      StoreAccount(doc);
      return Returned;
    }

    /** The six setter calls of `_check_account`, on a reply that passed the check. */
    method StoreAccount(doc: Reply)
      requires AccountReplyInModel(Success(doc)) && IsOk(doc)
      modifies this`accountId, this`accountState, this`accountEnabled, this`saldo, this`serviceName, this`goodDay
      ensures Snapshot() == WithAccount(old(Snapshot()), doc)
    {
      StoreStatus(doc);
      StoreBalance(doc);
    }

    /** The first three setter calls of `_check_account`: account number, state and switch. */
    method StoreStatus(doc: Reply)
      requires "lsstate" in doc && "usrstate" in doc
      modifies this`accountId, this`accountState, this`accountEnabled
      ensures Snapshot() == old(Snapshot()).(accountId := Find(doc, "LS"),
        accountState := Some(AccountStateOf(doc["lsstate"])), accountEnabled := Some(IsOn(doc["usrstate"])))
    {
      SetAccountId(Find(doc, "LS"));
      SetAccountState(doc["lsstate"]);
      SetAccountEnabled(doc["usrstate"]);
    }

    /** The last three setter calls of `_check_account`: balance, service name and good-day flag. */
    method StoreBalance(doc: Reply)
      requires "saldo" in doc && SaldoInModel(doc["saldo"]) && "good_day" in doc
      modifies this`saldo, this`serviceName, this`goodDay
      ensures Snapshot() == old(Snapshot()).(saldo := Some(Saldo(doc["saldo"])),
        serviceName := Find(doc, "evpkt"), goodDay := Some(IsYes(doc["good_day"])))
    {
      SetSaldo(doc["saldo"]);
      SetServiceName(Find(doc, "evpkt"));
      SetGoodDay(doc["good_day"]);
    }

    /** `_check_bonus`: fetch, check the discriminator, then the two bonus setters. */
    method CheckBonus(t: Transport) returns (status: Status)
      requires BonusReplyInModel(Request(t))
      modifies this`bonusState, this`bonusRest
      ensures Step(status, Snapshot()) == AfterBonusCheck(old(Snapshot()), Request(t))
    {
      var body := Request(t);
      if body.Failure? {
        return Raised(body.error);
      }
      var doc := body.value;
      var failure := CheckResult(doc);
      if failure.Some? {
        return Raised(failure.value);
      }
      SetBonusState(doc["bonus"]);
      SetBonusRest(doc["rest"]);
      return Returned;
    }

    /**
     * `update`: the account check, then the bonus check; an error in the first
     * propagates before the second request is made. `bonus` is what that
     * second request would receive.
     */
    method Update(account: Transport, bonus: Transport) returns (status: Status)
      requires AccountReplyInModel(Request(account)) && BonusReplyInModel(Request(bonus))
      modifies this`accountId, this`accountState, this`accountEnabled, this`saldo, this`serviceName, this`goodDay
      modifies this`bonusState, this`bonusRest
      ensures Step(status, Snapshot()) == AfterUpdate(old(Snapshot()), Request(account), Request(bonus))
    {
      status := CheckAccount(account);
      if status.Raised? {
        return;
      }
      status := CheckBonus(bonus);
    }

    /**
     * `toggle_bonus`: post the switch; only an `OK` reply is followed by the
     * bonus check, and any other reply is ignored.
     */
    method ToggleBonus(switch: Transport, bonus: Transport) returns (status: Status)
      requires BonusReplyInModel(Request(bonus))
      modifies this`bonusState, this`bonusRest
      ensures Step(status, Snapshot()) == AfterToggle(old(Snapshot()), Request(switch), Request(bonus))
    {
      var body := Request(switch);
      if body.Failure? {
        return Raised(body.error);
      }
      if Find(body.value, "result") == Some("OK") {
        status := CheckBonus(bonus);
      } else {
        status := Returned;
      }
    }
  }
}
