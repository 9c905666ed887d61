/**
 * The `TenetAPI` client of tenet/__init__.py: an object holding the user's
 * credentials and the eight fields last read from the portal, which its
 * operations overwrite in place through the property setters.
 */
module Tenet {
  import opened Outcomes
  import opened Text
  import opened Wire
  import opened Decode
  import opened Account

  /**
   * The constructor's credential handling: without a username and a password
   * or hash it raises `TenetBaseException` carrying the usage text; otherwise
   * it keeps the username and the resolved passcode.
   */
  function Credentials(kwargs: map<string, string>, md5: string -> string): (r: Result<Login, Error>)
    ensures r == Failure(TenetBaseException(Usage)) <==>
      !("username" in kwargs && ("passcode" in kwargs || "md5passcode" in kwargs))
    ensures r.Failure? ==> r.error == TenetBaseException(Usage) || r.error == TypeError
    ensures r.Success? ==> r.value.username == Some(kwargs["username"])
  {
    HasCredentialsIff(kwargs);
    if !HasCredentials(kwargs) then Failure(TenetBaseException(Usage))
    else
      ResolveLoginAfterCheck(kwargs, md5);
      ResolveLogin(kwargs, md5)
  }

  /**
   * `_request`: every transport failure is raised as `TenetBadRequest` with
   * its text, so `except TenetBaseException` catches each of them.
   */
  function Request(t: Transport): (r: Result<Reply, Error>)
    ensures t.Delivered? <==> r.Success?
    ensures t.Delivered? ==> r.value == t.doc
    ensures r.Failure? ==> r.error == TenetBadRequest(t.message) && IsTenetException(r.error)
  {
    match t
    case Delivered(doc) => Success(doc)
    case HttpStatusError(m) => Failure(TenetBadRequest(m))
    case ConnectionFailure(m) => Failure(TenetBadRequest(m))
  }

  class TenetApi {
    var accountId: Option<string>
    var accountState: Option<AccountState>
    var accountEnabled: Option<bool>
    var saldo: Option<string>
    var serviceName: Option<string>
    var goodDay: Option<bool>
    var bonusState: Option<BonusState>
    var bonusRest: Option<int>

    const username: Option<string>
    const passcode: string

    /** The eight property getters read together. */
    function Snapshot(): Fields
      reads this
    {
      Fields(accountId, accountState, accountEnabled, saldo, serviceName, goodDay, bonusState, bonusRest)
    }

    /** The object `__init__` builds once the credentials are resolved: every derived field is `None`. */
    constructor (login: Login)
      ensures Snapshot() == Unset
      ensures username == login.username && passcode == login.passcode
    {
      accountId, accountState, accountEnabled, saldo := None, None, None, None;
      serviceName, goodDay, bonusState, bonusRest := None, None, None, None;
      username := login.username;
      passcode := login.passcode;
    }

    /** `TenetAPI(**kwargs)`: the credential check, then the object. */
    static method Create(kwargs: map<string, string>, md5: string -> string) returns (r: Result<TenetApi, Error>)
      ensures r.Failure? ==> Credentials(kwargs, md5) == Failure(r.error)
      ensures r.Success? ==> Credentials(kwargs, md5) == Success(Login(r.value.username, r.value.passcode))
      ensures r.Success? ==> fresh(r.value) && r.value.Snapshot() == Unset
    {
      HasCredentialsIff(kwargs);
      if !HasCredentials(kwargs) {
        return Failure(TenetBaseException(Usage));
      }
      var login := ResolveLogin(kwargs, md5);
      if login.Failure? {
        return Failure(login.error);
      }
      var api := new TenetApi(login.value);
      return Success(api);
    }

    method SetAccountId(value: Option<string>)
      modifies this`accountId
      ensures accountId == value
    {
      accountId := value;
    }

    method SetAccountState(value: string)
      modifies this`accountState
      ensures accountState == Some(AccountStateOf(value))
    {
      var code := Lower(value);
      if code == "n" {
        accountState := Some(Normal);
      } else if code == "l" {
        accountState := Some(Locked);
      } else {
        accountState := Some(Warning);
      }
    }

    method SetAccountEnabled(value: string)
      modifies this`accountEnabled
      ensures accountEnabled == Some(IsOn(value))
    {
      accountEnabled := Some(false);
      if Upper(value) == "ON" {
        accountEnabled := Some(true);
      }
    }

    method SetSaldo(value: string)
      requires SaldoInModel(value)
      modifies this`saldo
      ensures saldo == Some(Saldo(value))
    {
      saldo := Some(Saldo(value));
    }

    method SetServiceName(value: Option<string>)
      modifies this`serviceName
      ensures serviceName == value
    {
      serviceName := value;
    }

    method SetGoodDay(value: string)
      modifies this`goodDay
      ensures goodDay == Some(IsYes(value))
    {
      goodDay := Some(false);
      if Upper(value) == "YES" {
        goodDay := Some(true);
      }
    }

    method SetBonusState(value: string)
      modifies this`bonusState
      ensures bonusState == NextBonusState(old(bonusState), value)
    {
      var code := Upper(value);
      if code == "ON" {
        bonusState := Some(Enabled);
      } else if code == "OFF" {
        bonusState := Some(Disabled);
      } else if code == "END" {
        bonusState := Some(Ended);
      }
    }

    method SetBonusRest(value: string)
      requires RestInModel(value)
      modifies this`bonusRest
      ensures bonusRest == Some(RestBytes(value))
    {
      bonusRest := Some(RestBytes(value));
    }

    /** `_check_account`: fetch, check the discriminator, then the six account setters. */
    method CheckAccount(t: Transport) returns (status: Status)
      requires AccountReplyInModel(Request(t))
      modifies this`accountId, this`accountState, this`accountEnabled, this`saldo, this`serviceName, this`goodDay
      ensures Step(status, Snapshot()) == AfterAccountCheck(old(Snapshot()), Request(t))
    {
      var body := Request(t);
      if body.Failure? {
        return Raised(body.error);
      }
      var doc := body.value;
      var failure := CheckResult(doc);
      if failure.Some? {
        return Raised(failure.value);
      }
      StoreAccount(doc);
      return Returned;
    }

    /** The six setter calls of `_check_account`, on a reply that passed the check. */
    method StoreAccount(doc: Reply)
      requires AccountReplyInModel(Success(doc)) && IsOk(doc)
      modifies this`accountId, this`accountState, this`accountEnabled, this`saldo, this`serviceName, this`goodDay
      ensures Snapshot() == WithAccount(old(Snapshot()), doc)
    {
      StoreStatus(doc);
      StoreBalance(doc);
    }

    /** The first three setter calls of `_check_account`: account number, state and switch. */
    method StoreStatus(doc: Reply)
      requires "lsstate" in doc && "usrstate" in doc
      modifies this`accountId, this`accountState, this`accountEnabled
      ensures Snapshot() == old(Snapshot()).(accountId := Find(doc, "LS"),
        accountState := Some(AccountStateOf(doc["lsstate"])), accountEnabled := Some(IsOn(doc["usrstate"])))
    {
      SetAccountId(Find(doc, "LS"));
      SetAccountState(doc["lsstate"]);
      SetAccountEnabled(doc["usrstate"]);
    }

    /** The last three setter calls of `_check_account`: balance, service name and good-day flag. */
    method StoreBalance(doc: Reply)
      requires "saldo" in doc && SaldoInModel(doc["saldo"]) && "good_day" in doc
      modifies this`saldo, this`serviceName, this`goodDay
      ensures Snapshot() == old(Snapshot()).(saldo := Some(Saldo(doc["saldo"])),
        serviceName := Find(doc, "evpkt"), goodDay := Some(IsYes(doc["good_day"])))
    {
      SetSaldo(doc["saldo"]);
      SetServiceName(Find(doc, "evpkt"));
      SetGoodDay(doc["good_day"]);
    }

    /** `_check_bonus`: fetch, check the discriminator, then the two bonus setters. */
    method CheckBonus(t: Transport) returns (status: Status)
      requires BonusReplyInModel(Request(t))
      modifies this`bonusState, this`bonusRest
      ensures Step(status, Snapshot()) == AfterBonusCheck(old(Snapshot()), Request(t))
    {
      var body := Request(t);
      if body.Failure? {
        return Raised(body.error);
      }
      var doc := body.value;
      var failure := CheckResult(doc);
      if failure.Some? {
        return Raised(failure.value);
      }
      SetBonusState(doc["bonus"]);
      SetBonusRest(doc["rest"]);
      return Returned;
    }

    /**
     * `update`: the account check, then the bonus check; an error in the first
     * propagates before the second request is made. `bonus` is what that
     * second request would receive.
     */
    method Update(account: Transport, bonus: Transport) returns (status: Status)
      requires AccountReplyInModel(Request(account)) && BonusReplyInModel(Request(bonus))
      modifies this`accountId, this`accountState, this`accountEnabled, this`saldo, this`serviceName, this`goodDay
      modifies this`bonusState, this`bonusRest
      ensures Step(status, Snapshot()) == AfterUpdate(old(Snapshot()), Request(account), Request(bonus))
    {
      status := CheckAccount(account);
      if status.Raised? {
        return;
      }
      status := CheckBonus(bonus);
    }

    /**
     * `toggle_bonus`: post the switch; only an `OK` reply is followed by the
     * bonus check, and any other reply is ignored.
     */
    method ToggleBonus(switch: Transport, bonus: Transport) returns (status: Status)
      requires BonusReplyInModel(Request(bonus))
      modifies this`bonusState, this`bonusRest
      ensures Step(status, Snapshot()) == AfterToggle(old(Snapshot()), Request(switch), Request(bonus))
    {
      var body := Request(switch);
      if body.Failure? {
        return Raised(body.error);
      }
      if Find(body.value, "result") == Some("OK") {
        status := CheckBonus(bonus);
      } else {
        status := Returned;
      }
    }
  }
}
