/**
 * What a `TenetAPI` object's operations do to its eight derived fields,
 * stated on values. The classes in tenet.dfy and legacy_api.dfy change their
 * fields in place through the setters, and each of their operations is
 * proved to end in the state these functions give.
 *
 * An operation either returns or raises; the transport's answer to each POST
 * is an input, already turned into a reply or an error by the class's
 * `_request`.
 */
module Account {
  import opened Outcomes
  import opened Wire
  import opened Decode

  /** The eight derived fields, `None` until a reply sets them. */
  datatype Fields = Fields(
    accountId: Option<string>,
    accountState: Option<AccountState>,
    accountEnabled: Option<bool>,
    saldo: Option<string>,
    serviceName: Option<string>,
    goodDay: Option<bool>,
    bonusState: Option<BonusState>,
    bonusRest: Option<int>)

  /** The fields of a newly constructed object. */
  const Unset := Fields(None, None, None, None, None, None, None, None)

  /** How an operation ends: it returns, or it raises `error`. */
  datatype Status = Returned | Raised(error: Error)

  /** How an operation ends and the fields it leaves. */
  datatype Step = Step(status: Status, fields: Fields)

  // ---- Construction ----

  /** The text of the error raised when the credentials are missing. */
  const Usage := "Usage: TenetAPI(username='user', passcode='pass') or TenetAPI(username='user', md5passcode='hash')"

  /** The keyword-argument sets the constructor accepts, as `all_opts` lists them. */
  const AcceptedKeys: seq<set<string>> := [{"username", "passcode"}, {"username", "md5passcode"}]

  /** `any(set(opts).issubset(kwargs.keys()) for opts in all_opts)`. */
  predicate HasCredentials(kwargs: map<string, string>)
  {
    exists i :: 0 <= i < |AcceptedKeys| && AcceptedKeys[i] <= kwargs.Keys
  }

  /** The check accepts a username together with a password or a password hash, and nothing less. */
  lemma HasCredentialsIff(kwargs: map<string, string>)
    ensures HasCredentials(kwargs) <==>
      "username" in kwargs && ("passcode" in kwargs || "md5passcode" in kwargs)
  {
    if "username" in kwargs && "passcode" in kwargs {
      assert AcceptedKeys[0] <= kwargs.Keys;
    }
    if "username" in kwargs && "md5passcode" in kwargs {
      assert AcceptedKeys[1] <= kwargs.Keys;
    }
    if HasCredentials(kwargs) {
      var i :| 0 <= i < |AcceptedKeys| && AcceptedKeys[i] <= kwargs.Keys;
      assert "username" in AcceptedKeys[i];
    }
  }

  /** The credentials an object keeps: `_username` and `_passcode`. */
  datatype Login = Login(username: Option<string>, passcode: string)

  /**
   * `_username = kwargs.get('username')`; `_passcode` is a truthy
   * `md5passcode` as given, and otherwise the hash of `passcode`. Hashing a
   * missing `passcode` (Python's `None`) raises `TypeError`.
   */
  function ResolveLogin(kwargs: map<string, string>, md5: string -> string): (r: Result<Login, Error>)
    ensures "md5passcode" in kwargs && kwargs["md5passcode"] != [] ==>
      r == Success(Login(KwargsGet(kwargs, "username"), kwargs["md5passcode"]))
    ensures ("md5passcode" !in kwargs || kwargs["md5passcode"] == []) && "passcode" in kwargs ==>
      r == Success(Login(KwargsGet(kwargs, "username"), md5(kwargs["passcode"])))
    ensures ("md5passcode" !in kwargs || kwargs["md5passcode"] == []) && "passcode" !in kwargs ==>
      r == Failure(TypeError)
  {
    var username := KwargsGet(kwargs, "username");
    var md5passcode := KwargsGet(kwargs, "md5passcode");
    if md5passcode.Some? && md5passcode.value != [] then Success(Login(username, md5passcode.value))
    else if "passcode" in kwargs then Success(Login(username, md5(kwargs["passcode"])))
    else Failure(TypeError)
  }

  /** `kwargs.get(key)`. */
  function KwargsGet(kwargs: map<string, string>, key: string): Option<string>
  {
    if key in kwargs then Some(kwargs[key]) else None
  }

  /** Once the check has passed, resolving the login fails only for an empty hash given without a password. */
  lemma ResolveLoginAfterCheck(kwargs: map<string, string>, md5: string -> string)
    requires HasCredentials(kwargs)
    ensures ResolveLogin(kwargs, md5).Failure? <==> "passcode" !in kwargs && kwargs["md5passcode"] == []
    ensures ResolveLogin(kwargs, md5).Success? ==> ResolveLogin(kwargs, md5).value.username == Some(kwargs["username"])
  {
    HasCredentialsIff(kwargs);
  }

  // ---- Replies the model covers ----

  /**
   * An `OK` account reply carries the tags whose setters call a string method
   * (`lsstate`, `usrstate`, `saldo`, `good_day`), with a balance the model
   * covers. `LS` and `evpkt` may be missing: their setters store `None`.
   */
  predicate AccountReplyInModel(body: Result<Reply, Error>)
  {
    body.Success? && IsOk(body.value) ==>
      var doc := body.value;
      "lsstate" in doc && "usrstate" in doc && "good_day" in doc &&
      "saldo" in doc && SaldoInModel(doc["saldo"])
  }

  /** An `OK` bonus reply carries `bonus` and a `rest` the model covers. */
  predicate BonusReplyInModel(body: Result<Reply, Error>)
  {
    body.Success? && IsOk(body.value) ==>
      var doc := body.value;
      "bonus" in doc && "rest" in doc && RestInModel(doc["rest"])
  }

  // ---- The operations on values ----

  /** The six setter calls of `_check_account`, in order. */
  function WithAccount(f: Fields, doc: Reply): Fields
    requires AccountReplyInModel(Success(doc)) && IsOk(doc)
  {
    f.(accountId := Find(doc, "LS"),
       accountState := Some(AccountStateOf(doc["lsstate"])),
       accountEnabled := Some(IsOn(doc["usrstate"])),
       saldo := Some(Saldo(doc["saldo"])),
       serviceName := Find(doc, "evpkt"),
       goodDay := Some(IsYes(doc["good_day"])))
  }

  /** The two setter calls of `_check_bonus`. */
  function WithBonus(f: Fields, doc: Reply): Fields
    requires BonusReplyInModel(Success(doc)) && IsOk(doc)
  {
    f.(bonusState := NextBonusState(f.bonusState, doc["bonus"]),
       bonusRest := Some(RestBytes(doc["rest"])))
  }

  /** `_check_account`: a transport error or a failed discriminator raises before any field is written. */
  function AfterAccountCheck(f: Fields, body: Result<Reply, Error>): Step
    requires AccountReplyInModel(body)
  {
    match body
    case Failure(e) => Step(Raised(e), f)
    case Success(doc) =>
      match CheckResult(doc)
      case Some(e) => Step(Raised(e), f)
      case None => Step(Returned, WithAccount(f, doc))
  }

  /** `_check_bonus`: the same discriminator check, then the two bonus fields. */
  function AfterBonusCheck(f: Fields, body: Result<Reply, Error>): Step
    requires BonusReplyInModel(body)
  {
    match body
    case Failure(e) => Step(Raised(e), f)
    case Success(doc) =>
      match CheckResult(doc)
      case Some(e) => Step(Raised(e), f)
      case None => Step(Returned, WithBonus(f, doc))
  }

  /** `update`: the account check, then the bonus check only if the first returned. */
  function AfterUpdate(f: Fields, account: Result<Reply, Error>, bonus: Result<Reply, Error>): Step
    requires AccountReplyInModel(account) && BonusReplyInModel(bonus)
  {
    var first := AfterAccountCheck(f, account);
    if first.status.Raised? then first else AfterBonusCheck(first.fields, bonus)
  }

  /**
   * `toggle_bonus`: a transport error raises; an `OK` switch reply is followed
   * by the bonus check; any other switch reply is ignored.
   */
  function AfterToggle(f: Fields, switch: Result<Reply, Error>, bonus: Result<Reply, Error>): Step
    requires BonusReplyInModel(bonus)
  {
    match switch
    case Failure(e) => Step(Raised(e), f)
    case Success(doc) => if IsOk(doc) then AfterBonusCheck(f, bonus) else Step(Returned, f)
  }

  // ---- Properties ----

  /** The six fields `_check_account` may write. */
  predicate SameAccountFields(f: Fields, g: Fields)
  {
    f.accountId == g.accountId && f.accountState == g.accountState &&
    f.accountEnabled == g.accountEnabled && f.saldo == g.saldo &&
    f.serviceName == g.serviceName && f.goodDay == g.goodDay
  }

  /** The two fields `_check_bonus` may write. */
  predicate SameBonusFields(f: Fields, g: Fields)
  {
    f.bonusState == g.bonusState && f.bonusRest == g.bonusRest
  }

  /**
   * The account check raises exactly when the transport failed or the
   * discriminator is not `OK`; then it raises that error, or the server
   * error with the reply's message, and writes nothing. It never writes a
   * bonus field.
   */
  lemma AccountCheckRaisesIffNotOk(f: Fields, body: Result<Reply, Error>)
    requires AccountReplyInModel(body)
    ensures var s := AfterAccountCheck(f, body);
      && (s.status.Raised? <==> body.Failure? || !IsOk(body.value))
      && (body.Failure? ==> s == Step(Raised(body.error), f))
      && (body.Success? && !IsOk(body.value) ==>
            s == Step(Raised(TenetServerError(ServerErrorMessage(body.value))), f))
      && SameBonusFields(s.fields, f)
  {
  }

  /** A successful account check stores each field decoded from its own tag. */
  lemma AccountCheckDecodes(f: Fields, doc: Reply)
    requires AccountReplyInModel(Success(doc)) && IsOk(doc)
    ensures var g := AfterAccountCheck(f, Success(doc)).fields;
      && g.accountId == Find(doc, "LS")
      && g.accountState == Some(AccountStateOf(doc["lsstate"]))
      && g.accountEnabled == Some(IsOn(doc["usrstate"]))
      && g.saldo == Some(Saldo(doc["saldo"]))
      && g.serviceName == Find(doc, "evpkt")
      && g.goodDay == Some(IsYes(doc["good_day"]))
      && SameBonusFields(g, f)
  {
  }

  /**
   * The bonus check raises exactly when the transport failed or the
   * discriminator is not `OK`, and then writes nothing. It never writes an
   * account field.
   */
  lemma BonusCheckRaisesIffNotOk(f: Fields, body: Result<Reply, Error>)
    requires BonusReplyInModel(body)
    ensures var s := AfterBonusCheck(f, body);
      && (s.status.Raised? <==> body.Failure? || !IsOk(body.value))
      && (body.Failure? ==> s == Step(Raised(body.error), f))
      && (body.Success? && !IsOk(body.value) ==>
            s == Step(Raised(TenetServerError(ServerErrorMessage(body.value))), f))
      && SameAccountFields(s.fields, f)
  {
  }

  /** A successful bonus check stores the decoded remainder, and the decoded state when the code is known. */
  lemma BonusCheckDecodes(f: Fields, doc: Reply)
    requires BonusReplyInModel(Success(doc)) && IsOk(doc)
    ensures var g := AfterBonusCheck(f, Success(doc)).fields;
      && g.bonusRest == Some(RestBytes(doc["rest"]))
      && (BonusCode(doc["bonus"]).Some? ==> g.bonusState == BonusCode(doc["bonus"]))
      && (BonusCode(doc["bonus"]).None? ==> g.bonusState == f.bonusState)
      && SameAccountFields(g, f)
  {
  }

  /** When the account check raises, `update` raises the same and never looks at the bonus reply. */
  lemma UpdateStopsAtAccountFailure(f: Fields, account: Result<Reply, Error>, bonus1: Result<Reply, Error>, bonus2: Result<Reply, Error>)
    requires AccountReplyInModel(account) && BonusReplyInModel(bonus1) && BonusReplyInModel(bonus2)
    requires AfterAccountCheck(f, account).status.Raised?
    ensures AfterUpdate(f, account, bonus1) == AfterUpdate(f, account, bonus2) == AfterAccountCheck(f, account)
    ensures AfterUpdate(f, account, bonus1).fields == f
  {
  }

  /** When only the bonus check raises, the account fields it wrote stay written: there is no rollback. */
  lemma UpdateKeepsAccountOnBonusFailure(f: Fields, account: Result<Reply, Error>, bonus: Result<Reply, Error>)
    requires AccountReplyInModel(account) && BonusReplyInModel(bonus)
    requires AfterAccountCheck(f, account).status == Returned
    requires AfterBonusCheck(f, bonus).status.Raised?
    ensures AfterUpdate(f, account, bonus) == Step(AfterBonusCheck(f, bonus).status, AfterAccountCheck(f, account).fields)
  {
  }

  /**
   * `update` returns exactly when both replies are `OK`; then the fields are
   * the ones decoded from the two replies, and every field but the two
   * optional tags and an unrecognised bonus code is set.
   */
  lemma UpdatePopulates(f: Fields, account: Result<Reply, Error>, bonus: Result<Reply, Error>)
    requires AccountReplyInModel(account) && BonusReplyInModel(bonus)
    ensures AfterUpdate(f, account, bonus).status == Returned <==>
      account.Success? && IsOk(account.value) && bonus.Success? && IsOk(bonus.value)
    ensures account.Success? && IsOk(account.value) && bonus.Success? && IsOk(bonus.value) ==>
      AfterUpdate(f, account, bonus) == Step(Returned, WithBonus(WithAccount(f, account.value), bonus.value))
    ensures var g := AfterUpdate(f, account, bonus).fields;
      AfterUpdate(f, account, bonus).status == Returned ==>
        && g.accountState.Some? && g.accountEnabled.Some? && g.saldo.Some? && g.goodDay.Some?
        && g.bonusRest.Some?
        && (g.bonusState.Some? <==> f.bonusState.Some? || BonusCode(bonus.value["bonus"]).Some?)
  {
  }

  /**
   * A successful refresh overwrites the previous snapshot: two objects that
   * receive the same replies agree on every field except a bonus state that
   * an unrecognised code left as it was.
   */
  lemma UpdateOverwrites(f: Fields, g: Fields, account: Result<Reply, Error>, bonus: Result<Reply, Error>)
    requires AccountReplyInModel(account) && BonusReplyInModel(bonus)
    requires AfterUpdate(f, account, bonus).status == Returned
    ensures AfterUpdate(g, account, bonus).status == Returned
    ensures var a, b := AfterUpdate(f, account, bonus).fields, AfterUpdate(g, account, bonus).fields;
      && SameAccountFields(a, b) && a.bonusRest == b.bonusRest
      && (BonusCode(bonus.value["bonus"]).Some? ==> a == b)
  {
  }

  /** Refreshing twice with the same replies is refreshing once. */
  lemma UpdateIdempotent(f: Fields, account: Result<Reply, Error>, bonus: Result<Reply, Error>)
    requires AccountReplyInModel(account) && BonusReplyInModel(bonus)
    ensures AfterUpdate(AfterUpdate(f, account, bonus).fields, account, bonus) == AfterUpdate(f, account, bonus)
  {
    var first := AfterAccountCheck(f, account);
    if first.status == Returned && bonus.Success? && IsOk(bonus.value) {
      NextBonusStateIdempotent(first.fields.bonusState, bonus.value["bonus"]);
    }
  }

  /**
   * No field is computed from another: writing the account fields and the
   * bonus fields from two `OK` replies gives the same fields in either order.
   */
  lemma ChecksIndependent(f: Fields, account: Reply, bonus: Reply)
    requires AccountReplyInModel(Success(account)) && IsOk(account)
    requires BonusReplyInModel(Success(bonus)) && IsOk(bonus)
    ensures WithBonus(WithAccount(f, account), bonus) == WithAccount(WithBonus(f, bonus), account)
  {
  }

  /** A switch reply that is not `OK` is ignored: no error, no field written, whatever the bonus reply. */
  lemma ToggleIgnoresRefusal(f: Fields, switch: Reply, bonus: Result<Reply, Error>)
    requires BonusReplyInModel(bonus)
    requires !IsOk(switch)
    ensures AfterToggle(f, Success(switch), bonus) == Step(Returned, f)
  {
  }

  /**
   * An `OK` switch reply is followed by exactly the bonus check; a transport
   * failure raises its error. The toggle never writes an account field.
   */
  lemma ToggleRefreshesBonus(f: Fields, switch: Result<Reply, Error>, bonus: Result<Reply, Error>)
    requires BonusReplyInModel(bonus)
    ensures switch.Success? && IsOk(switch.value) ==> AfterToggle(f, switch, bonus) == AfterBonusCheck(f, bonus)
    ensures switch.Failure? ==> AfterToggle(f, switch, bonus) == Step(Raised(switch.error), f)
    ensures SameAccountFields(AfterToggle(f, switch, bonus).fields, f)
  {
  }

  /**
   * After an ignored toggle, the bonus fields are what the next successful
   * bonus check reports, exactly as if the toggle had not been attempted.
   */
  lemma RefusedToggleThenCheck(f: Fields, switch: Reply, ignored: Result<Reply, Error>, bonus: Result<Reply, Error>)
    requires BonusReplyInModel(ignored) && BonusReplyInModel(bonus)
    requires !IsOk(switch)
    ensures AfterBonusCheck(AfterToggle(f, Success(switch), ignored).fields, bonus) == AfterBonusCheck(f, bonus)
  {
  }
}
