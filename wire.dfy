/**
 * What the portal sends back and what the client raises.
 *
 * A reply document is flat: the client only ever reads the text of a direct
 * child of the root by its tag, so a parsed reply is a map from tag to text.
 * A tag that is absent is Python's `None` from `findtext`; an element without
 * text is the empty string.
 */
module Wire {
  import opened Outcomes
  import opened Text

  type Reply = map<string, string>

  /** `etree.findtext("./" + tag)`, which is how a reply is read: the text under `tag`, or `None`. */
  function Find(doc: Reply, tag: string): Option<string>
  {
    if tag in doc then Some(doc[tag]) else None
  }

  /** The outcome of one POST to the portal, an input to the model. */
  datatype Transport =
    | Delivered(doc: Reply)               // HTTP success, body parsed
    | HttpStatusError(message: string)    // `raise_for_status` raised
    | ConnectionFailure(message: string)  // `post` itself raised (no connection, timeout)

  /**
   * What an operation raises. The first three are the library's own classes
   * (tenet/exceptions.py); the others are Python errors that escape it.
   */
  datatype Error =
    | TenetBaseException(message: string)
    | TenetBadRequest(message: string)
    | TenetServerError(message: string)
    | AssertionError(argument: Error)      // `assert cond, exc`: the exception is only the message
    | RequestException(message: string)    // a transport error the client does not convert
    | TypeError                            // `password_to_hash(None)`

  /** `except TenetBaseException` catches exactly these: the class and its two subclasses. */
  predicate IsTenetException(e: Error)
  {
    e.TenetBaseException? || e.TenetBadRequest? || e.TenetServerError?
  }

  const UnknownError := "Unknown Error"

  /** The reply's discriminator is exactly `OK`. */
  predicate IsOk(doc: Reply)
  {
    Find(doc, "result") == Some("OK")
  }

  /**
   * The message of the server error: `error_desc` stripped, or `"Unknown Error"`
   * when `error_desc` is absent or empty. A description made only of
   * whitespace is not empty, so it strips to the empty message.
   */
  function ServerErrorMessage(doc: Reply): (msg: string)
    ensures Trimmed(msg, IsByteSpace)
    ensures "error_desc" !in doc || doc["error_desc"] == [] ==> msg == UnknownError
    ensures "error_desc" in doc && doc["error_desc"] != [] ==>
      msg == Strip(doc["error_desc"]) && Trimmed(msg, SpaceOf(doc["error_desc"]))
  {
    var desc := Find(doc, "error_desc");
    if desc.None? || desc.value == [] then
      UnknownErrorIsTrimmed();
      Strip(UnknownError)
    else
      var msg := Strip(desc.value);
      assert Trimmed(msg, IsByteSpace) by {
        if IsUnicode(desc.value) { TrimmedAsBytes(msg); }
      }
      msg
  }

  /** `"Unknown Error".strip()` is the text itself. */
  lemma UnknownErrorIsTrimmed()
    ensures Strip(UnknownError) == UnknownError
  {
    assert UnknownError[0] == 'U' && UnknownError[|UnknownError| - 1] == 'r';
    StripTrimmed(UnknownError);
  }

  /** The result-discriminator check: nothing when the reply is `OK`, else the server error to raise. */
  function CheckResult(doc: Reply): (r: Option<Error>)
    ensures r.None? <==> IsOk(doc)
    ensures r.Some? ==> r.value == TenetServerError(ServerErrorMessage(doc))
  {
    if IsOk(doc) then None else Some(TenetServerError(ServerErrorMessage(doc)))
  }

  /** A description is reported without the whitespace around it. */
  lemma ServerErrorTrimsDescription(doc: Reply, before: string, text: string, after: string)
    requires "result" in doc && doc["result"] != "OK"
    requires "error_desc" in doc && doc["error_desc"] == before + text + after
    requires var space := SpaceOf(doc["error_desc"]);
      AllSpace(before, space) && AllSpace(after, space) && text != [] && Trimmed(text, space)
    ensures CheckResult(doc) == Some(TenetServerError(text))
  {
    StripPadded(before, text, after);
  }

  /**
   * A description ending in a no-break space is `unicode` text, whose `strip()`
   * removes that space too.
   */
  lemma NoBreakSpaceIsStripped(doc: Reply, text: string)
    requires "result" in doc && doc["result"] != "OK"
    requires "error_desc" in doc && doc["error_desc"] == text + "\U{00A0}"
    requires text != [] && Trimmed(text, IsUnicodeSpace)
    ensures CheckResult(doc) == Some(TenetServerError(text))
  {
    var desc := doc["error_desc"];
    assert !IsAscii(desc[|desc| - 1]);
    assert desc == [] + text + "\U{00A0}";
    StripPadded([], text, "\U{00A0}");
  }

  /** A failed reply without a description reports `"Unknown Error"`. */
  lemma ServerErrorWithoutDescription(doc: Reply)
    requires "result" in doc && doc["result"] != "OK"
    requires "error_desc" !in doc
    ensures CheckResult(doc) == Some(TenetServerError(UnknownError))
  {
  }

  /** A description of only whitespace is not empty, so the message is empty rather than `"Unknown Error"`. */
  lemma BlankDescriptionGivesEmptyMessage(doc: Reply)
    requires "error_desc" in doc && doc["error_desc"] != []
    requires AllSpace(doc["error_desc"], SpaceOf(doc["error_desc"]))
    ensures ServerErrorMessage(doc) == []
  {
    StripEmpty(doc["error_desc"]);
  }

  /** A missing discriminator is a failure, whatever else the reply holds. */
  lemma MissingResultFails(doc: Reply)
    requires "result" !in doc
    ensures CheckResult(doc).Some?
  {
  }
}
