/** The broker's response envelope (response.rs). */
module Response {
  import opened Frame
  import opened JsonLimits
  import opened JsonValue
  import opened Utf8
  import opened Wrappers
  import Strings

  const INVALID := "response must contain exactly one of result or error matching ok"
  const NOT_AN_OBJECT := "response envelope must be an object"
  const NULL_ERROR := "response error must be a non-null protocol error"
  const WRONG_SCHEMA := "response envelope does not match its schema"

  /** `E` is the protocol error carried by failures. */
  datatype Response<E> = Response(
    protocolVersion: nat, requestId: string, ok: bool, result: Option<Json>, error: Option<E>)

  function Success<E>(protocolVersion: nat, requestId: string, result: Json): Response<E>
  {
    Response(protocolVersion, requestId, true, Some(result), None)
  }

  function Failure<E>(protocolVersion: nat, requestId: string, error: E): Response<E>
  {
    Response(protocolVersion, requestId, false, None, Some(error))
  }

  predicate Valid<E>(r: Response<E>)
  {
    r.ok == r.result.Some? && r.ok == r.error.None?
  }

  function Validate<E>(r: Response<E>): Result<(), string>
  {
    match (r.ok, r.result.Some?, r.error.Some?)
    case (true, true, false) => Ok(())
    case (false, false, true) => Ok(())
    case _ => Err(INVALID)
  }

  /** How protocol errors are written and read; `read` refuses what is not an error object. */
  datatype ErrorCodec<!E> = ErrorCodec(write: E -> Json, read: Json -> Option<E>)

  function Optional(key: string, value: Option<Json>): seq<Field>
  {
    match value case None => [] case Some(v) => [Field(key, v)]
  }

  function ErrorJson<E>(error: Option<E>, errors: ErrorCodec<E>): Option<Json>
  {
    match error case None => None case Some(e) => Some(errors.write(e))
  }

  /** The members present, in field order: absent ones are left out. */
  function Members(version: Option<Json>, id: Option<Json>, ok: Option<Json>, result: Option<Json>, error: Option<Json>)
    : seq<Field>
  {
    Optional("protocolVersion", version)
    + (Optional("requestId", id) + (Optional("ok", ok) + (Optional("result", result) + Optional("error", error))))
  }

  /** The serialized envelope; a null result is written. */
  function ToJson<E>(r: Response<E>, errors: ErrorCodec<E>): Json
  {
    Object(Members(Some(Number(Strings.Decimal(r.protocolVersion))), Some(String(r.requestId)), Some(Bool(r.ok)),
                   r.result, ErrorJson(r.error, errors)))
  }

  const U16_MAX: nat := 0xFFFF

  predicate Known(key: string) { key in ["protocolVersion", "requestId", "ok", "result", "error"] }

  predicate AllKnown(fields: seq<Field>) { forall f | f in fields :: Known(f.key) }

  function ReadVersion(v: Option<Json>): Option<nat>
  {
    if v.Some? && v.value.Number? then Strings.ReadDecimal(v.value.repr) else None
  }

  /** `Option<Value>` with a default: absent and null both read as none. */
  function ReadValue(v: Option<Json>): Option<Json>
  {
    if v.None? || v.value.Null? then None else v
  }

  /** `Option<ProtocolError>` with a default: absent and null both read as none. */
  function ReadError<E>(v: Option<Json>, errors: ErrorCodec<E>): Result<Option<E>, string>
  {
    if v.None? || v.value.Null? then Ok(None)
    else match errors.read(v.value) case Some(e) => Ok(Some(e)) case None => Err(WRONG_SCHEMA)
  }

  /** `WireResponseEnvelope`: the typed fields, which do not tell an absent result from a null one. */
  function ReadWire<E>(value: Json, errors: ErrorCodec<E>): Option<Response<E>>
    requires value.Object?
  {
    var version, id, ok := ReadVersion(Get(value, "protocolVersion")), Get(value, "requestId"), Get(value, "ok");
    var result, error := ReadValue(Get(value, "result")), ReadError(Get(value, "error"), errors);
    if !AllKnown(value.fields) || version.None? || version.value > U16_MAX || id.None? || !id.value.String?
       || ok.None? || !ok.value.Bool? || error.Err? then None
    else Some(Response(version.value, id.value.text, ok.value.b, result, error.value))
  }

  /** `contains_key`. */
  predicate Present(value: Json, key: string)
    requires value.Object?
  {
    exists i | 0 <= i < |value.fields| :: value.fields[i].key == key
  }

  /** A result that is present but was read as none was null. */
  function Restored(present: bool, result: Option<Json>): Option<Json>
  {
    if present then Some(if result.Some? then result.value else Null) else None
  }

  /** Decoding an envelope: which members are present is noted before the typed fields are read. */
  function FromJson<E>(value: Json, errors: ErrorCodec<E>): Result<Response<E>, string>
  {
    if !value.Object? then Err(NOT_AN_OBJECT)
    else
      var resultPresent, errorPresent := Present(value, "result"), Present(value, "error");
      var wire := ReadWire(value, errors);
      if wire.None? then Err(WRONG_SCHEMA)
      else
        var response := wire.value.(result := Restored(resultPresent, wire.value.result));
        if errorPresent && response.error.None? then Err(NULL_ERROR)
        else
          var checked := Validate(response);
          if checked.Err? then Err(checked.error) else Ok(response)
  }

  // ---- What the envelope guarantees ----

  lemma ValidateMeans<E>(r: Response<E>)
    ensures Validate(r).Ok? <==> Valid(r)
  {
  }

  lemma PresentMeans(value: Json, key: string)
    requires value.Object?
    ensures Present(value, key) <==> Get(value, key).Some?
  {
  }

  /** Typed field and presence flag together give the member as written: absent stays absent, null stays null. */
  lemma RestoredIsWritten(value: Json)
    requires value.Object?
    ensures Restored(Present(value, "result"), ReadValue(Get(value, "result"))) == Get(value, "result")
  {
    PresentMeans(value, "result");
    hide Present, Get;
  }

  /** Whatever decodes has exactly one of result and error, and its result is the member as written, null included. */
  lemma DecodedIsValid<E>(value: Json, errors: ErrorCodec<E>)
    ensures var r := FromJson(value, errors);
            r.Ok? ==>
              && Valid(r.value) && r.value.result == Get(value, "result")
              && (r.value.error.Some? <==> Get(value, "error").Some?)
              && (Get(value, "result") == Some(Null) ==> r.value.ok && r.value.result == Some(Null))
  {
    if value.Object? {
      RestoredIsWritten(value);
      PresentMeans(value, "error");
    }
    hide AllKnown, Get, Present, ReadVersion, Restored, ReadValue;
  }

  /** The error member is absent or null, or holds this error. */
  predicate SpellsError<E(==)>(member: Option<Json>, errors: ErrorCodec<E>, error: Option<E>)
  {
    match error
    case None => member == None || member == Some(Null)
    case Some(e) => member.Some? && member.value != Null && errors.read(member.value) == Some(e)
  }

  lemma ErrorIff<E>(member: Option<Json>, errors: ErrorCodec<E>, error: Option<E>)
    ensures ReadError(member, errors) == Ok(error) <==> SpellsError(member, errors, error)
  {
  }

  /** All members but the result say this response. */
  predicate SpellsTyped<E(==)>(value: Json, errors: ErrorCodec<E>, r: Response<E>)
  {
    && value.Object?
    && (forall f | f in value.fields :: f.key in ["protocolVersion", "requestId", "ok", "result", "error"])
    && Get(value, "protocolVersion").Some? && Get(value, "protocolVersion").value.Number?
    && Strings.ReadDecimal(Get(value, "protocolVersion").value.repr) == Some(r.protocolVersion)
    && r.protocolVersion <= 65535
    && Get(value, "requestId") == Some(String(r.requestId)) && Get(value, "ok") == Some(Bool(r.ok))
    && SpellsError(Get(value, "error"), errors, r.error)
  }

  lemma WireIff<E>(value: Json, errors: ErrorCodec<E>, r: Response<E>)
    requires value.Object?
    ensures ReadWire(value, errors) == Some(r) <==>
              SpellsTyped(value, errors, r) && r.result == ReadValue(Get(value, "result"))
  {
    OnlyKnown(value.fields);
    ErrorIff(Get(value, "error"), errors, r.error);
    hide AllKnown, Get, ReadValue, Strings.ReadDecimal, ReadError, SpellsError;
  }

  lemma WireError<E>(value: Json, errors: ErrorCodec<E>)
    requires value.Object? && ReadWire(value, errors).Some?
    ensures ReadWire(value, errors).value.error.Some? ==> Get(value, "error").Some?
    ensures ReadWire(value, errors).value.error.None? ==> Get(value, "error") == None || Get(value, "error") == Some(Null)
    ensures ReadWire(value, errors).value.result == ReadValue(Get(value, "result"))
  {
    hide AllKnown, Get, ReadValue, ReadVersion;
  }

  /** The result as written, and no null error: what decoding checks behind the typed fields. */
  lemma DecodesFromWire<E>(value: Json, errors: ErrorCodec<E>, r: Response<E>)
    requires value.Object?
    ensures FromJson(value, errors) == Ok(r) <==>
              && ReadWire(value, errors) == Some(r.(result := ReadValue(Get(value, "result"))))
              && Get(value, "result") == r.result && (r.error.None? ==> Get(value, "error") == None) && Valid(r)
  {
    RestoredIsWritten(value);
    PresentMeans(value, "error");
    if ReadWire(value, errors).Some? { WireError(value, errors); }
    hide Get, Present, Restored, ReadValue, ReadWire;
    if ReadWire(value, errors).Some? {
      var wire := ReadWire(value, errors).value;
      ValidateMeans(wire.(result := Get(value, "result")));
      assert wire.(result := Get(value, "result")).(result := wire.result) == wire;
    }
  }

  /**
   * Which responses an envelope decodes to: the one its members say, the result as written, with exactly one of result
   * and error, the one that matches ok.
   */
  lemma DecodesIff<E>(value: Json, errors: ErrorCodec<E>, r: Response<E>)
    ensures FromJson(value, errors) == Ok(r) <==>
              && SpellsTyped(value, errors, r) && Get(value, "result") == r.result && Get(value, "error") != Some(Null)
              && (if r.ok then r.result.Some? && r.error.None? else r.result.None? && r.error.Some?)
  {
    SpellingIgnoresResult(value, errors, r);
    if value.Object? {
      DecodesFromWire(value, errors, r);
      WireIff(value, errors, r.(result := ReadValue(Get(value, "result"))));
      hide Get, FromJson, ReadValue, ReadWire, SpellsTyped;
    } else {
      hide Get, SpellsTyped;
    }
  }

  lemma SpellingIgnoresResult<E>(value: Json, errors: ErrorCodec<E>, r: Response<E>)
    ensures SpellsTyped(value, errors, r.(result := ReadValue(Get(value, "result")))) <==> SpellsTyped(value, errors, r)
    ensures SpellsTyped(value, errors, r) ==> value.Object?
    ensures SpellsTyped(value, errors, r) ==> SpellsError(Get(value, "error"), errors, r.error)
  {
    hide Get, ReadValue, Strings.ReadDecimal;
  }

  lemma OnlyKnown(fields: seq<Field>)
    ensures AllKnown(fields) <==>
              forall f | f in fields :: f.key in ["protocolVersion", "requestId", "ok", "result", "error"]
  {
  }

  /** What is said about an envelope that does not decode. */
  lemma RefusedBecause<E>(value: Json, errors: ErrorCodec<E>)
    requires FromJson(value, errors).Err?
    ensures FromJson(value, errors).error ==
              if !value.Object? then "response envelope must be an object"
              else if ReadWire(value, errors).None? then "response envelope does not match its schema"
              else if Get(value, "error") == Some(Null) then "response error must be a non-null protocol error"
              else "response must contain exactly one of result or error matching ok"
  {
    if value.Object? { PresentMeans(value, "error"); }
    hide AllKnown, Get, Present, Restored, ReadValue, ReadVersion;
  }

  /**
   * The presence flag matters exactly for null results: of the envelopes that decode, the typed fields alone would fail
   * validation for these and no others.
   */
  lemma PresenceMattersForNull<E>(value: Json, errors: ErrorCodec<E>)
    requires FromJson(value, errors).Ok?
    ensures ReadWire(value, errors).Some?
    ensures Validate(ReadWire(value, errors).value).Err? <==> Get(value, "result") == Some(Null)
    ensures Validate(ReadWire(value, errors).value).Ok? <==>
              FromJson(value, errors).value == ReadWire(value, errors).value
  {
    DecodedIsValid(value, errors);
    RestoredIsWritten(value);
    hide AllKnown, Get, Present, ReadVersion, Restored;
  }

  predicate Envelope<E>(r: Response<E>) { r.protocolVersion <= U16_MAX && Valid(r) }

  /** The error codec reads back the error of this response, and never writes it as null. */
  predicate ErrorReadsBack<E(==)>(r: Response<E>, errors: ErrorCodec<E>)
  {
    r.error.Some? ==>
      !errors.write(r.error.value).Null? && errors.read(errors.write(r.error.value)) == Some(r.error.value)
  }

  lemma LookupPast(key: string, value: Option<Json>, rest: seq<Field>, wanted: string)
    ensures key != wanted ==> Lookup(Optional(key, value) + rest, wanted) == Lookup(rest, wanted)
    ensures key == wanted && (value.None? ==> Lookup(rest, wanted).None?) ==>
              Lookup(Optional(key, value) + rest, wanted) == value
  {
    var s := Optional(key, value) + rest;
    if value.Some? {
      assert s[0] == Field(key, value.value) && s[1..] == rest;
    } else {
      assert s == rest;
    }
  }

  lemma KnownPast(key: string, value: Option<Json>, rest: seq<Field>)
    requires Known(key) && AllKnown(rest)
    ensures AllKnown(Optional(key, value) + rest)
  {
  }

  lemma KnownKeys()
    ensures Known("protocolVersion") && Known("requestId") && Known("ok") && Known("result") && Known("error")
  {
  }

  lemma MemberAt(version: Option<Json>, id: Option<Json>, ok: Option<Json>, result: Option<Json>, error: Option<Json>,
                 key: string)
    ensures var r := Lookup(Members(version, id, ok, result, error), key);
            && (key == "error" ==> r == error)
            && (key == "result" ==> r == result)
            && (key == "ok" && ok.Some? ==> r == ok)
            && (key == "requestId" && id.Some? ==> r == id)
            && (key == "protocolVersion" && version.Some? ==> r == version)
  {
    KeysDiffer();
    assert Lookup([], key) == None;
    var e := Optional("error", error);
    LookupPast("error", error, [], key);
    assert e + [] == e;
    hide Lookup, Optional;
    LookupPast("result", result, e, key);
    LookupPast("ok", ok, Optional("result", result) + e, key);
    LookupPast("requestId", id, Optional("ok", ok) + (Optional("result", result) + e), key);
    LookupPast("protocolVersion", version,
               Optional("requestId", id) + (Optional("ok", ok) + (Optional("result", result) + e)), key);
  }

  lemma KeysDiffer()
    ensures "error" != "result" && "error" != "ok" && "error" != "requestId" && "error" != "protocolVersion"
    ensures "result" != "ok" && "result" != "requestId" && "result" != "protocolVersion"
    ensures "ok" != "requestId" && "ok" != "protocolVersion" && "requestId" != "protocolVersion"
  {
  }

  lemma MembersOf<E>(r: Response<E>, errors: ErrorCodec<E>)
    ensures var v := ToJson(r, errors);
            && v.Object? && AllKnown(v.fields)
            && Get(v, "protocolVersion") == Some(Number(Strings.Decimal(r.protocolVersion)))
            && Get(v, "requestId") == Some(String(r.requestId)) && Get(v, "ok") == Some(Bool(r.ok))
            && Get(v, "result") == r.result && Get(v, "error") == ErrorJson(r.error, errors)
  {
    hide Members, Lookup, AllKnown, Strings.Decimal;
    var version, id, ok := Some(Number(Strings.Decimal(r.protocolVersion))), Some(String(r.requestId)), Some(Bool(r.ok));
    var error := ErrorJson(r.error, errors);
    KnownChain(version, id, ok, r.result, error);
    MemberAt(version, id, ok, r.result, error, "protocolVersion");
    MemberAt(version, id, ok, r.result, error, "requestId");
    MemberAt(version, id, ok, r.result, error, "ok");
    MemberAt(version, id, ok, r.result, error, "result");
    MemberAt(version, id, ok, r.result, error, "error");
  }

  lemma KnownChain(version: Option<Json>, id: Option<Json>, ok: Option<Json>, result: Option<Json>, error: Option<Json>)
    ensures AllKnown(Members(version, id, ok, result, error))
  {
    hide Known, Optional;
    KnownKeys();
    var e := Optional("error", error);
    KnownPast("error", error, []);
    assert e + [] == e;
    KnownPast("result", result, e);
    KnownPast("ok", ok, Optional("result", result) + e);
    KnownPast("requestId", id, Optional("ok", ok) + (Optional("result", result) + e));
    KnownPast("protocolVersion", version, Optional("requestId", id) + (Optional("ok", ok) + (Optional("result", result) + e)));
  }

  lemma WrittenWire<E>(r: Response<E>, errors: ErrorCodec<E>)
    requires Envelope(r) && ErrorReadsBack(r, errors)
    ensures ReadWire(ToJson(r, errors), errors) == Some(r.(result := ReadValue(r.result)))
  {
    MembersOf(r, errors);
    Strings.DecimalReads(r.protocolVersion);
    hide ToJson, Get, AllKnown, ReadValue, Strings.Decimal, Strings.ReadDecimal;
  }

  /** Envelopes survive serialization, null results included. */
  lemma EnvelopeRoundTrip<E>(r: Response<E>, errors: ErrorCodec<E>)
    requires Envelope(r) && ErrorReadsBack(r, errors)
    ensures FromJson(ToJson(r, errors), errors) == Ok(r)
  {
    hide ToJson, Get, AllKnown, Present, Restored, ReadValue, ReadWire;
    MembersOf(r, errors);
    WrittenWire(r, errors);
    RestoredIsWritten(ToJson(r, errors));
    PresentMeans(ToJson(r, errors), "error");
  }

  /** Every result, null included, and every error the codec reads back make a response that survives the wire. */
  lemma MadeResponsesSurvive<E>(version: nat, id: string, result: Json, error: E, errors: ErrorCodec<E>)
    requires version <= U16_MAX && ErrorReadsBack(Failure(version, id, error), errors)
    ensures var ok: Response<E> := Success(version, id, result);
            Validate(ok) == Ok(()) && FromJson(ToJson(ok, errors), errors) == Ok(ok)
    ensures var failed := Failure(version, id, error);
            Validate(failed) == Ok(()) && FromJson(ToJson(failed, errors), errors) == Ok(failed)
  {
    hide ToJson, FromJson;
    var ok: Response<E> := Success(version, id, result);
    ValidateMeans(ok);
    ValidateMeans(Failure(version, id, error));
    EnvelopeRoundTrip(ok, errors);
    EnvelopeRoundTrip(Failure(version, id, error), errors);
  }

  // ---- Responses in frames ----

  function Preflight<E>(message: E -> string): Response<E> -> Result<(), FrameError>
  {
    (r: Response<E>) =>
      var result := if r.result.Some? then Check(r.result.value) else Ok(());
      if result.Err? then result
      else if r.error.Some? then ValidateString(message(r.error.value)) else Ok(())
  }

  /** Before anything is written, the result must keep the structural limits and the error text the length limit. */
  lemma PreflightMeans<E>(message: E -> string, r: Response<E>)
    ensures Preflight(message)(r).Ok? <==>
              && (r.result.Some? ==> WithinLimits(r.result.value))
              && (r.error.Some? ==> |Encode(message(r.error.value))| <= 262144)
  {
    hide Check, WithinLimits, Encode;
    if r.result.Some? { CheckMeans(r.result.value); }
  }

  function Pieces<E>(errors: ErrorCodec<E>): Response<E> -> seq<seq<byte>>
  {
    (r: Response<E>) => [Encode(Write(ToJson(r, errors)))]
  }

  function Read<E>(errors: ErrorCodec<E>): Json -> Option<Response<E>>
  {
    (v: Json) => match FromJson(v, errors) case Ok(r) => Some(r) case Err(_) => None
  }

  function ResponseCodec<E>(errors: ErrorCodec<E>, message: E -> string, parse: seq<byte> -> Option<Json>)
    : Codec<Response<E>>
  {
    Codec(Pieces(errors), parse, Read(errors), Preflight(message))
  }

  /** A response that fits in a frame comes out of it unchanged, if the parser reads JSON text as it was written. */
  lemma ResponseFrameRoundTrip<E>(r: Response<E>, errors: ErrorCodec<E>, message: E -> string,
                                  parse: seq<byte> -> Option<Json>, maximum: nat)
    requires Envelope(r) && ErrorReadsBack(r, errors)
    requires parse(Encode(Write(ToJson(r, errors)))) == Some(ToJson(r, errors))
    requires Encoded(ResponseCodec(errors, message, parse), r, maximum).Ok?
    ensures var codec := ResponseCodec(errors, message, parse);
            DecodeFrame(codec, Encoded(codec, r, maximum).value, maximum) == Ok(r)
  {
    hide Encoded, DecodeFrame, ToJson, FromJson, Preflight, Encode, Write;
    var codec := ResponseCodec(errors, message, parse);
    EnvelopeRoundTrip(r, errors);
    var text := Encode(Write(ToJson(r, errors)));
    assert Concat([text]) == text + Concat([text][1..]) == text;
    assert Text(codec, r) == text;
    FrameRoundTrip(codec, r, maximum);
  }
}
