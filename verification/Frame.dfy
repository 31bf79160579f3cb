/** Length-prefixed control frames (frame.rs). */
module Frame {
  import opened JsonLimits
  import opened JsonValue
  import opened Utf8
  import opened Wrappers

  const LENGTH_PREFIX_BYTES: nat := 4
  const U32_MAX: nat := 0xFFFF_FFFF

  // ---- The length prefix ----

  function BigEndian(n: nat): (r: seq<byte>)
    requires n <= U32_MAX
    ensures |r| == LENGTH_PREFIX_BYTES
  {
    [n / 0x100_0000, n / 0x1_0000 % 0x100, n / 0x100 % 0x100, n % 0x100]
  }

  function FromBigEndian(p: seq<byte>): nat
    requires |p| == LENGTH_PREFIX_BYTES
  {
    var a: int, b: int, c: int := p[0], p[1], p[2];
    a * 0x100_0000 + b * 0x1_0000 + c * 0x100 + p[3]
  }

  lemma PrefixRoundTrip(n: nat)
    requires n <= U32_MAX
    ensures FromBigEndian(BigEndian(n)) == n
  {
    assert n / 0x100 == n / 0x1_0000 * 0x100 + n / 0x100 % 0x100;
    assert n / 0x1_0000 == n / 0x100_0000 * 0x100 + n / 0x1_0000 % 0x100;
  }

  /** Four bytes, the most significant first. */
  lemma PrefixMeans(a: byte, b: byte, c: byte, d: byte)
    ensures FromBigEndian([a, b, c, d]) == a * 16777216 + b * 65536 + c * 256 + d
  {
  }

  /** `parse_frame_length`. */
  function ParseFrameLength(prefix: seq<byte>, maximum: nat): (r: Result<nat, FrameError>)
    requires |prefix| == LENGTH_PREFIX_BYTES
    ensures r.Ok? <==> 1 <= FromBigEndian(prefix) <= maximum
    ensures r.Ok? ==> r.value == FromBigEndian(prefix)
  {
    var length := FromBigEndian(prefix);
    if length == 0 then Err(EmptyPayload)
    else if length > maximum then Err(PayloadTooLarge(length, maximum))
    else Ok(length)
  }

  // ---- The bounded writer ----

  function Concat(pieces: seq<seq<byte>>): seq<byte>
  {
    if pieces == [] then [] else pieces[0] + Concat(pieces[1..])
  }

  function Limited(s: seq<byte>, maximum: nat): seq<byte>
  {
    if |s| <= maximum then s else s[..maximum]
  }

  class BoundedWriter {
    var bytes: seq<byte>
    const maximum: nat
    var overflowed: bool
    ghost var offered: seq<byte>   // everything that was ever passed to `Write`

    /** What was kept is the longest prefix within the limit; the flag tells whether anything was lost. */
    ghost predicate Valid()
      reads this
    {
      bytes == Limited(offered, maximum) && (overflowed <==> |offered| > maximum)
    }

    constructor (maximum: nat)
      ensures Valid() && bytes == [] && offered == [] && this.maximum == maximum
    {
      bytes, overflowed, offered := [], false, [];
      this.maximum := maximum;
    }

    method Write(piece: seq<byte>) returns (written: Option<nat>)
      requires Valid()
      modifies this
      ensures Valid() && offered == old(offered) + piece
      ensures written == if |old(bytes)| + |piece| <= maximum then Some(|piece|) else None
    {
      var remaining := maximum - |bytes|;
      offered := offered + piece;
      if |piece| > remaining {
        bytes := bytes + piece[..remaining];
        overflowed := true;
        assert bytes == Limited(offered, maximum);
        return None;
      }
      bytes := bytes + piece;
      return Some(|piece|);
    }

    /** `serde_json::to_writer`: piece after piece until one fails. */
    method WriteAll(pieces: seq<seq<byte>>) returns (ok: bool)
      requires Valid() && offered == [] && bytes == []
      modifies this
      ensures Valid() && (ok <==> |Concat(pieces)| <= maximum) && (ok <==> !overflowed)
      ensures bytes == Limited(Concat(pieces), maximum)
    {
      var i := 0;
      assert pieces[0..] == pieces && offered + Concat(pieces) == Concat(pieces);
      while i < |pieces|
        invariant i <= |pieces| && Valid() && !overflowed
        invariant offered + Concat(pieces[i..]) == Concat(pieces)
      {
        assert pieces[i..][0] == pieces[i] && pieces[i..][1..] == pieces[i + 1..];
        ghost var before, rest := offered, Concat(pieces[i + 1..]);
        assert before + (pieces[i] + rest) == before + pieces[i] + rest;
        var written := Write(pieces[i]);
        if written.None? {
          assert Concat(pieces)[..maximum] == offered[..maximum];
          return false;
        }
        i := i + 1;
      }
      assert Concat(pieces[i..]) == [] && offered + [] == offered;
      return true;
    }
  }

  // ---- Messages: the JSON text codec is a parameter ----

  /**
   * How messages of one type become JSON text and back: the pieces the serializer writes, the parser of JSON text,
   * the typed decoder, and the check made before serializing.
   */
  datatype Codec<!T> = Codec(
    pieces: T -> seq<seq<byte>>, parse: seq<byte> -> Option<Json>, read: Json -> Option<T>,
    preflight: T -> Result<(), FrameError>)

  function Text<T>(codec: Codec<T>, value: T): seq<byte> { Concat(codec.pieces(value)) }

  /** The codec reads this message back from its own text. */
  predicate ReadsBack<T(==)>(codec: Codec<T>, value: T)
  {
    var json := codec.parse(Text(codec, value));
    json.Some? && codec.read(json.value) == Some(value)
  }

  function Smaller(a: nat, b: nat): nat { if a < b then a else b }

  function Encoded<T>(codec: Codec<T>, value: T, maximum: nat): Result<seq<byte>, FrameError>
  {
    var limit, payload := Smaller(maximum, U32_MAX), Text(codec, value);
    var preflight := codec.preflight(value);
    if preflight.Err? then Err(preflight.error)
    else if |payload| > limit then Err(PayloadTooLarge(limit + 1, limit))
    else if payload == [] then Err(EmptyPayload)
    else
      var json := codec.parse(payload);
      if json.None? then Err(InvalidJson)
      else
        var checked := Check(json.value);
        if checked.Err? then Err(checked.error) else Ok(BigEndian(|payload|) + payload)
  }

  /** `encode_frame`. */
  method EncodeFrame<T>(codec: Codec<T>, value: T, maximum: nat) returns (r: Result<seq<byte>, FrameError>)
    ensures r == Encoded(codec, value, maximum)
  {
    var preflight := codec.preflight(value);
    if preflight.Err? {
      return Err(preflight.error);
    }
    var limit := Smaller(maximum, U32_MAX);
    var writer := new BoundedWriter(limit);
    var written := writer.WriteAll(codec.pieces(value));
    if !written {
      return Err(PayloadTooLarge(limit + 1, limit));
    }
    var payload := writer.bytes;
    if payload == [] {
      return Err(EmptyPayload);
    }
    var json := codec.parse(payload);
    if json.None? {
      return Err(InvalidJson);
    }
    var checked := ValidateJsonLimits(json.value);
    if checked.Err? {
      return Err(checked.error);
    }
    var frame := BigEndian(|payload|);
    frame := frame + payload;
    return Ok(frame);
  }

  /** `decode_frame`. */
  function DecodeFrame<T>(codec: Codec<T>, frame: seq<byte>, maximum: nat): Result<T, FrameError>
  {
    if |frame| < LENGTH_PREFIX_BYTES then Err(MissingLengthPrefix)
    else
      var declared := ParseFrameLength(frame[..LENGTH_PREFIX_BYTES], maximum);
      var actual := |frame| - LENGTH_PREFIX_BYTES;
      if declared.Err? then Err(declared.error)
      else if declared.value != actual then Err(LengthMismatch(declared.value, actual))
      else
        var json := codec.parse(frame[LENGTH_PREFIX_BYTES..]);
        if json.None? then Err(InvalidJson)
        else
          var checked := Check(json.value);
          if checked.Err? then Err(checked.error)
          else
            var value := codec.read(json.value);
            if value.None? then Err(InvalidSchema) else Ok(value.value)
  }

  // ---- Round trips ----

  lemma FrameParts<T>(codec: Codec<T>, value: T, maximum: nat)
    requires Encoded(codec, value, maximum).Ok?
    ensures var frame, payload := Encoded(codec, value, maximum).value, Text(codec, value);
            && |frame| == LENGTH_PREFIX_BYTES + |payload| && 1 <= |payload| <= maximum
            && frame[LENGTH_PREFIX_BYTES..] == payload
            && ParseFrameLength(frame[..LENGTH_PREFIX_BYTES], maximum) == Ok(|payload|)
  {
    hide Check;
    var frame, payload := Encoded(codec, value, maximum).value, Text(codec, value);
    PrefixRoundTrip(|payload|);
    assert frame[..LENGTH_PREFIX_BYTES] == BigEndian(|payload|);
  }

  /** Every frame that could be built decodes to its message under the same maximum. */
  lemma FrameRoundTrip<T>(codec: Codec<T>, value: T, maximum: nat)
    requires Encoded(codec, value, maximum).Ok? && ReadsBack(codec, value)
    ensures DecodeFrame(codec, Encoded(codec, value, maximum).value, maximum) == Ok(value)
  {
    hide Check, FromBigEndian, BigEndian;
    FrameParts(codec, value, maximum);
  }

  /** Exactly when a frame can be built. */
  lemma EncodedIff<T>(codec: Codec<T>, value: T, maximum: nat)
    ensures Encoded(codec, value, maximum).Ok? <==>
              var payload := Text(codec, value);
              && codec.preflight(value).Ok? && 1 <= |payload| <= maximum && |payload| <= 4294967295
              && codec.parse(payload).Some? && WithinLimits(codec.parse(payload).value)
  {
    hide Check, WithinLimits;
    var json := codec.parse(Text(codec, value));
    if json.Some? { CheckMeans(json.value); }
  }

  /** Exactly when a frame decodes: its prefix gives the length of the rest, which is allowed and well formed. */
  lemma DecodedIff<T>(codec: Codec<T>, frame: seq<byte>, maximum: nat)
    ensures DecodeFrame(codec, frame, maximum).Ok? <==>
              && |frame| > 4 && FromBigEndian(frame[..4]) == |frame| - 4 <= maximum
              && var json := codec.parse(frame[4..]);
                 json.Some? && WithinLimits(json.value) && codec.read(json.value).Some?
  {
    hide Check, WithinLimits, FromBigEndian;
    if |frame| >= LENGTH_PREFIX_BYTES {
      var json := codec.parse(frame[LENGTH_PREFIX_BYTES..]);
      if json.Some? { CheckMeans(json.value); }
    }
  }

  /** Why a frame is refused: the checks in their order. */
  lemma DecodeRefusals<T>(codec: Codec<T>, frame: seq<byte>, maximum: nat)
    ensures var r := DecodeFrame(codec, frame, maximum);
            if |frame| < 4 then r == Err(MissingLengthPrefix)
            else
              var declared, actual := FromBigEndian(frame[..4]), |frame| - 4;
              if declared == 0 then r == Err(EmptyPayload)
              else if declared > maximum then r == Err(PayloadTooLarge(declared, maximum))
              else if declared != actual then r == Err(LengthMismatch(declared, actual))
              else
                var json := codec.parse(frame[4..]);
                if json.None? then r == Err(InvalidJson)
                else if !WithinLimits(json.value) then r.Err? && LimitError(json.value, r.error)
                else if codec.read(json.value).None? then r == Err(InvalidSchema)
                else r == Ok(codec.read(json.value).value)
  {
    hide Check, WithinLimits, FromBigEndian, LimitError;
    if |frame| >= 4 {
      var json := codec.parse(frame[4..]);
      if json.Some? {
        CheckMeans(json.value);
        if Check(json.value).Err? { RefusalTells(json.value); }
      }
    }
  }

  /** Why no frame is built: the check before serializing, the size of the text, or its contents. */
  lemma EncodeRefusals<T>(codec: Codec<T>, value: T, maximum: nat)
    ensures var r, size := Encoded(codec, value, maximum), |Text(codec, value)|;
            var limit := if maximum < 4294967295 then maximum else 4294967295;
            if codec.preflight(value).Err? then r == Err(codec.preflight(value).error)
            else if size > limit then r == Err(PayloadTooLarge(limit + 1, limit))
            else if size == 0 then r == Err(EmptyPayload)
            else
              var json := codec.parse(Text(codec, value));
              if json.None? then r == Err(InvalidJson)
              else if !WithinLimits(json.value) then r.Err? && LimitError(json.value, r.error)
              else r.Ok?
  {
    hide Check, WithinLimits, FromBigEndian, LimitError;
    var json := codec.parse(Text(codec, value));
    if json.Some? {
      CheckMeans(json.value);
      if Check(json.value).Err? { RefusalTells(json.value); }
    }
  }

  // ---- Streams of frames ----

  /** Reads one frame off a stream: the prefix, then exactly the declared payload. */
  function NextFrame(stream: seq<byte>, maximum: nat): (r: Result<nat, FrameError>)
    ensures r.Ok? ==> LENGTH_PREFIX_BYTES < r.value <= |stream|
  {
    if |stream| < LENGTH_PREFIX_BYTES then Err(MissingLengthPrefix)
    else
      var length := ParseFrameLength(stream[..LENGTH_PREFIX_BYTES], maximum);
      if length.Err? then Err(length.error)
      else if LENGTH_PREFIX_BYTES + length.value > |stream| then
        Err(LengthMismatch(length.value, |stream| - LENGTH_PREFIX_BYTES))
      else Ok(LENGTH_PREFIX_BYTES + length.value)
  }

  function DecodeStream<T>(codec: Codec<T>, stream: seq<byte>, maximum: nat): Result<seq<T>, FrameError>
    decreases |stream|
  {
    if stream == [] then Ok([])
    else
      var size := NextFrame(stream, maximum);
      if size.Err? then Err(size.error)
      else
        var first := DecodeFrame(codec, stream[..size.value], maximum);
        if first.Err? then Err(first.error)
        else
          var rest := DecodeStream(codec, stream[size.value..], maximum);
          if rest.Err? then Err(rest.error) else Ok([first.value] + rest.value)
  }

  /** The frames of several messages, one after the other. */
  function EncodeAll<T>(codec: Codec<T>, values: seq<T>, maximum: nat): Result<seq<byte>, FrameError>
  {
    if values == [] then Ok([])
    else
      var first, rest := Encoded(codec, values[0], maximum), EncodeAll(codec, values[1..], maximum);
      if first.Err? then Err(first.error) else if rest.Err? then Err(rest.error) else Ok(first.value + rest.value)
  }

  lemma FirstFrame<T>(codec: Codec<T>, value: T, rest: seq<byte>, maximum: nat)
    requires Encoded(codec, value, maximum).Ok?
    ensures var frame := Encoded(codec, value, maximum).value;
            NextFrame(frame + rest, maximum) == Ok(|frame|) && (frame + rest)[..|frame|] == frame
            && (frame + rest)[|frame|..] == rest && frame + rest != []
  {
    hide Encoded, FromBigEndian, Text;
    FrameParts(codec, value, maximum);
    var frame := Encoded(codec, value, maximum).value;
    assert (frame + rest)[..LENGTH_PREFIX_BYTES] == frame[..LENGTH_PREFIX_BYTES];
  }

  /** Concatenated frames decode to the messages they were built from, in order. */
  lemma {:induction false} StreamRoundTrip<T>(codec: Codec<T>, values: seq<T>, maximum: nat)
    requires EncodeAll(codec, values, maximum).Ok? && forall v | v in values :: ReadsBack(codec, v)
    ensures DecodeStream(codec, EncodeAll(codec, values, maximum).value, maximum) == Ok(values)
  {
    hide Encoded, DecodeFrame, NextFrame, ReadsBack;
    if values != [] {
      StreamRoundTrip(codec, values[1..], maximum);
      FirstFrame(codec, values[0], EncodeAll(codec, values[1..], maximum).value, maximum);
      FrameRoundTrip(codec, values[0], maximum);
      assert values == [values[0]] + values[1..];
    }
  }
}
