// The 12-byte frame header and its payload.
module Frame {
  import opened Types

  const MAGIC0: byte := 0x50
  const MAGIC1: byte := 0x4d
  const VERSION: byte := 1
  const HEADER_LEN := 12
  const MAX_FRAME_LEN := 1470
  const MAX_JSON_LEN := MAX_FRAME_LEN - HEADER_LEN

  const FLAG_ERR: byte := 2

  const DISCOVER: byte := 1
  const TOOLS_LIST: byte := 2
  const TOOL_CALL: byte := 3
  const PING: byte := 4

  datatype Error = InvalidArg | TooLarge | NoMem | BadFrame | BadVersion

  datatype Frame = Frame(kind: byte, flags: byte, seqNo: u16, xid: u16, payload: seq<byte>)

  datatype Header = Header(version: byte, kind: byte, flags: byte, seqNo: u16, xid: u16, payloadLen: u16)

  function LoadU16(lo: byte, hi: byte): u16 {
    lo + hi * 0x100
  }

  function StoreU16(v: u16): (r: seq<byte>)
    ensures |r| == 2 && LoadU16(r[0], r[1]) == v
  {
    [v % 0x100, v / 0x100]
  }

  // The layout of a frame on the air.
  function Encode(f: Frame): (r: seq<byte>)
    requires |f.payload| < 0x1_0000
    ensures |r| == HEADER_LEN + |f.payload|
  {
    [MAGIC0, MAGIC1, VERSION, f.kind, f.flags, HEADER_LEN]
    + StoreU16(f.seqNo) + StoreU16(f.xid) + StoreU16(|f.payload|) + f.payload
  }

  // What a receiver makes of `data`, in the order the checks are made.
  function Decode(data: seq<byte>): Result<Frame, Error> {
    if |data| < HEADER_LEN || data[0] != MAGIC0 || data[1] != MAGIC1 then
      Err(BadFrame)
    else if data[2] != VERSION then
      Err(BadVersion)
    else if data[5] != HEADER_LEN then
      Err(BadFrame)
    else
      var len := LoadU16(data[10], data[11]);
      if HEADER_LEN + len > |data| then
        Err(BadFrame)
      else
        Ok(Frame(data[3], data[4], LoadU16(data[6], data[7]), LoadU16(data[8], data[9]),
                 data[HEADER_LEN..HEADER_LEN + len]))
  }

  // Both round trips at once: a buffer decodes to f exactly when it starts
  // with the encoding of f, whatever bytes follow.
  lemma DecodeIff(data: seq<byte>, f: Frame)
    ensures Decode(data) == Ok(f) <==> |f.payload| < 0x1_0000 && Encode(f) <= data
  {
    if |f.payload| < 0x1_0000 && Encode(f) <= data {
      EncodeAt(f);
      assert data == Encode(f) + data[|Encode(f)|..];
      assert data[HEADER_LEN..HEADER_LEN + |f.payload|] == Encode(f)[HEADER_LEN..];
    }
    if Decode(data) == Ok(f) {
      DecodedStartsWith(data, f);
    }
  }

  lemma StoreOfLoad(lo: byte, hi: byte)
    ensures StoreU16(LoadU16(lo, hi)) == [lo, hi]
  {
  }

  lemma DecodedStartsWith(data: seq<byte>, f: Frame)
    requires Decode(data) == Ok(f)
    ensures |f.payload| < 0x1_0000 && Encode(f) <= data
  {
    StoreOfLoad(data[6], data[7]);
    StoreOfLoad(data[8], data[9]);
    StoreOfLoad(data[10], data[11]);
    assert |f.payload| == LoadU16(data[10], data[11]);
    HeaderIs(f, data);
    assert Encode(f) == Encode(f)[..HEADER_LEN] + f.payload;
    assert data[..HEADER_LEN] + f.payload == data[..HEADER_LEN + |f.payload|];
  }

  lemma HeaderIs(f: Frame, data: seq<byte>)
    requires HEADER_LEN <= |data| && |f.payload| < 0x1_0000
    requires data[..6] == [MAGIC0, MAGIC1, VERSION, f.kind, f.flags, HEADER_LEN]
    requires StoreU16(f.seqNo) == [data[6], data[7]] && StoreU16(f.xid) == [data[8], data[9]]
    requires StoreU16(|f.payload|) == [data[10], data[11]]
    ensures Encode(f)[..HEADER_LEN] == data[..HEADER_LEN]
  {
    assert data[..HEADER_LEN] == data[..6] + [data[6], data[7]] + [data[8], data[9]] + [data[10], data[11]];
  }

  // Where each field of the header sits.
  lemma EncodeAt(f: Frame)
    requires |f.payload| < 0x1_0000
    ensures var e := Encode(f);
            && e[..2] == ['P' as byte, 'M' as byte] && e[2] == 1 && e[5] == 12
            && e[3] == f.kind && e[4] == f.flags
            && e[6] as int + 0x100 * (e[7] as int) == f.seqNo && e[8] as int + 0x100 * (e[9] as int) == f.xid
            && e[10] as int + 0x100 * (e[11] as int) == |f.payload| && e[12..] == f.payload
  {
  }

  // What is refused, and why: another version of the protocol is told apart
  // from everything else, once the magic is right.
  lemma DecodeErrorIff(data: seq<byte>)
    ensures Decode(data) == Err(BadVersion)
            <==> |data| >= 12 && data[..2] == ['P' as byte, 'M' as byte] && data[2] != 1
    ensures Decode(data) == Err(BadFrame)
            <==> || |data| < 12 || data[..2] != ['P' as byte, 'M' as byte]
                 || (data[2] == 1
                     && (data[5] != 12 || |data| < 12 + data[10] as int + 0x100 * (data[11] as int)))
    ensures Decode(data).Err? ==> Decode(data).error in {BadVersion, BadFrame}
  {
    if |data| >= 12 {
      assert data[..2] == [data[0], data[1]];
    }
  }

  method StoreInto(out: array<byte>, at: nat, v: u16)
    requires at + 2 <= out.Length
    modifies out
    ensures out[at] == v % 0x100 && out[at + 1] == v / 0x100
    ensures forall i | 0 <= i < out.Length && i != at && i != at + 1 :: out[i] == old(out[i])
  {
    out[at] := v % 0x100;
    out[at + 1] := v / 0x100;
  }

  // memcpy into `out` at offset `at`.
  method CopyInto(out: array<byte>, at: nat, bytes: seq<byte>)
    requires at + |bytes| <= out.Length
    modifies out
    ensures out[..] == old(out[..at]) + bytes + old(out[at + |bytes|..])
  {
    for i := 0 to |bytes|
      invariant forall j | 0 <= j < out.Length ::
                  out[j] == if at <= j < at + i then bytes[j - at] else old(out[j])
    {
      out[at + i] := bytes[i];
    }
  }

  method WriteHeader(f: Frame, out: array<byte>)
    requires |f.payload| < 0x1_0000 && HEADER_LEN <= out.Length
    modifies out
    ensures out[..] == Encode(f)[..HEADER_LEN] + old(out[HEADER_LEN..])
  {
    out[0] := MAGIC0;
    out[1] := MAGIC1;
    out[2] := VERSION;
    out[3] := f.kind;
    out[4] := f.flags;
    out[5] := HEADER_LEN;
    StoreInto(out, 6, f.seqNo);
    StoreInto(out, 8, f.xid);
    StoreInto(out, 10, |f.payload|);
    assert out[..HEADER_LEN] == Encode(f)[..HEADER_LEN];
    assert out[HEADER_LEN..] == old(out[HEADER_LEN..]);
  }

  // Variables of the caller's that a routine fills in.
  class SizeCell {
    var value: nat

    constructor ()
      ensures value == 0
    {
      value := 0;
    }
  }

  class HeaderCell {
    var value: Header

    constructor ()
      ensures value == Header(0, 0, 0, 0, 0, 0)
    {
      value := Header(0, 0, 0, 0, 0, 0);
    }
  }

  // A pointer into the frame, as an offset; None is null.
  class TextCell {
    var value: Option<nat>

    constructor ()
      ensures value == None
    {
      value := None;
    }
  }

  // None is success.
  method Pack(kind: int, flags: byte, seqNo: u16, xid: u16, json: Option<CText>, out: array?<byte>, written: SizeCell?)
    returns (error: Option<Error>)
    modifies out, written
    ensures error.Some? ==> (out != null ==> out[..] == old(out[..])) && (written != null ==> unchanged(written))
    ensures out == null || written == null <==> error == Some(InvalidArg)
    ensures out != null && written != null ==>
              var text := json.GetOr([]);
              var frameLen := HEADER_LEN + |text|;
              if |text| > MAX_JSON_LEN then
                error == Some(TooLarge)
              else if out.Length < frameLen then
                error == Some(NoMem)
              else
                && error == None && written.value == frameLen && out[frameLen..] == old(out[frameLen..])
                && Decode(out[..]) == Ok(Frame(kind % 0x100, flags, seqNo, xid, text))
  {
    if out == null || written == null {
      return Some(InvalidArg);
    }
    // The type is cast to one byte.
    var f := Frame(kind % 0x100, flags, seqNo, xid, if json.Some? then json.value else []);
    var frameLen := HEADER_LEN + |f.payload|;
    if |f.payload| > 0xffff || frameLen > MAX_FRAME_LEN {
      return Some(TooLarge);
    }
    if out.Length < frameLen {
      return Some(NoMem);
    }
    WriteHeader(f, out);
    ghost var rest := old(out[frameLen..]);
    assert out[frameLen..] == rest;
    CopyInto(out, HEADER_LEN, f.payload);
    EncodeAt(f);
    assert out[..] == Encode(f) + rest;
    DecodeIff(out[..], f);
    written.value := frameLen;
    return None;
  }

  // None is success.
  method Unpack(data: array?<byte>, dataLen: nat, header: HeaderCell?, json: TextCell?, jsonLen: SizeCell?)
    returns (error: Option<Error>)
    requires data != null ==> dataLen <= data.Length
    modifies header, json, jsonLen
    ensures data == null || header == null || json == null || jsonLen == null <==> error == Some(InvalidArg)
    ensures error.Some? ==>
              && (header != null ==> unchanged(header))
              && (json != null ==> unchanged(json))
              && (jsonLen != null ==> unchanged(jsonLen))
    ensures data != null && header != null && json != null && jsonLen != null ==>
              match error
              case Some(e) => Decode(data[..dataLen]) == Err(e)
              case None =>
                var (h, n) := (header.value, jsonLen.value);
                && HEADER_LEN + n <= dataLen && h.version == VERSION && h.payloadLen == n
                && json.value == (if n == 0 then None else Some(HEADER_LEN))
                && Decode(data[..dataLen])
                   == Ok(Frame(h.kind, h.flags, h.seqNo, h.xid, data[HEADER_LEN..HEADER_LEN + n]))
  {
    if data == null || header == null || json == null || jsonLen == null {
      return Some(InvalidArg);
    }
    if dataLen < HEADER_LEN || data[0] != MAGIC0 || data[1] != MAGIC1 {
      return Some(BadFrame);
    }
    if data[2] != VERSION {
      return Some(BadVersion);
    }
    if data[5] != HEADER_LEN {
      return Some(BadFrame);
    }
    var payloadLen := LoadU16(data[10], data[11]);
    if HEADER_LEN + payloadLen > dataLen {
      return Some(BadFrame);
    }
    header.value := Header(data[2], data[3], data[4], LoadU16(data[6], data[7]), LoadU16(data[8], data[9]), payloadLen);
    json.value := if payloadLen > 0 then Some(HEADER_LEN) else None;
    jsonLen.value := payloadLen;
    assert data[..dataLen][HEADER_LEN..HEADER_LEN + payloadLen] == data[HEADER_LEN..HEADER_LEN + payloadLen];
    return None;
  }
}
