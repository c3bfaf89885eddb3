/**
 * ALC packets (src/AlcPacket.cpp): the LCT header of section 5.1 of RFC 5651 with its extensions, EXT_FDT of
 * section 3.4.1 of RFC 3926 and EXT_FTI for compact no-code.
 */
module AlcPackets {
  import opened Bytes
  import opened Flute
  import opened EncodingSymbols

  const EXT_FTI := 64
  const EXT_FDT := 192
  const EXT_CENC := 193

  /** The longest header an 8-bit count of 32-bit words can announce, and the most the parser looks at. */
  const MAX_HEADER_BYTES := 1020

  datatype Alc = Alc(
    tsi: U64,
    toi: U64,
    fdtInstanceId: U32,
    contentEncoding: ContentEncoding,
    fecOti: FecOti,
    headerWords: nat)
  {
    function HeaderLength(): nat {
      headerWords * 4
    }
  }

  /** `Undefined` stands for a length that wraps around, `Diverges` for a loop that makes no progress. */
  datatype Parse = Parsed(alc: Alc, cursor: nat) | Rejected(what: string) | Undefined | Diverges

  // ---------------------------------------------------------------------------------------------
  // Building
  // ---------------------------------------------------------------------------------------------

  function HeaderWords(toi: U16): nat {
    if toi == 0 then 8 else 3
  }

  /** Version 1, half-word TSI and TOI, no congestion control information. */
  function LctBytes(tsi: U16, toi: U16): (s: seq<Byte>)
    ensures |s| == 12
  {
    [0x10, 0x10, HeaderWords(toi), 0] + Be32(0) + Be16(tsi) + Be16(toi)
  }

  function FdtExtension(fdtInstanceId: U32): (s: seq<Byte>)
    ensures |s| == 4
  {
    [EXT_FDT, 0x10 + fdtInstanceId / 0x1_0000 % 0x10] + Be16(fdtInstanceId)
  }

  /** The upper half of the transfer length is always written as 0, the lower keeps 16 bits. */
  function FtiExtension(oti: FecOti): (s: seq<Byte>)
    ensures |s| == 16
  {
    [EXT_FTI, 4] + Be16(0) + Be32(oti.transferLength % 0x1_0000) + [0, 0] + Be16(oti.encodingSymbolLength)
    + Be32(oti.maxSourceBlockLength)
  }

  function HeaderBytes(tsi: U16, toi: U16, oti: FecOti, fdtInstanceId: U32): (s: seq<Byte>)
    ensures |s| == 4 * HeaderWords(toi)
  {
    if toi == 0 then LctBytes(tsi, toi) + FdtExtension(fdtInstanceId) + FtiExtension(oti)
    else LctBytes(tsi, toi)
  }

  function PacketBytes(
    tsi: U16, toi: U16, oti: FecOti, symbols: seq<EncodingSymbol>, maxSize: nat, fdtInstanceId: U32): seq<Byte>
    requires symbols != []
  {
    HeaderBytes(tsi, toi, oti, fdtInstanceId) + Payload(symbols, maxSize)
  }

  /** The building constructor: payload first, header fields afterwards, in one zeroed buffer. */
  method BuildPacket(
    tsi: U16, toi: U16, oti: FecOti, symbols: seq<EncodingSymbol>, maxSize: nat, fdtInstanceId: U32)
    returns (buffer: array<Byte>, len: Result<nat>)
    requires symbols != []
    ensures fresh(buffer)
    ensures len.Ok? <==> oti.encodingId == COMPACT_NO_CODE
    ensures len.Ok? ==> len.value <= buffer.Length
    ensures len.Ok? ==> buffer[..len.value] == PacketBytes(tsi, toi, oti, symbols, maxSize, fdtInstanceId)
  {
    hide LctBytes, FdtExtension, FtiExtension, HeaderBytes, Payload, Splice;
    var lctHeaderLen := 3;
    if toi == 0 {
      lctHeaderLen := lctHeaderLen + 5;
    }
    var maxPacketLength := maxSize + lctHeaderLen * 4 + 4;
    buffer := new Byte[maxPacketLength](_ => 0);
    ghost var zeroed := buffer[..];
    var payloadSize := ToPayload(symbols, buffer, lctHeaderLen * 4, maxSize + 4, oti);
    if payloadSize.Err? {
      return buffer, Err(payloadSize.what);
    }
    ghost var afterPayload := buffer[..];
    CopyInto(LctBytes(tsi, toi), buffer, 0);
    if toi == 0 {
      CopyInto(FdtExtension(fdtInstanceId), buffer, 12);
      CopyInto(FtiExtension(oti), buffer, 16);
    }
    SpliceHolds(zeroed, lctHeaderLen * 4, Payload(symbols, maxSize));
    HeaderThenPayload(tsi, toi, oti, fdtInstanceId, Payload(symbols, maxSize), afterPayload);
    len := Ok(4 * lctHeaderLen + payloadSize.value);
  }

  lemma SpliceHolds(s: seq<Byte>, at: nat, t: seq<Byte>)
    requires at + |t| <= |s|
    ensures Splice(s, at, t)[at..at + |t|] == t
  {
  }

  /** Writing the header pieces in front of the payload gives header and payload side by side. */
  lemma HeaderThenPayload(
    tsi: U16, toi: U16, oti: FecOti, fdtInstanceId: U32, payload: seq<Byte>, buffer: seq<Byte>)
    requires var n := 4 * HeaderWords(toi); n + |payload| <= |buffer| && buffer[n..n + |payload|] == payload
    ensures var n := 4 * HeaderWords(toi);
      var lct := Splice(buffer, 0, LctBytes(tsi, toi));
      var all := if toi == 0 then Splice(Splice(lct, 12, FdtExtension(fdtInstanceId)), 16, FtiExtension(oti)) else lct;
      all[..n + |payload|] == HeaderBytes(tsi, toi, oti, fdtInstanceId) + payload
  {
    var lct := LctBytes(tsi, toi);
    if toi == 0 {
      SpliceAppend(buffer, 0, lct, FdtExtension(fdtInstanceId));
      SpliceAppend(buffer, 0, lct + FdtExtension(fdtInstanceId), FtiExtension(oti));
    }
  }

  // ---------------------------------------------------------------------------------------------
  // Parsing
  // ---------------------------------------------------------------------------------------------

  // The flags of the first two header bytes.
  function Version(b: Byte): nat { b / 16 }
  function CongestionFlag(b: Byte): nat { b / 4 % 4 }
  function TsiFlag(b: Byte): nat { b / 128 }
  function ToiFlag(b: Byte): nat { b / 32 % 4 }
  function HalfWordFlag(b: Byte): nat { b / 16 % 2 }
  function CloseSessionFlag(b: Byte): nat { b / 2 % 2 }

  datatype Fixed = Fixed(tsi: U64, toi: U64, cursor: nat)

  /** A field's value and the cursor behind it. */
  datatype Field = Field(value: U64, next: nat)

  /** The TSI field; a 32-bit word shifted by 16 loses its upper half. */
  function TsiField(data: seq<Byte>, at: nat): Field
    requires at + 6 <= |data| && 2 <= |data|
  {
    var h := HalfWordFlag(data[1]) == 1;
    var low := if h then Read16(data, at) else 0;
    var next := if h then at + 2 else at;
    if TsiFlag(data[1]) == 0 then Field(low, next)
    else if h then Field(Read32(data, next) % 0x1_0000 * 0x1_0000 + low, next + 4)
    else Field(Read32(data, next), next + 4)
  }

  /** The TOI field; of two words the first is the low one. */
  function ToiField(data: seq<Byte>, at: nat): Result<Field>
    requires at + 8 <= |data| && 2 <= |data|
  {
    var h := HalfWordFlag(data[1]) == 1;
    var low := if h then Read16(data, at) else 0;
    var next := if h then at + 2 else at;
    match ToiFlag(data[1])
    case 0 => Ok(Field(low, next))
    case 1 =>
      if h then Ok(Field(Read32(data, next) % 0x1_0000 * 0x1_0000 + low, next + 4))
      else Ok(Field(Read32(data, next), next + 4))
    case 2 =>
      if h then Err("TOI fields over 64 bits in length are not supported")
      else Ok(Field(Read32(data, next) as int + Read32(data, next + 4) as int * 0x1_0000_0000, next + 8))
    case _ => Err("TOI fields over 64 bits in length are not supported")
  }

  function ParseFixed(data: seq<Byte>, len: nat): Result<Fixed>
    requires |data| >= MAX_HEADER_BYTES
  {
    if len < 4 then Err("Packet too short")
    else if Version(data[0]) != 1 then Err("Unsupported LCT version")
    else if CongestionFlag(data[0]) != 0 then Err("Unsupported CCI field length")
    else if HalfWordFlag(data[1]) == 0 && TsiFlag(data[1]) == 0 then Err("TSI field not present")
    else
      var tsi := TsiField(data, 8);
      if CloseSessionFlag(data[1]) == 0 && HalfWordFlag(data[1]) == 0 && ToiFlag(data[1]) == 0 then
        Err("TOI field not present")
      else
        var toi := ToiField(data, tsi.next);
        if toi.Err? then Err(toi.what)
        else if data[3] != 0 then Err("Only Compact No-Code FEC is supported")
        else Ok(Fixed(tsi.value, toi.value.value, toi.value.next))
  }

  function FixedWords(data: seq<Byte>): nat
    requires |data| >= 2
  {
    2 + CongestionFlag(data[0]) + HalfWordFlag(data[1]) + TsiFlag(data[1]) + ToiFlag(data[1])
  }

  /** The length of the extension at `at`: one word, or HEL words for types up to 127. */
  function ExtensionLength(data: seq<Byte>, at: nat): nat
    requires at + 2 <= |data|
  {
    if data[at] <= 127 then data[at + 1] as nat * 4 else 4
  }

  /** What one extension of `ExtensionLength` bytes changes. */
  function ApplyExtension(data: seq<Byte>, at: nat, alc: Alc): Result<Alc>
    requires at + 4 <= |data| && at + ExtensionLength(data, at) <= |data|
  {
    if data[at] == EXT_FTI then
      if data[at + 1] != 4 then Err("Invalid length for EXT_FTI header extension")
      else
        Ok(alc.(fecOti := alc.fecOti.(
          transferLength := Read16(data, at + 2) as int * 0x1_0000_0000 + Read32(data, at + 4),
          encodingSymbolLength := Read16(data, at + 10),
          maxSourceBlockLength := Read32(data, at + 12))))
    else if data[at] == EXT_FDT then
      if data[at + 1] / 16 > 2 then Err("Unsupported FLUTE version")
      else Ok(alc.(fdtInstanceId := data[at + 1] as int % 16 * 0x1_0000 + Read16(data, at + 2)))
    else if data[at] == EXT_CENC then
      match data[at + 1]
      case 0 => Ok(alc.(contentEncoding := NONE))
      case 1 => Ok(alc.(contentEncoding := ZLIB))
      case 2 => Ok(alc.(contentEncoding := DEFLATE))
      case 3 => Ok(alc.(contentEncoding := GZIP))
      case _ => Ok(alc)
    else Ok(alc)
  }

  function ParseExtensions(data: seq<Byte>, at: nat, remaining: nat, alc: Alc): Parse
    requires remaining % 4 == 0 && at + remaining <= |data|
    decreases remaining
  {
    if remaining == 0 then Parsed(alc, at)
    else
      var length := ExtensionLength(data, at);
      if length > remaining then Rejected("Header extension length exceeds remaining header length")
      else
        var next := ApplyExtension(data, at, alc);
        if next.Err? then Rejected(next.what)
        else if length == 0 then Diverges
        else ParseExtensions(data, at + length, remaining - length, next.value)
  }

  /** The parsing constructor, on the first `len` bytes of the receive buffer. */
  function ParsePacket(data: seq<Byte>, len: nat): Parse
    requires |data| >= MAX_HEADER_BYTES
  {
    var fixed := ParseFixed(data, len);
    if fixed.Err? then Rejected(fixed.what)
    else if data[2] < FixedWords(data) then Undefined
    else
      LctCursor(data, len);
      ParseExtensions(data, fixed.value.cursor, (data[2] - FixedWords(data)) * 4,
                      Alc(fixed.value.tsi, fixed.value.toi, 0, NONE, NO_OTI, data[2]))
  }

  /** For every accepted flag combination the fields read take exactly the words the flags announce. */
  lemma LctCursor(data: seq<Byte>, len: nat)
    requires |data| >= MAX_HEADER_BYTES && ParseFixed(data, len).Ok?
    ensures ParseFixed(data, len).value.cursor == 4 * FixedWords(data)
  {
    var tsi := TsiField(data, 8);
    var toi := ToiField(data, tsi.next);
    assert ToiFlag(data[1]) < 4;
  }

  /** The loop over the extensions. */
  method ParseExtensionLoop(data: seq<Byte>, at: nat, length: nat, start: Alc) returns (r: Parse)
    requires length % 4 == 0 && at + length <= |data|
    ensures r == ParseExtensions(data, at, length, start)
  {
    hide ApplyExtension, ExtensionLength;
    var hdrPtr, extHeaderLen, alc := at, length, start;
    while extHeaderLen > 0
      invariant 0 <= hdrPtr && 0 <= extHeaderLen && extHeaderLen % 4 == 0 && hdrPtr + extHeaderLen <= |data|
      invariant ParseExtensions(data, at, length, start) == ParseExtensions(data, hdrPtr, extHeaderLen, alc)
    {
      var extLen := ExtensionLength(data, hdrPtr);
      LengthIsWords(data, hdrPtr);
      if extLen > extHeaderLen {
        return Rejected("Header extension length exceeds remaining header length");
      }
      var next := ApplyExtension(data, hdrPtr, alc);
      if next.Err? {
        return Rejected(next.what);
      }
      if extLen == 0 {
        return Diverges;
      }
      alc := next.value;
      WordsLeft(extHeaderLen, extLen);
      extHeaderLen := extHeaderLen - extLen;
      hdrPtr := hdrPtr + extLen;
    }
    r := Parsed(alc, hdrPtr);
  }

  lemma WordsLeft(length: nat, n: nat)
    requires length % 4 == 0 && n % 4 == 0
    ensures (length - n) % 4 == 0
  {
  }

  /** The parsing constructor, its cursor moving through the fields. */
  method ParseAlcPacket(data: seq<Byte>, len: nat) returns (r: Parse)
    requires |data| >= MAX_HEADER_BYTES
    ensures r == ParsePacket(data, len)
  {
    hide ParseExtensions, TsiField, ToiField;
    if len < 4 {
      return Rejected("Packet too short");
    }
    if Version(data[0]) != 1 {
      return Rejected("Unsupported LCT version");
    }
    if CongestionFlag(data[0]) != 0 {
      return Rejected("Unsupported CCI field length");
    }
    var halfWord, tsiFlag, toiFlag := HalfWordFlag(data[1]), TsiFlag(data[1]), ToiFlag(data[1]);
    if halfWord == 0 && tsiFlag == 0 {
      return Rejected("TSI field not present");
    }
    var hdrPtr, tsi := ParseTsi(data, 8);
    if CloseSessionFlag(data[1]) == 0 && halfWord == 0 && toiFlag == 0 {
      return Rejected("TOI field not present");
    }
    var toi: Result<U64>;
    hdrPtr, toi := ParseToi(data, hdrPtr);
    if toi.Err? {
      return Rejected(toi.what);
    }
    if data[3] != 0 {
      return Rejected("Only Compact No-Code FEC is supported");
    }
    LctCursor(data, len);
    var expectedHeaderLen := 2 + CongestionFlag(data[0]) + halfWord + tsiFlag + toiFlag;
    if data[2] < expectedHeaderLen {
      return Undefined;
    }
    r := ParseExtensionLoop(data, hdrPtr, (data[2] - expectedHeaderLen) * 4,
        Alc(tsi, toi.value, 0, NONE, NO_OTI, data[2]));
  }

  /** The TSI: a half word, a word, or both. */
  method ParseTsi(data: seq<Byte>, at: nat) returns (hdrPtr: nat, tsi: U64)
    requires at + 6 <= |data| && 2 <= |data|
    ensures Field(tsi, hdrPtr) == TsiField(data, at) && hdrPtr <= at + 6
  {
    var shifted := false;
    hdrPtr, tsi := at, 0;
    if HalfWordFlag(data[1]) == 1 {
      tsi, shifted, hdrPtr := Read16(data, hdrPtr), true, hdrPtr + 2;
    }
    if TsiFlag(data[1]) == 1 {
      var word := Read32(data, hdrPtr);
      tsi := tsi + (if shifted then word % 0x1_0000 * 0x1_0000 else word);
      hdrPtr := hdrPtr + 4;
    }
  }

  /** The TOI: a half word, one or two words, or a half word and a word. */
  method ParseToi(data: seq<Byte>, at: nat) returns (hdrPtr: nat, toi: Result<U64>)
    requires at + 8 <= |data| && 2 <= |data|
    ensures toi.Ok? ==> ToiField(data, at) == Ok(Field(toi.value, hdrPtr))
    ensures toi.Err? ==> ToiField(data, at) == Err(toi.what)
  {
    var shifted, value := false, 0;
    hdrPtr := at;
    if HalfWordFlag(data[1]) == 1 {
      value, shifted, hdrPtr := Read16(data, hdrPtr) as int, true, hdrPtr + 2;
    }
    match ToiFlag(data[1]) {
    case 0 =>
    case 1 =>
      var word := Read32(data, hdrPtr) as int;
      value := value + (if shifted then word % 0x1_0000 * 0x1_0000 else word);
      hdrPtr := hdrPtr + 4;
    case 2 =>
      if shifted {
        return hdrPtr, Err("TOI fields over 64 bits in length are not supported");
      }
      value := Read32(data, hdrPtr) as int + Read32(data, hdrPtr + 4) as int * 0x1_0000_0000;
      hdrPtr := hdrPtr + 8;
    case _ =>
      return hdrPtr, Err("TOI fields over 64 bits in length are not supported");
    }
    toi := Ok(value);
  }

  // ---------------------------------------------------------------------------------------------
  // Where the loop ends
  // ---------------------------------------------------------------------------------------------

  /** The loop gets from the extension at `at` to position `p`. */
  ghost predicate Reaches(data: seq<Byte>, at: nat, end: nat, p: nat)
    requires at <= end <= |data| && (end - at) % 4 == 0
    decreases end - at
  {
    at == p ||
    (at < end &&
      var length := ExtensionLength(data, at);
      0 < length <= end - at && !RefusedExtension(data, at) && Reaches(data, at + length, end, p))
  }

  /** An extension of variable length that says it has none; EXT_FTI is refused instead. */
  ghost predicate ZeroLengthExtension(data: seq<Byte>, p: nat) {
    p + 2 <= |data| && data[p] <= 127 && data[p] != EXT_FTI && data[p + 1] == 0
  }

  /** The loop meets such an extension. */
  ghost predicate MeetsZeroLength(data: seq<Byte>, at: nat, end: nat)
    requires at <= end <= |data| && (end - at) % 4 == 0
  {
    exists p :: at <= p < end && Reaches(data, at, end, p) && ZeroLengthExtension(data, p)
  }

  ghost predicate RefusedExtension(data: seq<Byte>, at: nat)
    requires at + 4 <= |data|
  {
    || (data[at] == EXT_FTI && data[at + 1] != 4)
    || (data[at] == EXT_FDT && data[at + 1] / 16 > 2)
  }

  lemma ApplyOutcome(data: seq<Byte>, at: nat, alc: Alc)
    requires at + 4 <= |data| && at + ExtensionLength(data, at) <= |data|
    ensures var next := ApplyExtension(data, at, alc);
      && (next.Err? <==> RefusedExtension(data, at))
      && (next.Ok? ==>
            next.value.headerWords == alc.headerWords && next.value.tsi == alc.tsi && next.value.toi == alc.toi)
  {
  }

  lemma LengthIsWords(data: seq<Byte>, at: nat)
    requires at + 2 <= |data|
    ensures ExtensionLength(data, at) % 4 == 0
    ensures at + 4 <= |data| ==>
              (ZeroLengthExtension(data, at) <==> ExtensionLength(data, at) == 0 && !RefusedExtension(data, at))
  {
  }

  lemma {:induction false} ExtensionsOutcome(data: seq<Byte>, at: nat, remaining: nat, alc: Alc)
    requires remaining % 4 == 0 && at + remaining <= |data|
    ensures var r := ParseExtensions(data, at, remaining, alc);
      && !r.Undefined?
      && (r.Parsed? <==> Reaches(data, at, at + remaining, at + remaining))
      && (r.Parsed? ==> r.cursor == at + remaining && r.alc.headerWords == alc.headerWords
                        && r.alc.tsi == alc.tsi && r.alc.toi == alc.toi)
    decreases remaining
  {
    hide ApplyExtension, ExtensionLength, RefusedExtension;
    if remaining > 0 {
      var length := ExtensionLength(data, at);
      LengthIsWords(data, at);
      if length <= remaining {
        ApplyOutcome(data, at, alc);
      }
      if 0 < length <= remaining && !RefusedExtension(data, at) {
        ExtensionsOutcome(data, at + length, remaining - length, ApplyExtension(data, at, alc).value);
      }
    }
  }

  lemma {:induction false} ExtensionsDiverge(data: seq<Byte>, at: nat, remaining: nat, alc: Alc)
    requires remaining % 4 == 0 && at + remaining <= |data|
    ensures ParseExtensions(data, at, remaining, alc).Diverges? <==>
            MeetsZeroLength(data, at, at + remaining)
    decreases remaining
  {
    hide ApplyExtension, ExtensionLength, RefusedExtension, ZeroLengthExtension;
    var end := at + remaining;
    if remaining > 0 {
      var length := ExtensionLength(data, at);
      LengthIsWords(data, at);
      if length <= remaining {
        ApplyOutcome(data, at, alc);
      }
      if length == 0 && !RefusedExtension(data, at) {
        assert Reaches(data, at, end, at) && ZeroLengthExtension(data, at);
      } else if 0 < length <= remaining && !RefusedExtension(data, at) {
        ExtensionsDiverge(data, at + length, remaining - length, ApplyExtension(data, at, alc).value);
        MeetsZeroLengthNext(data, at, end);
      }
    }
  }

  lemma MeetsZeroLengthNext(data: seq<Byte>, at: nat, end: nat)
    requires at < end <= |data| && (end - at) % 4 == 0 && !RefusedExtension(data, at)
    requires 0 < ExtensionLength(data, at) <= end - at
    ensures MeetsZeroLength(data, at, end) <==> MeetsZeroLength(data, at + ExtensionLength(data, at), end)
  {
    var next := at + ExtensionLength(data, at);
    if MeetsZeroLength(data, at, end) {
      var p :| at <= p < end && Reaches(data, at, end, p) && ZeroLengthExtension(data, p);
      if p < next {
        ReachesOnlyForward(data, next, end, p);
      }
      assert Reaches(data, next, end, p);
    }
    if MeetsZeroLength(data, next, end) {
      var p :| next <= p < end && Reaches(data, next, end, p) && ZeroLengthExtension(data, p);
      assert Reaches(data, at, end, p);
    }
  }

  lemma {:induction false} ReachesOnlyForward(data: seq<Byte>, at: nat, end: nat, p: nat)
    requires at <= end <= |data| && (end - at) % 4 == 0 && p < at
    ensures !Reaches(data, at, end, p)
    decreases end - at
  {
    if at < end {
      var length := ExtensionLength(data, at);
      if 0 < length <= end - at {
        ReachesOnlyForward(data, at + length, end, p);
      }
    }
  }

  /** An accepted header leaves the cursor exactly behind the announced header length. */
  lemma ParseEndsAtHeaderLength(data: seq<Byte>, len: nat)
    requires |data| >= MAX_HEADER_BYTES
    ensures var r := ParsePacket(data, len);
      r.Parsed? ==> r.cursor == r.alc.HeaderLength() == 4 * data[2] as nat
  {
    hide ParseFixed, ParseExtensions;
    var fixed := ParseFixed(data, len);
    if fixed.Ok? && data[2] >= FixedWords(data) {
      LctCursor(data, len);
      ExtensionsOutcome(data, fixed.value.cursor, (data[2] - FixedWords(data)) * 4,
                        Alc(fixed.value.tsi, fixed.value.toi, 0, NONE, NO_OTI, data[2]));
    }
  }

  /**
   * For a header at least as long as its fixed part the loop ends, unless it meets a variable-length extension
   * of length 0.
   */
  lemma ParseDiverges(data: seq<Byte>, len: nat)
    requires |data| >= MAX_HEADER_BYTES && ParseFixed(data, len).Ok? && FixedWords(data) <= data[2]
    ensures ParsePacket(data, len).Diverges? <==> MeetsZeroLength(data, 4 * FixedWords(data), 4 * data[2] as nat)
  {
    var fixed := ParseFixed(data, len).value;
    LctCursor(data, len);
    ExtensionsDiverge(data, fixed.cursor, (data[2] - FixedWords(data)) * 4,
                      Alc(fixed.tsi, fixed.toi, 0, NONE, NO_OTI, data[2]));
  }

  // ---------------------------------------------------------------------------------------------
  // Round trip
  // ---------------------------------------------------------------------------------------------

  /** What a receiver learns from the header of a packet built with these values. */
  function ReceivedHeader(tsi: U16, toi: U16, oti: FecOti, fdtInstanceId: U32): Alc {
    if toi == 0 then
      Alc(tsi, toi, fdtInstanceId % 0x10_0000, NONE,
          NO_OTI.(transferLength := oti.transferLength % 0x1_0000,
                  encodingSymbolLength := oti.encodingSymbolLength % 0x1_0000,
                  maxSourceBlockLength := oti.maxSourceBlockLength), 8)
    else Alc(tsi, toi, 0, NONE, NO_OTI, 3)
  }

  /** Parsing what was built recovers the header and stops at the payload, whatever follows it. */
  lemma HeaderRoundTrip(tsi: U16, toi: U16, oti: FecOti, fdtInstanceId: U32, rest: seq<Byte>, len: nat)
    requires len >= 4 && |HeaderBytes(tsi, toi, oti, fdtInstanceId) + rest| >= MAX_HEADER_BYTES
    ensures ParsePacket(HeaderBytes(tsi, toi, oti, fdtInstanceId) + rest, len) ==
            Parsed(ReceivedHeader(tsi, toi, oti, fdtInstanceId), |HeaderBytes(tsi, toi, oti, fdtInstanceId)|)
  {
    var header := HeaderBytes(tsi, toi, oti, fdtInstanceId);
    var data := header + rest;
    LctRoundTrip(tsi, toi, data, len);
    if toi == 0 {
      assert data[12..16] == FdtExtension(fdtInstanceId);
      assert data[16..32] == FtiExtension(oti);
      var alc := Alc(tsi, toi, 0, NONE, NO_OTI, 8);
      FdtExtensionRoundTrip(fdtInstanceId, data, 12, alc);
      FtiExtensionRoundTrip(oti, data, 16, alc.(fdtInstanceId := fdtInstanceId % 0x10_0000));
      assert data[12] == EXT_FDT && data[16] == EXT_FTI && data[17] == 4 by {
        assert data[12] == data[12..16][0] && data[16] == data[16..32][0] && data[17] == data[16..32][1];
      }
      assert ExtensionLength(data, 12) == 4 && ExtensionLength(data, 16) == 16;
      assert ParseExtensions(data, 16, 16, alc.(fdtInstanceId := fdtInstanceId % 0x10_0000)) ==
             Parsed(ReceivedHeader(tsi, toi, oti, fdtInstanceId), 32);
    }
  }

  lemma LctRoundTrip(tsi: U16, toi: U16, data: seq<Byte>, len: nat)
    requires len >= 4 && |data| >= MAX_HEADER_BYTES && data[..12] == LctBytes(tsi, toi)
    ensures ParseFixed(data, len) == Ok(Fixed(tsi, toi, 12))
    ensures data[2] == HeaderWords(toi) && FixedWords(data) == 3
  {
    var lct := LctBytes(tsi, toi);
    assert forall i :: 0 <= i < 12 ==> data[i] == data[..12][i] == lct[i];
    assert data[8..10] == Be16(tsi);
    assert data[10..12] == Be16(toi);
    ReadBe16(data, 8, tsi);
    ReadBe16(data, 10, toi);
  }

  lemma FdtExtensionRoundTrip(fdtInstanceId: U32, data: seq<Byte>, at: nat, alc: Alc)
    requires at + 4 <= |data| && data[at..at + 4] == FdtExtension(fdtInstanceId)
    ensures ApplyExtension(data, at, alc) == Ok(alc.(fdtInstanceId := fdtInstanceId % 0x10_0000))
  {
    hide Be16;
    var ext := FdtExtension(fdtInstanceId);
    assert data[at] == ext[0] && data[at + 1] == ext[1];
    assert data[at + 2..at + 4] == data[at..at + 4][2..] == Be16(fdtInstanceId);
    ReadBe16(data, at + 2, fdtInstanceId);
    Low20(fdtInstanceId);
  }

  lemma Low20(id: U32)
    ensures (0x10 + id / 0x1_0000 % 0x10) % 16 * 0x1_0000 + id % 0x1_0000 == id % 0x10_0000
    ensures (0x10 + id / 0x1_0000 % 0x10) / 16 == 1
  {
  }

  lemma FtiExtensionRoundTrip(oti: FecOti, data: seq<Byte>, at: nat, alc: Alc)
    requires at + 16 <= |data| && data[at..at + 16] == FtiExtension(oti)
    ensures ApplyExtension(data, at, alc) == Ok(alc.(fecOti := alc.fecOti.(
              transferLength := oti.transferLength % 0x1_0000,
              encodingSymbolLength := oti.encodingSymbolLength % 0x1_0000,
              maxSourceBlockLength := oti.maxSourceBlockLength)))
  {
    FtiFields(oti, data, at);
    assert data[at] == data[at..at + 16][0] && data[at + 1] == data[at..at + 16][1];
  }

  lemma FtiFields(oti: FecOti, data: seq<Byte>, at: nat)
    requires at + 16 <= |data| && data[at..at + 16] == FtiExtension(oti)
    ensures Read16(data, at + 2) == 0
    ensures Read32(data, at + 4) == oti.transferLength % 0x1_0000
    ensures Read16(data, at + 10) == oti.encodingSymbolLength % 0x1_0000
    ensures Read32(data, at + 12) == oti.maxSourceBlockLength
  {
    hide FtiExtension, Be16, Be32;
    var ext := FtiExtension(oti);
    SubSlice(data, at, 16, 2, 2);
    SubSlice(data, at, 16, 4, 4);
    SubSlice(data, at, 16, 10, 2);
    SubSlice(data, at, 16, 12, 4);
    FtiParts(oti);
    ReadBe16(data, at + 2, 0);
    ReadBe32(data, at + 4, oti.transferLength % 0x1_0000);
    ReadBe16(data, at + 10, oti.encodingSymbolLength);
    ReadBe32(data, at + 12, oti.maxSourceBlockLength);
  }

  lemma FtiParts(oti: FecOti)
    ensures var ext := FtiExtension(oti);
      && ext[2..4] == Be16(0) && ext[4..8] == Be32(oti.transferLength % 0x1_0000)
      && ext[10..12] == Be16(oti.encodingSymbolLength) && ext[12..16] == Be32(oti.maxSourceBlockLength)
  {
  }

  lemma SubSlice(data: seq<Byte>, at: nat, n: nat, i: nat, m: nat)
    requires at + n <= |data| && i + m <= n
    ensures data[at + i..at + i + m] == data[at..at + n][i..i + m]
  {
    var whole := data[at..at + n];
    assert forall x {:trigger whole[i..i + m][x]} :: 0 <= x < m ==>
        data[at + i..at + i + m][x] == whole[i + x] == whole[i..i + m][x];
  }

  /** Building and parsing a packet recovers the header values, and `header_length()` points at the payload. */
  lemma PacketRoundTrip(
    tsi: U16, toi: U16, oti: FecOti, symbols: seq<EncodingSymbol>, maxSize: nat, fdtInstanceId: U32, stale: seq<Byte>)
    requires symbols != []
    requires |PacketBytes(tsi, toi, oti, symbols, maxSize, fdtInstanceId) + stale| >= MAX_HEADER_BYTES
    ensures var packet := PacketBytes(tsi, toi, oti, symbols, maxSize, fdtInstanceId);
      var header := ReceivedHeader(tsi, toi, oti, fdtInstanceId);
      && ParsePacket(packet + stale, |packet|) == Parsed(header, header.HeaderLength())
      && header.HeaderLength() + |Payload(symbols, maxSize)| == |packet|
      && (packet + stale)[header.HeaderLength()..] == Carried(symbols, maxSize, stale)
  {
    var header := HeaderBytes(tsi, toi, oti, fdtInstanceId);
    var payload := Payload(symbols, maxSize);
    assert header + payload + stale == header + (payload + stale);
    HeaderRoundTrip(tsi, toi, oti, fdtInstanceId, payload + stale, |header + payload|);
  }

  /** For the FDT, what arrives is exact just below these widths. */
  lemma ReceivedHeaderExact(tsi: U16, oti: FecOti, fdtInstanceId: U32)
    ensures var alc := ReceivedHeader(tsi, 0, oti, fdtInstanceId);
      && (alc.fdtInstanceId == fdtInstanceId <==> fdtInstanceId < 0x10_0000)
      && (alc.fecOti.transferLength == oti.transferLength <==> oti.transferLength < 0x1_0000)
      && (alc.fecOti.encodingSymbolLength == oti.encodingSymbolLength <==> oti.encodingSymbolLength < 0x1_0000)
      && alc.fecOti.maxSourceBlockLength == oti.maxSourceBlockLength
  {
  }
}
