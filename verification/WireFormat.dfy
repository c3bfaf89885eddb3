/**
 * The bytes of ALC packets by position: what is written (src/AlcPacket.cpp:160-216) and what is read from packets of
 * any sender (src/AlcPacket.cpp:22-158), after section 5.1 of RFC 5651, section 3.4.1 of RFC 3926 and RFC 5445.
 */
module WireFormat {
  import opened Bytes
  import opened Arithmetic
  import opened Flute
  import opened EncodingSymbols
  import opened AlcPackets

  /** Two bytes in network order. */
  ghost function Big16(s: seq<Byte>, i: nat): nat
    requires i + 2 <= |s|
  {
    s[i] as nat * 256 + s[i + 1] as nat
  }

  /** Four bytes in network order. */
  ghost function Big32(s: seq<Byte>, i: nat): nat
    requires i + 4 <= |s|
  {
    Big16(s, i) * 65536 + Big16(s, i + 2)
  }

  lemma NetworkOrder(s: seq<Byte>, i: nat)
    ensures i + 2 <= |s| ==> Read16(s, i) == Big16(s, i)
    ensures i + 4 <= |s| ==> Read32(s, i) == Big32(s, i)
  {
  }

  // ---------------------------------------------------------------------------------------------
  // What is written
  // ---------------------------------------------------------------------------------------------

  /** The LCT header: version 1, half-word identifiers, its length in words, codepoint 0. */
  ghost predicate IsLct(h: seq<Byte>, words: nat, tsi: U16, toi: U16) {
    && |h| >= 12 && h[0] == 0x10 && h[1] == 0x10 && h[2] == words && h[3] == 0
    && Big32(h, 4) == 0 && Big16(h, 8) == tsi && Big16(h, 10) == toi
  }

  /** EXT_FDT and EXT_FTI behind it. */
  ghost predicate IsFdtHeader(h: seq<Byte>, oti: FecOti, fdtInstanceId: U32) {
    && |h| >= 32
    && h[12] == 192 && h[13] == 16 + fdtInstanceId / 65536 % 16 && Big16(h, 14) == fdtInstanceId % 65536
    && h[16] == 64 && h[17] == 4 && Big16(h, 18) == 0 && Big32(h, 20) == oti.transferLength % 65536
    && Big16(h, 24) == 0 && Big16(h, 26) == oti.encodingSymbolLength % 65536
    && Big32(h, 28) == oti.maxSourceBlockLength
  }

  lemma WrittenPart(s: seq<Byte>, i: nat, n: nat)
    ensures i + 2 <= |s| && s[i..i + 2] == Be16(n) ==> Big16(s, i) == n % 65536
    ensures i + 4 <= |s| && s[i..i + 4] == Be32(n) ==> Big32(s, i) == n % 0x1_0000_0000
  {
    NetworkOrder(s, i);
    if i + 2 <= |s| && s[i..i + 2] == Be16(n) {
      ReadBe16(s, i, n);
    }
    if i + 4 <= |s| && s[i..i + 4] == Be32(n) {
      ReadBe32(s, i, n);
    }
  }

  /** The headers of object and FDT packets. */
  lemma HeaderWritten(tsi: U16, toi: U16, oti: FecOti, fdtInstanceId: U32)
    ensures var h := HeaderBytes(tsi, toi, oti, fdtInstanceId);
      if toi == 0 then |h| == 32 && IsLct(h, 8, tsi, 0) && IsFdtHeader(h, oti, fdtInstanceId)
      else |h| == 12 && IsLct(h, 3, tsi, toi)
  {
    hide Be16, Be32, FdtExtension, FtiExtension, Big16, Big32;
    var h, lct := HeaderBytes(tsi, toi, oti, fdtInstanceId), LctBytes(tsi, toi);
    assert h[..12] == lct;
    assert forall i :: 0 <= i < 12 ==> h[i] == lct[i];
    assert h[4..8] == Be32(0) && h[8..10] == Be16(tsi) && h[10..12] == Be16(toi);
    WrittenPart(h, 4, 0);
    WrittenPart(h, 8, tsi);
    WrittenPart(h, 10, toi);
    if toi == 0 {
      assert h[12..16] == FdtExtension(fdtInstanceId) && h[16..32] == FtiExtension(oti);
      ExtensionsWritten(h, oti, fdtInstanceId);
    }
  }

  lemma ExtensionsWritten(h: seq<Byte>, oti: FecOti, fdtInstanceId: U32)
    requires |h| == 32 && h[12..16] == FdtExtension(fdtInstanceId) && h[16..32] == FtiExtension(oti)
    ensures IsFdtHeader(h, oti, fdtInstanceId)
  {
    hide Be16, Be32, Big16, Big32;
    var fdt, fti := FdtExtension(fdtInstanceId), FtiExtension(oti);
    assert forall i :: 0 <= i < 4 ==> h[12 + i] == h[12..16][i] == fdt[i];
    assert forall i :: 0 <= i < 16 ==> h[16 + i] == h[16..32][i] == fti[i];
    assert h[14..16] == h[12..16][2..4] == Be16(fdtInstanceId);
    assert h[18..20] == h[16..32][2..4] == Be16(0);
    assert h[20..24] == h[16..32][4..8] == Be32(oti.transferLength % 0x1_0000);
    assert h[26..28] == h[16..32][10..12] == Be16(oti.encodingSymbolLength);
    assert h[28..32] == h[16..32][12..16] == Be32(oti.maxSourceBlockLength);
    WrittenPart(h, 14, fdtInstanceId);
    WrittenPart(h, 18, 0);
    WrittenPart(h, 20, oti.transferLength % 0x1_0000);
    WrittenPart(h, 26, oti.encodingSymbolLength);
    WrittenPart(h, 28, oti.maxSourceBlockLength);
    ZeroBytes(h, 24);
  }

  lemma ZeroBytes(s: seq<Byte>, i: nat)
    requires i + 2 <= |s| && s[i] == s[i + 1] == 0
    ensures Big16(s, i) == 0
  {
  }

  /** The payload: source block number, symbol ID, and the bytes of the symbol, if there is room for it. */
  lemma PayloadWritten(symbol: EncodingSymbol, room: nat)
    ensures var p := Payload([symbol], room);
      && Big16(p, 0) == symbol.sourceBlockNumber % 65536 && Big16(p, 2) == symbol.id % 65536
      && p[4..] == if |symbol.data| <= room then symbol.data else []
  {
    hide Be16, Big16;
    var p := Payload([symbol], room);
    assert [symbol][1..] == [] && symbol.data + [] == symbol.data;
    assert Body([symbol], room) == if |symbol.data| <= room then symbol.data else [];
    assert p[4..] == Body([symbol], room);
    assert p[0..2] == Be16(symbol.sourceBlockNumber) && p[2..4] == Be16(symbol.id);
    WrittenPart(p, 0, symbol.sourceBlockNumber);
    WrittenPart(p, 2, symbol.id);
  }

  // ---------------------------------------------------------------------------------------------
  // What is read
  // ---------------------------------------------------------------------------------------------

  /** The symbols of a payload of `n` bytes: numbers from its first four, bytes from behind them. */
  lemma PayloadRead(buf: seq<Byte>, n: nat, e: nat, i: nat)
    requires 4 <= n <= |buf| && e > 0 && i < |ParsedSymbols(buf, n, e)|
    ensures var s := ParsedSymbols(buf, n, e)[i];
      && s.sourceBlockNumber == Big16(buf, 0) && s.id == Big16(buf, 2) + i
      && |s.data| == (if n - 4 < e then n - 4 else e)
      && forall x :: 0 <= x < |s.data| && 4 + i * e + x < |buf| ==> s.data[x] == buf[4 + i * e + x]
  {
  }

  /** As many symbols as started in the payload. */
  lemma PayloadCounted(buf: seq<Byte>, n: nat, e: nat)
    requires 4 <= n <= |buf| && e > 0
    ensures var count := |ParsedSymbols(buf, n, e)|;
      (count > 0 ==> 4 + (count - 1) * e < n) && n <= 4 + count * e
  {
    CeilDivBounds(n - 4, e);
  }

  /** The flags of the second byte: S, O and H. */
  ghost predicate HasFlags(data: seq<Byte>, s: nat, o: nat, h: nat) {
    |data| > 1 && data[1] / 128 == s && data[1] / 32 % 4 == o && data[1] / 16 % 2 == h
  }

  /** A fixed header is accepted by its version, flags and codepoint alone. */
  lemma FixedHeaderAccepted(data: seq<Byte>, len: nat, s: nat, o: nat, h: nat)
    requires |data| >= 1020 && HasFlags(data, s, o, h)
    ensures ParseFixed(data, len).Ok? <==>
            && len >= 4 && data[0] / 16 == 1 && data[0] / 4 % 4 == 0 && data[3] == 0
            && (s == 1 || h == 1) && (h == 1 || o > 0 || data[1] / 2 % 2 == 1) && (o < 2 || (o == 2 && h == 0))
  {
  }

  /** Where TSI and TOI are read, for every combination of flags. */
  lemma IdentifiersRead(data: seq<Byte>, len: nat, s: nat, o: nat, h: nat)
    requires |data| >= 1020 && HasFlags(data, s, o, h) && ParsePacket(data, len).Parsed?
    ensures var alc, at := ParsePacket(data, len).alc, 8 + 2 * h + 4 * s;
      && alc.tsi == (if s == 0 then Big16(data, 8)
                     else if h == 0 then Big32(data, 8)
                     else Big16(data, 8) + Big16(data, 12) * 65536)
      && alc.toi == (if o == 0 then if h == 0 then 0 else Big16(data, at)
                     else if o == 2 then Big32(data, at) + Big32(data, at + 4) * 0x1_0000_0000
                     else if h == 0 then Big32(data, at)
                     else Big16(data, at) + Big16(data, at + 4) * 65536)
      && alc.HeaderLength() == 4 * data[2] as nat
  {
    hide ParseExtensions, Big16, Big32, Read16, Read32;
    var fixed := ParseFixed(data, len).value;
    LctCursor(data, len);
    ExtensionsOutcome(data, fixed.cursor, (data[2] - FixedWords(data)) * 4,
                      Alc(fixed.tsi, fixed.toi, 0, NONE, NO_OTI, data[2]));
    FixedRead(data, len, s, o, h);
  }

  lemma FixedRead(data: seq<Byte>, len: nat, s: nat, o: nat, h: nat)
    requires |data| >= 1020 && HasFlags(data, s, o, h) && ParseFixed(data, len).Ok?
    ensures var fixed, at := ParseFixed(data, len).value, 8 + 2 * h + 4 * s;
      && fixed.tsi == (if s == 0 then Big16(data, 8)
                       else if h == 0 then Big32(data, 8)
                       else Big16(data, 8) + Big16(data, 12) * 65536)
      && fixed.toi == (if o == 0 then if h == 0 then 0 else Big16(data, at)
                       else if o == 2 then Big32(data, at) + Big32(data, at + 4) * 0x1_0000_0000
                       else if h == 0 then Big32(data, at)
                       else Big16(data, at) + Big16(data, at + 4) * 65536)
  {
    hide Big16, Big32, Read16, Read32;
    var at := 8 + 2 * h + 4 * s;
    NetworkOrder(data, 8);
    NetworkOrder(data, 10);
    NetworkOrder(data, at);
    NetworkOrder(data, at + 2);
    NetworkOrder(data, at + 4);
    LowHalf(data, 10);
    LowHalf(data, at + 2);
  }

  lemma LowHalf(data: seq<Byte>, i: nat)
    requires i + 4 <= |data|
    ensures Read32(data, i) % 0x1_0000 == Big16(data, i + 2)
  {
  }

  // ---------------------------------------------------------------------------------------------
  // Extensions
  // ---------------------------------------------------------------------------------------------

  /** The extensions that are not ignored. */
  datatype Kind = FtiExt | FdtExt | CencExt

  /** An extension of this kind that says something; a content encoding above 3 does not. */
  ghost predicate Says(data: seq<Byte>, p: nat, kind: Kind) {
    p + 4 <= |data| &&
    match kind
    case FtiExt => data[p] == 64
    case FdtExt => data[p] == 192
    case CencExt => data[p] == 193 && data[p + 1] <= 3
  }

  /** A header has what the extension at `p` says. */
  ghost predicate Has(alc: Alc, data: seq<Byte>, p: nat, kind: Kind)
    requires p + 4 <= |data|
  {
    match kind
    case FtiExt =>
      && p + 16 <= |data| && data[p + 1] == 4
      && alc.fecOti.transferLength == Big16(data, p + 2) * 0x1_0000_0000 + Big32(data, p + 4)
      && alc.fecOti.encodingSymbolLength == Big16(data, p + 10)
      && alc.fecOti.maxSourceBlockLength == Big32(data, p + 12)
    case FdtExt => data[p + 1] / 16 <= 2 && alc.fdtInstanceId == data[p + 1] % 16 * 65536 + Big16(data, p + 2)
    case CencExt =>
      alc.contentEncoding == match data[p + 1] case 0 => NONE case 1 => ZLIB case 2 => DEFLATE case _ => GZIP
  }

  /** Two headers agree in what extensions of this kind set. */
  ghost predicate Agree(a: Alc, b: Alc, kind: Kind) {
    match kind
    case FtiExt => a.fecOti == b.fecOti
    case FdtExt => a.fdtInstanceId == b.fdtInstanceId
    case CencExt => a.contentEncoding == b.contentEncoding
  }

  /** Types up to 127 have a length in words, the others are one word long. */
  lemma ExtensionSized(data: seq<Byte>, p: nat)
    requires p + 2 <= |data|
    ensures ExtensionLength(data, p) == if data[p] < 128 then 4 * data[p + 1] as nat else 4
  {
  }

  /** An extension is refused only as EXT_FTI of another length than 4 words, or EXT_FDT of a version above 2. */
  lemma ExtensionRefused(data: seq<Byte>, p: nat, alc: Alc)
    requires p + 4 <= |data| && p + ExtensionLength(data, p) <= |data|
    ensures var r := ApplyExtension(data, p, alc);
      && (r.Err? <==> RefusedExtension(data, p))
      && (RefusedExtension(data, p) <==> (data[p] == 64 && data[p + 1] != 4) || (data[p] == 192 && data[p + 1] >= 48))
      && (r.Err? ==> r.what == if data[p] == 64 then "Invalid length for EXT_FTI header extension"
                               else "Unsupported FLUTE version")
  {
  }

  /** One extension sets what it says and nothing else. */
  lemma ExtensionRead(data: seq<Byte>, p: nat, alc: Alc, kind: Kind)
    requires p + 4 <= |data| && p + ExtensionLength(data, p) <= |data| && ApplyExtension(data, p, alc).Ok?
    ensures var next := ApplyExtension(data, p, alc).value;
      if Says(data, p, kind) then Has(next, data, p, kind) else Agree(next, alc, kind)
  {
    hide Read16, Read32, Big16, Big32;
    NetworkOrder(data, p + 2);
    NetworkOrder(data, p + 4);
    NetworkOrder(data, p + 10);
    NetworkOrder(data, p + 12);
  }

  /** None of the extensions says something of this kind. */
  ghost predicate Silent(data: seq<Byte>, at: nat, end: nat, kind: Kind)
    requires at <= end <= |data| && (end - at) % 4 == 0
  {
    forall q: nat :: at <= q < end && Reaches(data, at, end, q) ==> !Says(data, q, kind)
  }

  lemma {:induction false} SilentExtensions(data: seq<Byte>, at: nat, remaining: nat, alc: Alc, kind: Kind)
    requires remaining % 4 == 0 && at + remaining <= |data|
    requires Silent(data, at, at + remaining, kind) && ParseExtensions(data, at, remaining, alc).Parsed?
    ensures Agree(ParseExtensions(data, at, remaining, alc).alc, alc, kind)
    decreases remaining
  {
    hide ApplyExtension, ExtensionLength, RefusedExtension, Says;
    if remaining > 0 {
      var length, end := ExtensionLength(data, at), at + remaining;
      LengthIsWords(data, at);
      ApplyOutcome(data, at, alc);
      ExtensionRead(data, at, alc, kind);
      assert Reaches(data, at, end, at);
      forall q: nat | at + length <= q < end && Reaches(data, at + length, end, q)
        ensures !Says(data, q, kind)
      {
        assert Reaches(data, at, end, q);
      }
      SilentExtensions(data, at + length, remaining - length, ApplyExtension(data, at, alc).value, kind);
    }
  }

  /** The last of the extensions of this kind is at `p`. */
  ghost predicate LastSaying(data: seq<Byte>, at: nat, end: nat, p: nat, kind: Kind)
    requires at <= end <= |data| && (end - at) % 4 == 0
  {
    && at <= p < end && Reaches(data, at, end, p) && Says(data, p, kind)
    && forall q: nat :: p < q < end && Reaches(data, at, end, q) ==> !Says(data, q, kind)
  }

  /** Behind the extension at `at`: nothing more is said, if it was the last to, and otherwise the last one stays so. */
  lemma BehindFirst(data: seq<Byte>, at: nat, end: nat, p: nat, kind: Kind)
    requires at < end <= |data| && (end - at) % 4 == 0 && LastSaying(data, at, end, p, kind)
    requires 0 < ExtensionLength(data, at) <= end - at && !RefusedExtension(data, at)
    ensures var next := at + ExtensionLength(data, at);
      && (end - next) % 4 == 0
      && if p == at then Silent(data, next, end, kind) else LastSaying(data, next, end, p, kind)
  {
    hide ExtensionLength, RefusedExtension, Says;
    var next := at + ExtensionLength(data, at);
    LengthIsWords(data, at);
    forall q: nat | next <= q < end && Reaches(data, next, end, q)
      ensures Reaches(data, at, end, q)
    {
    }
    if at < p < next {
      ReachesOnlyForward(data, next, end, p);
      assert false;
    }
  }

  lemma {:induction false} LastExtensionDecides(
    data: seq<Byte>, at: nat, remaining: nat, alc: Alc, p: nat, kind: Kind)
    requires remaining % 4 == 0 && at + remaining <= |data|
    requires LastSaying(data, at, at + remaining, p, kind) && ParseExtensions(data, at, remaining, alc).Parsed?
    ensures Has(ParseExtensions(data, at, remaining, alc).alc, data, p, kind)
    decreases remaining
  {
    hide ApplyExtension, ExtensionLength, RefusedExtension, Says, Has, Agree, Reaches, Silent;
    var length := ExtensionLength(data, at);
    LengthIsWords(data, at);
    ApplyOutcome(data, at, alc);
    ExtensionRead(data, at, alc, kind);
    BehindFirst(data, at, at + remaining, p, kind);
    var next := ApplyExtension(data, at, alc).value;
    if p == at {
      SilentExtensions(data, at + length, remaining - length, next, kind);
      AgreeingHas(ParseExtensions(data, at, remaining, alc).alc, next, data, p, kind);
    } else {
      LastExtensionDecides(data, at + length, remaining - length, next, p, kind);
    }
  }

  lemma AgreeingHas(a: Alc, b: Alc, data: seq<Byte>, p: nat, kind: Kind)
    requires p + 4 <= |data| && Agree(a, b, kind) && Has(b, data, p, kind)
    ensures Has(a, data, p, kind)
  {
  }

  /**
   * The header of any accepted packet: of each kind of extension the last one that says something decides, in whatever
   * order they come and among any others; without one, there is no instance ID, no FEC value and no content encoding.
   */
  lemma HeaderRead(data: seq<Byte>, len: nat, kind: Kind)
    requires |data| >= 1020 && ParsePacket(data, len).Parsed?
    ensures ParseFixed(data, len).Ok? && FixedWords(data) <= data[2]
    ensures var alc, at, end := ParsePacket(data, len).alc, 4 * FixedWords(data), 4 * data[2] as nat;
      && (forall p: nat :: LastSaying(data, at, end, p, kind) ==> Has(alc, data, p, kind))
      && (Silent(data, at, end, kind) ==> Agree(alc, Alc(0, 0, 0, NONE, FecOti(0, 0, 0, 0, 0, 0), 0), kind))
  {
    hide ParseExtensions, Has, Agree, Silent, ParseFixed, Reaches;
    var fixed := ParseFixed(data, len).value;
    LctCursor(data, len);
    var start := Alc(fixed.tsi, fixed.toi, 0, NONE, NO_OTI, data[2]);
    var at, end := 4 * FixedWords(data), 4 * data[2] as nat;
    forall p: nat | LastSaying(data, at, end, p, kind)
      ensures Has(ParsePacket(data, len).alc, data, p, kind)
    {
      LastExtensionDecides(data, at, end - at, start, p, kind);
    }
    if Silent(data, at, end, kind) {
      SilentExtensions(data, at, end - at, start, kind);
      AgreesWithNothing(ParsePacket(data, len).alc, start, kind);
    }
  }

  lemma AgreesWithNothing(alc: Alc, start: Alc, kind: Kind)
    requires Agree(alc, start, kind) && start.fdtInstanceId == 0 && start.contentEncoding == NONE
    requires start.fecOti == NO_OTI
    ensures Agree(alc, Alc(0, 0, 0, NONE, FecOti(0, 0, 0, 0, 0, 0), 0), kind)
  {
  }
}
