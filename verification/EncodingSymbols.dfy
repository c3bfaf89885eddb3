/** Encoding symbols and the packet payloads that carry them (src/EncodingSymbol.cpp). */
module EncodingSymbols {
  import opened Bytes
  import opened Arithmetic
  import opened Flute

  datatype EncodingSymbol = EncodingSymbol(id: nat, sourceBlockNumber: nat, data: seq<Byte>)

  // ---------------------------------------------------------------------------------------------
  // Writing
  // ---------------------------------------------------------------------------------------------

  /** The bytes of the leading symbols that fit one after the other in `room` bytes. */
  function Body(symbols: seq<EncodingSymbol>, room: nat): (s: seq<Byte>)
    ensures |s| <= room
  {
    if symbols == [] || |symbols[0].data| > room then []
    else symbols[0].data + Body(symbols[1..], room - |symbols[0].data|)
  }

  /** The FEC payload ID of section 3.1 of RFC 5445 (first symbol only), then the symbols that fit. */
  function Payload(symbols: seq<EncodingSymbol>, room: nat): (s: seq<Byte>)
    requires symbols != []
    ensures 4 <= |s| <= 4 + room
  {
    Be16(symbols[0].sourceBlockNumber) + Be16(symbols[0].id) + Body(symbols, room)
  }

  /** Copies `t` into the buffer at `at`. */
  method CopyInto(t: seq<Byte>, buf: array<Byte>, at: nat)
    requires at + |t| <= buf.Length
    modifies buf
    ensures buf[..] == Splice(old(buf[..]), at, t)
  {
    for i := 0 to |t|
      invariant buf[..] == Splice(old(buf[..]), at, t[..i])
    {
      hide Splice;
      ghost var before := buf[..];
      buf[at + i] := t[i];
      assert buf[..] == before[at + i := t[i]];
      SpliceOneMore(old(buf[..]), at, t, i);
    }
    assert t[..|t|] == t;
  }

  lemma SpliceOneMore(s: seq<Byte>, at: nat, t: seq<Byte>, i: nat)
    requires at + |t| <= |s| && i < |t|
    ensures Splice(s, at, t[..i])[at + i := t[i]] == Splice(s, at, t[..i + 1])
  {
  }

  /** `encode_to` */
  method EncodeTo(symbol: EncodingSymbol, buf: array<Byte>, at: nat, maxLength: nat) returns (n: nat)
    requires |symbol.data| <= maxLength ==> at + |symbol.data| <= buf.Length
    modifies buf
    ensures n == if |symbol.data| <= maxLength then |symbol.data| else 0
    ensures buf[..] == if |symbol.data| <= maxLength then Splice(old(buf[..]), at, symbol.data) else old(buf[..])
  {
    if |symbol.data| <= maxLength {
      CopyInto(symbol.data, buf, at);
      return |symbol.data|;
    }
    return 0;
  }

  /** `to_payload`: writes the payload at `at` and returns its length. */
  method ToPayload(symbols: seq<EncodingSymbol>, buf: array<Byte>, at: nat, dataLen: nat, oti: FecOti)
    returns (len: Result<nat>)
    requires symbols != [] && at + dataLen <= buf.Length
    modifies buf
    ensures len.Ok? <==> oti.encodingId == COMPACT_NO_CODE && dataLen >= 4
    ensures len.Ok? ==> len.value == |Payload(symbols, dataLen - 4)|
    ensures len.Ok? ==> buf[..] == Splice(old(buf[..]), at, Payload(symbols, dataLen - 4))
    ensures len.Err? ==> buf[..] == old(buf[..])
  {
    if !(oti.encodingId == COMPACT_NO_CODE && dataLen >= 4) {
      return Err("Only compact no-code FEC is supported");
    }
    ghost var written := Be16(symbols[0].sourceBlockNumber) + Be16(symbols[0].id);
    CopyInto(Be16(symbols[0].sourceBlockNumber) + Be16(symbols[0].id), buf, at);
    var ptr, room, i := at + 4, dataLen - 4, 0;
    assert symbols[0..] == symbols;
    while i < |symbols|
      invariant 0 <= i <= |symbols| && room >= 0 && ptr == at + |written| && |written| + room == dataLen
      invariant buf[..] == Splice(old(buf[..]), at, written)
      invariant written + Body(symbols[i..], room) == Payload(symbols, dataLen - 4)
    {
      if |symbols[i].data| <= room {
        ghost var before := buf[..];
        var n := EncodeTo(symbols[i], buf, ptr, room);
        SpliceAppend(old(buf[..]), at, written, symbols[i].data);
        BodyStep(symbols, i, room, written);
        written := written + symbols[i].data;
        room, ptr, i := room - n, ptr + n, i + 1;
      } else {
        break;
      }
    }
    assert Body(symbols[i..], room) == [];
    assert written + [] == written;
    return Ok(ptr - at);
  }

  lemma SpliceAppend(s: seq<Byte>, at: nat, t: seq<Byte>, u: seq<Byte>)
    requires at + |t| + |u| <= |s|
    ensures Splice(Splice(s, at, t), at + |t|, u) == Splice(s, at, t + u)
  {
  }

  lemma BodyStep(symbols: seq<EncodingSymbol>, i: nat, room: nat, written: seq<Byte>)
    requires i < |symbols| && |symbols[i].data| <= room
    ensures written + Body(symbols[i..], room) ==
            written + symbols[i].data + Body(symbols[i + 1..], room - |symbols[i].data|)
  {
    assert symbols[i..][1..] == symbols[i + 1..];
  }

  // ---------------------------------------------------------------------------------------------
  // Reading
  // ---------------------------------------------------------------------------------------------

  /** `n` bytes of the receive buffer from `at` on; bytes past its end read as 0. */
  function ReadBytes(buf: seq<Byte>, at: nat, n: nat): (s: seq<Byte>)
    ensures |s| == n
  {
    seq(n, i requires 0 <= i => if at + i < |buf| then buf[at + i] else 0)
  }

  /**
   * Symbol `i` of a payload of `dataLen` bytes at the start of `buf`.  Every symbol is read with the
   * length the first one has: the remaining length is not counted down.
   */
  function ParsedSymbol(buf: seq<Byte>, dataLen: nat, e: nat, i: nat): EncodingSymbol
    requires 4 <= dataLen && 4 <= |buf|
  {
    EncodingSymbol(Read16(buf, 2) + i, Read16(buf, 0), ReadBytes(buf, 4 + i * e, Min(dataLen - 4, e)))
  }

  function ParsedSymbols(buf: seq<Byte>, dataLen: nat, e: nat): seq<EncodingSymbol>
    requires 4 <= dataLen && 4 <= |buf| && e > 0
  {
    seq(CeilDiv(dataLen - 4, e), i requires 0 <= i => ParsedSymbol(buf, dataLen, e, i))
  }

  /** `from_payload` */
  method FromPayload(buf: seq<Byte>, dataLen: nat, oti: FecOti, encoding: ContentEncoding, div: Division)
    returns (r: Result<seq<EncodingSymbol>>)
    requires 4 <= dataLen <= |buf| && dataLen < FLOAT_PRECISION && oti.encodingSymbolLength > 0
    requires Faithful(div, FLOAT_PRECISION)
    ensures r.Ok? <==> (encoding == NONE || encoding == GZIP) && oti.encodingId == COMPACT_NO_CODE
    ensures r.Ok? ==> r.value == ParsedSymbols(buf, dataLen, oti.encodingSymbolLength)
  {
    if encoding != NONE && encoding != GZIP {
      return Err("Only unencoded or gzipped content is supported");
    }
    if oti.encodingId != COMPACT_NO_CODE {
      return Err("Only compact no-code FEC is supported");
    }
    var sourceBlockNumber, encodingSymbolId := Read16(buf, 0), Read16(buf, 2) as nat;
    var remaining, e := dataLen - 4, oti.encodingSymbolLength;
    RoundedQuotientExact(div(remaining, e), remaining, e, FLOAT_PRECISION);
    var nofSymbols := Ceil(div(remaining, e));
    var symbols := [];
    var ptr := 4;
    for i := 0 to nofSymbols
      invariant ptr == 4 + i * e && encodingSymbolId == Read16(buf, 2) + i
      invariant |symbols| == i && forall x :: 0 <= x < i ==> symbols[x] == ParsedSymbol(buf, dataLen, e, x)
    {
      symbols := symbols +
        [EncodingSymbol(encodingSymbolId, sourceBlockNumber, ReadBytes(buf, ptr, Min(remaining, e)))];
      NextOffset(i, e);
      ptr := ptr + e;
      encodingSymbolId := encodingSymbolId + 1;
    }
    return Ok(symbols);
  }

  lemma NextOffset(i: nat, e: nat)
    ensures (i + 1) * e == i * e + e
  {
  }

  // ---------------------------------------------------------------------------------------------
  // Round trip
  // ---------------------------------------------------------------------------------------------

  /** Consecutive symbols of one block, all of length `e` but for the last, which has 1 to `e` bytes. */
  ghost predicate IsRun(symbols: seq<EncodingSymbol>, e: nat) {
    && symbols != []
    && symbols[0].id < 0x1_0000 && symbols[0].sourceBlockNumber < 0x1_0000
    && (forall i :: 0 <= i < |symbols| ==>
          && symbols[i].sourceBlockNumber == symbols[0].sourceBlockNumber
          && symbols[i].id == symbols[0].id + i)
    && (forall i :: 0 <= i < |symbols| - 1 ==> |symbols[i].data| == e)
    && 0 < |symbols[|symbols| - 1].data| <= e
  }

  /** What the symbols of a run take up. */
  function RunLength(symbols: seq<EncodingSymbol>, e: nat): nat
    requires symbols != []
  {
    (|symbols| - 1) * e + |symbols[|symbols| - 1].data|
  }

  /** A run that fits is written whole. */
  lemma {:induction false} RunIsWritten(symbols: seq<EncodingSymbol>, e: nat, room: nat)
    requires symbols != [] && RunLength(symbols, e) <= room
    requires forall i :: 0 <= i < |symbols| - 1 ==> |symbols[i].data| == e
    ensures |Body(symbols, room)| == RunLength(symbols, e)
  {
    if |symbols| == 1 {
      assert Body(symbols[1..], room - |symbols[0].data|) == [];
    } else {
      RestOfRun(|symbols| - 1, e);
      RunIsWritten(symbols[1..], e, room - e);
    }
  }

  lemma RestOfRun(n: nat, e: nat)
    requires n > 0
    ensures n * e == e + (n - 1) * e && (n - 1) * e >= 0
  {
  }

  /** Each symbol of a written run starts at its multiple of the symbol length. */
  lemma {:induction false} RunIsWrittenAt(symbols: seq<EncodingSymbol>, e: nat, room: nat, i: nat)
    requires i < |symbols| && RunLength(symbols, e) <= room
    requires forall i :: 0 <= i < |symbols| - 1 ==> |symbols[i].data| == e
    ensures i * e + |symbols[i].data| <= |Body(symbols, room)|
    ensures Body(symbols, room)[i * e..i * e + |symbols[i].data|] == symbols[i].data
  {
    hide RunLength;
    RunIsWritten(symbols, e, room);
    if i == 0 {
      FirstIsWritten(symbols, e, room);
    } else {
      RestOfSymbols(symbols, e, room);
      RestOfRun(i, e);
      RunIsWrittenAt(symbols[1..], e, room - e, i - 1);
      SliceAfter(symbols[0].data, Body(symbols[1..], room - e), (i - 1) * e, |symbols[i].data|);
    }
  }

  lemma FirstIsWritten(symbols: seq<EncodingSymbol>, e: nat, room: nat)
    requires symbols != [] && RunLength(symbols, e) <= room && (|symbols| > 1 ==> |symbols[0].data| == e)
    ensures symbols[0].data <= Body(symbols, room)
  {
    if |symbols| > 1 {
      RestOfRun(|symbols| - 1, e);
    }
  }

  lemma RestOfSymbols(symbols: seq<EncodingSymbol>, e: nat, room: nat)
    requires |symbols| > 1 && RunLength(symbols, e) <= room && |symbols[0].data| == e
    ensures RunLength(symbols, e) == e + RunLength(symbols[1..], e)
    ensures Body(symbols, room) == symbols[0].data + Body(symbols[1..], room - e)
  {
    RestOfRun(|symbols| - 1, e);
  }

  lemma SliceAfter(head: seq<Byte>, tail: seq<Byte>, at: nat, n: nat)
    requires at + n <= |tail|
    ensures (head + tail)[|head| + at..|head| + at + n] == tail[at..at + n]
  {
  }

  /** The payload of a run, followed by whatever else is in the receive buffer. */
  function Carried(symbols: seq<EncodingSymbol>, room: nat, stale: seq<Byte>): seq<Byte>
    requires symbols != []
  {
    Payload(symbols, room) + stale
  }

  lemma ParsedHeader(symbols: seq<EncodingSymbol>, e: nat, room: nat, stale: seq<Byte>)
    requires IsRun(symbols, e)
    ensures var buf := Carried(symbols, room, stale);
      Read16(buf, 0) == symbols[0].sourceBlockNumber && Read16(buf, 2) == symbols[0].id
  {
    var buf := Carried(symbols, room, stale);
    assert buf[0..2] == Be16(symbols[0].sourceBlockNumber);
    assert buf[2..4] == Be16(symbols[0].id);
    ReadBe16(buf, 0, symbols[0].sourceBlockNumber);
    ReadBe16(buf, 2, symbols[0].id);
  }

  lemma ParsedSymbolAt(symbols: seq<EncodingSymbol>, e: nat, room: nat, stale: seq<Byte>, i: nat)
    requires IsRun(symbols, e) && RunLength(symbols, e) <= room && i < |symbols|
    ensures ReadBytes(Carried(symbols, room, stale), 4 + i * e, |symbols[i].data|) == symbols[i].data
  {
    RunIsWrittenAt(symbols, e, room, i);
    var body := Body(symbols, room);
    var header := Be16(symbols[0].sourceBlockNumber) + Be16(symbols[0].id);
    ReadInside(header, body, stale, i * e, |symbols[i].data|);
  }

  lemma ReadInside(header: seq<Byte>, body: seq<Byte>, stale: seq<Byte>, at: nat, n: nat)
    requires at + n <= |body|
    ensures ReadBytes(header + body + stale, |header| + at, n) == body[at..at + n]
  {
  }

  lemma RunCount(n: nat, e: nat, last: nat)
    requires n > 0 && 0 < last <= e
    ensures CeilDiv((n - 1) * e + last, e) == n
    ensures n > 1 ==> (n - 1) * e + last >= e
  {
    assert n * e == (n - 1) * e + e;
    if n > 1 {
      MulMonotone(e, 1, n - 1);
    }
    CeilDivUnique((n - 1) * e + last, e, n);
  }

  /**
   * Reading back a written run gives exactly the run, if and only if it has one symbol or its last
   * symbol has full length; either way the written length is 4 plus the lengths of the symbols.
   */
  lemma PayloadRoundTrip(symbols: seq<EncodingSymbol>, e: nat, room: nat, stale: seq<Byte>)
    requires e > 0 && IsRun(symbols, e) && RunLength(symbols, e) <= room
    ensures |Payload(symbols, room)| == 4 + RunLength(symbols, e)
    ensures ParsedSymbols(Carried(symbols, room, stale), |Payload(symbols, room)|, e) == symbols <==>
            |symbols| == 1 || |symbols[|symbols| - 1].data| == e
  {
    hide Body, Read16, CeilDiv, ReadBytes;
    var n, last := |symbols|, |symbols[|symbols| - 1].data|;
    var buf, length := Carried(symbols, room, stale), |Payload(symbols, room)|;
    RunIsWritten(symbols, e, room);
    ParsedHeader(symbols, e, room, stale);
    RunCount(n, e, last);
    var parsed := ParsedSymbols(buf, length, e);
    if n == 1 || last == e {
      forall i | 0 <= i < n
        ensures parsed[i] == symbols[i]
      {
        ParsedSymbolAt(symbols, e, room, stale, i);
      }
    } else {
      assert |parsed[n - 1].data| == e;
    }
  }

  // ---------------------------------------------------------------------------------------------
  // Nothing is requested that is not carried
  // ---------------------------------------------------------------------------------------------

  /** The number of symbols `get_next_symbols` asks for. */
  function RequestedSymbols(maxSize: nat, e: nat): nat
    requires maxSize >= 4 && e > 0
  {
    CeilDiv(maxSize - 4, e)
  }

  /** All requested symbols fit at full length in the payload the packet offers, exactly when ... */
  lemma RequestedFit(maxSize: nat, e: nat)
    requires maxSize >= 4 && e > 4
    ensures RequestedSymbols(maxSize, e) * e <= maxSize <==> maxSize % e <= 4
  {
    var q, r := maxSize / e, maxSize % e;
    QuotientAndRemainder(maxSize, e);
    Distribute(e, q);
    if r <= 4 {
      CeilDivUnique(maxSize - 4, e, q);
    } else {
      CeilDivUnique(maxSize - 4, e, q + 1);
    }
  }

  lemma QuotientAndRemainder(n: nat, e: nat)
    requires e > 0
    ensures n == e * (n / e) + n % e && n % e < e
  {
  }

  lemma Distribute(e: nat, q: nat)
    ensures e * (q + 1) == e * q + e && e * (q - 1) == e * q - e && (q > 0 ==> e * q >= e)
    ensures q * e == e * q && (q + 1) * e == e * (q + 1)
  {
  }

  /** A batch of full-length symbols is written whole exactly when it fits. */
  lemma {:induction false} BatchCarried(symbols: seq<EncodingSymbol>, e: nat, room: nat)
    requires e > 0 && forall i :: 0 <= i < |symbols| ==> |symbols[i].data| == e
    ensures |Body(symbols, room)| == |symbols| * e <==> |symbols| * e <= room
  {
    if symbols != [] {
      assert |symbols| * e == |symbols[1..]| * e + e;
      if e <= room {
        BatchCarried(symbols[1..], e, room - e);
      } else {
        MulMonotone(e, 1, |symbols|);
      }
    }
  }

  /** As constructed (symbol length equal to the payload size) one symbol is requested, and it is carried. */
  lemma ConstructedSizeCarriesOne(e: nat, symbol: EncodingSymbol)
    requires e > 4 && |symbol.data| <= e
    ensures RequestedSymbols(e, e) == 1
    ensures Body([symbol], e) == symbol.data
  {
    CeilDivUnique(e - 4, e, 1);
    assert [symbol][1..] == [];
  }

  /** The bytes of all symbols, one after the other. */
  function AllData(symbols: seq<EncodingSymbol>): seq<Byte> {
    if symbols == [] then [] else symbols[0].data + AllData(symbols[1..])
  }

  /** A payload carries all its symbols, if and only if there is room for all of them. */
  lemma {:induction false} BodyCarriesAll(symbols: seq<EncodingSymbol>, room: nat)
    ensures Body(symbols, room) == AllData(symbols) <==> |AllData(symbols)| <= room
    decreases |symbols|
  {
    if symbols != [] && |symbols[0].data| <= room {
      var head, body, rest := symbols[0].data, Body(symbols[1..], room - |symbols[0].data|), AllData(symbols[1..]);
      BodyCarriesAll(symbols[1..], room - |head|);
      if head + body == head + rest {
        assert body == (head + body)[|head|..] == (head + rest)[|head|..] == rest;
      }
    }
  }

  /** Otherwise the symbols before the first that does not fit behind them; nothing after that one is carried. */
  lemma {:induction false} LeadingSymbolsCarried(symbols: seq<EncodingSymbol>, room: nat, n: nat)
    requires n < |symbols| && |AllData(symbols[..n])| <= room < |AllData(symbols[..n])| + |symbols[n].data|
    ensures Body(symbols, room) == AllData(symbols[..n])
    decreases n
  {
    if n > 0 {
      var rest := symbols[1..];
      assert symbols[..n][1..] == rest[..n - 1] && symbols[..n][0] == symbols[0];
      LeadingSymbolsCarried(rest, room - |symbols[0].data|, n - 1);
    }
  }

  /**
   * After a tunnel is removed the payload size is 28 above the symbol length: two symbols are requested, and of two
   * that do not both fit the packet carries the first.
   */
  lemma UntunnelledSizeDropsSecondSymbol(e: nat, a: EncodingSymbol, b: EncodingSymbol)
    requires e >= 24 && |a.data| <= e && |a.data| + |b.data| > e + 28
    ensures RequestedSymbols(e + 28, e) == 2
    ensures Body([a, b], e + 28) == a.data
  {
    assert e * 2 == e + e && e * (2 - 1) == e;
    CeilDivUnique(e + 24, e, 2);
    assert [a, b][1..] == [b];
  }

  /**
   * After a tunnel is added the payload size is 28 below the symbol length: one symbol is still requested,
   * but a full one no longer fits, so the packet carries none of it.
   */
  lemma TunnelledSizeDropsFullSymbol(e: nat, symbol: EncodingSymbol)
    requires e > 32 && |symbol.data| == e
    ensures RequestedSymbols(e - 28, e) == 1
    ensures Body([symbol], e - 28) == []
  {
    CeilDivUnique(e - 32, e, 1);
  }
}
