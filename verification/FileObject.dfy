/** The mutable `File` object of src/File.cpp; each method is proved to do what module Files says. */
module FileObject {
  import opened Bytes
  import opened Arithmetic
  import opened Flute
  import opened Partitioning
  import opened EncodingSymbols
  import opened Files
  import Base64

  class File {
    var meta: FileEntry
    var sourceBlocks: seq<SourceBlock>
    var complete: bool
    var partition: Partition
    var buffer: array<Byte>
    var fdtInstanceId: U16
    const md5: Md5
    const receivedAt: U64

    ghost function State(): FileState
      reads this, buffer
    {
      FileState(meta, sourceBlocks, complete, buffer[..], fdtInstanceId)
    }

    /** For reception: the buffer is allocated and keeps whatever the memory held. */
    constructor Receive(entry: FileEntry, md5: Md5, div: Division, memory: nat -> Byte, now: U64)
      requires Supported(entry.fecOti) && Faithful(div, DOUBLE_PRECISION)
      ensures fresh(buffer) && this.md5 == md5
      ensures State() == NewFile(entry, Fill(entry.fecOti.transferLength, memory)) && receivedAt == now
    {
      this.md5, receivedAt := md5, now;
      meta := entry;
      complete := false;
      fdtInstanceId := 0;
      buffer := new Byte[entry.fecOti.transferLength](i requires 0 <= i => memory(i));
      new;
      assert buffer[..] == Fill(entry.fecOti.transferLength, memory);
      CalculatePartitioning(div);
      CreateBlocks();
    }

    /** For transmission: the transfer length is the length of the data, and its digest is announced. */
    constructor Send(
      toi: U32, oti: FecOti, contentLocation: string, contentType: string, expires: U64, data: seq<Byte>, md5: Md5,
      div: Division)
      requires oti.encodingId == COMPACT_NO_CODE
      requires SupportedData(oti, data) && Faithful(div, DOUBLE_PRECISION)
      ensures fresh(buffer) && this.md5 == md5
      ensures State() == NewFile(DataEntry(md5, toi, oti, contentLocation, contentType, expires, data), data)
    {
      var digest := Base64.EncodeBytes(md5(data), false);
      this.md5 := md5;
      meta := FileEntry(toi, contentLocation, |data| % 0x1_0000_0000, digest, contentType, expires,
                        oti.(transferLength := |data|), false, None, "", "");
      complete := false;
      fdtInstanceId := 0;
      buffer := new Byte[|data|](i requires 0 <= i < |data| => data[i]);
      new;
      assert buffer[..] == data;
      CalculatePartitioning(div);
      CreateBlocks();
    }

    /** For transmission of a file description: its entry, with the length of its data. */
    constructor SendDescribed(entry: FileEntry, data: seq<Byte>, md5: Md5, div: Division)
      requires entry.fecOti.encodingId == COMPACT_NO_CODE && entry.contentEncoding == ""
      requires SupportedData(entry.fecOti, data) && Faithful(div, DOUBLE_PRECISION)
      ensures fresh(buffer) && this.md5 == md5
      ensures State() == NewFile(entry.(fecOti := Sized(entry.fecOti, data)), data)
    {
      this.md5 := md5;
      meta := entry.(fecOti := entry.fecOti.(transferLength := |data|));
      complete := false;
      fdtInstanceId := 0;
      buffer := new Byte[|data|](i requires 0 <= i < |data| => data[i]);
      new;
      assert buffer[..] == data;
      CalculatePartitioning(div);
      CreateBlocks();
    }

    /** `calculate_partitioning`, in floating point. */
    method CalculatePartitioning(div: Division)
      requires Supported(meta.fecOti) && Faithful(div, DOUBLE_PRECISION)
      modifies this`partition
      ensures partition == PartitionFor(meta.fecOti)
    {
      var length, e, b := meta.fecOti.transferLength, meta.fecOti.encodingSymbolLength,
          meta.fecOti.maxSourceBlockLength;
      RoundedQuotientExact(div(length, e), length, e, DOUBLE_PRECISION);
      var symbols := Ceil(div(length, e));
      RoundedQuotientExact(div(symbols, b), symbols, b, DOUBLE_PRECISION);
      var blocks := Ceil(div(symbols, b));
      if blocks == 0 {
        // 0 / 0: the remaining counts are converted from NaN and never used
        CeilDivBounds(symbols, b);
        partition := Partition(0, 0, 0, 0, 0);
      } else {
        RoundedQuotientExact(div(symbols, blocks), symbols, blocks, DOUBLE_PRECISION);
        var large, small := Ceil(div(symbols, blocks)), div(symbols, blocks).Floor;
        DivMod(symbols, blocks);
        partition := Partition(symbols, blocks, large, small, symbols - small * blocks);
      }
    }

    /** `create_blocks` */
    method CreateBlocks()
      requires Supported(meta.fecOti) && partition == PartitionFor(meta.fecOti)
      modifies this`sourceBlocks
      ensures sourceBlocks == Layout(meta.fecOti)
    {
      hide LayoutBlock, PartitionOf, Offset;
      var oti := meta.fecOti;
      var bufferPtr, remainingSize, number := 0, oti.transferLength as int, 0;
      sourceBlocks := [];
      Boundary(0);
      StartsAtZero();
      while remainingSize > 0
        invariant 0 <= remainingSize && bufferPtr + remainingSize == oti.transferLength
        invariant bufferPtr == Min(oti.transferLength, Offset(oti.encodingSymbolLength, partition.BlockStart(number)))
        invariant 0 <= number <= partition.blocks && (remainingSize > 0 <==> number < partition.blocks)
        invariant |sourceBlocks| == number
        invariant forall k :: 0 <= k < number ==> sourceBlocks[k] == LayoutBlock(oti, partition, k)
        decreases remainingSize
      {
        Boundary(number);
        var block, ptr, remaining := CreateBlock(number, bufferPtr, remainingSize);
        sourceBlocks := sourceBlocks + [block];
        bufferPtr, remainingSize, number := ptr, remaining, number + 1;
        Boundary(number);
      }
    }

    lemma StartsAtZero()
      ensures Offset(meta.fecOti.encodingSymbolLength, partition.BlockStart(0)) == 0
    {
    }

    lemma Boundary(number: nat)
      requires Supported(meta.fecOti) && partition == PartitionFor(meta.fecOti)
      ensures Offset(meta.fecOti.encodingSymbolLength, partition.BlockStart(number)) < meta.fecOti.transferLength <==>
              number < partition.blocks
    {
      var oti := meta.fecOti;
      if oti.transferLength > 0 {
        BlockStartsInside(oti.transferLength, oti.encodingSymbolLength, oti.maxSourceBlockLength, number);
      } else {
        CeilDivBounds(0, oti.encodingSymbolLength);
        CeilDivBounds(0, oti.maxSourceBlockLength);
      }
    }

    /** The inner loop of `create_blocks`; the bounds assertion of the source is the one in its body. */
    method CreateBlock(number: nat, start: nat, left: nat)
      returns (block: SourceBlock, bufferPtr: nat, remainingSize: nat)
      requires Supported(meta.fecOti) && partition == PartitionFor(meta.fecOti)
      requires number < partition.blocks && left > 0 && start + left == meta.fecOti.transferLength
      requires start == Offset(meta.fecOti.encodingSymbolLength, partition.BlockStart(number))
      ensures block == LayoutBlock(meta.fecOti, partition, number)
      ensures bufferPtr + remainingSize == meta.fecOti.transferLength && remainingSize < left
      ensures bufferPtr == Min(meta.fecOti.transferLength,
                               Offset(meta.fecOti.encodingSymbolLength, partition.BlockStart(number + 1)))
    {
      var oti, e, length := meta.fecOti, meta.fecOti.encodingSymbolLength, meta.fecOti.transferLength;
      var blockLength := if number < partition.nLarge then partition.large else partition.small;
      ghost var first := partition.BlockStart(number);
      var symbols: seq<Symbol> := [];
      bufferPtr, remainingSize := start, left;
      PartitionMeetsRfc5052(length, e, oti.maxSourceBlockLength);
      BlockStartNext(partition, number);
      var i := 0;
      while i < blockLength
        invariant 0 <= i <= blockLength && |symbols| == i
        invariant bufferPtr + remainingSize == length && remainingSize <= left && (i > 0 ==> remainingSize < left)
        invariant i < blockLength ==> bufferPtr == Offset(e, first + i) && remainingSize > 0
        invariant i == blockLength ==> bufferPtr == Min(length, Offset(e, first + i))
        invariant forall j :: 0 <= j < i ==> symbols[j] == LayoutSymbol(oti, partition, number, j)
      {
        IndexInRange(partition, CeilDiv(length, e), oti.maxSourceBlockLength, number, i);
        SymbolFits(length, e, first + i);
        var symbolLength := Min(remainingSize, e);
        assert bufferPtr + symbolLength <= length;
        symbols := symbols + [Symbol(bufferPtr, symbolLength, false, false)];
        remainingSize := remainingSize - symbolLength;
        bufferPtr := bufferPtr + symbolLength;
        i := i + 1;
        NextPosition(e, first, i);
        PositionInside(length, e, first + i);
        if remainingSize <= 0 {
          if i < blockLength {
            IndexInRange(partition, CeilDiv(length, e), oti.maxSourceBlockLength, number, i);
          }
          break;
        }
      }
      block := SourceBlock(false, symbols);
    }

    lemma NextPosition(e: nat, first: nat, i: nat)
      requires i > 0
      ensures Offset(e, first + i) == Offset(e, first + i - 1) + e
    {
      assert e * (first + i) == e * (first + i - 1) + e;
    }

    // -------------------------------------------------------------------------------------------
    // Completion
    // -------------------------------------------------------------------------------------------

    /** `check_source_block_completion` */
    method CheckSourceBlockCompletion(k: nat)
      requires k < |sourceBlocks|
      modifies this`sourceBlocks
      ensures sourceBlocks == old(sourceBlocks)[k := CheckBlock(old(sourceBlocks)[k])]
    {
      var all := true;
      for j := 0 to |sourceBlocks[k].symbols|
        invariant all == forall i :: 0 <= i < j ==> sourceBlocks[k].symbols[i].complete
        invariant sourceBlocks == old(sourceBlocks)
      {
        all := all && sourceBlocks[k].symbols[j].complete;
      }
      sourceBlocks := sourceBlocks[k := sourceBlocks[k].(complete := all)];
    }

    /** `check_file_completion`; a thrown error is returned. */
    method CheckFileCompletion() returns (thrown: Option<string>)
      modifies this`sourceBlocks, this`complete
      ensures OutcomeOf(State(), thrown) == CheckFile(md5, old(State()))
      ensures complete ==> forall k :: 0 <= k < |old(sourceBlocks)| ==> old(sourceBlocks)[k].complete
      ensures thrown.None? && complete && meta.contentMd5 != "" && meta.contentEncoding == "" ==>
                && Base64.Decode(meta.contentMd5).Ok?
                && md5(buffer[..]) <= Base64.Decode(meta.contentMd5).value
      ensures thrown.None? && !complete
                && (forall k :: 0 <= k < |old(sourceBlocks)| ==> old(sourceBlocks)[k].complete) ==>
                && meta.contentMd5 != "" && meta.contentEncoding == ""
                && forall k :: 0 <= k < |sourceBlocks| ==>
                     && !sourceBlocks[k].complete
                     && forall j :: 0 <= j < |sourceBlocks[k].symbols| ==> !sourceBlocks[k].symbols[j].complete
      ensures meta.contentMd5 == "" || meta.contentEncoding != "" ==>
                && thrown.None? && sourceBlocks == old(sourceBlocks)
                && (complete <==> forall k :: 0 <= k < |sourceBlocks| ==> sourceBlocks[k].complete)
    {
      complete := true;
      for k := 0 to |sourceBlocks|
        invariant sourceBlocks == old(sourceBlocks)
        invariant complete == forall i :: 0 <= i < k ==> sourceBlocks[i].complete
      {
        complete := complete && sourceBlocks[k].complete;
      }
      if complete && meta.contentMd5 != "" && meta.contentEncoding == "" {
        var hash := md5(buffer[..]);
        var contentMd5 := Base64.DecodeText(meta.contentMd5, false);
        if contentMd5.Err? {
          return Some(contentMd5.what);
        }
        if !DigestMatches(contentMd5.value, hash) {
          ResetFlags();
          complete := false;
        }
      }
      return None;
    }

    /** The digest does not match: start over. */
    method ResetFlags()
      modifies this`sourceBlocks
      ensures sourceBlocks == Reset(old(sourceBlocks))
    {
      for k := 0 to |sourceBlocks|
        invariant |sourceBlocks| == |old(sourceBlocks)|
        invariant forall i :: 0 <= i < k ==> sourceBlocks[i] == ResetBlock(old(sourceBlocks)[i])
        invariant forall i :: k <= i < |sourceBlocks| ==> sourceBlocks[i] == old(sourceBlocks)[i]
      {
        sourceBlocks := sourceBlocks[k := ResetBlock(sourceBlocks[k])];
      }
    }

    // -------------------------------------------------------------------------------------------
    // Receiving
    // -------------------------------------------------------------------------------------------

    /** `put_symbol` */
    method PutSymbol(symbol: EncodingSymbol) returns (thrown: Option<string>)
      modifies this`sourceBlocks, this`complete, buffer
      ensures buffer == old(buffer)
      ensures OutcomeOf(State(), thrown) == Files.PutSymbol(md5, old(State()), symbol)
    {
      thrown := Place(symbol);
      if thrown.Some? {
        return;
      }
      ghost var placed := State();
      var k := symbol.sourceBlockNumber;
      var target := sourceBlocks[k].symbols[symbol.id];
      if !target.complete {
        DecodeTo(symbol.data, target);
        sourceBlocks := sourceBlocks[k := sourceBlocks[k].(
          symbols := sourceBlocks[k].symbols[symbol.id := target.(complete := true)])];
        CheckSourceBlockCompletion(k);
        assert sourceBlocks == Updated(placed, k, symbol.id, target.(complete := true)).blocks;
        thrown := CheckFileCompletion();
      }
    }

    /** The range checks of `put_symbol` and the entries its map accesses insert. */
    method Place(symbol: EncodingSymbol) returns (thrown: Option<string>)
      modifies this`sourceBlocks
      ensures OutcomeOf(State(), thrown) == Placed(old(State()), symbol)
    {
      if symbol.sourceBlockNumber > |sourceBlocks| {
        return Some("Source Block number too high");
      }
      var k := symbol.sourceBlockNumber;
      if k == |sourceBlocks| {
        sourceBlocks := sourceBlocks + [SourceBlock(false, [])];
      }
      if symbol.id > |sourceBlocks[k].symbols| {
        return Some("Encoding Symbol ID too high");
      }
      if symbol.id == |sourceBlocks[k].symbols| {
        sourceBlocks := sourceBlocks[k := sourceBlocks[k].(
          symbols := sourceBlocks[k].symbols + [Symbol(0, 0, false, false)])];
      }
      return None;
    }

    /** `decode_to` */
    method DecodeTo(data: seq<Byte>, place: Symbol)
      modifies buffer
      ensures buffer[..] == Decoded(old(buffer[..]), place, data)
    {
      if |data| <= place.length && 0 <= place.offset <= buffer.Length - |data| {
        CopyInto(data, buffer, place.offset);
      }
    }

    // -------------------------------------------------------------------------------------------
    // Sending
    // -------------------------------------------------------------------------------------------

    /** `get_next_symbols` */
    method GetNextSymbols(maxSize: nat, div: Division) returns (symbols: seq<EncodingSymbol>)
      requires 4 <= maxSize < FLOAT_PRECISION && meta.fecOti.encodingSymbolLength > 0
      requires Faithful(div, FLOAT_PRECISION)
      modifies this`sourceBlocks
      ensures (State(), symbols) ==
              NextBatch(old(State()), RequestedSymbols(maxSize, meta.fecOti.encodingSymbolLength))
    {
      hide NextBatch, IdleFrom;
      var e := meta.fecOti.encodingSymbolLength;
      RoundedQuotientExact(div(maxSize - 4, e), maxSize - 4, e, FLOAT_PRECISION);
      var nofSymbols := Ceil(div(maxSize - 4, e));
      var k := 0;
      symbols := [];
      ghost var goal := NextBatch(State(), nofSymbols);
      PrependNothing(goal);
      while k < |sourceBlocks|
        invariant |symbols| <= nofSymbols && 0 <= k <= |sourceBlocks|
        invariant goal == Prepend(symbols, NextBatch(State(), nofSymbols - |symbols|))
        invariant |symbols| < nofSymbols ==> IdleFrom(sourceBlocks, 0, 0) == IdleFrom(sourceBlocks, k, 0)
      {
        if |symbols| >= nofSymbols {
          break;
        }
        if !sourceBlocks[k].complete {
          var more := TakeFromBlock(k, nofSymbols - |symbols|);
          PrependTwice(symbols, more, NextBatch(State(), nofSymbols - |symbols| - |more|));
          symbols := symbols + more;
        } else {
          CompleteBlockSkipped(sourceBlocks, k, 0);
        }
        k := k + 1;
      }
      NothingLeft(State(), nofSymbols - |symbols|, k);
      PrependNothing(NextBatch(State(), nofSymbols - |symbols|));
    }

    static lemma NothingLeft(f: FileState, n: nat, k: nat)
      requires n > 0 ==> k >= |f.blocks| && IdleFrom(f.blocks, 0, 0) == IdleFrom(f.blocks, k, 0)
      ensures NextBatch(f, n) == (f, [])
    {
    }

    /** The inner loop of `get_next_symbols`: up to `room` idle symbols of block `k`. */
    method TakeFromBlock(k: nat, room: nat) returns (symbols: seq<EncodingSymbol>)
      requires k < |sourceBlocks| && !sourceBlocks[k].complete && room > 0
      requires IdleFrom(sourceBlocks, 0, 0) == IdleFrom(sourceBlocks, k, 0)
      modifies this`sourceBlocks
      ensures |symbols| <= room && |sourceBlocks| == |old(sourceBlocks)|
      ensures NextBatch(old(State()), room) == Prepend(symbols, NextBatch(State(), room - |symbols|))
      ensures |symbols| < room ==> IdleFrom(sourceBlocks, 0, 0) == IdleFrom(sourceBlocks, k + 1, 0)
    {
      var j := 0;
      symbols := [];
      PrependNothing(NextBatch(State(), room));
      while j < |sourceBlocks[k].symbols|
        invariant |symbols| <= room && k < |sourceBlocks| == |old(sourceBlocks)|
        invariant 0 <= j <= |sourceBlocks[k].symbols| && !sourceBlocks[k].complete
        invariant NextBatch(old(State()), room) == Prepend(symbols, NextBatch(State(), room - |symbols|))
        invariant |symbols| < room ==> IdleFrom(sourceBlocks, 0, 0) == IdleFrom(sourceBlocks, k, j)
        decreases |sourceBlocks[k].symbols| - j
      {
        if |symbols| >= room {
          break;
        }
        if !sourceBlocks[k].symbols[j].complete && !sourceBlocks[k].symbols[j].queued {
          ghost var next := NextBatch(Queue(State(), k, j), room - |symbols| - 1);
          TakeIdle(State(), k, j, room - |symbols|);
          PrependTwice(symbols, [SymbolToSend(State(), k, j)], next);
          symbols := symbols + [EncodingSymbol(j, k, BytesOf(buffer[..], sourceBlocks[k].symbols[j]))];
          SetQueued(k, j);
        }
        j := j + 1;
      }
      if |symbols| < room {
        CompleteBlockSkipped(sourceBlocks, k, |sourceBlocks[k].symbols|);
      }
    }

    method SetQueued(k: nat, j: nat)
      requires k < |sourceBlocks| && j < |sourceBlocks[k].symbols|
      modifies this`sourceBlocks
      ensures State() == Queue(old(State()), k, j)
    {
      sourceBlocks := sourceBlocks[k := sourceBlocks[k].(
        symbols := sourceBlocks[k].symbols[j := sourceBlocks[k].symbols[j].(queued := true)])];
    }

    /** `mark_completed` */
    method MarkCompleted(symbols: seq<EncodingSymbol>, success: bool) returns (thrown: Option<string>)
      modifies this`sourceBlocks, this`complete
      ensures OutcomeOf(State(), thrown) == Files.MarkCompleted(md5, old(State()), symbols, success)
    {
      var i := 0;
      while i < |symbols|
        invariant 0 <= i <= |symbols|
        invariant Files.MarkCompleted(md5, old(State()), symbols, success) ==
                  Files.MarkCompleted(md5, State(), symbols[i..], success)
      {
        assert symbols[i..][0] == symbols[i] && symbols[i..][1..] == symbols[i + 1..];
        thrown := MarkOne(symbols[i], success);
        if thrown.Some? {
          return;
        }
        i := i + 1;
      }
      thrown := None;
    }

    /** One round of `mark_completed`. */
    method MarkOne(symbol: EncodingSymbol, success: bool) returns (thrown: Option<string>)
      modifies this`sourceBlocks, this`complete
      ensures OutcomeOf(State(), thrown) == Files.MarkOne(md5, old(State()), symbol, success)
    {
      thrown := None;
      var k := symbol.sourceBlockNumber;
      if k < |sourceBlocks| {
        if symbol.id < |sourceBlocks[k].symbols| {
          var place := sourceBlocks[k].symbols[symbol.id];
          sourceBlocks := sourceBlocks[k := sourceBlocks[k].(
            symbols := sourceBlocks[k].symbols[symbol.id := place.(queued := false, complete := success)])];
        }
        CheckSourceBlockCompletion(k);
        assert symbol.id < |old(sourceBlocks)[k].symbols| ==>
          var was := old(sourceBlocks)[k].symbols[symbol.id];
          sourceBlocks == Updated(old(State()), k, symbol.id, was.(queued := false, complete := success)).blocks;
        thrown := CheckFileCompletion();
      }
    }

    /** What the foreign decoder is given, and what it leaves behind. */
    method Snapshot() returns (f: FileState)
      ensures f == State()
    {
      f := FileState(meta, sourceBlocks, complete, buffer[..], fdtInstanceId);
    }

    method Become(f: FileState)
      modifies this
      ensures State() == f && fresh(buffer)
    {
      meta, sourceBlocks, complete, fdtInstanceId := f.meta, f.blocks, f.complete, f.fdtInstanceId;
      buffer := new Byte[|f.buffer|](i requires 0 <= i < |f.buffer| => f.buffer[i]);
      assert buffer[..] == f.buffer;
    }

    /** `set_fdt_instance_id` keeps 16 bits. */
    method SetFdtInstanceId(id: U32)
      modifies this`fdtInstanceId
      ensures State() == old(State()).(fdtInstanceId := id % 0x1_0000)
    {
      fdtInstanceId := id % 0x1_0000;
    }
  }

  function OutcomeOf(f: FileState, thrown: Option<string>): Outcome<FileState> {
    if thrown.Some? then Threw(f, thrown.value) else Returned(f)
  }
}
