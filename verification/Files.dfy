/**
 * The state of a file being sent or received (include/File.h) and what each operation of src/File.cpp does
 * to it.  The map of source blocks and the maps of their symbols are keyed by consecutive numbers from 0,
 * so they are sequences here; inserting at the next key appends.
 */
module Files {
  import opened Bytes
  import opened Arithmetic
  import opened Flute
  import opened Partitioning
  import opened EncodingSymbols
  import Base64

  datatype Symbol = Symbol(offset: int, length: int, complete: bool, queued: bool)

  datatype SourceBlock = SourceBlock(complete: bool, symbols: seq<Symbol>)

  datatype FileState = FileState(
    meta: FileEntry,
    blocks: seq<SourceBlock>,
    complete: bool,
    buffer: seq<Byte>,
    fdtInstanceId: U16)
  {
    /** Symbol `j` of block `k` exists. */
    predicate Has(k: nat, j: nat) {
      k < |blocks| && j < |blocks[k].symbols|
    }

    function At(k: nat, j: nat): Symbol
      requires Has(k, j)
    {
      blocks[k].symbols[j]
    }
  }

  function SetSymbol(f: FileState, k: nat, j: nat, s: Symbol): FileState
    requires f.Has(k, j)
  {
    f.(blocks := f.blocks[k := f.blocks[k].(symbols := f.blocks[k].symbols[j := s])])
  }

  // ---------------------------------------------------------------------------------------------
  // Cutting an object into blocks and symbols
  // ---------------------------------------------------------------------------------------------

  function PartitionFor(oti: FecOti): Partition
    requires oti.encodingSymbolLength > 0 && oti.maxSourceBlockLength > 0
  {
    PartitionOf(oti.transferLength, oti.encodingSymbolLength, oti.maxSourceBlockLength)
  }

  /**
   * The widths of the source: a length that is exact as a `double`, a 32-bit symbol count, 16-bit block and
   * symbol numbers.
   */
  ghost predicate Supported(oti: FecOti) {
    && oti.encodingSymbolLength > 0 && oti.maxSourceBlockLength > 0
    && oti.transferLength < DOUBLE_PRECISION
    && PartitionFor(oti).symbols < 0x1_0000_0000
    && PartitionFor(oti).blocks <= 0x1_0000 && PartitionFor(oti).large <= 0x1_0000
  }

  /** FEC values with the length of `data`, a 64-bit `size_t`, as transfer length. */
  function Sized(oti: FecOti, data: seq<Byte>): FecOti {
    oti.(transferLength := |data| % 0x1_0000_0000_0000_0000)
  }

  /** Data that can be cut within the widths of the source. */
  ghost predicate SupportedData(oti: FecOti, data: seq<Byte>) {
    |data| < DOUBLE_PRECISION && Supported(Sized(oti, data))
  }

  function LayoutSymbol(oti: FecOti, p: Partition, k: nat, j: nat): Symbol {
    var t, e := p.Index(k, j), oti.encodingSymbolLength;
    Symbol(Offset(e, t), SymbolLength(oti.transferLength, e, t), false, false)
  }

  function LayoutBlock(oti: FecOti, p: Partition, k: nat): SourceBlock {
    SourceBlock(false, seq(p.BlockLength(k), j requires 0 <= j => LayoutSymbol(oti, p, k, j)))
  }

  function Layout(oti: FecOti): seq<SourceBlock>
    requires oti.encodingSymbolLength > 0 && oti.maxSourceBlockLength > 0
  {
    var p := PartitionFor(oti);
    seq(p.blocks, k requires 0 <= k => LayoutBlock(oti, p, k))
  }

  /** A file just constructed over `buffer`. */
  function NewFile(meta: FileEntry, buffer: seq<Byte>): FileState
    requires meta.fecOti.encodingSymbolLength > 0 && meta.fecOti.maxSourceBlockLength > 0
  {
    FileState(meta, Layout(meta.fecOti), false, buffer, 0)
  }

  /** The FDT entry of a file constructed from data; the content length keeps 32 bits. */
  function DataEntry(
    md5: Md5, toi: U32, oti: FecOti, contentLocation: string, contentType: string, expires: U64, data: seq<Byte>)
    : FileEntry
  {
    FileEntry(toi, contentLocation, |data| % 0x1_0000_0000, Base64.Encode(md5(data), false), contentType, expires,
              Sized(oti, data), false, None, "", "")
  }

  // ---------------------------------------------------------------------------------------------
  // Completion
  // ---------------------------------------------------------------------------------------------

  predicate SymbolsComplete(b: SourceBlock) {
    forall j | 0 <= j < |b.symbols| :: b.symbols[j].complete
  }

  predicate BlocksComplete(blocks: seq<SourceBlock>) {
    forall k | 0 <= k < |blocks| :: blocks[k].complete
  }

  /** `check_source_block_completion` */
  function CheckBlock(b: SourceBlock): SourceBlock {
    b.(complete := SymbolsComplete(b))
  }

  /** Symbol `j` of block `k` replaced and the flag of its block checked. */
  function Updated(f: FileState, k: nat, j: nat, s: Symbol): FileState
    requires f.Has(k, j)
  {
    f.(blocks := f.blocks[k := CheckBlock(f.blocks[k].(symbols := f.blocks[k].symbols[j := s]))])
  }

  function ResetSymbol(s: Symbol): Symbol {
    s.(complete := false)
  }

  function ResetBlock(b: SourceBlock): SourceBlock {
    SourceBlock(false, seq(|b.symbols|, j requires 0 <= j < |b.symbols| => ResetSymbol(b.symbols[j])))
  }

  function Reset(blocks: seq<SourceBlock>): seq<SourceBlock> {
    seq(|blocks|, k requires 0 <= k < |blocks| => ResetBlock(blocks[k]))
  }

  /** The file announces a digest of the bytes that are transferred. */
  predicate Gated(meta: FileEntry) {
    meta.contentMd5 != "" && meta.contentEncoding == ""
  }

  /** The first 16 decoded bytes are the digest; too few of them count as a mismatch. */
  predicate DigestMatches(decoded: seq<Byte>, hash: Hash) {
    |decoded| >= 16 && decoded[..16] == hash
  }

  /** `check_file_completion`; decoding the announced digest may throw, with the file already complete. */
  function CheckFile(md5: Md5, f: FileState): Outcome<FileState> {
    if !BlocksComplete(f.blocks) then Returned(f.(complete := false))
    else if !Gated(f.meta) then Returned(f.(complete := true))
    else
      match Base64.Decode(f.meta.contentMd5)
      case Err(what) => Threw(f.(complete := true), what)
      case Ok(decoded) =>
        if DigestMatches(decoded, md5(f.buffer)) then Returned(f.(complete := true))
        else Returned(f.(complete := false, blocks := Reset(f.blocks)))
  }

  // ---------------------------------------------------------------------------------------------
  // Receiving
  // ---------------------------------------------------------------------------------------------

  /** `decode_to`: a symbol that is too long for its place is silently skipped. */
  function Decoded(buffer: seq<Byte>, place: Symbol, data: seq<Byte>): (r: seq<Byte>)
    ensures |r| == |buffer|
  {
    if |data| <= place.length && 0 <= place.offset <= |buffer| - |data| then Splice(buffer, place.offset, data)
    else buffer
  }

  /** Finds the entry of a symbol; an index one past the end inserts an empty entry, as `std::map` does. */
  function Placed(f: FileState, s: EncodingSymbol): (r: Outcome<FileState>)
    ensures r.Returned? ==> r.state.Has(s.sourceBlockNumber, s.id)
  {
    if s.sourceBlockNumber > |f.blocks| then Threw(f, "Source Block number too high")
    else
      var k := s.sourceBlockNumber;
      var blocks := if k == |f.blocks| then f.blocks + [SourceBlock(false, [])] else f.blocks;
      var symbols := blocks[k].symbols;
      if s.id > |symbols| then Threw(f.(blocks := blocks), "Encoding Symbol ID too high")
      else if s.id == |symbols| then
        Returned(f.(blocks := blocks[k := blocks[k].(symbols := symbols + [Symbol(0, 0, false, false)])]))
      else Returned(f.(blocks := blocks))
  }

  /** The entry is marked complete and its block and file are checked, unless it was complete before. */
  function Stored(md5: Md5, f: FileState, s: EncodingSymbol): Outcome<FileState>
    requires f.Has(s.sourceBlockNumber, s.id)
  {
    var k, place := s.sourceBlockNumber, f.At(s.sourceBlockNumber, s.id);
    if place.complete then Returned(f)
    else
      CheckFile(md5, Updated(f.(buffer := Decoded(f.buffer, place, s.data)), k, s.id, place.(complete := true)))
  }

  /** `put_symbol` */
  function PutSymbol(md5: Md5, f: FileState, s: EncodingSymbol): Outcome<FileState> {
    var placed := Placed(f, s);
    if placed.Threw? then placed else Stored(md5, placed.state, s)
  }

  // ---------------------------------------------------------------------------------------------
  // Sending
  // ---------------------------------------------------------------------------------------------

  predicate Idle(blocks: seq<SourceBlock>, k: nat, j: nat)
    requires k < |blocks| && j < |blocks[k].symbols|
  {
    !blocks[k].complete && !blocks[k].symbols[j].complete && !blocks[k].symbols[j].queued
  }

  /** The first idle symbol at or after (k, j) in the order of block and symbol numbers. */
  function IdleFrom(blocks: seq<SourceBlock>, k: nat, j: nat): (r: Option<(nat, nat)>)
    decreases |blocks| - k, if k < |blocks| then |blocks[k].symbols| - j else 0
  {
    if k >= |blocks| then None
    else if j >= |blocks[k].symbols| then IdleFrom(blocks, k + 1, 0)
    else if Idle(blocks, k, j) then Some((k, j))
    else IdleFrom(blocks, k, j + 1)
  }

  /** The bytes of a symbol of the buffer. */
  function BytesOf(buffer: seq<Byte>, place: Symbol): seq<Byte> {
    if 0 <= place.offset && 0 <= place.length && place.offset + place.length <= |buffer| then
      buffer[place.offset..place.offset + place.length]
    else []
  }

  function SymbolToSend(f: FileState, k: nat, j: nat): EncodingSymbol
    requires f.Has(k, j)
  {
    EncodingSymbol(j, k, BytesOf(f.buffer, f.At(k, j)))
  }

  function Queue(f: FileState, k: nat, j: nat): FileState
    requires f.Has(k, j)
  {
    SetSymbol(f, k, j, f.At(k, j).(queued := true))
  }

  lemma IdleFromExists(blocks: seq<SourceBlock>, k: nat, j: nat)
    ensures var r := IdleFrom(blocks, k, j);
      r.Some? ==> r.value.0 < |blocks| && r.value.1 < |blocks[r.value.0].symbols| && Idle(blocks, r.value.0, r.value.1)
    decreases |blocks| - k, if k < |blocks| then |blocks[k].symbols| - j else 0
  {
  }

  /** `get_next_symbols` for `n` symbols: the first idle symbol, `n` times over. */
  function NextBatch(f: FileState, n: nat): (FileState, seq<EncodingSymbol>)
    decreases n
  {
    if n == 0 then (f, [])
    else
      IdleFromExists(f.blocks, 0, 0);
      match IdleFrom(f.blocks, 0, 0)
      case None => (f, [])
      case Some((k, j)) =>
        var (g, rest) := NextBatch(Queue(f, k, j), n - 1);
        (g, [SymbolToSend(f, k, j)] + rest)
  }

  function Prepend(head: seq<EncodingSymbol>, batch: (FileState, seq<EncodingSymbol>))
    : (FileState, seq<EncodingSymbol>)
  {
    (batch.0, head + batch.1)
  }

  lemma PrependNothing(batch: (FileState, seq<EncodingSymbol>))
    ensures Prepend([], batch) == batch
    ensures batch.1 == [] ==> forall x :: Prepend(x, batch) == (batch.0, x)
  {
    assert [] + batch.1 == batch.1;
    forall x: seq<EncodingSymbol>
      ensures x + [] == x
    {
    }
  }

  lemma PrependTwice(x: seq<EncodingSymbol>, y: seq<EncodingSymbol>, batch: (FileState, seq<EncodingSymbol>))
    ensures Prepend(x, Prepend(y, batch)) == Prepend(x + y, batch)
  {
    assert x + (y + batch.1) == x + y + batch.1;
  }

  /** Queueing the first idle symbol leaves as next one the first idle symbol behind it. */
  lemma {:induction false} IdleAfterQueue(f: FileState, a: nat, b: nat, k: nat, j: nat)
    requires f.Has(k, j) && IdleFrom(f.blocks, a, b) == Some((k, j))
    ensures IdleFrom(Queue(f, k, j).blocks, a, b) == IdleFrom(Queue(f, k, j).blocks, k, j + 1)
    decreases |f.blocks| - a, if a < |f.blocks| then |f.blocks[a].symbols| - b else 0
  {
    if b >= |f.blocks[a].symbols| {
      IdleAfterQueue(f, a + 1, 0, k, j);
    } else if !Idle(f.blocks, a, b) {
      IdleAfterQueue(f, a, b + 1, k, j);
    }
  }

  lemma {:induction false} CompleteBlockSkipped(blocks: seq<SourceBlock>, k: nat, j: nat)
    requires k < |blocks| && (blocks[k].complete || j >= |blocks[k].symbols|)
    ensures IdleFrom(blocks, k, j) == IdleFrom(blocks, k + 1, 0)
    decreases |blocks[k].symbols| - j
  {
    if j < |blocks[k].symbols| {
      CompleteBlockSkipped(blocks, k, j + 1);
    }
  }

  /** One step of `get_next_symbols`. */
  lemma TakeIdle(f: FileState, k: nat, j: nat, n: nat)
    requires f.Has(k, j) && Idle(f.blocks, k, j) && n > 0
    requires IdleFrom(f.blocks, 0, 0) == IdleFrom(f.blocks, k, j)
    ensures NextBatch(f, n) == Prepend([SymbolToSend(f, k, j)], NextBatch(Queue(f, k, j), n - 1))
    ensures IdleFrom(Queue(f, k, j).blocks, 0, 0) == IdleFrom(Queue(f, k, j).blocks, k, j + 1)
  {
    assert IdleFrom(f.blocks, k, j) == Some((k, j));
    IdleAfterQueue(f, 0, 0, k, j);
  }

  function MarkOne(md5: Md5, f: FileState, s: EncodingSymbol, success: bool): Outcome<FileState> {
    if s.sourceBlockNumber >= |f.blocks| then Returned(f)
    else
      var k := s.sourceBlockNumber;
      if s.id < |f.blocks[k].symbols| then
        CheckFile(md5, Updated(f, k, s.id, f.At(k, s.id).(queued := false, complete := success)))
      else CheckFile(md5, f.(blocks := f.blocks[k := CheckBlock(f.blocks[k])]))
  }

  /** `mark_completed` */
  function MarkCompleted(md5: Md5, f: FileState, symbols: seq<EncodingSymbol>, success: bool): Outcome<FileState>
    decreases |symbols|
  {
    if symbols == [] then Returned(f)
    else
      var first := MarkOne(md5, f, symbols[0], success);
      if first.Threw? then first else MarkCompleted(md5, first.state, symbols[1..], success)
  }
}
