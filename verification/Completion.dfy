/** What a receiving file's flags and buffer mean, over every sequence of symbols (src/File.cpp:142-194). */
module Completion {
  import opened Bytes
  import opened Flute
  import opened Partitioning
  import opened EncodingSymbols
  import opened Files
  import Base64

  // ---------------------------------------------------------------------------------------------
  // Shape: the places of the symbols never change
  // ---------------------------------------------------------------------------------------------

  ghost predicate SamePlaces(blocks: seq<SourceBlock>, other: seq<SourceBlock>) {
    && |blocks| == |other|
    && (forall k :: 0 <= k < |blocks| ==> |blocks[k].symbols| == |other[k].symbols|)
    && (forall k: nat, j: nat :: 0 <= k < |blocks| && 0 <= j < |blocks[k].symbols| ==>
          blocks[k].symbols[j].offset == other[k].symbols[j].offset
          && blocks[k].symbols[j].length == other[k].symbols[j].length)
  }

  /** A non-empty file of supported size, cut as its constructor cut it. */
  ghost predicate Shaped(f: FileState) {
    && Supported(f.meta.fecOti)
    && |f.buffer| == f.meta.fecOti.transferLength > 0
    && SamePlaces(f.blocks, Layout(f.meta.fecOti))
  }

  lemma NewFileShaped(meta: FileEntry, buffer: seq<Byte>)
    requires Supported(meta.fecOti) && |buffer| == meta.fecOti.transferLength > 0
    ensures Shaped(NewFile(meta, buffer))
  {
  }

  /** The position of symbol `j` of block `k`. */
  ghost function Position(f: FileState, k: nat, j: nat): nat
    requires Shaped(f)
  {
    PartitionFor(f.meta.fecOti).Index(k, j)
  }

  /** Where a symbol sits: at a multiple of the symbol length, in order, inside the buffer. */
  lemma PlaceOf(f: FileState, k: nat, j: nat)
    requires Shaped(f) && f.Has(k, j)
    ensures var e, t := f.meta.fecOti.encodingSymbolLength, Position(f, k, j);
      && f.At(k, j).offset == Offset(e, t)
      && 0 < f.At(k, j).length == SymbolLength(|f.buffer|, e, t) <= e
      && f.At(k, j).offset + f.At(k, j).length <= |f.buffer|
  {
    var oti := f.meta.fecOti;
    var p := PartitionFor(oti);
    assert Layout(oti)[k].symbols[j] == LayoutSymbol(oti, p, k, j);
    PartitionMeetsRfc5052(oti.transferLength, oti.encodingSymbolLength, oti.maxSourceBlockLength);
    IndexInRange(p, p.symbols, oti.maxSourceBlockLength, k, j);
    SymbolFits(oti.transferLength, oti.encodingSymbolLength, p.Index(k, j));
  }

  lemma PlacesDisjoint(f: FileState, k: nat, j: nat, k': nat, j': nat)
    requires Shaped(f) && f.Has(k, j) && f.Has(k', j') && (k, j) != (k', j')
    ensures f.At(k, j).offset + f.At(k, j).length <= f.At(k', j').offset
         || f.At(k', j').offset + f.At(k', j').length <= f.At(k, j).offset
  {
    var oti := f.meta.fecOti;
    var p, e := PartitionFor(oti), oti.encodingSymbolLength;
    PlaceOf(f, k, j);
    PlaceOf(f, k', j');
    PartitionMeetsRfc5052(oti.transferLength, e, oti.maxSourceBlockLength);
    IndexOrdered(p, k, j, k', j');
    if p.Index(k, j) < p.Index(k', j') {
      SymbolsDisjoint(e, p.Index(k, j), p.Index(k', j'));
    } else {
      SymbolsDisjoint(e, p.Index(k', j'), p.Index(k, j));
    }
  }

  /** Every byte of the buffer lies in some symbol. */
  lemma PlaceOfByte(f: FileState, i: nat) returns (k: nat, j: nat)
    requires Shaped(f) && i < |f.buffer|
    ensures f.Has(k, j) && f.At(k, j).offset <= i < f.At(k, j).offset + f.At(k, j).length
  {
    var oti := f.meta.fecOti;
    var p, e := PartitionFor(oti), oti.encodingSymbolLength;
    PartitionMeetsRfc5052(oti.transferLength, e, oti.maxSourceBlockLength);
    ByteInSymbol(oti.transferLength, e, i);
    LocateFinds(p, p.symbols, oti.maxSourceBlockLength, i / e);
    k, j := Locate(p, i / e).0, Locate(p, i / e).1;
    PlaceOf(f, k, j);
  }

  lemma BlocksNotEmpty(f: FileState)
    requires Shaped(f)
    ensures |f.blocks| > 0 && forall k :: 0 <= k < |f.blocks| ==> |f.blocks[k].symbols| > 0
  {
    var oti := f.meta.fecOti;
    PartitionMeetsRfc5052(oti.transferLength, oti.encodingSymbolLength, oti.maxSourceBlockLength);
    assert forall k :: 0 <= k < |f.blocks| ==> |Layout(oti)[k].symbols| > 0;
  }

  // ---------------------------------------------------------------------------------------------
  // Flags, for any symbols whatever
  // ---------------------------------------------------------------------------------------------

  /** The buffer hashes to the announced digest. */
  ghost predicate DigestHolds(md5: Md5, meta: FileEntry, buffer: seq<Byte>) {
    var decoded := Base64.Decode(meta.contentMd5);
    decoded.Ok? && DigestMatches(decoded.value, md5(buffer))
  }

  ghost predicate BlockFlagsRight(f: FileState) {
    forall k :: 0 <= k < |f.blocks| ==> f.blocks[k].complete == SymbolsComplete(f.blocks[k])
  }

  /** Block flags, file flag and digest say what they should. */
  ghost predicate Coherent(md5: Md5, f: FileState) {
    && BlockFlagsRight(f)
    && f.complete == BlocksComplete(f.blocks)
    && (f.complete && Gated(f.meta) ==> DigestHolds(md5, f.meta, f.buffer))
  }

  lemma NewFileCoherent(md5: Md5, meta: FileEntry, buffer: seq<Byte>)
    requires Supported(meta.fecOti) && |buffer| == meta.fecOti.transferLength > 0
    ensures Coherent(md5, NewFile(meta, buffer))
  {
    var f := NewFile(meta, buffer);
    NewFileShaped(meta, buffer);
    BlocksNotEmpty(f);
    forall k | 0 <= k < |f.blocks|
      ensures !SymbolsComplete(f.blocks[k])
    {
      assert !f.blocks[k].symbols[0].complete;
    }
    assert !f.blocks[0].complete;
  }

  /** The file flag is the conjunction of all symbol flags. */
  lemma CompleteMeansAllSymbols(md5: Md5, f: FileState)
    requires Coherent(md5, f)
    ensures f.complete <==> forall k: nat, j: nat :: f.Has(k, j) ==> f.At(k, j).complete
  {
    if forall k: nat, j: nat :: f.Has(k, j) ==> f.At(k, j).complete {
      forall k | 0 <= k < |f.blocks|
        ensures f.blocks[k].complete
      {
        forall j | 0 <= j < |f.blocks[k].symbols|
          ensures f.blocks[k].symbols[j].complete
        {
          assert f.Has(k, j) && f.At(k, j).complete;
        }
      }
    }
  }

  /** The check at the end of every operation makes the flags right again, or throws. */
  lemma CheckFileCoherent(md5: Md5, f: FileState)
    requires Shaped(f) && BlockFlagsRight(f)
    ensures var r := CheckFile(md5, f);
      && (r.Returned? ==> Shaped(r.state) && Coherent(md5, r.state) && r.state.buffer == f.buffer)
      && (r.Returned? && r.state.blocks != f.blocks ==>
            && BlocksComplete(f.blocks) && r.state.blocks == Reset(f.blocks) && !DigestHolds(md5, f.meta, f.buffer))
      && (r.Threw? <==> BlocksComplete(f.blocks) && Gated(f.meta) && Base64.Decode(f.meta.contentMd5).Err?)
  {
    BlocksNotEmpty(f);
    var r := CheckFile(md5, f);
    if r.Returned? && BlocksComplete(f.blocks) && !r.state.complete {
      var g := r.state;
      forall k | 0 <= k < |g.blocks|
        ensures g.blocks[k].complete == SymbolsComplete(g.blocks[k])
      {
        assert !g.blocks[k].symbols[0].complete;
      }
      assert !g.blocks[0].complete;
    }
  }

  /** Replacing a symbol at its place keeps the shape and the block flags. */
  lemma UpdatedShaped(f: FileState, k: nat, j: nat, s: Symbol)
    requires Shaped(f) && f.Has(k, j) && BlockFlagsRight(f)
    requires s.offset == f.At(k, j).offset && s.length == f.At(k, j).length
    ensures Shaped(Updated(f, k, j, s)) && BlockFlagsRight(Updated(f, k, j, s))
  {
  }

  lemma UpdatedAt(f: FileState, k: nat, j: nat, s: Symbol, a: nat, b: nat)
    requires f.Has(k, j)
    ensures Updated(f, k, j, s).Has(a, b) <==> f.Has(a, b)
    ensures f.Has(a, b) ==> Updated(f, k, j, s).At(a, b) == if (a, b) == (k, j) then s else f.At(a, b)
  {
  }

  /** `put_symbol` keeps flags and digest right for any in-range symbol, genuine or corrupted. */
  lemma PutKeepsCoherent(md5: Md5, f: FileState, s: EncodingSymbol)
    requires Shaped(f) && Coherent(md5, f) && f.Has(s.sourceBlockNumber, s.id)
    ensures var r := PutSymbol(md5, f, s);
      && (r.Returned? ==> Shaped(r.state) && Coherent(md5, r.state) && r.state.meta == f.meta)
      && (r.Threw? ==> Gated(f.meta) && Base64.Decode(f.meta.contentMd5).Err?)
  {
    var k, j := s.sourceBlockNumber, s.id;
    var place := f.At(k, j);
    if !place.complete {
      var g := f.(buffer := Decoded(f.buffer, place, s.data));
      UpdatedShaped(g, k, j, place.(complete := true));
      CheckFileCoherent(md5, Updated(g, k, j, place.(complete := true)));
    }
  }

  /** The symbols of a packet, or of a whole run, one `put_symbol` after the other. */
  function PutAll(md5: Md5, f: FileState, symbols: seq<EncodingSymbol>): Outcome<FileState>
    decreases |symbols|
  {
    if symbols == [] then Returned(f)
    else
      var first := PutSymbol(md5, f, symbols[0]);
      if first.Threw? then first else PutAll(md5, first.state, symbols[1..])
  }

  /** The last symbol of a run meets what those before it left, unless one of them threw. */
  lemma {:induction false} LastSymbolLast(md5: Md5, f: FileState, symbols: seq<EncodingSymbol>, s: EncodingSymbol)
    ensures var before := PutAll(md5, f, symbols);
      PutAll(md5, f, symbols + [s]) == if before.Threw? then before else PutSymbol(md5, before.state, s)
    decreases |symbols|
  {
    hide PutSymbol;
    if symbols == [] {
      assert [] + [s] == [s] && [s][1..] == [];
    } else {
      assert (symbols + [s])[1..] == symbols[1..] + [s];
      var first := PutSymbol(md5, f, symbols[0]);
      if first.Returned? {
        LastSymbolLast(md5, first.state, symbols[1..], s);
      }
    }
  }

  ghost predicate InRange(f: FileState, symbols: seq<EncodingSymbol>) {
    forall i :: 0 <= i < |symbols| ==> f.Has(symbols[i].sourceBlockNumber, symbols[i].id)
  }

  /**
   * After every run of in-range symbols, genuine or not, the flags mean what they say and a complete file
   * hashes to the digest it announced.
   */
  lemma {:induction false} RunKeepsCoherent(md5: Md5, f: FileState, symbols: seq<EncodingSymbol>)
    requires Shaped(f) && Coherent(md5, f) && InRange(f, symbols)
    requires Gated(f.meta) ==> Base64.Decode(f.meta.contentMd5).Ok?
    ensures var r := PutAll(md5, f, symbols);
      && r.Returned? && Shaped(r.state) && Coherent(md5, r.state)
      && (r.state.complete <==> forall k: nat, j: nat :: r.state.Has(k, j) ==> r.state.At(k, j).complete)
      && (r.state.complete && Gated(f.meta) ==> DigestHolds(md5, f.meta, r.state.buffer))
    decreases |symbols|
  {
    if symbols == [] {
      CompleteMeansAllSymbols(md5, f);
    } else {
      PutKeepsCoherent(md5, f, symbols[0]);
      var g := PutSymbol(md5, f, symbols[0]).state;
      assert forall k: nat, j: nat :: g.Has(k, j) <==> f.Has(k, j);
      RunKeepsCoherent(md5, g, symbols[1..]);
    }
  }

  // ---------------------------------------------------------------------------------------------
  // Genuine symbols
  // ---------------------------------------------------------------------------------------------

  /** The symbol a sender cuts from `data` for place (k, j). */
  function Genuine(f: FileState, data: seq<Byte>, k: nat, j: nat): EncodingSymbol
    requires f.Has(k, j)
  {
    EncodingSymbol(j, k, BytesOf(data, f.At(k, j)))
  }

  /** Whatever digest the entry announces is the digest of `data`. */
  ghost predicate GenuineDigest(md5: Md5, meta: FileEntry, data: seq<Byte>) {
    Gated(meta) ==> DigestHolds(md5, meta, data)
  }

  /** A file part-way through receiving `data`. */
  ghost predicate Partial(md5: Md5, f: FileState, data: seq<Byte>) {
    && Shaped(f) && Coherent(md5, f) && |data| == |f.buffer| && GenuineDigest(md5, f.meta, data)
    && forall k: nat, j: nat :: f.Has(k, j) && f.At(k, j).complete ==>
         BytesOf(f.buffer, f.At(k, j)) == BytesOf(data, f.At(k, j))
  }

  lemma NewFilePartial(md5: Md5, meta: FileEntry, buffer: seq<Byte>, data: seq<Byte>)
    requires Supported(meta.fecOti) && |buffer| == |data| == meta.fecOti.transferLength > 0
    requires GenuineDigest(md5, meta, data)
    ensures Partial(md5, NewFile(meta, buffer), data)
    ensures var f := NewFile(meta, buffer);
      forall k: nat, j: nat :: f.Has(k, j) ==> !f.At(k, j).complete && !f.At(k, j).queued
  {
    NewFileShaped(meta, buffer);
    NewFileCoherent(md5, meta, buffer);
  }

  /** When every slice is right, the buffer is. */
  lemma AllSlicesGiveData(f: FileState, data: seq<Byte>)
    requires Shaped(f) && |data| == |f.buffer|
    requires forall k: nat, j: nat :: f.Has(k, j) ==> BytesOf(f.buffer, f.At(k, j)) == BytesOf(data, f.At(k, j))
    ensures f.buffer == data
  {
    forall i | 0 <= i < |data|
      ensures f.buffer[i] == data[i]
    {
      var k, j := PlaceOfByte(f, i);
      PlaceOf(f, k, j);
      var at := f.At(k, j);
      assert BytesOf(f.buffer, at)[i - at.offset] == BytesOf(data, at)[i - at.offset];
    }
  }

  /** A complete file holds exactly the object. */
  lemma CompleteFileIsData(md5: Md5, f: FileState, data: seq<Byte>)
    requires Partial(md5, f, data) && f.complete
    ensures f.buffer == data
  {
    CompleteMeansAllSymbols(md5, f);
    AllSlicesGiveData(f, data);
  }

  lemma DecodedSlices(buffer: seq<Byte>, place: Symbol, data: seq<Byte>, other: Symbol)
    requires 0 <= place.offset && 0 <= place.length && place.offset + place.length <= |buffer| == |data|
    requires 0 <= other.offset && 0 <= other.length && other.offset + other.length <= |buffer|
    ensures BytesOf(Decoded(buffer, place, BytesOf(data, place)), place) == BytesOf(data, place)
    ensures place.offset + place.length <= other.offset || other.offset + other.length <= place.offset ==>
              BytesOf(Decoded(buffer, place, BytesOf(data, place)), other) == BytesOf(buffer, other)
  {
  }

  /** What `g` has over `f` at (a, b): place (k, j) is complete, everything else is as it was. */
  ghost predicate DeliversAt(f: FileState, g: FileState, k: nat, j: nat, a: nat, b: nat) {
    && (g.Has(a, b) <==> f.Has(a, b))
    && (f.Has(a, b) ==>
          && g.At(a, b) == (if (a, b) == (k, j) then f.At(a, b).(complete := true) else f.At(a, b))
          && ((a, b) != (k, j) ==> BytesOf(g.buffer, f.At(a, b)) == BytesOf(f.buffer, f.At(a, b))))
  }

  ghost predicate Delivers(f: FileState, g: FileState, k: nat, j: nat) {
    && g.meta == f.meta && g.fdtInstanceId == f.fdtInstanceId && f.Has(k, j)
    && forall a: nat, b: nat :: DeliversAt(f, g, k, j, a, b)
  }

  /** The file between storing a genuine symbol and checking the file. */
  ghost function StoredGenuine(f: FileState, data: seq<Byte>, k: nat, j: nat): FileState
    requires f.Has(k, j)
  {
    var place := f.At(k, j);
    Updated(f.(buffer := Decoded(f.buffer, place, BytesOf(data, place))), k, j, place.(complete := true))
  }

  lemma StoredGenuineAt(f: FileState, data: seq<Byte>, k: nat, j: nat, a: nat, b: nat)
    requires Shaped(f) && f.Has(k, j) && |data| == |f.buffer|
    ensures DeliversAt(f, StoredGenuine(f, data, k, j), k, j, a, b)
    ensures (a, b) == (k, j) ==>
              BytesOf(StoredGenuine(f, data, k, j).buffer, f.At(k, j)) == BytesOf(data, f.At(k, j))
  {
    var g := f.(buffer := Decoded(f.buffer, f.At(k, j), BytesOf(data, f.At(k, j))));
    UpdatedAt(g, k, j, f.At(k, j).(complete := true), a, b);
    PlaceOf(f, k, j);
    if f.Has(a, b) {
      PlaceOf(f, a, b);
      DecodedSlices(f.buffer, f.At(k, j), data, f.At(a, b));
      if (a, b) != (k, j) {
        PlacesDisjoint(f, k, j, a, b);
      }
    }
  }

  lemma StoredGenuineIsRight(md5: Md5, f: FileState, data: seq<Byte>, k: nat, j: nat)
    requires Partial(md5, f, data) && f.Has(k, j)
    ensures var h := StoredGenuine(f, data, k, j);
      && Delivers(f, h, k, j) && Shaped(h) && BlockFlagsRight(h)
      && forall a: nat, b: nat :: h.Has(a, b) && h.At(a, b).complete ==>
           BytesOf(h.buffer, h.At(a, b)) == BytesOf(data, h.At(a, b))
  {
    var h := StoredGenuine(f, data, k, j);
    var place := f.At(k, j);
    UpdatedShaped(f.(buffer := Decoded(f.buffer, place, BytesOf(data, place))), k, j, place.(complete := true));
    forall a: nat, b: nat
      ensures DeliversAt(f, h, k, j, a, b)
      ensures h.Has(a, b) && h.At(a, b).complete ==> BytesOf(h.buffer, h.At(a, b)) == BytesOf(data, h.At(a, b))
    {
      StoredGenuineAt(f, data, k, j, a, b);
    }
  }

  /** A genuine symbol completes its own place and nothing else, and never trips the digest check. */
  lemma PutGenuine(md5: Md5, f: FileState, data: seq<Byte>, k: nat, j: nat)
    requires Partial(md5, f, data) && f.Has(k, j)
    ensures var r := PutSymbol(md5, f, Genuine(f, data, k, j));
      r.Returned? && Partial(md5, r.state, data) && Delivers(f, r.state, k, j)
  {
    if f.At(k, j).complete {
      assert f.At(k, j).(complete := true) == f.At(k, j);
    } else {
      var h := StoredGenuine(f, data, k, j);
      StoredGenuineIsRight(md5, f, data, k, j);
      assert PutSymbol(md5, f, Genuine(f, data, k, j)) == CheckFile(md5, h);
      CheckFileCoherent(md5, h);
      if BlocksComplete(h.blocks) {
        assert forall a: nat, b: nat :: h.Has(a, b) ==> h.At(a, b).complete;
        AllSlicesGiveData(h, data);
      }
      var g := CheckFile(md5, h).state;
      assert g == h.(complete := g.complete);
      forall a: nat, b: nat
        ensures DeliversAt(f, g, k, j, a, b)
      {
        assert DeliversAt(f, h, k, j, a, b);
      }
    }
  }

  // ---------------------------------------------------------------------------------------------
  // What the checks of `put_symbol` let through
  // ---------------------------------------------------------------------------------------------

  ghost predicate SameCounts(f: FileState, g: FileState) {
    |g.blocks| == |f.blocks| && forall k :: 0 <= k < |f.blocks| ==> |g.blocks[k].symbols| == |f.blocks[k].symbols|
  }

  /** The number is one past the last block, or the identifier one past the last symbol of its block. */
  predicate OnePastTheEnd(f: FileState, s: EncodingSymbol) {
    || s.sourceBlockNumber == |f.blocks|
    || (s.sourceBlockNumber < |f.blocks| && s.id == |f.blocks[s.sourceBlockNumber].symbols|)
  }

  lemma CheckFileKeepsCounts(md5: Md5, f: FileState)
    ensures SameCounts(f, CheckFile(md5, f).state)
  {
  }

  /**
   * A symbol inserts an entry of its own, which belongs to no part of the object, exactly when it is one past the
   * end.
   */
  lemma EntryInsertedPastTheEnd(md5: Md5, f: FileState, s: EncodingSymbol)
    ensures SameCounts(f, PutSymbol(md5, f, s).state) <==> !OnePastTheEnd(f, s)
  {
    hide CheckFile;
    var placed, k := Placed(f, s), s.sourceBlockNumber;
    assert SameCounts(f, placed.state) <==> !OnePastTheEnd(f, s);
    if placed.Returned? && !placed.state.At(k, s.id).complete {
      var place := placed.state.At(k, s.id);
      var updated :=
        Updated(placed.state.(buffer := Decoded(f.buffer, place, s.data)), k, s.id, place.(complete := true));
      CheckFileKeepsCounts(md5, updated);
    }
  }

  // ---------------------------------------------------------------------------------------------
  // Symbols of the wrong length
  // ---------------------------------------------------------------------------------------------

  /** A symbol in range is marked complete whatever its length; a digest mismatch marks everything incomplete. */
  lemma PutMarks(md5: Md5, f: FileState, s: EncodingSymbol)
    requires f.Has(s.sourceBlockNumber, s.id) && !f.At(s.sourceBlockNumber, s.id).complete
    ensures var r, place := PutSymbol(md5, f, s), f.At(s.sourceBlockNumber, s.id);
      var marked := Updated(f, s.sourceBlockNumber, s.id, place.(complete := true)).blocks;
      && r.state.buffer == Decoded(f.buffer, place, s.data)
      && (r.state.blocks == marked || r.state.blocks == Reset(marked))
  {
  }

  /** After a symbol its place holds the symbol's bytes, if and only if the symbol is as long as its place. */
  lemma PlaceHoldsSymbol(md5: Md5, f: FileState, s: EncodingSymbol)
    requires Shaped(f) && f.Has(s.sourceBlockNumber, s.id) && !f.At(s.sourceBlockNumber, s.id).complete
    ensures var r, place := PutSymbol(md5, f, s), f.At(s.sourceBlockNumber, s.id);
      BytesOf(r.state.buffer, place) == s.data <==> |s.data| == place.length
  {
    PlaceOf(f, s.sourceBlockNumber, s.id);
    PutMarks(md5, f, s);
  }

  /** A symbol that is too long for its place leaves the buffer alone, and counts as received all the same. */
  lemma LongSymbolCountsUnwritten(md5: Md5, f: FileState, s: EncodingSymbol)
    requires f.Has(s.sourceBlockNumber, s.id) && !f.At(s.sourceBlockNumber, s.id).complete
    requires |s.data| > f.At(s.sourceBlockNumber, s.id).length
    ensures var r, marked := PutSymbol(md5, f, s),
                             f.At(s.sourceBlockNumber, s.id).(complete := true);
      && r.state.buffer == f.buffer
      && (r.state.blocks == Updated(f, s.sourceBlockNumber, s.id, marked).blocks
          || r.state.blocks == Reset(Updated(f, s.sourceBlockNumber, s.id, marked).blocks))
  {
  }

  /** A symbol that is too short counts as received, and the rest of its place keeps what the memory held. */
  lemma ShortSymbolCountsWhole(md5: Md5, f: FileState, s: EncodingSymbol)
    requires Shaped(f) && f.Has(s.sourceBlockNumber, s.id) && !f.At(s.sourceBlockNumber, s.id).complete
    requires |s.data| < f.At(s.sourceBlockNumber, s.id).length
    ensures var r, place := PutSymbol(md5, f, s), f.At(s.sourceBlockNumber, s.id);
      var marked := Updated(f, s.sourceBlockNumber, s.id, place.(complete := true)).blocks;
      && |BytesOf(f.buffer, place)| == place.length
      && BytesOf(r.state.buffer, place) == s.data + BytesOf(f.buffer, place)[|s.data|..]
      && (r.state.blocks == marked || r.state.blocks == Reset(marked))
  {
    PlaceOf(f, s.sourceBlockNumber, s.id);
    PutMarks(md5, f, s);
  }

  // ---------------------------------------------------------------------------------------------
  // Symbols of another object
  // ---------------------------------------------------------------------------------------------

  /** The place of a symbol holds the bytes of `data` once the symbol is in. */
  ghost predicate PutsRight(f: FileState, data: seq<Byte>, s: EncodingSymbol) {
    && f.Has(s.sourceBlockNumber, s.id)
    && var place := f.At(s.sourceBlockNumber, s.id);
    place.complete || BytesOf(Decoded(f.buffer, place, s.data), place) == BytesOf(data, place)
  }

  lemma GenuinePutsRight(md5: Md5, f: FileState, data: seq<Byte>, k: nat, j: nat)
    requires Partial(md5, f, data) && f.Has(k, j)
    ensures PutsRight(f, data, Genuine(f, data, k, j))
  {
    PlaceOf(f, k, j);
    DecodedSlices(f.buffer, f.At(k, j), data, f.At(k, j));
  }

  /** A symbol that fits does what the object's own does. */
  lemma RightIsGenuine(md5: Md5, f: FileState, data: seq<Byte>, s: EncodingSymbol)
    requires Partial(md5, f, data) && PutsRight(f, data, s)
    ensures PutSymbol(md5, f, s) == PutSymbol(md5, f, Genuine(f, data, s.sourceBlockNumber, s.id))
  {
    var k, j := s.sourceBlockNumber, s.id;
    var place := f.At(k, j);
    PlaceOf(f, k, j);
    if !place.complete {
      DecodedAlike(f.buffer, place, s.data, data);
    }
  }

  lemma DecodedAlike(buffer: seq<Byte>, place: Symbol, bytes: seq<Byte>, data: seq<Byte>)
    requires 0 <= place.offset && 0 <= place.length && place.offset + place.length <= |buffer| == |data|
    requires BytesOf(Decoded(buffer, place, bytes), place) == BytesOf(data, place)
    ensures Decoded(buffer, place, bytes) == Decoded(buffer, place, BytesOf(data, place))
  {
    var a, b := Decoded(buffer, place, bytes), Decoded(buffer, place, BytesOf(data, place));
    forall i | 0 <= i < |buffer|
      ensures a[i] == b[i]
    {
      if place.offset <= i < place.offset + place.length {
        assert a[i] == BytesOf(a, place)[i - place.offset];
      }
    }
  }

  /** The place is complete and has other bytes than `data`. */
  ghost predicate WrongAt(f: FileState, data: seq<Byte>, k: nat, j: nat) {
    f.Has(k, j) && f.At(k, j).complete && BytesOf(f.buffer, f.At(k, j)) != BytesOf(data, f.At(k, j))
  }

  /** A file without digest stays on its way to `data`, if and only if the symbol fits. */
  lemma PutsRightIsExact(md5: Md5, f: FileState, data: seq<Byte>, s: EncodingSymbol)
    requires Partial(md5, f, data) && !Gated(f.meta)
    ensures var r := PutSymbol(md5, f, s); r.Returned? && Partial(md5, r.state, data) <==> PutsRight(f, data, s)
  {
    hide PutSymbol, Shaped, Coherent, Updated, CheckFile, Decoded;
    var k, j := s.sourceBlockNumber, s.id;
    if PutsRight(f, data, s) {
      RightIsGenuine(md5, f, data, s);
      PutGenuine(md5, f, data, k, j);
    } else if f.Has(k, j) {
      PutKeepsPlace(md5, f, s, k, j);
      assert WrongAt(PutSymbol(md5, f, s).state, data, k, j);
    } else {
      OutOfRange(md5, f, s);
    }
  }

  /** Out of range a symbol throws, or leaves an entry too many. */
  lemma OutOfRange(md5: Md5, f: FileState, s: EncodingSymbol)
    requires Shaped(f) && !f.Has(s.sourceBlockNumber, s.id)
    ensures var r := PutSymbol(md5, f, s); r.Returned? ==> !Shaped(r.state)
  {
    EntryInsertedPastTheEnd(md5, f, s);
  }

  /** A complete place keeps its bytes, and so does the place of the symbol once the symbol is in. */
  lemma PutKeepsPlace(md5: Md5, f: FileState, s: EncodingSymbol, a: nat, b: nat)
    requires Shaped(f) && !Gated(f.meta) && f.Has(s.sourceBlockNumber, s.id) && f.Has(a, b)
    ensures var r, place := PutSymbol(md5, f, s), f.At(a, b);
      && r.Returned? && Shaped(r.state) && r.state.meta == f.meta && r.state.Has(a, b)
      && r.state.At(a, b) == (if (a, b) == (s.sourceBlockNumber, s.id) then place.(complete := true) else place)
      && BytesOf(r.state.buffer, place) ==
         (if !place.complete && (a, b) == (s.sourceBlockNumber, s.id) then
            BytesOf(Decoded(f.buffer, place, s.data), place)
          else BytesOf(f.buffer, place))
  {
    var k, j := s.sourceBlockNumber, s.id;
    var place := f.At(k, j);
    if !place.complete {
      var g := f.(buffer := Decoded(f.buffer, place, s.data));
      PlaceOf(f, k, j);
      PlaceOf(f, a, b);
      UpdatedAt(g, k, j, place.(complete := true), a, b);
      assert Shaped(Updated(g, k, j, place.(complete := true)));
      if (a, b) != (k, j) {
        PlacesDisjoint(f, k, j, a, b);
        DecodedElsewhere(f.buffer, place, s.data, f.At(a, b));
      }
    } else {
      assert place.(complete := true) == place;
    }
  }

  lemma DecodedElsewhere(buffer: seq<Byte>, place: Symbol, bytes: seq<Byte>, other: Symbol)
    requires 0 <= place.offset && 0 <= place.length && place.offset + place.length <= |buffer|
    requires 0 <= other.offset && 0 <= other.length && other.offset + other.length <= |buffer|
    requires place.offset + place.length <= other.offset || other.offset + other.length <= place.offset
    ensures BytesOf(Decoded(buffer, place, bytes), other) == BytesOf(buffer, other)
  {
  }

  /** Every symbol fits when it comes. */
  ghost predicate AllPutRight(md5: Md5, f: FileState, data: seq<Byte>, symbols: seq<EncodingSymbol>)
    decreases |symbols|
  {
    symbols != [] ==>
      PutsRight(f, data, symbols[0]) && AllPutRight(md5, PutSymbol(md5, f, symbols[0]).state, data, symbols[1..])
  }

  lemma {:induction false} WrongForEver(
    md5: Md5, f: FileState, data: seq<Byte>, symbols: seq<EncodingSymbol>, k: nat, j: nat)
    requires Shaped(f) && !Gated(f.meta) && InRange(f, symbols) && WrongAt(f, data, k, j)
    ensures PutAll(md5, f, symbols).Returned? && WrongAt(PutAll(md5, f, symbols).state, data, k, j)
    decreases |symbols|
  {
    hide PutSymbol, Shaped;
    if symbols != [] {
      PutKeepsPlace(md5, f, symbols[0], k, j);
      PutKeepsRange(md5, f, symbols);
      WrongForEver(md5, PutSymbol(md5, f, symbols[0]).state, data, symbols[1..], k, j);
    }
  }

  lemma PutKeepsRange(md5: Md5, f: FileState, symbols: seq<EncodingSymbol>)
    requires Shaped(f) && !Gated(f.meta) && symbols != [] && InRange(f, symbols)
    ensures InRange(PutSymbol(md5, f, symbols[0]).state, symbols[1..])
  {
    hide PutSymbol, Shaped;
    forall i | 0 <= i < |symbols[1..]|
      ensures PutSymbol(md5, f, symbols[0]).state.Has(symbols[1..][i].sourceBlockNumber, symbols[1..][i].id)
    {
      PutKeepsPlace(md5, f, symbols[0], symbols[i + 1].sourceBlockNumber, symbols[i + 1].id);
    }
  }

  /**
   * Whatever in-range symbols a file without digest is completed by, of this object or of others: it holds `data`
   * if and only if every symbol fitted when it came.
   */
  lemma {:induction false} RunGivesData(md5: Md5, f: FileState, data: seq<Byte>, symbols: seq<EncodingSymbol>)
    requires Partial(md5, f, data) && !Gated(f.meta) && InRange(f, symbols)
    requires PutAll(md5, f, symbols).state.complete
    ensures PutAll(md5, f, symbols).state.buffer == data <==> AllPutRight(md5, f, data, symbols)
    decreases |symbols|
  {
    hide PutSymbol, Shaped, Coherent;
    if symbols == [] {
      CompleteFileIsData(md5, f, data);
    } else {
      var s, g := symbols[0], PutSymbol(md5, f, symbols[0]).state;
      var k, j := s.sourceBlockNumber, s.id;
      PutKeepsPlace(md5, f, s, k, j);
      PutKeepsRange(md5, f, symbols);
      PutsRightIsExact(md5, f, data, s);
      if PutsRight(f, data, s) {
        RunGivesData(md5, g, data, symbols[1..]);
      } else {
        assert WrongAt(g, data, k, j);
        WrongForEver(md5, g, data, symbols[1..], k, j);
      }
    }
  }

  // ---------------------------------------------------------------------------------------------
  // Empty blocks
  // ---------------------------------------------------------------------------------------------

  /** Block `k` exists, holds no symbols and is not complete; neither is the file. */
  ghost predicate HasStrayBlock(f: FileState, k: nat) {
    k < |f.blocks| && f.blocks[k] == SourceBlock(false, []) && !f.complete
  }

  /**
   * A symbol leaves an empty, incomplete block behind the last one, if and only if it is for that block and not its
   * first; it throws then.  Any other entry inserted past the end is complete at once.
   */
  lemma StrayBlockInserted(md5: Md5, f: FileState, s: EncodingSymbol)
    requires f.blocks != [] && !f.complete
    ensures var r := PutSymbol(md5, f, s);
      && (HasStrayBlock(r.state, |f.blocks|) <==> s.sourceBlockNumber == |f.blocks| && s.id > 0)
      && (HasStrayBlock(r.state, |f.blocks|) ==> r.Threw?)
  {
  }

  lemma PutKeepsStrayBlock(md5: Md5, f: FileState, s: EncodingSymbol, k: nat)
    requires HasStrayBlock(f, k) && f.Has(s.sourceBlockNumber, s.id)
    ensures var r := PutSymbol(md5, f, s);
      r.Returned? && HasStrayBlock(r.state, k) && forall a: nat, b: nat :: r.state.Has(a, b) <==> f.Has(a, b)
  {
    assert Placed(f, s) == Returned(f);
    if !f.At(s.sourceBlockNumber, s.id).complete {
      var place := f.At(s.sourceBlockNumber, s.id);
      var decoded := f.(buffer := Decoded(f.buffer, place, s.data));
      var g := Updated(decoded, s.sourceBlockNumber, s.id, place.(complete := true));
      assert !g.blocks[k].complete && CheckFile(md5, g) == Returned(g.(complete := false));
    }
  }

  /** After that no run of the object's symbols completes the file, whichever of them arrive. */
  lemma {:induction false} StrayBlockNeverCompletes(md5: Md5, f: FileState, symbols: seq<EncodingSymbol>, k: nat)
    requires HasStrayBlock(f, k) && InRange(f, symbols)
    ensures PutAll(md5, f, symbols).Returned? && HasStrayBlock(PutAll(md5, f, symbols).state, k)
    decreases |symbols|
  {
    hide PutSymbol, HasStrayBlock;
    if symbols != [] {
      PutKeepsStrayBlock(md5, f, symbols[0], k);
      StrayBlockNeverCompletes(md5, PutSymbol(md5, f, symbols[0]).state, symbols[1..], k);
    }
  }
}
