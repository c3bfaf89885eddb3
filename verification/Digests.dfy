/**
 * What an announced MD5 digest does to a file (src/File.cpp:171-194): a file without content encoding is complete only
 * over bytes with that digest, and starts over when all its symbols are in and the digest is another one.
 */
module Digests {
  import opened Bytes
  import opened Flute
  import opened EncodingSymbols
  import opened Files
  import opened Completion
  import Base64

  /** No flag of the file is set. */
  ghost predicate NothingIn(f: FileState) {
    && !f.complete
    && (forall k :: 0 <= k < |f.blocks| ==> !f.blocks[k].complete)
    && (forall k: nat, j: nat :: f.Has(k, j) ==> !f.At(k, j).complete)
  }

  ghost predicate AllIn(f: FileState) {
    forall k: nat, j: nat :: f.Has(k, j) ==> f.At(k, j).complete
  }

  // ---------------------------------------------------------------------------------------------
  // One check
  // ---------------------------------------------------------------------------------------------

  /** All blocks are complete, and the announced digest decodes: its first 16 bytes decide. */
  lemma DigestDecides(md5: Md5, f: FileState, announced: seq<Byte>)
    requires f.meta.contentMd5 != "" && f.meta.contentEncoding == ""
    requires Base64.Decode(f.meta.contentMd5) == Ok(announced)
    requires forall k :: 0 <= k < |f.blocks| ==> f.blocks[k].complete
    ensures var r := CheckFile(md5, f);
      && r.Returned? && r.state.buffer == f.buffer && r.state.meta == f.meta
      && if |announced| >= 16 && announced[..16] == md5(f.buffer) then
           r.state == f.(complete := true)
         else
           NothingIn(r.state) && SamePlaces(r.state.blocks, f.blocks)
  {
  }

  /** Without a digest, or with a content encoding, nothing is compared and nothing starts over. */
  lemma NothingToCompare(md5: Md5, f: FileState)
    requires f.meta.contentMd5 == "" || f.meta.contentEncoding != ""
    ensures CheckFile(md5, f) == Returned(f.(complete := forall k | 0 <= k < |f.blocks| :: f.blocks[k].complete))
  {
  }

  /** Before all blocks are complete nothing is compared either. */
  lemma NotYetCompared(md5: Md5, f: FileState, k: nat)
    requires k < |f.blocks| && !f.blocks[k].complete
    ensures CheckFile(md5, f) == Returned(f.(complete := false))
  {
  }

  // ---------------------------------------------------------------------------------------------
  // One symbol
  // ---------------------------------------------------------------------------------------------

  /** The first 16 announced bytes are the digest of the buffer. */
  ghost predicate Meets(md5: Md5, announced: seq<Byte>, buffer: seq<Byte>) {
    |announced| >= 16 && announced[..16] == md5(buffer)
  }

  /** The file announces these bytes as its digest and is not encoded. */
  ghost predicate Announces(meta: FileEntry, announced: seq<Byte>) {
    meta.contentMd5 != "" && meta.contentEncoding == "" && Base64.Decode(meta.contentMd5) == Ok(announced)
  }

  /** Every symbol but the one at (k, j) is in. */
  ghost predicate OthersIn(f: FileState, k: nat, j: nat) {
    forall a: nat, b: nat :: f.Has(a, b) && (a, b) != (k, j) ==> f.At(a, b).complete
  }

  /** Of all symbols only the one at (k, j) was added. */
  ghost predicate OneMoreIn(f: FileState, g: FileState, k: nat, j: nat) {
    forall a: nat, b: nat :: f.Has(a, b) ==>
      g.Has(a, b) && (g.At(a, b).complete <==> f.At(a, b).complete || (a, b) == (k, j))
  }

  /** What a symbol that was missing does to a file that announces a digest. */
  ghost predicate DigestDecided(md5: Md5, f: FileState, g: FileState, k: nat, j: nat, announced: seq<Byte>) {
    if !OthersIn(f, k, j) then !g.complete && OneMoreIn(f, g, k, j)
    else if Meets(md5, announced, g.buffer) then g.complete && OneMoreIn(f, g, k, j)
    else NothingIn(g)
  }

  /** The flags before the file is checked. */
  lemma StoredFlags(f: FileState, k: nat, j: nat, data: seq<Byte>)
    requires Shaped(f) && BlockFlagsRight(f) && f.Has(k, j)
    ensures var h := Updated(f.(buffer := Decoded(f.buffer, f.At(k, j), data)), k, j, f.At(k, j).(complete := true));
      && Shaped(h) && BlockFlagsRight(h) && OneMoreIn(f, h, k, j) && h.meta == f.meta
      && (OthersIn(f, k, j) <==> forall a :: 0 <= a < |h.blocks| ==> h.blocks[a].complete)
  {
    var g := f.(buffer := Decoded(f.buffer, f.At(k, j), data));
    var place := f.At(k, j).(complete := true);
    var h := Updated(g, k, j, place);
    UpdatedShaped(g, k, j, place);
    forall a: nat, b: nat
      ensures h.Has(a, b) <==> f.Has(a, b)
      ensures f.Has(a, b) ==> h.At(a, b) == if (a, b) == (k, j) then place else f.At(a, b)
    {
      UpdatedAt(g, k, j, place, a, b);
    }
    FlagsOfBlocks(h);
  }

  lemma FlagsOfBlocks(h: FileState)
    requires BlockFlagsRight(h)
    ensures AllIn(h) <==> forall a :: 0 <= a < |h.blocks| ==> h.blocks[a].complete
  {
    if AllIn(h) {
      forall a | 0 <= a < |h.blocks|
        ensures h.blocks[a].complete
      {
        forall b | 0 <= b < |h.blocks[a].symbols|
          ensures h.blocks[a].symbols[b].complete
        {
          assert h.Has(a, b) && h.At(a, b).complete;
        }
      }
    }
  }

  lemma PutDecides(md5: Md5, f: FileState, s: EncodingSymbol, announced: seq<Byte>)
    requires Shaped(f) && Coherent(md5, f) && Announces(f.meta, announced)
    requires f.Has(s.sourceBlockNumber, s.id) && !f.At(s.sourceBlockNumber, s.id).complete
    ensures var r := PutSymbol(md5, f, s);
      r.Returned? && DigestDecided(md5, f, r.state, s.sourceBlockNumber, s.id, announced)
  {
    hide Shaped, OthersIn, OneMoreIn, NothingIn, CheckFile, Updated, Decoded, Base64.Decode;
    var k, j := s.sourceBlockNumber, s.id;
    var h := Updated(f.(buffer := Decoded(f.buffer, f.At(k, j), s.data)), k, j, f.At(k, j).(complete := true));
    StoredFlags(f, k, j, s.data);
    if OthersIn(f, k, j) {
      DigestDecides(md5, h, announced);
      SameFlags(f, h, k, j);
    } else {
      var a :| 0 <= a < |h.blocks| && !h.blocks[a].complete;
      NotYetCompared(md5, h, a);
      SameFlags(f, h, k, j);
    }
  }

  lemma SameFlags(f: FileState, h: FileState, k: nat, j: nat)
    requires OneMoreIn(f, h, k, j)
    ensures forall c: bool :: OneMoreIn(f, h.(complete := c), k, j)
  {
  }

  // ---------------------------------------------------------------------------------------------
  // Whole runs
  // ---------------------------------------------------------------------------------------------

  lemma EncodedHashAnnounces(meta: FileEntry, hash: Hash)
    requires meta.contentMd5 == Base64.Encode(hash, false) && meta.contentEncoding == ""
    ensures Announces(meta, hash) && hash[..16] == hash
  {
    Base64.RoundTrip(hash, false);
  }

  lemma {:induction false} CoherentRunMeetsDigest(
    md5: Md5, f: FileState, symbols: seq<EncodingSymbol>, announced: seq<Byte>)
    requires Shaped(f) && Coherent(md5, f) && InRange(f, symbols) && Announces(f.meta, announced)
    requires f.complete ==> Meets(md5, announced, f.buffer)
    ensures var r := PutAll(md5, f, symbols);
      && r.Returned? && Shaped(r.state) && Coherent(md5, r.state) && r.state.meta == f.meta
      && (forall a: nat, b: nat :: r.state.Has(a, b) <==> f.Has(a, b))
      && (r.state.complete <==> AllIn(r.state))
      && (r.state.complete ==> Meets(md5, announced, r.state.buffer))
    decreases |symbols|
  {
    hide Announces, Meets, PutSymbol;
    if symbols == [] {
      CompleteMeansAllSymbols(md5, f);
    } else {
      var s := symbols[0];
      var g := PutSymbol(md5, f, s).state;
      PutKeepsCoherent(md5, f, s);
      PutMeetsDigest(md5, f, s, announced);
      assert forall i :: 0 <= i < |symbols[1..]| ==> symbols[1..][i] == symbols[i + 1];
      CoherentRunMeetsDigest(md5, g, symbols[1..], announced);
    }
  }

  lemma PutMeetsDigest(md5: Md5, f: FileState, s: EncodingSymbol, announced: seq<Byte>)
    requires Shaped(f) && Coherent(md5, f) && Announces(f.meta, announced) && f.Has(s.sourceBlockNumber, s.id)
    requires f.complete ==> Meets(md5, announced, f.buffer)
    ensures var r := PutSymbol(md5, f, s);
      && r.Returned? && r.state.meta == f.meta
      && (forall a: nat, b: nat :: r.state.Has(a, b) <==> f.Has(a, b))
      && (r.state.complete ==> Meets(md5, announced, r.state.buffer))
  {
    PutKeepsCoherent(md5, f, s);
    if !f.At(s.sourceBlockNumber, s.id).complete {
      PutDecides(md5, f, s, announced);
    }
  }

  /**
   * Over every run of in-range symbols, genuine or corrupted, into a new file that announces the base64 text of a
   * digest and is not encoded: nothing is thrown, the file is complete exactly when all its symbols are in, and then
   * its bytes have that digest.
   */
  lemma RunMeetsDigest(md5: Md5, meta: FileEntry, memory: seq<Byte>, symbols: seq<EncodingSymbol>, hash: Hash)
    requires Supported(meta.fecOti) && |memory| == meta.fecOti.transferLength > 0
    requires meta.contentMd5 == Base64.Encode(hash, false) && meta.contentEncoding == ""
    requires InRange(NewFile(meta, memory), symbols)
    ensures var r := PutAll(md5, NewFile(meta, memory), symbols);
      && r.Returned? && (r.state.complete <==> AllIn(r.state))
      && (r.state.complete ==> md5(r.state.buffer) == hash)
  {
    hide Coherent, Shaped, PutAll, AllIn;
    NewFileShaped(meta, memory);
    NewFileIsIncomplete(md5, meta, memory);
    EncodedHashAnnounces(meta, hash);
    CoherentRunMeetsDigest(md5, NewFile(meta, memory), symbols, hash);
  }

  lemma NewFileIsIncomplete(md5: Md5, meta: FileEntry, memory: seq<Byte>)
    requires Supported(meta.fecOti) && |memory| == meta.fecOti.transferLength > 0
    ensures Coherent(md5, NewFile(meta, memory)) && !NewFile(meta, memory).complete
    ensures NothingIn(NewFile(meta, memory))
  {
    NewFileCoherent(md5, meta, memory);
  }

  /**
   * After every such run a missing symbol that arrives is added, unless it is the last one missing and the digest of
   * the bytes is another one: then all flags are false, of symbols, blocks and file.
   */
  lemma LastSymbolDecides(
    md5: Md5, meta: FileEntry, memory: seq<Byte>, symbols: seq<EncodingSymbol>, s: EncodingSymbol, hash: Hash)
    requires Supported(meta.fecOti) && |memory| == meta.fecOti.transferLength > 0
    requires meta.contentMd5 == Base64.Encode(hash, false) && meta.contentEncoding == ""
    requires InRange(NewFile(meta, memory), symbols)
    requires var f := PutAll(md5, NewFile(meta, memory), symbols).state;
      f.Has(s.sourceBlockNumber, s.id) && !f.At(s.sourceBlockNumber, s.id).complete
    ensures var f := PutAll(md5, NewFile(meta, memory), symbols).state;
      var r := PutSymbol(md5, f, s);
      && r.Returned?
      && if OthersIn(f, s.sourceBlockNumber, s.id) && md5(r.state.buffer) != hash then NothingIn(r.state)
         else
           && OneMoreIn(f, r.state, s.sourceBlockNumber, s.id)
           && (r.state.complete <==> OthersIn(f, s.sourceBlockNumber, s.id))
  {
    hide Coherent, Shaped, PutAll, AllIn, NothingIn, OneMoreIn, OthersIn, PutSymbol;
    NewFileShaped(meta, memory);
    NewFileIsIncomplete(md5, meta, memory);
    EncodedHashAnnounces(meta, hash);
    CoherentRunMeetsDigest(md5, NewFile(meta, memory), symbols, hash);
    PutDecides(md5, PutAll(md5, NewFile(meta, memory), symbols).state, s, hash);
  }

  /** The symbol at (a, b) is among these. */
  ghost predicate IsAmong(symbols: seq<EncodingSymbol>, a: nat, b: nat) {
    exists i :: 0 <= i < |symbols| && symbols[i].sourceBlockNumber == a && symbols[i].id == b
  }

  lemma PutWithoutDigest(md5: Md5, f: FileState, s: EncodingSymbol)
    requires f.meta.contentMd5 == "" || f.meta.contentEncoding != ""
    requires Shaped(f) && Coherent(md5, f) && f.Has(s.sourceBlockNumber, s.id)
    ensures var r := PutSymbol(md5, f, s);
      r.Returned? && r.state.meta == f.meta && OneMoreIn(f, r.state, s.sourceBlockNumber, s.id)
      && forall a: nat, b: nat :: r.state.Has(a, b) <==> f.Has(a, b)
  {
    hide Shaped, OthersIn, NothingIn, CheckFile, Decoded;
    var k, j := s.sourceBlockNumber, s.id;
    if !f.At(k, j).complete {
      var h := Updated(f.(buffer := Decoded(f.buffer, f.At(k, j), s.data)), k, j, f.At(k, j).(complete := true));
      StoredFlags(f, k, j, s.data);
      NothingToCompare(md5, h);
    }
  }

  /**
   * Without an announced digest, or with a content encoding, nothing ever starts over: over every run of in-range
   * symbols the symbols that are in are those that were in and those that came, and the file is complete exactly when
   * all are.
   */
  lemma {:induction false} RunWithoutDigest(md5: Md5, f: FileState, symbols: seq<EncodingSymbol>)
    requires f.meta.contentMd5 == "" || f.meta.contentEncoding != ""
    requires Shaped(f) && Coherent(md5, f) && InRange(f, symbols)
    ensures var r := PutAll(md5, f, symbols);
      && r.Returned? && (r.state.complete <==> AllIn(r.state))
      && forall a: nat, b: nat :: f.Has(a, b) ==>
           r.state.Has(a, b) && (r.state.At(a, b).complete <==> f.At(a, b).complete || IsAmong(symbols, a, b))
    decreases |symbols|
  {
    hide PutSymbol, Shaped, Coherent, IsAmong;
    if symbols == [] {
      CompleteMeansAllSymbols(md5, f);
      assert forall a: nat, b: nat :: !IsAmong([], a, b) by {
        NoneAmong();
      }
    } else {
      var s, rest := symbols[0], symbols[1..];
      var g := PutSymbol(md5, f, s).state;
      PutKeepsCoherent(md5, f, s);
      PutWithoutDigest(md5, f, s);
      assert forall i :: 0 <= i < |rest| ==> rest[i] == symbols[i + 1];
      RunWithoutDigest(md5, g, rest);
      AmongFirst(symbols);
    }
  }

  lemma NoneAmong()
    ensures forall a: nat, b: nat :: !IsAmong([], a, b)
  {
  }

  lemma AmongFirst(symbols: seq<EncodingSymbol>)
    requires symbols != []
    ensures forall a: nat, b: nat :: IsAmong(symbols, a, b) <==>
              (symbols[0].sourceBlockNumber == a && symbols[0].id == b) || IsAmong(symbols[1..], a, b)
  {
    forall a: nat, b: nat
      ensures IsAmong(symbols, a, b) <==>
              (symbols[0].sourceBlockNumber == a && symbols[0].id == b) || IsAmong(symbols[1..], a, b)
    {
      if IsAmong(symbols[1..], a, b) {
        var i :| 0 <= i < |symbols[1..]| && symbols[1..][i].sourceBlockNumber == a && symbols[1..][i].id == b;
        assert symbols[i + 1] == symbols[1..][i];
      }
      if IsAmong(symbols, a, b) {
        var i :| 0 <= i < |symbols| && symbols[i].sourceBlockNumber == a && symbols[i].id == b;
        assert i > 0 ==> symbols[1..][i - 1] == symbols[i];
      }
    }
  }
}
