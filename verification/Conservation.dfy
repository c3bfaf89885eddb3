/**
 * The symbols of a sending file: every run of `get_next_symbols` and `mark_completed` accounts for each of them
 * (src/File.cpp:233-272).
 */
module Conservation {
  import opened Bytes
  import opened Flute
  import opened Partitioning
  import opened EncodingSymbols
  import opened Files
  import opened Completion

  type Pos = (nat, nat)

  ghost predicate Before(p: Pos, q: Pos) {
    p.0 < q.0 || (p.0 == q.0 && p.1 < q.1)
  }

  function PosOf(s: EncodingSymbol): Pos {
    (s.sourceBlockNumber, s.id)
  }

  ghost predicate IdleAt(f: FileState, p: Pos) {
    f.Has(p.0, p.1) && Idle(f.blocks, p.0, p.1)
  }

  // ---------------------------------------------------------------------------------------------
  // The first idle symbol
  // ---------------------------------------------------------------------------------------------

  lemma {:induction false} IdleFromIsFirst(f: FileState, a: nat, b: nat)
    ensures var r := IdleFrom(f.blocks, a, b);
      && (r.Some? ==> IdleAt(f, r.value) && !Before(r.value, (a, b)))
      && forall q: Pos :: IdleAt(f, q) && !Before(q, (a, b)) ==> r.Some? && !Before(q, r.value)
    decreases |f.blocks| - a, if a < |f.blocks| then |f.blocks[a].symbols| - b else 0
  {
    if a < |f.blocks| {
      if b >= |f.blocks[a].symbols| {
        IdleFromIsFirst(f, a + 1, 0);
      } else if !Idle(f.blocks, a, b) {
        IdleFromIsFirst(f, a, b + 1);
      }
    }
  }

  lemma QueueAt(f: FileState, k: nat, j: nat, q: Pos)
    requires f.Has(k, j)
    ensures var g := Queue(f, k, j);
      && (g.Has(q.0, q.1) <==> f.Has(q.0, q.1))
      && (f.Has(q.0, q.1) ==>
            g.At(q.0, q.1) == if q == (k, j) then f.At(k, j).(queued := true) else f.At(q.0, q.1))
      && (IdleAt(g, q) <==> IdleAt(f, q) && q != (k, j))
  {
  }

  /** What a batch of up to `n` symbols is: the first idle ones, in order, each taken once. */
  ghost predicate IsBatch(f: FileState, n: nat, g: FileState, batch: seq<EncodingSymbol>) {
    && |batch| <= n
    && (forall i :: 0 <= i < |batch| ==>
          IdleAt(f, PosOf(batch[i])) && batch[i] == SymbolToSend(f, batch[i].sourceBlockNumber, batch[i].id))
    && (forall i, j :: 0 <= i < j < |batch| ==> Before(PosOf(batch[i]), PosOf(batch[j])))
    && (forall q: Pos :: BatchAt(f, g, batch, q))
    && (forall i, q: Pos :: 0 <= i < |batch| && IdleAt(g, q) ==> Before(PosOf(batch[i]), q))
    && (|batch| < n ==> forall q: Pos :: !IdleAt(g, q))
    && g == f.(blocks := g.blocks)
  }

  /** The symbol at `q` is queued by the batch if it is in it, and untouched otherwise. */
  ghost predicate BatchAt(f: FileState, g: FileState, batch: seq<EncodingSymbol>, q: Pos) {
    && (g.Has(q.0, q.1) <==> f.Has(q.0, q.1))
    && (f.Has(q.0, q.1) ==>
          g.At(q.0, q.1) == if InBatch(batch, q) then f.At(q.0, q.1).(queued := true) else f.At(q.0, q.1))
    && (IdleAt(g, q) <==> IdleAt(f, q) && !InBatch(batch, q))
  }

  ghost predicate InBatch(batch: seq<EncodingSymbol>, q: Pos) {
    exists i :: 0 <= i < |batch| && PosOf(batch[i]) == q
  }

  /** `get_next_symbols` hands out the first idle symbols in the order of block and symbol numbers. */
  lemma {:induction false} NextBatchIsBatch(f: FileState, n: nat)
    ensures var (g, batch) := NextBatch(f, n); IsBatch(f, n, g, batch)
    decreases n
  {
    IdleFromExists(f.blocks, 0, 0);
    IdleFromIsFirst(f, 0, 0);
    var first := IdleFrom(f.blocks, 0, 0);
    if n > 0 && first.Some? {
      var (k, j) := first.value;
      var h := Queue(f, k, j);
      NextBatchIsBatch(h, n - 1);
      var (g, rest) := NextBatch(h, n - 1);
      BatchCons(f, k, j, n, g, rest);
    }
  }

  lemma BatchCons(f: FileState, k: nat, j: nat, n: nat, g: FileState, rest: seq<EncodingSymbol>)
    requires n > 0 && IdleAt(f, (k, j)) && forall q: Pos :: IdleAt(f, q) ==> !Before(q, (k, j))
    requires IsBatch(Queue(f, k, j), n - 1, g, rest)
    ensures IsBatch(f, n, g, [SymbolToSend(f, k, j)] + rest)
  {
    var h, head := Queue(f, k, j), SymbolToSend(f, k, j);
    var batch := [head] + rest;
    forall i | 0 <= i < |batch|
      ensures IdleAt(f, PosOf(batch[i])) && batch[i] == SymbolToSend(f, batch[i].sourceBlockNumber, batch[i].id)
      ensures i > 0 ==> Before((k, j), PosOf(batch[i]))
    {
      if i > 0 {
        assert batch[i] == rest[i - 1];
        QueueAt(f, k, j, PosOf(rest[i - 1]));
      }
    }
    forall q: Pos
      ensures BatchAt(f, g, batch, q)
      ensures IdleAt(g, q) ==> Before((k, j), q)
    {
      QueueAt(f, k, j, q);
      assert BatchAt(h, g, rest, q);
      assert PosOf(batch[0]) == (k, j);
      assert InBatch(rest, q) ==> InBatch(batch, q) by {
        if i :| 0 <= i < |rest| && PosOf(rest[i]) == q {
          assert batch[i + 1] == rest[i];
        }
      }
    }
    forall i, q: Pos | 0 <= i < |batch| && IdleAt(g, q)
      ensures Before(PosOf(batch[i]), q)
    {
      if i > 0 {
        assert batch[i] == rest[i - 1];
      }
    }
  }

  // ---------------------------------------------------------------------------------------------
  // Acknowledgements
  // ---------------------------------------------------------------------------------------------

  /** A sending file: nothing it sends differs from its buffer, and no symbol is both queued and complete. */
  ghost predicate Sending(md5: Md5, f: FileState) {
    Partial(md5, f, f.buffer) && forall q: Pos :: NotBoth(f, q)
  }

  ghost predicate NotBoth(f: FileState, q: Pos) {
    f.Has(q.0, q.1) ==> !(f.At(q.0, q.1).queued && f.At(q.0, q.1).complete)
  }

  /** `g` is `f` with the symbol at `p` marked. */
  ghost predicate MarkedAt(f: FileState, g: FileState, p: Pos, success: bool, q: Pos) {
    && (g.Has(q.0, q.1) <==> f.Has(q.0, q.1))
    && (f.Has(q.0, q.1) ==>
          g.At(q.0, q.1) == if q == p then f.At(p.0, p.1).(queued := false, complete := success) else f.At(q.0, q.1))
  }

  /** A sender's digest always matches, so marking one symbol changes that symbol and the flags above it. */
  lemma MarkOneMarks(md5: Md5, f: FileState, s: EncodingSymbol, success: bool)
    requires Sending(md5, f) && f.Has(s.sourceBlockNumber, s.id)
    ensures var r := MarkOne(md5, f, s, success);
      && r.Returned? && Sending(md5, r.state)
      && r.state == f.(blocks := r.state.blocks, complete := r.state.complete)
      && r.state.blocks == Updated(f, s.sourceBlockNumber, s.id,
                                   f.At(s.sourceBlockNumber, s.id).(queued := false, complete := success)).blocks
      && forall q: Pos :: MarkedAt(f, r.state, PosOf(s), success, q)
  {
    var k, j := s.sourceBlockNumber, s.id;
    var marked := f.At(k, j).(queued := false, complete := success);
    var h := Updated(f, k, j, marked);
    UpdatedShaped(f, k, j, marked);
    CheckFileCoherent(md5, h);
    var g := CheckFile(md5, h).state;
    assert g == h.(complete := g.complete);
    forall q: Pos
      ensures MarkedAt(f, g, (k, j), success, q) && NotBoth(g, q)
    {
      UpdatedAt(f, k, j, marked, q.0, q.1);
      assert NotBoth(f, q);
    }
  }

  lemma QueueKeepsSending(md5: Md5, f: FileState, k: nat, j: nat)
    requires Sending(md5, f) && IdleAt(f, (k, j))
    ensures Sending(md5, Queue(f, k, j))
  {
    var g := Queue(f, k, j);
    forall q: Pos
      ensures NotBoth(g, q)
    {
      QueueAt(f, k, j, q);
      assert NotBoth(f, q);
    }
    QueueKeepsFlags(f, k, j);
  }

  lemma QueueKeepsFlags(f: FileState, k: nat, j: nat)
    requires Shaped(f) && f.Has(k, j)
    ensures var g := Queue(f, k, j);
      && Shaped(g) && |g.blocks| == |f.blocks|
      && forall m :: 0 <= m < |f.blocks| ==>
           g.blocks[m].complete == f.blocks[m].complete && SymbolsComplete(g.blocks[m]) == SymbolsComplete(f.blocks[m])
  {
    var g := Queue(f, k, j);
    forall m | 0 <= m < |f.blocks|
      ensures SymbolsComplete(g.blocks[m]) == SymbolsComplete(f.blocks[m])
    {
      assert forall i :: 0 <= i < |f.blocks[m].symbols| ==>
          g.blocks[m].symbols[i].complete == f.blocks[m].symbols[i].complete;
    }
  }

  lemma {:induction false} NextBatchKeepsSending(md5: Md5, f: FileState, n: nat)
    requires Sending(md5, f)
    ensures Sending(md5, NextBatch(f, n).0)
    decreases n
  {
    hide Sending, IdleFrom;
    IdleFromExists(f.blocks, 0, 0);
    var first := IdleFrom(f.blocks, 0, 0);
    if n > 0 && first.Some? {
      QueueKeepsSending(md5, f, first.value.0, first.value.1);
      NextBatchKeepsSending(md5, Queue(f, first.value.0, first.value.1), n - 1);
    }
  }

  // ---------------------------------------------------------------------------------------------
  // Runs
  // ---------------------------------------------------------------------------------------------

  /** A file, the symbols handed out and not yet acknowledged, and all that were ever handed out. */
  datatype Sender = Sender(file: FileState, out: multiset<Pos>, handed: seq<Pos>)

  datatype SenderStep = Take(n: nat) | Ack(batch: seq<EncodingSymbol>, success: bool)

  function Positions(batch: seq<EncodingSymbol>): (r: seq<Pos>)
    ensures |r| == |batch|
  {
    seq(|batch|, i requires 0 <= i < |batch| => PosOf(batch[i]))
  }

  function Do(md5: Md5, s: Sender, step: SenderStep): Sender {
    match step
    case Take(n) =>
      var (g, batch) := NextBatch(s.file, n);
      Sender(g, s.out + multiset(Positions(batch)), s.handed + Positions(batch))
    case Ack(batch, success) =>
      Sender(MarkCompleted(md5, s.file, batch, success).state, s.out - multiset(Positions(batch)), s.handed)
  }

  /** What is handed out once is acknowledged at most once. */
  ghost predicate Enabled(s: Sender, step: SenderStep) {
    step.Ack? ==> multiset(Positions(step.batch)) <= s.out
  }

  function Run(md5: Md5, s: Sender, steps: seq<SenderStep>): Sender
    decreases |steps|
  {
    if steps == [] then s else Run(md5, Do(md5, s, steps[0]), steps[1..])
  }

  ghost predicate AllEnabled(md5: Md5, s: Sender, steps: seq<SenderStep>)
    decreases |steps|
  {
    steps != [] ==> Enabled(s, steps[0]) && AllEnabled(md5, Do(md5, s, steps[0]), steps[1..])
  }

  /** A symbol is queued exactly while it is out, and then it is out once. */
  ghost predicate OutAt(f: FileState, out: multiset<Pos>, q: Pos) {
    out[q] == if f.Has(q.0, q.1) && f.At(q.0, q.1).queued then 1 else 0
  }

  ghost predicate Balanced(md5: Md5, f: FileState, out: multiset<Pos>) {
    Sending(md5, f) && forall q: Pos :: OutAt(f, out, q)
  }

  /** In a sequence without repetitions each element counts once. */
  lemma {:induction false} CountOnce(p: seq<Pos>, q: Pos)
    requires forall i, j :: 0 <= i < j < |p| ==> p[i] != p[j]
    ensures multiset(p)[q] == if q in p then 1 else 0
  {
    if p != [] {
      var rest := p[1..];
      assert p == [p[0]] + rest;
      CountOnce(rest, q);
      assert p[0] !in rest;
    }
  }

  lemma PositionsDiffer(f: FileState, n: nat, g: FileState, batch: seq<EncodingSymbol>)
    requires IsBatch(f, n, g, batch)
    ensures forall i, j :: 0 <= i < j < |batch| ==> Positions(batch)[i] != Positions(batch)[j]
  {
    hide BatchAt, SymbolToSend, IdleAt;
    forall i, j | 0 <= i < j < |batch|
      ensures Positions(batch)[i] != Positions(batch)[j]
    {
      assert Before(PosOf(batch[i]), PosOf(batch[j]));
    }
  }

  lemma CountInBatch(f: FileState, n: nat, g: FileState, batch: seq<EncodingSymbol>, q: Pos)
    requires IsBatch(f, n, g, batch)
    ensures multiset(Positions(batch))[q] == if InBatch(batch, q) then 1 else 0
  {
    PositionsDiffer(f, n, g, batch);
    hide IsBatch;
    CountOnce(Positions(batch), q);
    PositionsListBatch(batch, q);
  }

  lemma PositionsListBatch(batch: seq<EncodingSymbol>, q: Pos)
    ensures q in Positions(batch) <==> InBatch(batch, q)
  {
    if InBatch(batch, q) {
      var i :| 0 <= i < |batch| && PosOf(batch[i]) == q;
      assert Positions(batch)[i] == q;
    }
  }

  lemma TakeKeepsBalance(md5: Md5, f: FileState, out: multiset<Pos>, n: nat)
    requires Balanced(md5, f, out)
    ensures var (g, batch) := NextBatch(f, n); Balanced(md5, g, out + multiset(Positions(batch)))
  {
    var (g, batch) := NextBatch(f, n);
    NextBatchIsBatch(f, n);
    NextBatchKeepsSending(md5, f, n);
    forall q: Pos
      ensures OutAt(g, out + multiset(Positions(batch)), q)
    {
      CountInBatch(f, n, g, batch, q);
      assert OutAt(f, out, q) && BatchAt(f, g, batch, q);
      if InBatch(batch, q) {
        assert IdleAt(f, q);
      }
    }
  }

  /** Acknowledging one symbol that is out. */
  lemma MarkKeepsBalance(md5: Md5, f: FileState, out: multiset<Pos>, s: EncodingSymbol, success: bool)
    requires Balanced(md5, f, out) && PosOf(s) in out
    ensures f.Has(s.sourceBlockNumber, s.id)
    ensures Balanced(md5, MarkOne(md5, f, s, success).state, out - multiset{PosOf(s)})
  {
    assert OutAt(f, out, PosOf(s));
    MarkOneMarks(md5, f, s, success);
    var g := MarkOne(md5, f, s, success).state;
    forall q: Pos
      ensures OutAt(g, out - multiset{PosOf(s)}, q)
    {
      assert OutAt(f, out, q) && MarkedAt(f, g, PosOf(s), success, q);
    }
  }

  lemma FirstOfBatch(batch: seq<EncodingSymbol>, out: multiset<Pos>)
    requires batch != [] && multiset(Positions(batch)) <= out
    ensures PosOf(batch[0]) in out
    ensures multiset(Positions(batch[1..])) <= out - multiset{PosOf(batch[0])}
    ensures out - multiset{PosOf(batch[0])} - multiset(Positions(batch[1..])) == out - multiset(Positions(batch))
  {
    assert Positions(batch) == [PosOf(batch[0])] + Positions(batch[1..]);
    assert multiset(Positions(batch)) == multiset{PosOf(batch[0])} + multiset(Positions(batch[1..]));
    assert PosOf(batch[0]) in multiset(Positions(batch));
  }

  lemma {:induction false} AckKeepsBalance(md5: Md5, f: FileState, out: multiset<Pos>, batch: seq<EncodingSymbol>,
          success: bool)
    requires Balanced(md5, f, out) && multiset(Positions(batch)) <= out
    ensures var r := MarkCompleted(md5, f, batch, success);
      && r.Returned? && Balanced(md5, r.state, out - multiset(Positions(batch)))
      && r.state == f.(blocks := r.state.blocks, complete := r.state.complete)
    decreases |batch|
  {
    if batch == [] {
      assert out - multiset(Positions(batch)) == out;
    } else {
      FirstOfBatch(batch, out);
      MarkKeepsBalance(md5, f, out, batch[0], success);
      MarkOneMarks(md5, f, batch[0], success);
      AckKeepsBalance(md5, MarkOne(md5, f, batch[0], success).state, out - multiset{PosOf(batch[0])}, batch[1..],
          success);
    }
  }

  lemma DoKeepsBalance(md5: Md5, s: Sender, step: SenderStep)
    requires Balanced(md5, s.file, s.out) && Enabled(s, step)
    ensures var t := Do(md5, s, step); Balanced(md5, t.file, t.out) && t.file.meta == s.file.meta
  {
    match step {
      case Take(n) =>
        TakeKeepsBalance(md5, s.file, s.out, n);
        NextBatchIsBatch(s.file, n);
      case Ack(batch, success) => AckKeepsBalance(md5, s.file, s.out, batch, success);
    }
  }

  lemma {:induction false} RunKeepsBalance(md5: Md5, s: Sender, steps: seq<SenderStep>)
    requires Balanced(md5, s.file, s.out) && AllEnabled(md5, s, steps)
    ensures var t := Run(md5, s, steps); Balanced(md5, t.file, t.out) && t.file.meta == s.file.meta
    decreases |steps|
  {
    if steps != [] {
      DoKeepsBalance(md5, s, steps[0]);
      RunKeepsBalance(md5, Do(md5, s, steps[0]), steps[1..]);
    }
  }

  // ---------------------------------------------------------------------------------------------
  // Counting
  // ---------------------------------------------------------------------------------------------

  function SumSymbols(symbols: seq<Symbol>, w: Symbol -> nat): nat {
    if symbols == [] then 0 else w(symbols[0]) + SumSymbols(symbols[1..], w)
  }

  function SumBlocks(blocks: seq<SourceBlock>, w: Symbol -> nat): nat {
    if blocks == [] then 0 else SumSymbols(blocks[0].symbols, w) + SumBlocks(blocks[1..], w)
  }

  const ONE: Symbol -> nat := (s: Symbol) => 1
  const IDLE: Symbol -> nat := (s: Symbol) => if s.queued || s.complete then 0 else 1
  const QUEUED: Symbol -> nat := (s: Symbol) => if s.queued then 1 else 0
  const COMPLETE: Symbol -> nat := (s: Symbol) => if s.complete then 1 else 0

  lemma {:induction false} SumSymbolsUpdate(symbols: seq<Symbol>, w: Symbol -> nat, j: nat, s: Symbol)
    requires j < |symbols|
    ensures SumSymbols(symbols[j := s], w) + w(symbols[j]) == SumSymbols(symbols, w) + w(s)
  {
    if j > 0 {
      assert symbols[j := s][1..] == symbols[1..][j - 1 := s];
      SumSymbolsUpdate(symbols[1..], w, j - 1, s);
    } else {
      assert symbols[0 := s][1..] == symbols[1..];
    }
  }

  lemma {:induction false} SumBlocksUpdate(blocks: seq<SourceBlock>, w: Symbol -> nat, k: nat, j: nat, b: SourceBlock,
          s: Symbol)
    requires k < |blocks| && j < |blocks[k].symbols| && b.symbols == blocks[k].symbols[j := s]
    ensures SumBlocks(blocks[k := b], w) + w(blocks[k].symbols[j]) == SumBlocks(blocks, w) + w(s)
  {
    if k > 0 {
      assert blocks[k := b][1..] == blocks[1..][k - 1 := b];
      SumBlocksUpdate(blocks[1..], w, k - 1, j, b, s);
    } else {
      assert blocks[0 := b][1..] == blocks[1..];
      SumSymbolsUpdate(blocks[0].symbols, w, j, s);
    }
  }

  lemma {:induction false} FlagsAddUpInBlock(symbols: seq<Symbol>)
    requires forall j :: 0 <= j < |symbols| ==> !(symbols[j].queued && symbols[j].complete)
    ensures SumSymbols(symbols, IDLE) + SumSymbols(symbols, QUEUED) + SumSymbols(symbols, COMPLETE) == |symbols|
    ensures SumSymbols(symbols, ONE) == |symbols|
  {
    if symbols != [] {
      FlagsAddUpInBlock(symbols[1..]);
    }
  }

  lemma {:induction false} FlagsAddUp(blocks: seq<SourceBlock>)
    requires forall k, j :: 0 <= k < |blocks| && 0 <= j < |blocks[k].symbols| ==>
               !(blocks[k].symbols[j].queued && blocks[k].symbols[j].complete)
    ensures SumBlocks(blocks, IDLE) + SumBlocks(blocks, QUEUED) + SumBlocks(blocks, COMPLETE) == SumBlocks(blocks, ONE)
  {
    if blocks != [] {
      FlagsAddUpInBlock(blocks[0].symbols);
      forall k, j | 0 <= k < |blocks[1..]| && 0 <= j < |blocks[1..][k].symbols|
        ensures !(blocks[1..][k].symbols[j].queued && blocks[1..][k].symbols[j].complete)
      {
        assert blocks[1..][k] == blocks[k + 1];
      }
      FlagsAddUp(blocks[1..]);
    }
  }

  /** The blocks from number `k` on hold the symbols from position `BlockStart(k)` on. */
  lemma {:induction false} SymbolsFrom(f: FileState, k: nat)
    requires Shaped(f) && k <= |f.blocks|
    ensures PartitionFor(f.meta.fecOti).BlockStart(k) + SumBlocks(f.blocks[k..], ONE)
        == PartitionFor(f.meta.fecOti).symbols
    decreases |f.blocks| - k
  {
    var oti := f.meta.fecOti;
    var p := PartitionFor(oti);
    PartitionMeetsRfc5052(oti.transferLength, oti.encodingSymbolLength, oti.maxSourceBlockLength);
    if k == |f.blocks| {
      StartOfEnd(p, p.symbols, oti.maxSourceBlockLength);
    } else {
      SymbolsFrom(f, k + 1);
      BlockStartNext(p, k);
      assert f.blocks[k..][1..] == f.blocks[k + 1..];
      assert |Layout(oti)[k].symbols| == p.BlockLength(k);
      CountAll(f.blocks[k].symbols);
    }
  }

  lemma {:induction false} CountAll(symbols: seq<Symbol>)
    ensures SumSymbols(symbols, ONE) == |symbols|
  {
    if symbols != [] {
      CountAll(symbols[1..]);
    }
  }

  lemma FlagsAddUpToAll(md5: Md5, f: FileState)
    requires Sending(md5, f)
    ensures SumBlocks(f.blocks, IDLE) + SumBlocks(f.blocks, QUEUED) + SumBlocks(f.blocks, COMPLETE)
            == PartitionFor(f.meta.fecOti).symbols
  {
    forall k, j | 0 <= k < |f.blocks| && 0 <= j < |f.blocks[k].symbols|
      ensures !(f.blocks[k].symbols[j].queued && f.blocks[k].symbols[j].complete)
    {
      assert NotBoth(f, (k, j));
    }
    FlagsAddUp(f.blocks);
    SymbolsFrom(f, 0);
    assert f.blocks[0..] == f.blocks;
  }

  /**
   * Conservation: after every run in which each symbol handed out is acknowledged at most once, with success or
   * not, every one of the T symbols is idle, queued or complete, and the queued ones are those that are out.
   */
  lemma SymbolsAreConserved(md5: Md5, meta: FileEntry, data: seq<Byte>, steps: seq<SenderStep>)
    requires Supported(meta.fecOti) && |data| == meta.fecOti.transferLength > 0 && GenuineDigest(md5, meta, data)
    requires AllEnabled(md5, Sender(NewFile(meta, data), multiset{}, []), steps)
    ensures var s := Run(md5, Sender(NewFile(meta, data), multiset{}, []), steps);
      && SumBlocks(s.file.blocks, IDLE) + SumBlocks(s.file.blocks, QUEUED) + SumBlocks(s.file.blocks, COMPLETE)
         == PartitionFor(meta.fecOti).symbols
      && (forall q: Pos :: OutAt(s.file, s.out, q))
      && (s.file.complete <==> forall k: nat, j: nat :: s.file.Has(k, j) ==> s.file.At(k, j).complete)
  {
    var s0 := Sender(NewFile(meta, data), multiset{}, []);
    NewFilePartial(md5, meta, data, data);
    RunKeepsBalance(md5, s0, steps);
    var s := Run(md5, s0, steps);
    FlagsAddUpToAll(md5, s.file);
    CompleteMeansAllSymbols(md5, s.file);
  }

  // ---------------------------------------------------------------------------------------------
  // Without failures
  // ---------------------------------------------------------------------------------------------

  ghost predicate NoFailures(steps: seq<SenderStep>) {
    forall i :: 0 <= i < |steps| && steps[i].Ack? ==> steps[i].success
  }

  /** Handed out in strictly increasing order, everything up to some point and nothing behind it. */
  ghost predicate HandedInOrder(f: FileState, handed: seq<Pos>) {
    && (forall i, j :: 0 <= i < j < |handed| ==> Before(handed[i], handed[j]))
    && (forall i, q: Pos :: 0 <= i < |handed| && IdleAt(f, q) ==> Before(handed[i], q))
    && (forall q: Pos :: HandedAt(f, handed, q))
  }

  ghost predicate HandedAt(f: FileState, handed: seq<Pos>, q: Pos) {
    q in handed <==> f.Has(q.0, q.1) && (f.At(q.0, q.1).queued || f.At(q.0, q.1).complete)
  }

  lemma TakeKeepsOrder(md5: Md5, f: FileState, handed: seq<Pos>, n: nat)
    requires Sending(md5, f) && HandedInOrder(f, handed)
    ensures var (g, batch) := NextBatch(f, n); HandedInOrder(g, handed + Positions(batch))
  {
    var (g, batch) := NextBatch(f, n);
    NextBatchIsBatch(f, n);
    var p := Positions(batch);
    forall q: Pos
      ensures HandedAt(g, handed + p, q)
      ensures IdleAt(g, q) ==> IdleAt(f, q)
    {
      assert HandedAt(f, handed, q) && BatchAt(f, g, batch, q);
      assert q in p <==> InBatch(batch, q) by {
        if i :| 0 <= i < |batch| && PosOf(batch[i]) == q {
          assert p[i] == q;
        }
      }
    }
    assert forall i :: |handed| <= i < |handed + p| ==> (handed + p)[i] == PosOf(batch[i - |handed|]);
  }

  lemma MarkKeepsOrder(md5: Md5, f: FileState, handed: seq<Pos>, s: EncodingSymbol)
    requires Sending(md5, f) && f.Has(s.sourceBlockNumber, s.id) && f.At(s.sourceBlockNumber, s.id).queued
    requires HandedInOrder(f, handed)
    ensures HandedInOrder(MarkOne(md5, f, s, true).state, handed)
  {
    MarkOneMarks(md5, f, s, true);
    var g := MarkOne(md5, f, s, true).state;
    forall q: Pos
      ensures HandedAt(g, handed, q) && (IdleAt(g, q) ==> IdleAt(f, q))
    {
      assert MarkedAt(f, g, PosOf(s), true, q) && HandedAt(f, handed, q);
      if IdleAt(g, q) {
        MarkingIsNotIdle(md5, f, g, PosOf(s), q);
      }
    }
  }

  lemma {:induction false} AckKeepsOrder(
    md5: Md5, f: FileState, out: multiset<Pos>, handed: seq<Pos>, batch: seq<EncodingSymbol>)
    requires Balanced(md5, f, out) && multiset(Positions(batch)) <= out && HandedInOrder(f, handed)
    ensures HandedInOrder(MarkCompleted(md5, f, batch, true).state, handed)
    decreases |batch|
  {
    if batch != [] {
      FirstOfBatch(batch, out);
      assert OutAt(f, out, PosOf(batch[0]));
      MarkKeepsBalance(md5, f, out, batch[0], true);
      MarkKeepsOrder(md5, f, handed, batch[0]);
      MarkOneMarks(md5, f, batch[0], true);
      AckKeepsOrder(md5, MarkOne(md5, f, batch[0], true).state, out - multiset{PosOf(batch[0])}, handed, batch[1..]);
    }
  }

  /** Idle means neither complete nor queued: a complete block has no other symbols. */
  lemma MarkingIsNotIdle(md5: Md5, f: FileState, g: FileState, p: Pos, q: Pos)
    requires Sending(md5, f) && Sending(md5, g) && MarkedAt(f, g, p, true, q) && IdleAt(g, q)
    ensures IdleAt(f, q)
  {
    assert f.blocks[q.0].complete == SymbolsComplete(f.blocks[q.0]);
  }

  lemma {:induction false} RunKeepsOrder(md5: Md5, s: Sender, steps: seq<SenderStep>)
    requires Balanced(md5, s.file, s.out) && AllEnabled(md5, s, steps) && NoFailures(steps)
        && HandedInOrder(s.file, s.handed)
    ensures var t := Run(md5, s, steps); HandedInOrder(t.file, t.handed)
    decreases |steps|
  {
    if steps != [] {
      assert NoFailures(steps[1..]);
      DoKeepsBalance(md5, s, steps[0]);
      DoKeepsOrder(md5, s, steps[0]);
      RunKeepsOrder(md5, Do(md5, s, steps[0]), steps[1..]);
    }
  }

  lemma DoKeepsOrder(md5: Md5, s: Sender, step: SenderStep)
    requires Balanced(md5, s.file, s.out) && Enabled(s, step) && (step.Ack? ==> step.success)
        && HandedInOrder(s.file, s.handed)
    ensures var t := Do(md5, s, step); HandedInOrder(t.file, t.handed)
  {
    match step {
      case Take(n) => TakeKeepsOrder(md5, s.file, s.handed, n);
      case Ack(batch, success) => AckKeepsOrder(md5, s.file, s.out, s.handed, batch);
    }
  }

  /**
   * Without failures the symbols are handed out in the order of block and symbol numbers, none twice; once the
   * file is complete, each has been handed out exactly once.
   */
  lemma HandedOutOnceInOrder(md5: Md5, meta: FileEntry, data: seq<Byte>, steps: seq<SenderStep>)
    requires Supported(meta.fecOti) && |data| == meta.fecOti.transferLength > 0 && GenuineDigest(md5, meta, data)
    requires AllEnabled(md5, Sender(NewFile(meta, data), multiset{}, []), steps) && NoFailures(steps)
    ensures var s := Run(md5, Sender(NewFile(meta, data), multiset{}, []), steps);
      && (forall i, j :: 0 <= i < j < |s.handed| ==> Before(s.handed[i], s.handed[j]))
      && (s.file.complete ==> forall q: Pos :: q in s.handed <==> s.file.Has(q.0, q.1))
  {
    var s0 := Sender(NewFile(meta, data), multiset{}, []);
    NewFilePartial(md5, meta, data, data);
    RunKeepsBalance(md5, s0, steps);
    RunKeepsOrder(md5, s0, steps);
    var s := Run(md5, s0, steps);
    CompleteMeansAllSymbols(md5, s.file);
    forall q: Pos
      ensures s.file.complete ==> (q in s.handed <==> s.file.Has(q.0, q.1))
    {
      assert HandedAt(s.file, s.handed, q);
    }
  }
}
