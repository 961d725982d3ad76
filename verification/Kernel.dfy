/**
 * The XOR kernel: four-word vector stores on a grid-stride loop plus a scalar tail, run by many threads in any
 * interleaving.
 */
module Kernel {
  import opened Shards
  import opened BitParity

  /** Grid and block size of one launch. */
  datatype Launch = Launch(blocks: nat, threads: nat)

  /** A block may be launched when it holds at least one thread and one thread per tail word. */
  predicate ValidLaunch(l: Launch, n: nat) {
    l.blocks >= 1 && l.threads >= 1 && l.threads >= n % 4
  }

  /** One store instruction of one thread: four words in one round of its loop, or one tail word. */
  datatype Store =
    | VectorStore(block: nat, thread: nat, round: nat)
    | TailStore(block: nat, thread: nat)

  function Stride(l: Launch): nat { l.threads * l.blocks }

  function GlobalThread(l: Launch, block: nat, thread: nat): nat { block * l.threads + thread }

  /** The vector index a thread is at in a round of its grid-stride loop. */
  function VectorIndex(l: Launch, block: nat, thread: nat, round: nat): nat {
    round * Stride(l) + GlobalThread(l, block, thread)
  }

  function TailStart(n: nat): nat { n / 4 * 4 }

  /** The stores a completed launch has made. */
  predicate Issued(l: Launch, n: nat, st: Store) {
    && st.block < l.blocks && st.thread < l.threads
    && match st
       case VectorStore(b, t, r) => VectorIndex(l, b, t, r) < n / 4
       case TailStore(b, t) => b == 0 && t < n - TailStart(n)
  }

  predicate Covers(l: Launch, n: nat, st: Store, w: nat) {
    match st
    case VectorStore(b, t, r) => 4 * VectorIndex(l, b, t, r) <= w < 4 * VectorIndex(l, b, t, r) + 4
    case TailStore(_, t) => w == TailStart(n) + t
  }

  /** Effect of one store on the output buffer. */
  function Apply(l: Launch, st: Store, ids: seq<ShardId>, memory: Slots, output: Shard): Shard
    requires Readable(ids, memory, |output|)
  {
    seq(|output|, w requires 0 <= w < |output| =>
      if Covers(l, |output|, st, w) then XorAt(ids, memory, |output|, w) else output[w])
  }

  function ApplyAll(l: Launch, stores: seq<Store>, ids: seq<ShardId>, memory: Slots, output: Shard): (r: Shard)
    requires Readable(ids, memory, |output|)
    ensures |r| == |output|
  {
    if stores == [] then output
    else Apply(l, stores[|stores| - 1], ids, memory, ApplyAll(l, stores[..|stores| - 1], ids, memory, output))
  }

  // ---------- grid arithmetic ----------

  /** Quotient and remainder. */
  function Split(x: nat, d: nat): (r: (nat, nat))
    requires d > 0
    ensures x == r.0 * d + r.1 && r.1 < d
  {
    if x < d then (0, x)
    else
      var r := Split(x - d, d);
      assert (r.0 + 1) * d == r.0 * d + d;
      (r.0 + 1, r.1)
  }

  lemma ProductAtLeast(q: nat, d: nat)
    requires q > 0
    ensures q * d >= d && q * d == (q - 1) * d + d
  {}

  lemma {:induction false} SplitUnique(d: nat, q: nat, r: nat, q': nat, r': nat)
    requires r < d && r' < d && q * d + r == q' * d + r'
    ensures q == q' && r == r'
  {
    if q > 0 { ProductAtLeast(q, d); }
    if q' > 0 { ProductAtLeast(q', d); }
    if q > 0 && q' > 0 {
      SplitUnique(d, q - 1, r, q' - 1, r');
    }
  }

  lemma GlobalThreadBound(l: Launch, block: nat, thread: nat)
    requires block < l.blocks && thread < l.threads
    ensures GlobalThread(l, block, thread) < Stride(l)
  {
    assert block * l.threads <= (l.blocks - 1) * l.threads;
  }

  /** A vector index determines the block, the thread and the round. */
  lemma VectorIndexUnique(l: Launch, b: nat, t: nat, r: nat, b': nat, t': nat, r': nat)
    requires b < l.blocks && t < l.threads && b' < l.blocks && t' < l.threads
    requires VectorIndex(l, b, t, r) == VectorIndex(l, b', t', r')
    ensures b == b' && t == t' && r == r'
  {
    GlobalThreadBound(l, b, t);
    GlobalThreadBound(l, b', t');
    SplitUnique(Stride(l), r, GlobalThread(l, b, t), r', GlobalThread(l, b', t'));
    SplitUnique(l.threads, b, t, b', t');
  }

  /** The block, thread and round that reach a vector index. */
  function Locate(l: Launch, v: nat): (st: Store)
    requires l.blocks >= 1 && l.threads >= 1
    ensures st.VectorStore? && st.block < l.blocks && st.thread < l.threads
    ensures VectorIndex(l, st.block, st.thread, st.round) == v
  {
    ProductPositive(l.threads, l.blocks);
    var (round, id) := Split(v, Stride(l));
    var (block, thread) := Split(id, l.threads);
    BlockBound(l, block, thread);
    VectorStore(block, thread, round)
  }

  lemma BlockBound(l: Launch, block: nat, thread: nat)
    requires GlobalThread(l, block, thread) < Stride(l)
    ensures block < l.blocks
  {
    assert block >= l.blocks ==> block * l.threads >= l.blocks * l.threads;
  }

  /** The clamped grid: enough blocks for the words, at least one, at most the device's limit. */
  function GridBlocks(n: nat, wordsPerThread: nat, threadsPerBlock: nat, maxGridBlocks: nat): (blocks: nat)
    requires wordsPerThread > 0 && threadsPerBlock > 0
    ensures blocks >= 1
    ensures blocks > 1 ==> blocks <= maxGridBlocks
  {
    ProductPositive(threadsPerBlock, wordsPerThread);
    var wordsPerBlock := threadsPerBlock * wordsPerThread;
    var required := n / wordsPerBlock + if n % wordsPerBlock != 0 then 1 else 0;
    var clamped := if required < maxGridBlocks then required else maxGridBlocks;
    if clamped > 1 then clamped else 1
  }

  lemma ProductPositive(a: nat, b: nat)
    requires a > 0 && b > 0
    ensures a * b > 0
  {}

  /**
   * The grid is the smallest whose threads reach all words in one round, unless that is more than the device's limit;
   * then it is the limit. A grid has at least one block.
   */
  lemma GridIsSmallest(n: nat, wordsPerThread: nat, threadsPerBlock: nat, maxGridBlocks: nat)
    requires wordsPerThread > 0 && threadsPerBlock > 0
    ensures var blocks, wordsPerBlock := GridBlocks(n, wordsPerThread, threadsPerBlock, maxGridBlocks),
                                         threadsPerBlock * wordsPerThread;
      && (blocks * wordsPerBlock >= n || blocks == if maxGridBlocks > 1 then maxGridBlocks else 1)
      && (blocks > 1 ==> (blocks - 1) * wordsPerBlock < n)
      && 1 <= blocks <= if maxGridBlocks > 1 then maxGridBlocks else 1
  {
    ProductPositive(threadsPerBlock, wordsPerThread);
    var w := threadsPerBlock * wordsPerThread;
    var blocks := GridBlocks(n, wordsPerThread, threadsPerBlock, maxGridBlocks);
    var q, r := n / w, n % w;
    assert n == q * w + r && (q + 1) * w == q * w + w;
    if blocks > 1 {
      assert blocks - 1 <= q;
      ProductMonotone(blocks - 1, q, w);
      if r == 0 {
        ProductMonotone(blocks, q, w);
        assert blocks * w == (blocks - 1) * w + w;
      }
    }
    if blocks >= q + 1 {
      ProductMonotone(q + 1, blocks, w);
    }
  }

  lemma ProductMonotone(a: nat, b: nat, w: nat)
    requires a <= b
    ensures a * w <= b * w
  {}

  // ---------- one writer per word ----------

  /** The store responsible for a word. */
  function WriterOf(l: Launch, n: nat, w: nat): (st: Store)
    requires ValidLaunch(l, n) && w < n
    ensures Issued(l, n, st) && Covers(l, n, st, w)
  {
    if w < TailStart(n) then Locate(l, w / 4) else TailStore(0, w - TailStart(n))
  }

  /** No two threads, and no two stores of one thread, touch the same word. */
  lemma OneWriter(l: Launch, n: nat, w: nat, st: Store)
    requires ValidLaunch(l, n) && w < n
    requires Issued(l, n, st) && Covers(l, n, st, w)
    ensures st == WriterOf(l, n, w)
  {
    var writer := WriterOf(l, n, w);
    if st.VectorStore? {
      VectorIndexUnique(l, st.block, st.thread, st.round, writer.block, writer.thread, writer.round);
    }
  }

  ghost predicate Written(l: Launch, n: nat, w: nat) {
    exists st :: Issued(l, n, st) && Covers(l, n, st, w)
  }

  /** A launch writes every word exactly when a block has a thread for every tail word. */
  lemma EveryWordWritten(l: Launch, n: nat)
    requires l.blocks >= 1 && l.threads >= 1
    ensures (forall w: nat | w < n :: Written(l, n, w)) <==> l.threads >= n % 4
  {
    if l.threads >= n % 4 {
      forall w: nat | w < n ensures Written(l, n, w) {
        var st := WriterOf(l, n, w);
      }
    } else {
      var w := TailStart(n) + l.threads;
      assert w < n && !Written(l, n, w);
    }
  }

  predicate AnyCovers(l: Launch, n: nat, stores: seq<Store>, w: nat) {
    exists i | 0 <= i < |stores| :: Covers(l, n, stores[i], w)
  }

  /** A word ends up as the XOR if any store of the schedule covers it, and untouched otherwise. */
  lemma {:induction false} ApplyAllWord(l: Launch, stores: seq<Store>, ids: seq<ShardId>, memory: Slots,
                                        output: Shard, w: nat)
    requires Readable(ids, memory, |output|) && w < |output|
    ensures ApplyAll(l, stores, ids, memory, output)[w] ==
      if AnyCovers(l, |output|, stores, w) then XorAt(ids, memory, |output|, w) else output[w]
  {
    if stores != [] {
      var front, last := stores[..|stores| - 1], stores[|stores| - 1];
      ApplyAllWord(l, front, ids, memory, output, w);
      assert AnyCovers(l, |output|, stores, w)
        <==> AnyCovers(l, |output|, front, w) || Covers(l, |output|, last, w) by {
        assert forall i | 0 <= i < |front| :: front[i] == stores[i];
      }
    }
  }

  /**
   * Any interleaving: however the stores of all threads are ordered, once all are made the buffer holds the scalar
   * word-by-word XOR of the sources, whatever it held before.
   */
  lemma AnyInterleavingIsXor(l: Launch, schedule: seq<Store>, ids: seq<ShardId>, memory: Slots, output: Shard)
    requires ValidLaunch(l, |output|) && Readable(ids, memory, |output|)
    requires forall st :: st in schedule <==> Issued(l, |output|, st)
    ensures ApplyAll(l, schedule, ids, memory, output) == XorShards(ids, memory, |output|)
  {
    var n := |output|;
    forall w: nat | w < n ensures ApplyAll(l, schedule, ids, memory, output)[w] == XorAt(ids, memory, n, w) {
      ApplyAllWord(l, schedule, ids, memory, output, w);
      assert WriterOf(l, n, w) in schedule;
    }
  }

  // ---------- the thread program ----------

  /** XOR of word w over the first i sources. */
  function XorFirst(ids: seq<ShardId>, i: nat, memory: Slots, n: nat, w: nat): Word
    requires Readable(ids, memory, n) && i <= |ids| && w < n
  {
    if i == 0 then 0 else XorFirst(ids, i - 1, memory, n, w) ^ memory[ids[i - 1]].value[w]
  }

  lemma {:induction false} XorFirstIsXorAt(ids: seq<ShardId>, front: seq<ShardId>, memory: Slots, n: nat, w: nat)
    requires Readable(ids, memory, n) && w < n
    requires |front| <= |ids| && forall i | 0 <= i < |front| :: front[i] == ids[i]
    ensures Readable(front, memory, n)
    ensures XorFirst(ids, |front|, memory, n, w) == XorAt(front, memory, n, w)
  {
    if front != [] {
      XorFirstIsXorAt(ids, front[..|front| - 1], memory, n, w);
    }
  }

  lemma XorOfAll(ids: seq<ShardId>, memory: Slots, n: nat)
    requires Readable(ids, memory, n)
    ensures forall w: nat | w < n :: XorFirst(ids, |ids|, memory, n, w) == XorAt(ids, memory, n, w)
  {
    forall w: nat | w < n ensures XorFirst(ids, |ids|, memory, n, w) == XorAt(ids, memory, n, w) {
      XorFirstIsXorAt(ids, ids, memory, n, w);
    }
  }

  /** One word accumulated source by source. */
  method XorWord(ids: seq<ShardId>, memory: Slots, n: nat, w: nat) returns (value: Word)
    requires Readable(ids, memory, n) && w < n
    ensures value == XorAt(ids, memory, n, w)
  {
    value := 0;
    for i := 0 to |ids|
      invariant value == XorFirst(ids, i, memory, n, w)
    {
      value := value ^ memory[ids[i]].value[w];
    }
    XorOfAll(ids, memory, n);
  }

  /** Four neighboring words accumulated together, source by source. */
  method XorVector(ids: seq<ShardId>, memory: Slots, n: nat, v: nat) returns (x: Word, y: Word, z: Word, w: Word)
    requires Readable(ids, memory, n) && 4 * v + 3 < n
    ensures x == XorAt(ids, memory, n, 4 * v) && y == XorAt(ids, memory, n, 4 * v + 1)
    ensures z == XorAt(ids, memory, n, 4 * v + 2) && w == XorAt(ids, memory, n, 4 * v + 3)
  {
    x, y, z, w := 0, 0, 0, 0;
    for i := 0 to |ids|
      invariant x == XorFirst(ids, i, memory, n, 4 * v) && y == XorFirst(ids, i, memory, n, 4 * v + 1)
      invariant z == XorFirst(ids, i, memory, n, 4 * v + 2) && w == XorFirst(ids, i, memory, n, 4 * v + 3)
    {
      var input := memory[ids[i]].value;
      x, y, z, w := x ^ input[4 * v], y ^ input[4 * v + 1], z ^ input[4 * v + 2], w ^ input[4 * v + 3];
    }
    XorOfAll(ids, memory, n);
  }

  /** The words one thread is responsible for. */
  predicate WrittenBy(l: Launch, n: nat, block: nat, thread: nat, w: nat)
    requires ValidLaunch(l, n) && w < n
  {
    WriterOf(l, n, w).block == block && WriterOf(l, n, w).thread == thread
  }

  /** Those of them stored before the given round of its loop. */
  predicate WrittenBefore(l: Launch, n: nat, block: nat, thread: nat, round: nat, w: nat)
    requires ValidLaunch(l, n) && w < n
  {
    WrittenBy(l, n, block, thread, w) && WriterOf(l, n, w).VectorStore? && WriterOf(l, n, w).round < round
  }

  /** Entering round r + 1 adds exactly the four words of round r. */
  lemma RoundAddsFourWords(l: Launch, n: nat, block: nat, thread: nat, round: nat, w: nat)
    requires ValidLaunch(l, n) && w < n && block < l.blocks && thread < l.threads
    requires VectorIndex(l, block, thread, round) < n / 4
    ensures WrittenBefore(l, n, block, thread, round + 1, w) <==>
      WrittenBefore(l, n, block, thread, round, w) || Covers(l, n, VectorStore(block, thread, round), w)
    ensures Covers(l, n, VectorStore(block, thread, round), w) ==> !WrittenBefore(l, n, block, thread, round, w)
  {
    var st := VectorStore(block, thread, round);
    if Covers(l, n, st, w) {
      OneWriter(l, n, w, st);
    }
  }

  lemma LaterRoundsAreFurther(l: Launch, block: nat, thread: nat, round: nat, later: nat)
    requires round <= later
    ensures VectorIndex(l, block, thread, round) <= VectorIndex(l, block, thread, later)
  {
    assert later * Stride(l) == round * Stride(l) + (later - round) * Stride(l);
  }

  /** When the loop ends, all the thread's vector words are stored. */
  lemma LoopEndsComplete(l: Launch, n: nat, block: nat, thread: nat, round: nat, w: nat)
    requires ValidLaunch(l, n) && w < n
    requires VectorIndex(l, block, thread, round) >= n / 4
    ensures WrittenBy(l, n, block, thread, w) <==>
      WrittenBefore(l, n, block, thread, round, w) || (w >= TailStart(n) && block == 0 && thread == w - TailStart(n))
  {
    var st := WriterOf(l, n, w);
    if st.VectorStore? && st.block == block && st.thread == thread && st.round >= round {
      LaterRoundsAreFurther(l, block, thread, round, st.round);
    }
  }

  /** Words stored in the rounds so far hold the XOR, the others what they held before the thread began. */
  predicate StoredSoFar(l: Launch, block: nat, thread: nat, round: nat, ids: seq<ShardId>, memory: Slots,
                        before: Shard, now: Shard)
  {
    && ValidLaunch(l, |before|) && Readable(ids, memory, |before|) && |now| == |before|
    && forall w: nat | w < |before| ::
         now[w] == if WrittenBefore(l, |before|, block, thread, round, w) then XorAt(ids, memory, |before|, w)
                   else before[w]
  }

  lemma RoundStored(l: Launch, block: nat, thread: nat, round: nat, ids: seq<ShardId>, memory: Slots,
                    before: Shard, now: Shard)
    requires block < l.blocks && thread < l.threads && StoredSoFar(l, block, thread, round, ids, memory, before, now)
    requires VectorIndex(l, block, thread, round) < |before| / 4
    ensures StoredSoFar(l, block, thread, round + 1, ids, memory, before,
                        Apply(l, VectorStore(block, thread, round), ids, memory, now))
  {
    forall w: nat | w < |before| ensures WrittenBefore(l, |before|, block, thread, round + 1, w) <==>
      WrittenBefore(l, |before|, block, thread, round, w) || Covers(l, |before|, VectorStore(block, thread, round), w)
    {
      RoundAddsFourWords(l, |before|, block, thread, round, w);
    }
  }

  /** One round of a thread's loop. */
  method StoreVector(l: Launch, block: nat, thread: nat, ghost round: nat, v: nat, ids: seq<ShardId>, memory: Slots,
                     output: array<Word>)
    requires Readable(ids, memory, output.Length)
    requires v == VectorIndex(l, block, thread, round) && v < output.Length / 4
    modifies output
    ensures output[..] == Apply(l, VectorStore(block, thread, round), ids, memory, old(output[..]))
  {
    var x, y, z, u := XorVector(ids, memory, output.Length, v);
    output[4 * v], output[4 * v + 1], output[4 * v + 2], output[4 * v + 3] := x, y, z, u;
  }

  /** One thread of the grid: the grid-stride vector loop, then at most one tail word. */
  method RunThread(l: Launch, block: nat, thread: nat, ids: seq<ShardId>, memory: Slots, output: array<Word>)
    requires ValidLaunch(l, output.Length) && block < l.blocks && thread < l.threads
    requires Readable(ids, memory, output.Length)
    modifies output
    ensures forall w: nat | w < output.Length ::
      output[w] == if WrittenBy(l, output.Length, block, thread, w) then XorAt(ids, memory, output.Length, w)
                   else old(output[w])
  {
    var n := output.Length;
    ghost var before := output[..];
    ProductPositive(l.threads, l.blocks);
    var v := GlobalThread(l, block, thread);
    ghost var round := 0;
    while v < n / 4
      invariant v == VectorIndex(l, block, thread, round)
      invariant StoredSoFar(l, block, thread, round, ids, memory, before, output[..])
      decreases n - v
    {
      RoundStored(l, block, thread, round, ids, memory, before, output[..]);
      StoreVector(l, block, thread, round, v, ids, memory, output);
      assert (round + 1) * Stride(l) == round * Stride(l) + Stride(l);
      v, round := v + Stride(l), round + 1;
    }
    forall w: nat | w < n ensures WrittenBy(l, n, block, thread, w) <==>
      WrittenBefore(l, n, block, thread, round, w) || (w >= TailStart(n) && block == 0 && thread == w - TailStart(n))
    {
      LoopEndsComplete(l, n, block, thread, round, w);
    }
    assert forall w: nat | w < n :: output[w] == output[..][w];
    if block == 0 && thread < n - TailStart(n) {
      var value := XorWord(ids, memory, n, TailStart(n) + thread);
      output[TailStart(n) + thread] := value;
    }
  }

  /** All threads of the grid. The interleaving lemma above says that their order is immaterial. */
  method LaunchKernel(l: Launch, ids: seq<ShardId>, memory: Slots, output: array<Word>)
    requires ValidLaunch(l, output.Length) && Readable(ids, memory, output.Length)
    modifies output
    ensures output[..] == XorShards(ids, memory, output.Length)
  {
    var n := output.Length;
    for block := 0 to l.blocks
      invariant forall w: nat | w < n && WriterOf(l, n, w).block < block :: output[w] == XorAt(ids, memory, n, w)
    {
      for thread := 0 to l.threads
        invariant forall w: nat | w < n && WriterOf(l, n, w).block < block :: output[w] == XorAt(ids, memory, n, w)
        invariant forall w: nat | w < n && WriterOf(l, n, w).block == block && WriterOf(l, n, w).thread < thread ::
          output[w] == XorAt(ids, memory, n, w)
      {
        RunThread(l, block, thread, ids, memory, output);
      }
    }
    forall w: nat | w < n ensures output[w] == XorAt(ids, memory, n, w) {
      var st := WriterOf(l, n, w);
    }
    assert output[..] == XorShards(ids, memory, n);
  }

  /**
   * One operation on the device: its ids start at an offset into the flattened source list. Degrees two to six run the
   * kernel specialised for them, any other degree the one that takes the degree as an argument.
   */
  method LaunchXorOperation(sourceCount: nat, sourceIds: seq<ShardId>, offset: nat, memory: Slots, output: array<Word>,
                            threadsPerBlock: nat, maxGridBlocks: nat)
    requires offset + sourceCount <= |sourceIds|
    requires threadsPerBlock >= 1 && threadsPerBlock >= output.Length % 4
    requires Readable(sourceIds[offset..offset + sourceCount], memory, output.Length)
    modifies output
    ensures output[..] == XorShards(sourceIds[offset..offset + sourceCount], memory, output.Length)
    ensures IsXorOf(output[..], sourceIds[offset..offset + sourceCount], memory, output.Length)
  {
    XorShardsIsXor(sourceIds[offset..offset + sourceCount], memory, output.Length);
    var l := Launch(GridBlocks(output.Length, 4, threadsPerBlock, maxGridBlocks), threadsPerBlock);
    match sourceCount
    case 2 => LaunchKernel(l, sourceIds[offset..offset + 2], memory, output);
    case 3 => LaunchKernel(l, sourceIds[offset..offset + 3], memory, output);
    case 4 => LaunchKernel(l, sourceIds[offset..offset + 4], memory, output);
    case 5 => LaunchKernel(l, sourceIds[offset..offset + 5], memory, output);
    case 6 => LaunchKernel(l, sourceIds[offset..offset + 6], memory, output);
    case _ => LaunchKernel(l, sourceIds[offset..offset + sourceCount], memory, output);
  }
}
