/** Words, shards and shard slots, with the XOR algebra every other module rests on. */
module Shards {
  datatype Option<+T> = None | Some(value: T)

  type Word = bv32
  type Shard = seq<Word>
  type ShardId = nat
  type Slots = seq<Option<Shard>>

  /** Every listed slot exists, is filled, and holds n words. */
  predicate Readable(ids: seq<ShardId>, slots: Slots, n: nat) {
    forall i | 0 <= i < |ids| :: ids[i] < |slots| && slots[ids[i]].Some? && |slots[ids[i]].value| == n
  }

  /** XOR of word w over the listed slots, in list order. */
  function XorAt(ids: seq<ShardId>, slots: Slots, n: nat, w: nat): Word
    requires Readable(ids, slots, n) && w < n
  {
    if ids == [] then 0
    else
      var last := |ids| - 1;
      XorAt(ids[..last], slots, n, w) ^ slots[ids[last]].value[w]
  }

  function XorShards(ids: seq<ShardId>, slots: Slots, n: nat): Shard
    requires Readable(ids, slots, n)
  {
    seq(n, w requires 0 <= w < n => XorAt(ids, slots, n, w))
  }

  /** The list without the id x; order kept. */
  function Without(ids: seq<ShardId>, x: ShardId): seq<ShardId> {
    if ids == [] then []
    else
      var last := |ids| - 1;
      Without(ids[..last], x) + if ids[last] == x then [] else [ids[last]]
  }

  predicate Distinct<T(==)>(s: seq<T>) {
    forall i, j | 0 <= i < j < |s| :: s[i] != s[j]
  }

  lemma {:induction false} WithoutElements(ids: seq<ShardId>, x: ShardId)
    ensures forall y :: y in Without(ids, x) <==> y in ids && y != x
  {
    if ids != [] {
      var last := |ids| - 1;
      WithoutElements(ids[..last], x);
      assert ids == ids[..last] + [ids[last]];
    }
  }

  lemma XorZero(a: Word)
    ensures 0 ^ a == a && a ^ 0 == a
  {}

  lemma XorSwap(a: Word, b: Word, c: Word)
    ensures (a ^ b) ^ c == (a ^ c) ^ b && a ^ (b ^ c) == (a ^ b) ^ c
  {}

  /** XOR depends only on the words in the slots that are read. */
  lemma {:induction false} XorAtAgrees(ids: seq<ShardId>, s: Slots, t: Slots, n: nat, w: nat)
    requires Readable(ids, s, n) && w < n
    requires forall i | 0 <= i < |ids| :: ids[i] < |t| && t[ids[i]] == s[ids[i]]
    ensures Readable(ids, t, n) && XorAt(ids, t, n, w) == XorAt(ids, s, n, w)
  {
    if ids != [] {
      XorAtAgrees(ids[..|ids| - 1], s, t, n, w);
    }
  }

  lemma XorShardsAgrees(ids: seq<ShardId>, s: Slots, t: Slots, n: nat)
    requires Readable(ids, s, n)
    requires forall i | 0 <= i < |ids| :: ids[i] < |t| && t[ids[i]] == s[ids[i]]
    ensures Readable(ids, t, n) && XorShards(ids, t, n) == XorShards(ids, s, n)
  {
    forall w: nat | w < n ensures XorAt(ids, t, n, w) == XorAt(ids, s, n, w) {
      XorAtAgrees(ids, s, t, n, w);
    }
  }

  /** The fold over a list that ends in a given id. */
  lemma XorAtSnoc(ids: seq<ShardId>, front: seq<ShardId>, id: ShardId, slots: Slots, n: nat, w: nat)
    requires Readable(ids, slots, n) && w < n
    requires ids == front + [id]
    ensures Readable(front, slots, n) && id < |slots| && slots[id].Some? && w < |slots[id].value|
    ensures XorAt(ids, slots, n, w) == XorAt(front, slots, n, w) ^ slots[id].value[w]
  {
    assert ids[..|ids| - 1] == front && ids[|ids| - 1] == id;
  }

  /** The value at the head can be pulled out of the fold. */
  lemma {:induction false} XorAtCons(all: seq<ShardId>, id: ShardId, ids: seq<ShardId>, slots: Slots, n: nat, w: nat)
    requires all == [id] + ids
    requires Readable(all, slots, n) && w < n
    ensures Readable(ids, slots, n) && id < |slots| && slots[id].Some? && w < |slots[id].value|
    ensures XorAt(all, slots, n, w) == slots[id].value[w] ^ XorAt(ids, slots, n, w)
  {
    assert all[0] == id && ids == all[1..];
    var v := slots[id].value[w];
    if ids == [] {
      XorAtSnoc(all, [], id, slots, n, w);
      XorZero(v);
    } else {
      var front, last := ids[..|ids| - 1], ids[|ids| - 1];
      XorAtSnoc(all, [id] + front, last, slots, n, w);
      XorAtSnoc(ids, front, last, slots, n, w);
      XorAtCons([id] + front, id, front, slots, n, w);
      XorSwap(v, XorAt(front, slots, n, w), slots[last].value[w]);
    }
  }

  /** Dropping an id that is not listed changes nothing. */
  lemma {:induction false} WithoutAbsent(ids: seq<ShardId>, x: ShardId)
    requires x !in ids
    ensures Without(ids, x) == ids
  {
    if ids != [] {
      WithoutAbsent(ids[..|ids| - 1], x);
    }
  }

  /** An id listed once contributes exactly its own word to the XOR. */
  lemma {:induction false} XorAtWithout(ids: seq<ShardId>, x: ShardId, slots: Slots, n: nat, w: nat)
    requires Readable(ids, slots, n) && w < n
    requires Distinct(ids) && x in ids
    ensures Readable(Without(ids, x), slots, n)
    ensures XorAt(ids, slots, n, w) == XorAt(Without(ids, x), slots, n, w) ^ slots[x].value[w]
  {
    WithoutReadable(ids, x, slots, n);
    var last := |ids| - 1;
    var front := ids[..last];
    assert ids == front + [ids[last]];
    if ids[last] == x {
      WithoutAbsent(front, x);
      assert Without(ids, x) == front;
    } else {
      XorAtWithout(front, x, slots, n, w);
      var rest := Without(front, x);
      assert (rest + [ids[last]])[..|rest|] == rest;
      XorSwap(XorAt(rest, slots, n, w), slots[x].value[w], slots[ids[last]].value[w]);
    }
  }

  lemma WithoutReadable(ids: seq<ShardId>, x: ShardId, slots: Slots, n: nat)
    requires Readable(ids, slots, n)
    ensures Readable(Without(ids, x), slots, n)
  {
    WithoutElements(ids, x);
    var rest := Without(ids, x);
    forall i | 0 <= i < |rest| ensures rest[i] in ids {
      assert rest[i] in rest;
    }
  }
}
