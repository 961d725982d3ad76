/** What an XOR of shards is, bit by bit: a bit is set exactly when an odd number of the listed shards have it set. */
module BitParity {
  import opened Shards

  /** A word with a single bit set. */
  predicate IsBit(mask: Word) {
    mask != 0 && mask & (mask - 1) == 0
  }

  predicate Has(x: Word, mask: Word) {
    x & mask != 0
  }

  /** Positions in the list whose shard has the bit set in word w. */
  function HoldersOf(ids: seq<ShardId>, slots: Slots, n: nat, w: nat, mask: Word): set<nat>
    requires Readable(ids, slots, n) && w < n
  {
    set i: nat | i < |ids| && Has(slots[ids[i]].value[w], mask)
  }

  /** Every bit of every word is set exactly when an odd number of the listed shards have it set. */
  ghost predicate IsXorOf(shard: Shard, ids: seq<ShardId>, slots: Slots, n: nat) {
    && Readable(ids, slots, n) && |shard| == n
    && forall w: nat, mask: Word | w < n && IsBit(mask) ::
         Has(shard[w], mask) <==> |HoldersOf(ids, slots, n, w, mask)| % 2 == 1
  }

  lemma HasXor(x: Word, y: Word, mask: Word)
    requires IsBit(mask)
    ensures Has(x ^ y, mask) <==> Has(x, mask) != Has(y, mask)
  {}

  /** Different words differ in a bit: the lowest one of their XOR. */
  lemma DifferentBits(x: Word, y: Word) returns (mask: Word)
    requires x != y
    ensures IsBit(mask) && Has(x, mask) != Has(y, mask)
  {
    var d := x ^ y;
    mask := d & (0 - d);
  }

  lemma SameBits(x: Word, y: Word)
    requires forall mask | IsBit(mask) :: Has(x, mask) <==> Has(y, mask)
    ensures x == y
  {
    if x != y {
      var mask := DifferentBits(x, y);
    }
  }

  /** One more shard adds its position, if it has the bit. */
  lemma HoldersSnoc(ids: seq<ShardId>, slots: Slots, n: nat, w: nat, mask: Word)
    requires ids != [] && Readable(ids, slots, n) && w < n
    ensures var last := |ids| - 1;
      |HoldersOf(ids, slots, n, w, mask)|
        == |HoldersOf(ids[..last], slots, n, w, mask)| + if Has(slots[ids[last]].value[w], mask) then 1 else 0
  {
    var last := |ids| - 1;
    var before := HoldersOf(ids[..last], slots, n, w, mask);
    assert HoldersOf(ids, slots, n, w, mask)
      == before + if Has(slots[ids[last]].value[w], mask) then {last} else {};
  }

  lemma {:induction false} XorAtIsOdd(ids: seq<ShardId>, slots: Slots, n: nat, w: nat, mask: Word)
    requires Readable(ids, slots, n) && w < n && IsBit(mask)
    ensures Has(XorAt(ids, slots, n, w), mask) <==> |HoldersOf(ids, slots, n, w, mask)| % 2 == 1
  {
    if ids == [] {
      assert HoldersOf(ids, slots, n, w, mask) == {};
    } else {
      var front, id := ids[..|ids| - 1], ids[|ids| - 1];
      XorAtIsOdd(front, slots, n, w, mask);
      HoldersSnoc(ids, slots, n, w, mask);
      HasXor(XorAt(front, slots, n, w), slots[id].value[w], mask);
    }
  }

  lemma XorShardsIsXor(ids: seq<ShardId>, slots: Slots, n: nat)
    requires Readable(ids, slots, n)
    ensures IsXorOf(XorShards(ids, slots, n), ids, slots, n)
  {
    var shard := XorShards(ids, slots, n);
    forall w: nat, mask: Word | w < n && IsBit(mask)
      ensures Has(shard[w], mask) <==> |HoldersOf(ids, slots, n, w, mask)| % 2 == 1
    {
      XorAtIsOdd(ids, slots, n, w, mask);
    }
  }

  /** The bits leave no choice: the XOR is the only shard that is one. */
  lemma XorIsUnique(shard: Shard, ids: seq<ShardId>, slots: Slots, n: nat)
    requires Readable(ids, slots, n)
    ensures IsXorOf(shard, ids, slots, n) <==> shard == XorShards(ids, slots, n)
  {
    XorShardsIsXor(ids, slots, n);
    if IsXorOf(shard, ids, slots, n) {
      forall w | 0 <= w < n ensures shard[w] == XorAt(ids, slots, n, w) {
        assert XorShards(ids, slots, n)[w] == XorAt(ids, slots, n, w);
        SameBits(shard[w], XorAt(ids, slots, n, w));
      }
    }
  }
}
