/** The mempool: a growable slice of pending transactions, filtered in place. */
module Pending {
  import opened Transactions

  // ----- what a round removes

  /** The hashes of committed transactions. The ledger keys its table by their
      hexadecimal form, which determines the digest (HexDigestInjective). */
  function HashesOf(h: HashFunction, committed: seq<Transaction>): set<Digest> {
    set t | t in committed :: TxDigest(h, t)
  }

  /** Whether a pending transaction shares a hash with a committed one. */
  function Committed(h: HashFunction, committed: seq<Transaction>): Transaction -> bool {
    var dead := HashesOf(h, committed);
    (t: Transaction) => TxDigest(h, t) in dead
  }

  /** The transactions that are not dropped, in order. */
  function Kept(drop: Transaction -> bool, txs: seq<Transaction>): seq<Transaction> {
    if txs == [] then []
    else
      var init, last := Kept(drop, txs[..|txs| - 1]), txs[|txs| - 1];
      if drop(last) then init else init + [last]
  }

  lemma KeptNext(drop: Transaction -> bool, txs: seq<Transaction>, r: nat)
    requires r < |txs|
    ensures Kept(drop, txs[..r + 1]) == Kept(drop, txs[..r]) + (if drop(txs[r]) then [] else [txs[r]])
  {
    assert txs[..r + 1][..r] == txs[..r];
  }

  lemma {:induction false} KeptConcat(drop: Transaction -> bool, a: seq<Transaction>, b: seq<Transaction>)
    ensures Kept(drop, a + b) == Kept(drop, a) + Kept(drop, b)
    decreases |b|
  {
    if b == [] {
      assert a + b == a;
    } else {
      assert (a + b)[..|a + b| - 1] == a + b[..|b| - 1];
      KeptConcat(drop, a, b[..|b| - 1]);
    }
  }

  /** What is not dropped is kept as often as it was there. */
  lemma {:induction false} KeptCounts(drop: Transaction -> bool, txs: seq<Transaction>, t: Transaction)
    ensures multiset(Kept(drop, txs))[t] == if drop(t) then 0 else multiset(txs)[t]
  {
    if txs != [] {
      KeptCounts(drop, txs[..|txs| - 1], t);
      assert txs == txs[..|txs| - 1] + [txs[|txs| - 1]];
    }
  }

  lemma KeptMembers(drop: Transaction -> bool, txs: seq<Transaction>, t: Transaction)
    ensures t in Kept(drop, txs) <==> t in txs && !drop(t)
  {
    KeptCounts(drop, txs, t);
    assert t in Kept(drop, txs) <==> t in multiset(Kept(drop, txs));
    assert t in txs <==> t in multiset(txs);
  }

  /** Nothing to drop, nothing removed. */
  lemma {:induction false} KeptAll(drop: Transaction -> bool, txs: seq<Transaction>)
    requires forall t :: !drop(t)
    ensures Kept(drop, txs) == txs
  {
    if txs != [] {
      KeptAll(drop, txs[..|txs| - 1]);
      assert txs == txs[..|txs| - 1] + [txs[|txs| - 1]];
    }
  }

  /** What a round does to the mempool: `snap` was pending when the round took its
      snapshot, `arrivals` came later. Every snapshot transaction shares a hash with a
      committed one (as the committed ones themselves do) or is still pending; later
      arrivals survive unless they share such a hash; the order is kept. */
  lemma RoundConservesPending(h: HashFunction, snap: seq<Transaction>, arrivals: seq<Transaction>,
      committed: seq<Transaction>)
    ensures var drop := Committed(h, committed);
      var after := Kept(drop, snap + arrivals);
      && after == Kept(drop, snap) + Kept(drop, arrivals)
      && (forall t | t in snap + arrivals ::
            t in after || exists c :: c in committed && TxDigest(h, c) == TxDigest(h, t))
      && (forall t | t in after ::
            t in snap + arrivals && forall c | c in committed :: TxDigest(h, c) != TxDigest(h, t))
  {
    var drop := Committed(h, committed);
    KeptConcat(drop, snap, arrivals);
    forall t: Transaction ensures t in Kept(drop, snap + arrivals) <==> t in snap + arrivals && !drop(t) {
      KeptMembers(drop, snap + arrivals, t);
    }
  }

  lemma HashesOfNext(h: HashFunction, committed: seq<Transaction>, i: nat)
    requires i < |committed|
    ensures HashesOf(h, committed[..i + 1]) == HashesOf(h, committed[..i]) + {TxDigest(h, committed[i])}
  {
    assert forall t :: t in committed[..i + 1] <==> t in committed[..i] || t == committed[i];
  }

  method CollectHashes(h: HashFunction, committed: seq<Transaction>) returns (toDelete: set<Digest>)
    ensures toDelete == HashesOf(h, committed)
  {
    toDelete := {};
    for i := 0 to |committed|
      invariant toDelete == HashesOf(h, committed[..i])
    {
      HashesOfNext(h, committed, i);
      toDelete := toDelete + {TxDigest(h, committed[i])};
    }
    assert committed[..|committed|] == committed;
  }

  // ----- the slice

  class Mempool {
    var slots: array<Transaction>
    var size: nat

    ghost predicate Valid()
      reads this
    {
      size <= slots.Length
    }

    ghost function Contents(): seq<Transaction>
      reads this, slots
      requires Valid()
    {
      slots[..size]
    }

    constructor ()
      ensures Valid() && fresh(slots) && Contents() == []
    {
      slots := new Transaction[0];
      size := 0;
    }

    /** Go's append: in place while there is room, into a larger array otherwise. */
    method Append(tx: Transaction)
      requires Valid()
      modifies this, slots
      ensures Valid() && (slots == old(slots) || fresh(slots))
      ensures Contents() == old(Contents()) + [tx]
    {
      if size == slots.Length {
        var larger := new Transaction[2 * size + 1](_ => tx);
        forall i | 0 <= i < size {
          larger[i] := slots[i];
        }
        slots := larger;
      }
      slots[size] := tx;
      size := size + 1;
    }

    /** A copy that later changes of the mempool do not reach. */
    method Snapshot() returns (out: array<Transaction>)
      requires Valid()
      ensures fresh(out) && out[..] == Contents()
    {
      if size == 0 {
        out := new Transaction[0];
      } else {
        var first := slots[0];
        out := new Transaction[size](_ => first);
        forall i | 0 <= i < size {
          out[i] := slots[i];
        }
      }
    }

    /** The in-place filter: the kept prefix grows behind the reading position, so no
        element is overwritten before it has been read. */
    method RemoveCommitted(h: HashFunction, committed: seq<Transaction>)
      requires Valid()
      modifies this`size, slots
      ensures Valid()
      ensures Contents() == Kept(Committed(h, committed), old(Contents()))
    {
      if |committed| == 0 {
        KeptAll(Committed(h, committed), Contents());
        return;
      }
      var toDelete := CollectHashes(h, committed);
      if size == 0 {
        return;
      }
      var drop := (t: Transaction) => TxDigest(h, t) in toDelete;
      FilterInPlace(drop);
      assert drop == Committed(h, committed);
    }

    method FilterInPlace(drop: Transaction -> bool)
      requires Valid()
      modifies this`size, slots
      ensures Valid()
      ensures Contents() == Kept(drop, old(Contents()))
    {
      ghost var before := Contents();
      var filtered := 0;
      for r := 0 to size
        invariant filtered <= r && Valid() && size == |before|
        invariant slots[..filtered] == Kept(drop, before[..r])
        invariant slots[r..size] == before[r..]
      {
        var tx := slots[r];
        KeptNext(drop, before, r);
        assert tx == slots[r..size][0] == before[r..][0];
        assert slots[r..size][1..] == before[r + 1..];
        if !drop(tx) {
          slots[filtered] := tx;
          filtered := filtered + 1;
        }
      }
      assert before[..size] == before;
      size := filtered;
    }

    method Clear()
      requires Valid()
      modifies this
      ensures Valid() && fresh(slots) && Contents() == []
    {
      slots := new Transaction[0];
      size := 0;
    }
  }
}
