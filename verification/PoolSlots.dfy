/** Where the slots of the order pool are: free, in a queue of one side, or taken but not in a queue. */
module PoolSlots {
  import opened Orders
  import opened PriorityBook

  /** How many times slot s is found. */
  ghost function Uses(s: nat, free: seq<nat>, bids: seq<nat>, asks: seq<nat>, held: set<nat>): nat {
    multiset(free)[s] + multiset(bids)[s] + multiset(asks)[s] + if s in held then 1 else 0
  }

  /** Every slot of the pool is in exactly one place, exactly once. */
  ghost predicate Partitioned(free: seq<nat>, bids: seq<nat>, asks: seq<nat>, held: set<nat>) {
    forall s: nat :: Uses(s, free, bids, asks, held) == if s < POOL_SIZE then 1 else 0
  }

  lemma TwicePresent(q: seq<nat>, i: nat, j: nat)
    requires i < j < |q| && q[i] == q[j]
    ensures multiset(q)[q[i]] >= 2
  {
    assert q == q[..i] + [q[i]] + q[i + 1..j] + [q[j]] + q[j + 1..];
  }

  /** In particular no place lists a slot twice, no two places share one, and none is outside the pool. */
  lemma PartitionedApart(free: seq<nat>, bids: seq<nat>, asks: seq<nat>, held: set<nat>)
    requires Partitioned(free, bids, asks, held)
    ensures forall i, j :: 0 <= i < j < |free| ==> free[i] != free[j]
    ensures forall i, j :: 0 <= i < j < |bids| ==> bids[i] != bids[j]
    ensures forall i, j :: 0 <= i < j < |asks| ==> asks[i] != asks[j]
    ensures forall s: nat :: s in free ==> s < POOL_SIZE && s !in bids && s !in asks && s !in held
    ensures forall s: nat :: s in bids ==> s < POOL_SIZE && s !in asks && s !in held
    ensures forall s: nat :: s in asks ==> s < POOL_SIZE && s !in held
    ensures forall s: nat :: s in held ==> s < POOL_SIZE
  {
    AtMostOnce(free, bids, asks, held, free);
    AtMostOnce(free, bids, asks, held, bids);
    AtMostOnce(free, bids, asks, held, asks);
    forall s: nat
      ensures s in free ==> s < POOL_SIZE && s !in bids && s !in asks && s !in held
      ensures s in bids ==> s < POOL_SIZE && s !in asks && s !in held
      ensures s in asks ==> s < POOL_SIZE && s !in held
      ensures s in held ==> s < POOL_SIZE
    {
      assert Uses(s, free, bids, asks, held) == if s < POOL_SIZE then 1 else 0;
      assert s in free <==> multiset(free)[s] > 0;
      assert s in bids <==> multiset(bids)[s] > 0;
      assert s in asks <==> multiset(asks)[s] > 0;
    }
  }

  lemma AtMostOnce(free: seq<nat>, bids: seq<nat>, asks: seq<nat>, held: set<nat>, q: seq<nat>)
    requires Partitioned(free, bids, asks, held)
    requires q == free || q == bids || q == asks
    ensures forall i, j :: 0 <= i < j < |q| ==> q[i] != q[j]
  {
    forall i, j | 0 <= i < j < |q| ensures q[i] != q[j] {
      assert multiset(q)[q[i]] <= Uses(q[i], free, bids, asks, held) <= 1;
      if q[i] == q[j] {
        TwicePresent(q, i, j);
      }
    }
  }

  /** Taking the top of the free stack. */
  lemma TakingASlot(free: seq<nat>, bids: seq<nat>, asks: seq<nat>, held: set<nat>)
    requires Partitioned(free, bids, asks, held) && free != []
    ensures Partitioned(free[..|free| - 1], bids, asks, held + {free[|free| - 1]})
  {
    PartitionedApart(free, bids, asks, held);
    var n := |free| - 1;
    var top := free[n];
    assert free == free[..n] + [top];
    forall s: nat ensures Uses(s, free[..n], bids, asks, held + {top}) == Uses(s, free, bids, asks, held) {
      assert multiset(free) == multiset(free[..n]) + multiset([top]);
    }
  }

  /** Putting a slot that was taken into a queue. */
  lemma QueueingASlot(free: seq<nat>, bids: seq<nat>, asks: seq<nat>, held: set<nat>, k: nat, slot: nat)
    requires Partitioned(free, bids, asks, held) && slot in held
    ensures k <= |bids| ==> Partitioned(free, bids[..k] + [slot] + bids[k..], asks, held - {slot})
    ensures k <= |asks| ==> Partitioned(free, bids, asks[..k] + [slot] + asks[k..], held - {slot})
  {
    if k <= |bids| {
      InsertedCount(bids, k, slot);
      forall s: nat
        ensures Uses(s, free, bids[..k] + [slot] + bids[k..], asks, held - {slot}) == Uses(s, free, bids, asks, held)
      {
      }
    }
    if k <= |asks| {
      InsertedCount(asks, k, slot);
      forall s: nat
        ensures Uses(s, free, bids, asks[..k] + [slot] + asks[k..], held - {slot}) == Uses(s, free, bids, asks, held)
      {
      }
    }
  }

  lemma InsertedCount(q: seq<nat>, k: nat, slot: nat)
    requires k <= |q|
    ensures multiset(q[..k] + [slot] + q[k..]) == multiset(q) + multiset{slot}
  {
    assert q == q[..k] + q[k..];
  }

  lemma RemovedCount(q: seq<nat>, k: nat)
    requires k < |q|
    ensures multiset(q) == multiset(RemoveAt(q, k)) + multiset{q[k]}
  {
    assert q == q[..k] + [q[k]] + q[k + 1..];
  }

  /** Giving back the slot of an order that leaves its queue. */
  lemma ReleasingASlot(free: seq<nat>, bids: seq<nat>, asks: seq<nat>, held: set<nat>, k: nat)
    requires Partitioned(free, bids, asks, held)
    ensures k < |bids| ==> Partitioned(free + [bids[k]], RemoveAt(bids, k), asks, held)
    ensures k < |asks| ==> Partitioned(free + [asks[k]], bids, RemoveAt(asks, k), held)
  {
    if k < |bids| {
      RemovedCount(bids, k);
      forall s: nat ensures Uses(s, free + [bids[k]], RemoveAt(bids, k), asks, held) == Uses(s, free, bids, asks, held) {
      }
    }
    if k < |asks| {
      RemovedCount(asks, k);
      forall s: nat ensures Uses(s, free + [asks[k]], bids, RemoveAt(asks, k), held) == Uses(s, free, bids, asks, held) {
      }
    }
  }

  /** A stack of all slots, each once, as the pool starts with. */
  ghost predicate AllSlots(free: seq<nat>) {
    |free| == POOL_SIZE && forall i :: 0 <= i < |free| ==> free[i] == i
  }

  lemma {:induction false} CountOfAscending(q: seq<nat>, s: nat)
    requires forall i :: 0 <= i < |q| ==> q[i] == i
    ensures multiset(q)[s] == if s < |q| then 1 else 0
  {
    if q != [] {
      var n := |q| - 1;
      assert q == q[..n] + [n];
      CountOfAscending(q[..n], s);
    }
  }

  lemma FullPoolPartitioned(free: seq<nat>)
    requires AllSlots(free)
    ensures Partitioned(free, [], [], {})
  {
    forall s: nat ensures Uses(s, free, [], [], {}) == if s < POOL_SIZE then 1 else 0 {
      CountOfAscending(free, s);
    }
  }
}
