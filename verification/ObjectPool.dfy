/** The fixed pool of order objects. A pointer into it is the number of its slot. */
module ObjectPools {
  import opened FixedWidth
  import opened Orders
  import opened VolumeArithmetic
  import opened PoolSlots

  class ObjectPool {
    const pool: array<Order>
    var freeStack: seq<nat>

    constructor ()
      ensures fresh(pool) && pool.Length == 10000
      ensures AllSlots(freeStack)
      ensures |freeStack| == 10000 && forall i :: 0 <= i < 10000 ==> freeStack[i] == i
    {
      pool := new Order[POOL_SIZE](_ => DEFAULT_ORDER);
      freeStack := [];
      new;
      for i := 0 to POOL_SIZE
        invariant |freeStack| == i && forall k :: 0 <= k < i ==> freeStack[k] == k
        invariant fresh(pool) && fresh(this)
      {
        freeStack := freeStack + [i];
      }
    }

    /** Hand out the slot on top of the free stack. */
    method Acquire() returns (r: Result<nat>)
      modifies this`freeStack
      ensures old(freeStack) == [] ==> r == Failure(PoolExhausted) && freeStack == []
      ensures old(freeStack) != [] ==>
                var n := |old(freeStack)| - 1;
                r == Success(old(freeStack)[n]) && freeStack == old(freeStack)[..n]
    {
      if |freeStack| == 0 {
        return Failure(PoolExhausted);
      }
      var slot := freeStack[|freeStack| - 1];
      freeStack := freeStack[..|freeStack| - 1];
      return Success(slot);
    }

    /** Take a slot back. */
    method Release(slot: nat) returns (r: Result<()>)
      modifies this`freeStack
      ensures slot < 10000 ==> r == Success(()) && freeStack == old(freeStack) + [slot]
      ensures slot >= 10000 ==> r == Failure(SlotOutOfBounds) && freeStack == old(freeStack)
    {
      if slot >= POOL_SIZE {
        return Failure(SlotOutOfBounds);
      }
      freeStack := freeStack + [slot];
      return Success(());
    }

    /** Order::reduceVolume on the order in a slot; returns the reduction made, as 64 bits. */
    method ReduceVolume(slot: nat, reduction: u64) returns (reduced: u64)
      requires slot < pool.Length
      modifies pool
      ensures pool[..] == old(pool[..])[slot := old(pool[slot]).(volume := Reduced(old(pool[slot]).volume, reduction))]
      ensures reduced == ToU64(old(pool[slot]).volume - pool[slot].volume)
    {
      var order := pool[slot];
      if order.volume == 0 {
        return 0;
      }
      var feasible := ToInt32(Min(order.volume, reduction));
      pool[slot] := order.(volume := ToU64(order.volume - feasible));
      return ToU64(feasible);
    }
  }
}
