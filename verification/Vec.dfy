/** The PARENA runtime's growable vector: a doubling backing array taken from an
    arena, where an outgrown array is abandoned. */
module Vec {
  import opened Common

  /** C's `int`. */
  newtype int32 = i: int | -0x8000_0000 <= i < 0x8000_0000

  /** `(int)n` for a `size_t`: the low 32 bits read as two's complement. */
  function ToInt32(n: nat): (i: int32)
    ensures (i as int) % 0x1_0000_0000 == n % 0x1_0000_0000
    ensures i as int == n <==> n < 0x8000_0000
  {
    var low := n % 0x1_0000_0000;
    if low < 0x8000_0000 then low as int32 else (low - 0x1_0000_0000) as int32
  }

  function Pow2(k: nat): (p: nat)
    ensures 1 <= p
  {
    if k == 0 then 1 else 2 * Pow2(k - 1)
  }

  /** `capacity` is one that pushes reach with `count` items: nothing for none, else
      the least 4*2^k that is enough. */
  ghost predicate Reached(count: nat, capacity: nat) {
    || count == capacity == 0
    || (1 <= count <= capacity && exists k: nat :: capacity == 4 * Pow2(k) && (k == 0 || 2 * Pow2(k) < count))
  }

  /** Costs of reaching a capacity: arrays of 4, 8, .., capacity slots were taken, and
      each but the first was filled from its full predecessor. */
  ghost predicate Paid(capacity: nat, slotsTaken: nat, itemsCopied: nat) {
    if capacity == 0 then slotsTaken == itemsCopied == 0
    else slotsTaken == 2 * capacity - 4 && itemsCopied == capacity - 4
  }

  /** The push that finds the array full doubles it, and stays within both laws. */
  lemma GrowthStep(count: nat, capacity: nat, slotsTaken: nat, itemsCopied: nat)
    requires Reached(count, capacity) && Paid(capacity, slotsTaken, itemsCopied) && count == capacity
    ensures
      var larger := if capacity == 0 then 4 else 2 * capacity;
      Reached(count + 1, larger) && Paid(larger, slotsTaken + larger, itemsCopied + count)
  {
    if capacity == 0 {
      assert 4 == 4 * Pow2(0);
    } else {
      var k: nat :| capacity == 4 * Pow2(k) && (k == 0 || 2 * Pow2(k) < count);
      assert 2 * capacity == 4 * Pow2(k + 1);
    }
  }

  lemma RoomStep(count: nat, capacity: nat)
    requires Reached(count, capacity) && count < capacity
    ensures Reached(count + 1, capacity)
  {
  }

  /** Amortised cost: in all, at most 4 slots taken and fewer than 2 copies per item. */
  lemma AmortisedCost(count: nat, capacity: nat, slotsTaken: nat, itemsCopied: nat)
    requires Reached(count, capacity) && Paid(capacity, slotsTaken, itemsCopied)
    ensures slotsTaken <= 4 * count
    ensures 1 <= count ==> itemsCopied < 2 * count && capacity < 2 * count + 4
  {
  }

  class Vec<T(0)> {
    var items: array<T>
    var count: nat
    /** Array slots and item copies paid for so far. */
    ghost var slotsTaken: nat
    ghost var itemsCopied: nat

    ghost predicate Valid()
      reads this
    {
      && count <= items.Length
      && Reached(count, items.Length)
      && Paid(items.Length, slotsTaken, itemsCopied)
    }

    ghost function Contents(): (s: seq<T>)
      requires Valid()
      reads this, items
    {
      items[..count]
    }

    /** vec_new */
    constructor ()
      ensures Valid() && fresh(items) && Contents() == []
    {
      items := new T[0];
      count, slotsTaken, itemsCopied := 0, 0, 0;
    }

    /** vec_push_ */
    method Push(item: T)
      requires Valid()
      modifies this, items
      ensures Valid() && (items == old(items) || fresh(items))
      ensures Contents() == old(Contents()) + [item]
      ensures slotsTaken <= 4 * count && itemsCopied < 2 * count
    {
      ghost var was := Contents();
      if count == items.Length {
        GrowthStep(count, items.Length, slotsTaken, itemsCopied);
        var larger := new T[if items.Length == 0 then 4 else 2 * items.Length];
        for i := 0 to count
          modifies larger
          invariant larger[..i] == items[..i]
        {
          larger[i] := items[i];
        }
        slotsTaken, itemsCopied := slotsTaken + larger.Length, itemsCopied + count;
        items := larger;
        assert items[..count] == was;
      } else {
        RoomStep(count, items.Length);
      }
      items[count] := item;
      count := count + 1;
      assert items[..count] == was + [item];
      AmortisedCost(count, items.Length, slotsTaken, itemsCopied);
    }

    /** vec_get: NULL out of range. */
    method Get(idx: int32) returns (r: Option<T>)
      requires Valid()
      ensures r == if 0 <= idx as int < |Contents()| then Some(Contents()[idx]) else None
    {
      if idx < 0 || idx as int >= count {
        return None;
      }
      return Some(items[idx]);
    }

    /** vec_len: exact while there are fewer than 2^31 items. */
    method Len() returns (n: int32)
      requires Valid()
      ensures n as int == |Contents()| <==> |Contents()| < 0x8000_0000
      ensures (n as int) % 0x1_0000_0000 == |Contents()| % 0x1_0000_0000
    {
      n := ToInt32(count);
    }

    /** vec_set_at_: does nothing out of range. */
    method SetAt(idx: int32, value: T)
      requires Valid()
      modifies items
      ensures Valid()
      ensures Contents() == if 0 <= idx as int < |old(Contents())| then old(Contents())[idx as int := value]
                            else old(Contents())
    {
      if idx < 0 || idx as int >= count {
        return;
      }
      items[idx] := value;
    }
  }
}
