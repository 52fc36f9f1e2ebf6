/**
 * The lock-free single-producer/single-consumer ring queue of uniquely-owned
 * items (`SPSC_Queue<T>`). The producer only advances `pushCount`, the consumer
 * only advances `popCount`; here both run sequentially, one call at a time.
 */
module SpscQueue {
  import opened Util

  const SIZE_POW: nat := 17
  /** Capacity of every queue: 1 << 17. */
  const SIZE: nat := 0x2_0000
  const SIZE_MASK: nat := 0x1_FFFF

  /** Slot used by counter value `count`: the source masks with SIZE_MASK. */
  function Slot(count: nat): (s: nat)
    ensures s < SIZE
  {
    count % SIZE
  }

  /** On a 64-bit `size_t`, masking with SIZE_MASK is the remainder by SIZE that `Slot` uses. */
  lemma MaskIsRemainder(count: bv64)
    ensures count & 0x1_FFFF == count % 0x2_0000
  {
  }

  /** Two counters less than SIZE apart never share a slot. */
  lemma SlotsDistinct(a: nat, b: nat)
    requires a < b < a + SIZE
    ensures Slot(a) != Slot(b)
  {
  }

  /** Results of a wait, as `WaitForSingleObject` reports them. */
  datatype WaitStatus = WaitObject0 | WaitAbandoned | WaitTimeout | WaitFailed

  /** What a queue holds after one `TryPush(x)`: the item is appended unless the queue is full. */
  function Pushed<T>(c: seq<Option<T>>, x: Option<T>): seq<Option<T>> {
    if |c| < SIZE then c + [x] else c
  }

  /** What a queue holds after `TryPush` of each of `xs` in turn. */
  function PushAll<T>(c: seq<Option<T>>, xs: seq<Option<T>>): seq<Option<T>>
    decreases |xs|
  {
    if xs == [] then c else PushAll(Pushed(c, xs[0]), xs[1..])
  }

  /**
   * Backpressure drops the newest items: pushing `xs` onto a queue holding `c`
   * keeps exactly the longest prefix of `xs` that fits, in order.
   */
  lemma {:induction false} PushAllKeepsPrefix<T>(c: seq<Option<T>>, xs: seq<Option<T>>)
    requires |c| <= SIZE
    ensures var keep := if |xs| <= SIZE - |c| then |xs| else SIZE - |c|;
            PushAll(c, xs) == c + xs[..keep]
    decreases |xs|
  {
    if xs != [] {
      PushAllKeepsPrefix(Pushed(c, xs[0]), xs[1..]);
      if |c| == SIZE {
        assert xs[..0] == [];
      } else {
        assert xs[1..][..(if |xs| - 1 <= SIZE - |c| - 1 then |xs| - 1 else SIZE - |c| - 1)]
            == xs[1..(if |xs| <= SIZE - |c| then |xs| else SIZE - |c|)];
        assert c + [xs[0]] + xs[1..(if |xs| <= SIZE - |c| then |xs| else SIZE - |c|)]
            == c + xs[..(if |xs| <= SIZE - |c| then |xs| else SIZE - |c|)];
      }
    }
  }

  /** Pushing `a` and then `b` is pushing `a + b`. */
  lemma {:induction false} PushAllConcat<T>(c: seq<Option<T>>, a: seq<Option<T>>, b: seq<Option<T>>)
    ensures PushAll(c, a + b) == PushAll(PushAll(c, a), b)
    decreases |a|
  {
    if a == [] {
      assert a + b == b;
    } else {
      assert (a + b)[0] == a[0];
      assert (a + b)[1..] == a[1..] + b;
      PushAllConcat(Pushed(c, a[0]), a[1..], b);
    }
  }

  lemma PushAllOne<T>(c: seq<Option<T>>, a: Option<T>)
    ensures PushAll(c, [a]) == Pushed(c, a)
  {
    assert [a][1..] == [];
  }

  lemma PushAllTwo<T>(c: seq<Option<T>>, a: Option<T>, b: Option<T>)
    ensures PushAll(c, [a, b]) == Pushed(Pushed(c, a), b)
  {
    PushAllOne(Pushed(c, a), b);
    assert [a, b][1..] == [b];
  }

  /** What `Clear` leaves: it pops up to and including the first empty pointer, or everything. */
  function Drained<T>(c: seq<Option<T>>): seq<Option<T>>
    decreases |c|
  {
    if c == [] then [] else if c[0].None? then c[1..] else Drained(c[1..])
  }

  /** Clear only removes items from the head. */
  lemma {:induction false} DrainedIsSuffix<T>(c: seq<Option<T>>)
    ensures |Drained(c)| <= |c|
    ensures Drained(c) == c[|c| - |Drained(c)|..]
    decreases |c|
  {
    if c != [] && c[0].Some? {
      DrainedIsSuffix(c[1..]);
      assert c[1..][|c| - 1 - |Drained(c[1..])|..] == c[|c| - |Drained(c)|..];
    }
  }

  /** A queue whose items are all non-empty pointers is emptied by `Clear`. */
  lemma {:induction false} DrainedAllPresent<T>(c: seq<Option<T>>)
    requires AllPresent(c)
    ensures Drained(c) == []
    decreases |c|
  {
    if c != [] {
      assert c[0].Some?;
      DrainedAllPresent(c[1..]);
    }
  }

  /** Every queued pointer owns an object. */
  predicate AllPresent<T>(c: seq<Option<T>>) {
    forall k :: 0 <= k < |c| ==> c[k].Some?
  }

  /** The ring queue. `Contents` lists the queued pointers from the oldest to the newest. */
  class Queue<T> {
    ghost var Contents: seq<Option<T>>

    const slots: array<Option<T>>
    var pushCount: nat
    var popCount: nat
    /** Push count a blocked consumer waits for; 0 when nobody waits. */
    var pushCondition: nat
    /** State of the manual-reset event `Signal`. */
    var signaled: bool

    ghost predicate Valid()
      reads this, slots
    {
      slots.Length == SIZE &&
      popCount <= pushCount <= popCount + SIZE &&
      |Contents| == pushCount - popCount &&
      forall k :: 0 <= k < |Contents| ==> Contents[k] == slots[Slot(popCount + k)]
    }

    constructor ()
      ensures Valid() && fresh(slots)
      ensures Contents == []
      ensures pushCount == 0 && popCount == 0 && pushCondition == 0 && !signaled
    {
      slots := new Option<T>[SIZE](_ => None);
      pushCount, popCount := 0, 0;
      pushCondition := 0;
      signaled := false;
      Contents := [];
    }

    /**
     * Moves `obj` into the queue unless it is full. `rest` is the caller's
     * pointer afterwards: empty on success, still `obj` when the queue was full.
     */
    method TryPush(obj: Option<T>) returns (rest: Option<T>)
      requires Valid()
      modifies this, slots
      ensures Valid()
      ensures Contents == Pushed(old(Contents), obj)
      ensures popCount == old(popCount) && pushCondition == old(pushCondition)
      ensures old(|Contents|) < SIZE ==>
                rest.None? && pushCount == old(pushCount) + 1 &&
                signaled == (old(signaled) || (pushCondition > 0 && pushCount >= pushCondition))
      ensures old(|Contents|) == SIZE ==>
                rest == obj && pushCount == old(pushCount) &&
                signaled == old(signaled) && slots[..] == old(slots[..])
    {
      rest := obj;
      if pushCount - popCount < SIZE {
        slots[Slot(pushCount)] := obj;
        rest := None;
        pushCount := pushCount + 1;
        Contents := Contents + [obj];
        forall k | 0 <= k < |Contents|
          ensures Contents[k] == slots[Slot(popCount + k)]
        {
          if k < |Contents| - 1 {
            SlotsDistinct(popCount + k, pushCount - 1);
          }
        }
        if pushCondition > 0 && pushCount >= pushCondition {
          signaled := true;
        }
      }
    }

    /**
     * `TryPop(T_ptr&)`: moves the oldest item into the caller's pointer, or leaves
     * the pointer `obj` as it was when the queue is empty.
     */
    method TryPopInto(obj: Option<T>) returns (res: Option<T>)
      requires Valid()
      modifies this, slots
      ensures Valid()
      ensures pushCount == old(pushCount) && pushCondition == old(pushCondition)
      ensures signaled == old(signaled)
      ensures old(|Contents|) > 0 ==>
                res == old(Contents[0]) && Contents == old(Contents[1..]) &&
                popCount == old(popCount) + 1
      ensures old(|Contents|) == 0 ==>
                res == obj && Contents == old(Contents) && popCount == old(popCount) &&
                slots[..] == old(slots[..])
    {
      res := obj;
      if pushCount > popCount {
        res := slots[Slot(popCount)];
        slots[Slot(popCount)] := None;
        popCount := popCount + 1;
        Contents := Contents[1..];
        forall k | 0 <= k < |Contents|
          ensures Contents[k] == slots[Slot(popCount + k)]
        {
          SlotsDistinct(popCount - 1, popCount + k);
        }
      }
    }

    /** `TryPop()`: the oldest item, or an empty pointer when the queue is empty. */
    method TryPop() returns (res: Option<T>)
      requires Valid()
      modifies this, slots
      ensures Valid()
      ensures pushCount == old(pushCount) && pushCondition == old(pushCondition)
      ensures signaled == old(signaled)
      ensures old(|Contents|) > 0 ==>
                res == old(Contents[0]) && Contents == old(Contents[1..]) &&
                popCount == old(popCount) + 1
      ensures old(|Contents|) == 0 ==>
                res.None? && Contents == old(Contents) && popCount == old(popCount)
    {
      res := TryPopInto(None);
    }

    /** `while (TryPop());` */
    method Clear()
      requires Valid()
      modifies this, slots
      ensures Valid()
      ensures Contents == Drained(old(Contents))
      ensures pushCount == old(pushCount) && pushCondition == old(pushCondition)
      ensures signaled == old(signaled)
    {
      while true
        invariant Valid()
        invariant Drained(Contents) == Drained(old(Contents))
        invariant pushCount == old(pushCount) && pushCondition == old(pushCondition)
        invariant signaled == old(signaled)
        decreases |Contents|
      {
        ghost var before := Contents;
        var item := TryPop();
        if item.None? {
          assert Contents == Drained(before);
          return;
        }
      }
    }

    /** Number of queued items. */
    method GetCount() returns (n: nat)
      requires Valid()
      ensures n == |Contents|
    {
      n := pushCount - popCount;
    }

    /**
     * Waits until at least `n` items are queued. The outcome of the blocking
     * `WaitForSingleObject` is `blocked`, and `resetOk` is `ResetEvent`'s result.
     */
    method Wait(n: nat, timeoutMilliseconds: nat, resetOk: bool, blocked: WaitStatus)
      returns (r: WaitStatus)
      requires Valid()
      modifies this
      ensures Valid() && Contents == old(Contents)
      ensures pushCount == old(pushCount) && popCount == old(popCount)
      ensures old(pushCount) >= old(popCount) + n ==>
                r == WaitObject0 && pushCondition == old(pushCondition) && signaled == old(signaled)
      ensures old(pushCount) < old(popCount) + n && timeoutMilliseconds == 0 ==>
                r == WaitTimeout && pushCondition == old(pushCondition) && signaled == old(signaled)
      ensures old(pushCount) < old(popCount) + n && timeoutMilliseconds > 0 ==>
                pushCondition == 0 &&
                r == (if resetOk then blocked else WaitFailed) &&
                signaled == (old(signaled) && !resetOk)
    {
      if pushCount >= popCount + n {
        return WaitObject0;
      }
      if timeoutMilliseconds == 0 {
        return WaitTimeout;
      }
      // Arm the condition that TryPush signals.
      pushCondition := popCount + n;
      if !resetOk {
        pushCondition := 0;
        return WaitFailed;
      }
      signaled := false;
      // The recheck closes the race with a concurrent producer; with the calls run
      // one at a time it can only fail here.
      if pushCount >= pushCondition {
        pushCondition := 0;
        return WaitObject0;
      }
      r := blocked;
      pushCondition := 0;
    }
  }
}
