/** kernel/reflex_kqueue.c: a ring of items of one size, here of one type. */
module KQueue {
  import opened Errors

  /** The slot after i in a ring of n slots. */
  function After(i: nat, n: nat): (r: nat)
    requires i < n
    ensures r < n
  {
    if i + 1 == n then 0 else i + 1
  }

  lemma AfterIsModulo(i: nat, n: nat)
    requires i < n
    ensures (i + 1) % n == After(i, n)
  {
    if i + 1 < n {
      assert (i + 1) % n == i + 1;
    } else {
      assert n % n == 0;
    }
  }

  /** Slot i places after `tail`. */
  function Place(tail: nat, i: nat, n: nat): (r: nat)
    requires tail < n && i <= n
    ensures r < n
  {
    if tail + i < n then tail + i else tail + i - n
  }

  class Queue<T> {
    /** Null once the queue has been destroyed. */
    var storage: array?<T>
    var length: nat
    var count: nat
    /** Next slot to write and next slot to read. */
    var head: nat
    var tail: nat

    ghost predicate Valid()
      reads this
    {
      && (storage != null ==>
            && storage.Length == length > 0 && count <= length && tail < length
            && head == Place(tail, count, length))
      && (storage == null ==> count == 0)
    }

    /** The items held, oldest first. */
    ghost function Contents(): (s: seq<T>)
      requires Valid()
      reads this, storage
      ensures |s| == count
    {
      if storage == null then []
      else seq(count, i requires 0 <= i < count reads this, storage requires Valid() && storage != null => storage[Place(tail, i, length)])
    }

    constructor (capacity: nat, blank: T)
      requires capacity > 0
      ensures Valid() && storage != null && fresh(storage) && length == capacity && Contents() == []
    {
      storage := new T[capacity](_ => blank);
      length := capacity;
      count, head, tail := 0, 0, 0;
    }

    method Destroy()
      modifies this
      ensures Valid() && storage == null
    {
      storage := null;
      length, count, head, tail := 0, 0, 0, 0;
    }

    method TrySend(item: Option<T>) returns (ok: bool)
      requires Valid()
      modifies this, storage
      ensures Valid() && storage == old(storage) && length == old(length)
      ensures ok <==> storage != null && item.Some? && |old(Contents())| < length
      ensures Contents() == if ok then old(Contents()) + [item.value] else old(Contents())
    {
      if storage == null || item.None? {
        return false;
      }
      if count >= length {
        return false;
      }
      ghost var was := Contents();
      storage[head] := item.value;
      AfterIsModulo(head, length);
      head := (head + 1) % length;
      count := count + 1;
      assert Contents() == was + [item.value];
      return true;
    }

    /** `discard` stands for a null destination: the oldest item is dropped without being copied. */
    method TryRecv(discard: bool) returns (ok: bool, item: Option<T>)
      requires Valid()
      modifies this
      ensures Valid() && storage == old(storage) && length == old(length)
      ensures ok <==> |old(Contents())| > 0
      ensures ok ==> old(Contents()) == [old(Contents())[0]] + Contents()
      ensures item == if ok && !discard then Some(old(Contents())[0]) else None
      ensures !ok ==> Contents() == old(Contents())
    {
      if storage == null {
        return false, None;
      }
      if count == 0 {
        return false, None;
      }
      ghost var was := Contents();
      item := if discard then None else Some(storage[tail]);
      AfterIsModulo(tail, length);
      tail := (tail + 1) % length;
      count := count - 1;
      assert was == [was[0]] + Contents();
      return true, item;
    }

    method Reset()
      requires Valid()
      modifies this
      ensures Valid() && Contents() == [] && storage == old(storage) && length == old(length)
    {
      count, head, tail := 0, 0, 0;
    }
  }
}
