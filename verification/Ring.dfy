/** `RingBuffer`: a fixed array with a head and a size. */
module Ring {

  /** The last `n` items, oldest first. */
  function Last<T>(items: seq<T>, n: nat): (r: seq<T>)
    ensures |r| == if |items| < n then |items| else n
  {
    if |items| <= n then items else items[|items| - n..]
  }

  /** The last items are an end of the list, as long as it may be. */
  lemma LastIsEnd<T>(items: seq<T>, n: nat)
    ensures |Last(items, n)| <= n && (|items| <= n ==> Last(items, n) == items)
    ensures |items| > n ==> |Last(items, n)| == n && items == items[..|items| - n] + Last(items, n)
  {
  }

  /** Keeping the last items one push at a time is keeping the last items of the whole history. */
  lemma LastOfPush<T>(items: seq<T>, x: T, n: nat)
    ensures Last(Last(items, n) + [x], n) == Last(items + [x], n)
  {
  }

  lemma Wrap(head: nat, capacity: nat)
    requires head < capacity
    ensures (head + 1) % capacity == if head + 1 == capacity then 0 else head + 1
  {
  }

  /** Overwriting the oldest item of a full ring and moving the head past it. */
  lemma PushFull<T>(d: seq<T>, head: nat, item: T, next: nat)
    requires head < |d| && next == (if head + 1 == |d| then 0 else head + 1)
    ensures d[head := item][next..] + d[head := item][..next] == ((d[head..] + d[..head]) + [item])[1..]
  {
  }

  class RingBuffer<T(0)> {
    const data: array<T>
    const capacity: nat
    var head: nat
    var size: nat

    ghost predicate Valid()
      reads this
    {
      && data.Length == capacity
      && size <= capacity
      && (if size < capacity then head == size else if capacity == 0 then head == 0 else head < capacity)
    }

    /** Oldest to newest. */
    ghost function Contents(): (s: seq<T>)
      requires Valid()
      reads this, data
      ensures |s| == size <= capacity
    {
      if size < capacity then data[..size] else data[head..] + data[..head]
    }

    constructor (capacity: nat)
      ensures Valid() && fresh(this) && fresh(data) && this.capacity == capacity && Contents() == []
    {
      this.capacity := capacity;
      data := new T[capacity];
      head, size := 0, 0;
    }

    /** A push forgets the oldest item when full, and everything at capacity 0. */
    method Push(item: T)
      requires Valid()
      modifies this, data
      ensures Valid()
      ensures Contents() == Last(old(Contents()) + [item], capacity)
    {
      if capacity == 0 {
        return;
      }
      ghost var was := Contents();
      data[head] := item;
      Wrap(head, capacity);
      head := (head + 1) % capacity;
      if size < capacity {
        size := size + 1;
      }
      if |was| == capacity {
        PushFull(old(data[..]), old(head), item, head);
        assert data[..] == old(data[..])[old(head) := item];
      }
    }

    /** A copy in memory of its own. */
    method Slice() returns (res: array<T>)
      requires Valid()
      ensures fresh(res) && res[..] == Contents()
    {
      res := new T[size];
      if size == 0 {
        return;
      }
      if size < capacity {
        CopyInto(res, 0, data, 0, size);
      } else {
        var n := data.Length - head;
        CopyInto(res, 0, data, head, n);
        assert res[..n] == data[head..];
        CopyInto(res, n, data, 0, head);
        assert res[..] == data[head..] + data[..head];
      }
    }
  }

  /** `copy(dst[at:], src[from:from+n])` between distinct arrays. */
  method CopyInto<T>(dst: array<T>, at: nat, src: array<T>, from: nat, n: nat)
    requires dst != src && at + n <= dst.Length && from + n <= src.Length
    modifies dst
    ensures dst[..] == old(dst[..at]) + src[from..from + n] + old(dst[at + n..])
  {
    var i := 0;
    while i < n
      invariant i <= n
      invariant forall k | 0 <= k < dst.Length ::
                  dst[k] == if at <= k < at + i then src[from + (k - at)] else old(dst[k])
    {
      dst[at + i] := src[from + i];
      i := i + 1;
    }
  }
}
