/** The ring under `MTCircularQueue`: a queue of at most m_size - 1 elements in an array of m_size slots. */
module CircularQueue {

  lemma Wrap(a: nat, m: nat)
    requires a < 2 * m
    ensures a % m == if a < m then a else a - m
  {
    if a >= m {
      WrapOnce(a - m, m);
    }
  }

  lemma WrapOnce(b: nat, m: nat)
    requires b < m
    ensures (b + m) % m == b
  {
    assert (b + m) / m == 1;
  }

  class CircularQueue<T(0)> {
    const mSize: nat
    var first: nat  // the next element goes into this slot
    var last: nat   // the oldest element is in this slot
    const queue: array<T>

    ghost predicate Valid()
      reads this
    {
      mSize > 0 && queue.Length == mSize && first < mSize && last < mSize
    }

    /** The number of elements between last and first, around the end of the array. */
    function Count(): nat
      requires Valid()
      reads this
    {
      (first + mSize - last) % mSize
    }

    function Slot(i: nat): nat
      requires Valid()
      reads this
    {
      (last + i) % mSize
    }

    /** The queued elements, oldest first. */
    ghost function Contents(): (s: seq<T>)
      requires Valid()
      reads this, queue
      ensures |s| == Count()
    {
      seq(Count(), i requires Valid() && 0 <= i < Count() reads this, queue => queue[Slot(i)])
    }

    constructor (size: nat)
      ensures Valid() && mSize == size + 1 && Contents() == []
      ensures fresh(queue)
    {
      mSize := size + 1;
      first, last := 0, 0;
      queue := new T[size + 1];
      new;
      Wrap(mSize, mSize);
    }

    lemma CountFacts()
      requires Valid()
      ensures Count() == if last <= first then first - last else first + mSize - last
      ensures Count() < mSize
      ensures forall i | 0 <= i < mSize :: Slot(i) == if last + i < mSize then last + i else last + i - mSize
      ensures (first + 1) % mSize == if first + 1 < mSize then first + 1 else 0
      ensures (last + 1) % mSize == if last + 1 < mSize then last + 1 else 0
    {
      Wrap(first + mSize - last, mSize);
      Wrap(first + 1, mSize);
      Wrap(last + 1, mSize);
      forall i | 0 <= i < mSize ensures Slot(i) == if last + i < mSize then last + i else last + i - mSize {
        Wrap(last + i, mSize);
      }
    }

    method Empty() returns (r: bool)
      requires Valid()
      ensures r <==> Contents() == []
    {
      CountFacts();
      r := first == last;
    }

    method Full() returns (r: bool)
      requires Valid()
      ensures r <==> |Contents()| == mSize - 1
    {
      CountFacts();
      r := (first + 1) % mSize == last;
    }

    method Size() returns (n: nat)
      requires Valid()
      ensures n == |Contents()|
    {
      n := (first + mSize - last) % mSize;
    }

    method Push(t: T)
      requires Valid() && |Contents()| < mSize - 1
      modifies `first, queue
      ensures Valid() && Contents() == old(Contents()) + [t]
    {
      CountFacts();
      queue[first] := t;
      first := (first + 1) % mSize;
      CountFacts();
    }

    method Pop() returns (t: T)
      requires Valid() && Contents() != []
      modifies `last
      ensures Valid() && [t] + Contents() == old(Contents())
    {
      CountFacts();
      var idx := last;
      last := (last + 1) % mSize;
      t := queue[idx];
      CountFacts();
    }

    /** Pushes even when the queue is full, by dropping the oldest element. */
    method PushCircular(t: T)
      requires Valid() && mSize > 1
      modifies `first, `last, queue
      ensures Valid()
      ensures Contents() == (if |old(Contents())| == mSize - 1 then old(Contents())[1..] else old(Contents())) + [t]
    {
      var full := Full();
      if full {
        var dropped := Pop();
      }
      Push(t);
    }

    method At(idx: nat) returns (t: T)
      requires Valid() && idx < |Contents()|
      ensures t == Contents()[idx]
    {
      t := queue[(last + idx) % mSize];
    }

    method Back() returns (t: T)
      requires Valid() && Contents() != []
      ensures t == Contents()[|Contents()| - 1]
    {
      CountFacts();
      Wrap(first + mSize - 1, mSize);
      t := queue[(first + mSize - 1) % mSize];
    }
  }
}
