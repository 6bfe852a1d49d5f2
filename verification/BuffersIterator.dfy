/**
  * The random-access iterator over a sequence of scattered buffers, any of which may be empty,
  * proved to be an index into the flat byte string.
  */
module BuffersIterator {

  // ----- The flat view -----

  function Flat<T>(buffers: seq<seq<T>>): seq<T> {
    if buffers == [] then [] else Flat(buffers[..|buffers| - 1]) + buffers[|buffers| - 1]
  }

  /** The number of bytes in the first `i` buffers. */
  function Start<T>(buffers: seq<seq<T>>, i: nat): nat
    requires i <= |buffers|
  {
    if i == 0 then 0 else Start(buffers, i - 1) + |buffers[i - 1]|
  }

  function Total<T>(buffers: seq<seq<T>>): nat {
    Start(buffers, |buffers|)
  }

  lemma {:induction false} StartMonotone<T>(buffers: seq<seq<T>>, i: nat, j: nat)
    requires i <= j <= |buffers|
    ensures Start(buffers, i) <= Start(buffers, j)
    ensures i < j ==> Start(buffers, i) + |buffers[i]| <= Start(buffers, j)
  {
    if i < j { StartMonotone(buffers, i, j - 1); }
  }

  lemma {:induction false} StartIsPrefix<T>(buffers: seq<seq<T>>, i: nat)
    requires i <= |buffers|
    ensures |Flat(buffers[..i])| == Start(buffers, i)
  {
    if i > 0 {
      assert buffers[..i][..i - 1] == buffers[..i - 1];
      StartIsPrefix(buffers, i - 1);
    }
  }

  lemma {:induction false} FlatExtends<T>(buffers: seq<seq<T>>, i: nat, j: nat)
    requires i <= j <= |buffers|
    ensures Flat(buffers[..i]) <= Flat(buffers[..j])
  {
    if i < j {
      assert buffers[..j][..j - 1] == buffers[..j - 1];
      FlatExtends(buffers, i, j - 1);
    }
  }

  /** Byte `k` of buffer `i` in the flat string. */
  lemma FlatAt<T>(buffers: seq<seq<T>>, i: nat, k: nat)
    requires i < |buffers| && k < |buffers[i]|
    ensures Start(buffers, i) + k < |Flat(buffers)| == Total(buffers)
    ensures Flat(buffers)[Start(buffers, i) + k] == buffers[i][k]
  {
    StartIsPrefix(buffers, i);
    StartIsPrefix(buffers, i + 1);
    StartIsPrefix(buffers, |buffers|);
    FlatExtends(buffers, i + 1, |buffers|);
    assert buffers[..|buffers|] == buffers;
    assert buffers[..i + 1][..i] == buffers[..i];
    assert Flat(buffers[..i + 1]) == Flat(buffers[..i]) + buffers[i];
    hide Flat, Start;
    assert Flat(buffers)[Start(buffers, i) + k] == Flat(buffers[..i + 1])[Start(buffers, i) + k];
  }

  /** A position, as the iterator keeps it: inside a non-empty buffer, or at the very end. */
  ghost predicate Place<T>(buffers: seq<seq<T>>, current: nat, offset: nat, position: nat) {
    && current <= |buffers|
    && position == Start(buffers, current) + offset
    && (if current < |buffers| then offset < |buffers[current]| else offset == 0)
  }

  /** The position determines the place, so `position_` alone decides where an iterator is. */
  lemma PlaceUnique<T>(buffers: seq<seq<T>>, c: nat, o: nat, c': nat, o': nat, position: nat)
    requires Place(buffers, c, o, position) && Place(buffers, c', o', position)
    ensures c == c' && o == o'
  {
    hide Start;
    if c < c' {
      StartMonotone(buffers, c, c');
    } else if c' < c {
      StartMonotone(buffers, c', c);
    }
  }

  lemma PlaceInRange<T>(buffers: seq<seq<T>>, current: nat, offset: nat, position: nat)
    requires Place(buffers, current, offset, position)
    ensures position <= Total(buffers)
    ensures position == Total(buffers) <==> current == |buffers|
    ensures current < |buffers| ==> position < |Flat(buffers)| && Flat(buffers)[position] == buffers[current][offset]
  {
    StartMonotone(buffers, current, |buffers|);
    if current < |buffers| {
      FlatAt(buffers, current, offset);
    }
  }

  class Iterator<T> {
    const buffers: seq<seq<T>>
    var currentBuffer: seq<T>
    var currentBufferPosition: nat
    var current: nat
    var position: nat

    ghost predicate Valid()
      reads this
    {
      && Place(buffers, current, currentBufferPosition, position)
      && (current < |buffers| ==> currentBuffer == buffers[current])
    }

    constructor Begin(buffers: seq<seq<T>>)
      ensures Valid() && this.buffers == buffers && position == 0
    {
      this.buffers := buffers;
      currentBuffer := [];
      currentBufferPosition := 0;
      current := 0;
      position := 0;
      new;
      while current != |buffers|
        invariant current <= |buffers| && position == currentBufferPosition == 0
        invariant Start(buffers, current) == 0
        invariant this.buffers == buffers
      {
        currentBuffer := buffers[current];
        if |currentBuffer| > 0 {
          break;
        }
        current := current + 1;
      }
    }

    constructor End(buffers: seq<seq<T>>)
      ensures Valid() && this.buffers == buffers && position == Total(buffers)
    {
      this.buffers := buffers;
      currentBuffer := [];
      currentBufferPosition := 0;
      current := 0;
      position := 0;
      new;
      while current != |buffers|
        invariant current <= |buffers| && currentBufferPosition == 0
        invariant position == Start(buffers, current)
        invariant this.buffers == buffers
      {
        position := position + |buffers[current]|;
        current := current + 1;
      }
    }

    method Dereference() returns (b: T)
      requires Valid() && position < Total(buffers)
      ensures |Flat(buffers)| == Total(buffers) && b == Flat(buffers)[position]
    {
      PlaceInRange(buffers, current, currentBufferPosition, position);
      FlatAt(buffers, current, currentBufferPosition);
      b := currentBuffer[currentBufferPosition];
    }

    method Increment()
      requires Valid() && position < Total(buffers)
      modifies this
      ensures Valid() && position == old(position) + 1
    {
      PlaceInRange(buffers, current, currentBufferPosition, position);
      position := position + 1;
      currentBufferPosition := currentBufferPosition + 1;
      if currentBufferPosition != |currentBuffer| {
        return;
      }
      current := current + 1;
      currentBufferPosition := 0;
      while current != |buffers|
        invariant current <= |buffers| && currentBufferPosition == 0
        invariant position == Start(buffers, current) == old(position) + 1
      {
        currentBuffer := buffers[current];
        if |currentBuffer| > 0 {
          return;
        }
        current := current + 1;
      }
    }

    method Decrement()
      requires Valid() && position > 0
      modifies this
      ensures Valid() && position == old(position) - 1
    {
      position := position - 1;
      if currentBufferPosition != 0 {
        currentBufferPosition := currentBufferPosition - 1;
        return;
      }
      var iter: nat := current;
      while iter != 0
        invariant iter <= current <= |buffers|
        invariant Start(buffers, iter) == old(position) == position + 1
        invariant current == old(current) && currentBufferPosition == 0
      {
        iter := iter - 1;
        var buffer := buffers[iter];
        if |buffer| > 0 {
          current := iter;
          currentBuffer := buffer;
          currentBufferPosition := |buffer| - 1;
          return;
        }
      }
    }

    method Advance(n: int)
      requires Valid() && 0 <= position + n <= Total(buffers)
      modifies this
      ensures Valid() && position == old(position) + n
    {
      if n > 0 {
        AdvanceForward(n);
      } else if n < 0 {
        AdvanceBackward(-n);
      }
    }

    method AdvanceForward(distance: nat)
      requires Valid() && distance > 0 && position + distance <= Total(buffers)
      modifies this
      ensures Valid() && position == old(position) + distance
    {
      PlaceInRange(buffers, current, currentBufferPosition, position);
      var n: nat := distance;
      while true
        invariant current < |buffers| && currentBuffer == buffers[current]
        invariant currentBufferPosition <= |currentBuffer|
        invariant position == Start(buffers, current) + currentBufferPosition
        invariant position + n == old(position) + distance
        decreases |buffers| - current
      {
        var balance := |currentBuffer| - currentBufferPosition;
        if balance > n {
          position := position + n;
          currentBufferPosition := currentBufferPosition + n;
          return;
        }
        n := n - balance;
        position := position + balance;
        current := current + 1;
        if current == |buffers| {
          assert n == 0;
          currentBuffer := [];
          currentBufferPosition := 0;
          return;
        }
        currentBuffer := buffers[current];
        currentBufferPosition := 0;
      }
    }

    method AdvanceBackward(distance: nat)
      requires Valid() && distance > 0 && distance <= position
      modifies this
      ensures Valid() && position == old(position) - distance
    {
      var n: nat := distance;
      while true
        invariant current <= |buffers| && n > 0
        invariant current < |buffers| ==> currentBuffer == buffers[current] && currentBufferPosition <= |currentBuffer|
        invariant current == |buffers| ==> currentBufferPosition == 0
        invariant position == Start(buffers, current) + currentBufferPosition
        invariant position - n == old(position) - distance >= 0
        decreases current
      {
        if currentBufferPosition >= n {
          position := position - n;
          currentBufferPosition := currentBufferPosition - n;
          return;
        }
        n := n - currentBufferPosition;
        position := position - currentBufferPosition;
        if current == 0 {
          // The beginning is not reached while bytes remain to be skipped.
          assert false;
        }
        var iter: nat := current;
        ghost var before := current;
        while iter != 0
          invariant iter <= current == before <= |buffers|
          invariant Start(buffers, iter) == Start(buffers, current) == position
          invariant n > 0 && position - n == old(position) - distance >= 0
        {
          iter := iter - 1;
          var buffer := buffers[iter];
          if |buffer| > 0 {
            current := iter;
            currentBuffer := buffer;
            currentBufferPosition := |buffer|;
            break;
          }
        }
      }
    }

    method DistanceTo(other: Iterator<T>) returns (d: int)
      requires Valid() && other.Valid() && buffers == other.buffers
      ensures position + d == other.position
      ensures d == 0 <==> current == other.current && currentBufferPosition == other.currentBufferPosition
    {
      d := other.position - position;
      if d == 0 {
        PlaceUnique(buffers, current, currentBufferPosition, other.current, other.currentBufferPosition, position);
      }
    }
  }

  /** `Advance(n)` and |n| single steps lead to the same place, for every distance in range. */
  method AdvanceIsSteps<T>(it: Iterator<T>, walker: Iterator<T>, n: int)
    requires it != walker && it.Valid() && walker.Valid()
    requires it.buffers == walker.buffers && it.position == walker.position
    requires 0 <= it.position + n <= Total(it.buffers)
    modifies it, walker
    ensures it.Valid() && walker.Valid() && it.position == walker.position == old(it.position) + n
    ensures it.current == walker.current && it.currentBufferPosition == walker.currentBufferPosition
  {
    it.Advance(n);
    for i := 0 to if n < 0 then -n else n
      invariant it.Valid() && it.position == old(it.position) + n
      invariant walker.Valid() && walker.position == old(walker.position) + (if n < 0 then -i else i)
    {
      if n < 0 {
        walker.Decrement();
      } else {
        walker.Increment();
      }
    }
    PlaceUnique(it.buffers, it.current, it.currentBufferPosition, walker.current, walker.currentBufferPosition, it.position);
  }
}
