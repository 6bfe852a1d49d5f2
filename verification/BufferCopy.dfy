/**
  * Scatter/gather copy between buffer sequences, proved to be a prefix copy between the flat
  * byte strings. A buffer is a pointer and a size; pointers are indices into one memory.
  */
module BufferCopy {
  import opened BuffersIterator
  import opened Helpers

  datatype Buffer = Buffer(data: nat, size: nat)

  const NULL_BUFFER := Buffer(0, 0)

  /** `b + start` */
  function Offset(b: Buffer, start: nat): (r: Buffer)
    ensures start <= b.size ==> r.data == b.data + start && r.data + r.size == b.data + b.size
    ensures start > b.size ==> r.size == 0
  {
    if start > b.size then NULL_BUFFER else Buffer(b.data + start, b.size - start)
  }

  /** `buffer(b, max)` */
  function Limited(b: Buffer, max: nat): Buffer {
    Buffer(b.data, if b.size < max then b.size else max)
  }

  // ----- Addresses -----

  function Range(b: Buffer): (r: seq<nat>)
    ensures |r| == b.size
  {
    seq(b.size, k => b.data + k)
  }

  function Regions(buffers: seq<Buffer>): (r: seq<seq<nat>>)
    ensures |r| == |buffers|
  {
    seq(|buffers|, i requires 0 <= i < |buffers| => Range(buffers[i]))
  }

  /** The addresses of all bytes of a buffer sequence, in order. */
  function Addresses(buffers: seq<Buffer>): seq<nat> {
    Flat(Regions(buffers))
  }

  ghost predicate InMemory(buffers: seq<Buffer>, length: nat) {
    forall i | 0 <= i < |buffers| :: buffers[i].data + buffers[i].size <= length
  }

  /** No byte is both target and source. */
  ghost predicate Separate(a: seq<nat>, b: seq<nat>) {
    forall i, j | 0 <= i < |a| && 0 <= j < |b| :: a[i] != b[j]
  }

  /** No byte is a target twice. */
  ghost predicate Distinct(a: seq<nat>) {
    forall i, j | 0 <= i < j < |a| :: a[i] != a[j]
  }

  /** Of the first `n` writes, write `i` is the last one to its address. */
  ghost predicate Last(a: seq<nat>, n: nat, i: nat) {
    i < n <= |a| && forall j | i < j < n :: a[j] != a[i]
  }

  lemma {:induction false} LastExists(a: seq<nat>, n: nat, x: nat)
    requires n <= |a| && x in a[..n]
    ensures exists i: nat :: Last(a, n, i) && i < n && a[i] == x
  {
    if a[n - 1] == x {
      assert Last(a, n, n - 1);
    } else {
      LastExists(a, n - 1, x);
      var i: nat :| Last(a, n - 1, i) && a[i] == x;
      assert Last(a, n, i);
    }
  }

  /**
    * The first `n` target bytes hold the first `n` source bytes, and nothing else has changed. A byte
    * that is a target several times holds what was written last.
    */
  ghost predicate Copied<T>(before: seq<T>, after: seq<T>, a: seq<nat>, b: seq<nat>, n: nat) {
    && |after| == |before| && n <= |a| && n <= |b|
    && (forall i | 0 <= i < |a| :: a[i] < |before|) && (forall i | 0 <= i < |b| :: b[i] < |before|)
    && (forall i: nat | Last(a, n, i) :: after[a[i]] == before[b[i]])
    && (forall x | 0 <= x < |before| && x !in a[..n] :: after[x] == before[x])
  }

  /** The outcome of a copy is fully determined, so all forms of `buffer_copy` agree. */
  lemma CopiedUnique<T>(before: seq<T>, after: seq<T>, after': seq<T>, a: seq<nat>, b: seq<nat>, n: nat)
    requires Copied(before, after, a, b, n) && Copied(before, after', a, b, n)
    ensures after == after'
  {
    hide Last;
    forall x | 0 <= x < |before| ensures after[x] == after'[x] {
      if x in a[..n] {
        LastExists(a, n, x);
        var i: nat :| Last(a, n, i) && i < n && a[i] == x;
        assert after[a[i]] == before[b[i]] == after'[a[i]];
      }
    }
  }

  function Contents<T>(memory: seq<T>, a: seq<nat>): (s: seq<T>)
    requires forall i | 0 <= i < |a| :: a[i] < |memory|
    ensures |s| == |a| && forall i | 0 <= i < |a| :: s[i] == memory[a[i]]
  {
    seq(|a|, i requires 0 <= i < |a| => memory[a[i]])
  }

  /**
    * Seen through the flat strings: the source stays, and if the target bytes are distinct, they take
    * over the source's first `n` bytes while their rest stays.
    */
  lemma CopiedContents<T>(before: seq<T>, after: seq<T>, a: seq<nat>, b: seq<nat>, n: nat)
    requires Separate(a, b) && Copied(before, after, a, b, n)
    ensures Distinct(a) ==> Contents(after, a) == Contents(before, b)[..n] + Contents(before, a)[n..]
    ensures Contents(after, b) == Contents(before, b)
  {
    assert forall i | 0 <= i < |b| :: b[i] !in a[..n];
    if Distinct(a) {
      AllLast(a, n);
      hide Last, Distinct, Separate;
      forall i | 0 <= i < n ensures after[a[i]] == before[b[i]] {
        assert Last(a, n, i);
      }
    }
  }

  lemma AllLast(a: seq<nat>, n: nat)
    requires Distinct(a) && n <= |a|
    ensures forall i: nat | i < n :: Last(a, n, i)
    ensures forall i | n <= i < |a| :: a[i] !in a[..n]
  {
  }

  /** A limit on a single buffer, `buffer(b, max)`, is a limit on the number of bytes: the two styles agree. */
  lemma LimitAgrees<T>(before: seq<T>, after: seq<T>, target: Buffer, max: nat, b: seq<nat>)
    requires var t := Limited(target, max); Copied(before, after, Addresses([t]), b, Min(t.size, |b|))
    requires InMemory([target], |before|)
    ensures Copied(before, after, Addresses([target]), b, Min(Min(target.size, |b|), max))
  {
    var t := Limited(target, max);
    SingleStretch(t);
    SingleStretch(target);
    AddressesInMemory([target], |before|);
    hide Addresses;
    assert Addresses([t]) == Addresses([target])[..t.size];
    assert forall n | 0 <= n <= t.size :: Addresses([t])[..n] == Addresses([target])[..n];
    LastOfPrefix(Addresses([t]), Addresses([target]), Min(t.size, |b|));
    hide Last;
  }

  /** The same for a limit on a single source buffer. */
  lemma SourceLimitAgrees<T>(before: seq<T>, after: seq<T>, a: seq<nat>, source: Buffer, max: nat)
    requires var t := Limited(source, max); Copied(before, after, a, Addresses([t]), Min(|a|, t.size))
    requires InMemory([source], |before|)
    ensures Copied(before, after, a, Addresses([source]), Min(Min(|a|, source.size), max))
  {
    var t := Limited(source, max);
    SingleStretch(t);
    SingleStretch(source);
    AddressesInMemory([source], |before|);
    hide Addresses, Last;
    assert Addresses([t]) == Addresses([source])[..t.size];
    assert forall i: nat | Last(a, Min(|a|, t.size), i) :: i < Min(|a|, t.size) by { LastBound(a, Min(|a|, t.size)); }
  }

  lemma LastBound(a: seq<nat>, n: nat)
    ensures forall i: nat | Last(a, n, i) :: i < n
  {
  }

  lemma LastOfPrefix(a: seq<nat>, a': seq<nat>, n: nat)
    requires a <= a' && n <= |a|
    ensures forall i: nat | Last(a', n, i) :: i < n && Last(a, n, i) && a[i] == a'[i]
  {
  }

  /** Copying the next `k` bytes extends a prefix copy. */
  lemma CopiedExtends<T>(before: seq<T>, middle: seq<T>, after: seq<T>, a: seq<nat>, b: seq<nat>, n: nat, k: nat)
    requires Separate(a, b) && Copied(before, middle, a, b, n)
    requires n + k <= |a| && n + k <= |b| && |after| == |middle|
    requires forall i | n <= i < n + k :: after[a[i]] == middle[b[i]]
    requires forall x | 0 <= x < |middle| && x !in a[n..n + k] :: after[x] == middle[x]
    ensures Copied(before, after, a, b, n + k)
  {
    forall i: nat | Last(a, n + k, i) ensures after[a[i]] == before[b[i]] {
      if i < n {
        assert Last(a, n, i) && a[i] !in a[n..n + k];
      } else {
        assert b[i] !in a[..n];
      }
    }
    forall x | 0 <= x < |before| && x !in a[..n + k] ensures after[x] == before[x] {
      assert forall y | y in a[..n] || y in a[n..n + k] :: y in a[..n + k];
    }
  }

  /** How far a loop over `buffers` has come: `t` bytes, ending at `offset` in buffer `i`. */
  ghost predicate Cursor(buffers: seq<Buffer>, i: nat, offset: nat, t: nat) {
    && i <= |buffers| && t == Start(Regions(buffers), i) + offset
    && (if i < |buffers| then offset <= buffers[i].size else offset == 0)
  }

  /** The rest of the current buffer is the next stretch of the flat addresses. */
  ghost predicate Stretch(piece: Buffer, a: seq<nat>, t: nat) {
    t + piece.size <= |a| && forall j | t <= j < t + piece.size :: a[j] == piece.data + (j - t)
  }

  lemma CursorStretch(buffers: seq<Buffer>, i: nat, offset: nat, t: nat)
    requires Cursor(buffers, i, offset, t) && i < |buffers|
    ensures Stretch(Offset(buffers[i], offset), Addresses(buffers), t)
  {
    var piece := Offset(buffers[i], offset);
    StartMonotone(Regions(buffers), i + 1, |buffers|);
    AddressCount(buffers);
    forall j | t <= j < t + piece.size ensures Addresses(buffers)[j] == piece.data + (j - t) {
      FlatAt(Regions(buffers), i, offset + (j - t));
    }
  }

  lemma AddressCount(buffers: seq<Buffer>)
    ensures |Addresses(buffers)| == Total(Regions(buffers))
  {
    StartIsPrefix(Regions(buffers), |buffers|);
    assert Regions(buffers)[..|buffers|] == Regions(buffers);
  }

  lemma CursorMoves(buffers: seq<Buffer>, i: nat, offset: nat, t: nat, n: nat)
    requires Cursor(buffers, i, offset, t) && i < |buffers| && n <= Offset(buffers[i], offset).size
    ensures if n == Offset(buffers[i], offset).size then Cursor(buffers, i + 1, 0, t + n) else Cursor(buffers, i, offset + n, t + n)
  {
  }

  /** At the end of the sequence all bytes have been passed; before, no more than all. */
  lemma CursorTotal(buffers: seq<Buffer>, i: nat, offset: nat, t: nat)
    requires Cursor(buffers, i, offset, t)
    ensures t <= |Addresses(buffers)| && (i == |buffers| ==> t == |Addresses(buffers)|)
  {
    AddressCount(buffers);
    StartMonotone(Regions(buffers), i, |buffers|);
  }

  // ----- The copy loops -----

  method Memcpy<T>(memory: array<T>, to: nat, from: nat, n: nat)
    requires n > 0 ==> to + n <= memory.Length && from + n <= memory.Length
    requires to + n <= from || from + n <= to || n == 0
    modifies memory
    ensures forall x | to <= x < to + n :: memory[x] == old(memory[from + (x - to)])
    ensures forall x | 0 <= x < memory.Length && !(to <= x < to + n) :: memory[x] == old(memory[x])
  {
    for k := 0 to n
      invariant forall x | to <= x < to + k :: memory[x] == old(memory[from + (x - to)])
      invariant forall x | 0 <= x < memory.Length && !(to <= x < to + k) :: memory[x] == old(memory[x])
    {
      memory[to + k] := memory[from + k];
    }
  }

  lemma StretchHas(piece: Buffer, a: seq<nat>, t: nat, x: nat)
    requires Stretch(piece, a, t) && piece.data <= x < piece.data + piece.size
    ensures var i := t + (x - piece.data); i < |a| && a[i] == x
  {
  }

  /** Two stretches of separate address lists do not overlap and lie in memory. */
  lemma StretchesApart<T>(memory: seq<T>, target: Buffer, source: Buffer, before: seq<T>, a: seq<nat>, b: seq<nat>, t: nat, n: nat)
    requires Separate(a, b) && Copied(before, memory, a, b, t)
    requires Stretch(target, a, t) && Stretch(source, b, t)
    requires 0 < n <= target.size && n <= source.size
    ensures target.data + n <= |memory| && source.data + n <= |memory|
    ensures target.data + n <= source.data || source.data + n <= target.data
  {
    assert a[t + n - 1] == target.data + (n - 1) && b[t + n - 1] == source.data + (n - 1);
    StretchHas(target, a, t, target.data);
    StretchHas(source, b, t, source.data);
    if target.data <= source.data < target.data + n {
      StretchHas(target, a, t, source.data);
    } else if source.data <= target.data < source.data + n {
      StretchHas(source, b, t, target.data);
    }
  }

  /** One buffer to one buffer: `memcpy` of the lesser size. */
  method CopyOneToOne<T>(memory: array<T>, target: Buffer, source: Buffer, ghost before: seq<T>, ghost a: seq<nat>, ghost b: seq<nat>, ghost t: nat)
    returns (n: nat)
    requires Separate(a, b) && Copied(before, memory[..], a, b, t)
    requires Stretch(target, a, t) && Stretch(source, b, t)
    modifies memory
    ensures n == Min(target.size, source.size)
    ensures Copied(before, memory[..], a, b, t + n)
  {
    hide Copied, Separate;
    n := if target.size < source.size then target.size else source.size;
    ghost var middle := memory[..];
    if n > 0 {
      StretchesApart(memory[..], target, source, before, a, b, t, n);
    }
    Memcpy(memory, target.data, source.data, n);
    StretchCopied(middle, memory[..], target, source, a, b, t, n);
    CopiedExtends(before, middle, memory[..], a, b, t, n);
  }

  /** A `memcpy` between two stretches, said in terms of the address lists. */
  lemma StretchCopied<T>(middle: seq<T>, after: seq<T>, target: Buffer, source: Buffer, a: seq<nat>, b: seq<nat>, t: nat, n: nat)
    requires Stretch(target, a, t) && Stretch(source, b, t) && n <= target.size && n <= source.size
    requires |after| == |middle| && (n > 0 ==> target.data + n <= |middle| && source.data + n <= |middle|)
    requires forall x | target.data <= x < target.data + n :: after[x] == middle[source.data + (x - target.data)]
    requires forall x | 0 <= x < |middle| && !(target.data <= x < target.data + n) :: after[x] == middle[x]
    ensures forall i | t <= i < t + n :: a[i] < |middle| && b[i] < |middle| && after[a[i]] == middle[b[i]]
    ensures forall x | 0 <= x < |middle| && x !in a[t..t + n] :: after[x] == middle[x]
  {
    forall x | 0 <= x < |middle| && x !in a[t..t + n] ensures after[x] == middle[x] {
      if target.data <= x < target.data + n {
        StretchHas(target, a, t, x);
      }
    }
  }

  lemma NothingCopied<T>(memory: seq<T>, target: seq<Buffer>, source: seq<Buffer>)
    requires InMemory(target, |memory|) && InMemory(source, |memory|)
    ensures Copied(memory, memory, Addresses(target), Addresses(source), 0)
  {
    AddressesInMemory(target, |memory|);
    AddressesInMemory(source, |memory|);
    hide Addresses;
    assert forall i: nat :: !Last(Addresses(target), 0, i);
  }

  lemma {:induction false} AddressesInMemory(buffers: seq<Buffer>, length: nat)
    requires InMemory(buffers, length)
    ensures forall i | 0 <= i < |Addresses(buffers)| :: Addresses(buffers)[i] < length
  {
    if buffers != [] {
      var init := buffers[..|buffers| - 1];
      assert Regions(buffers)[..|buffers| - 1] == Regions(init);
      AddressesInMemory(init, length);
      assert Addresses(buffers) == Addresses(init) + Range(buffers[|buffers| - 1]);
    }
  }

  lemma CursorStart(buffers: seq<Buffer>)
    ensures Cursor(buffers, 0, 0, 0)
  {
  }

  lemma SingleStretch(b: Buffer)
    ensures |Addresses([b])| == b.size && Stretch(b, Addresses([b]), 0)
  {
    CursorStretch([b], 0, 0, 0);
    AddressCount([b]);
    assert Start(Regions([b]), 1) == b.size;
  }

  lemma StretchDrop(piece: Buffer, a: seq<nat>, t: nat, n: nat)
    requires Stretch(piece, a, t) && n <= piece.size
    ensures Stretch(Offset(piece, n), a, t + n)
  {
  }

  lemma CopiedBound<T>(before: seq<T>, after: seq<T>, a: seq<nat>, b: seq<nat>, n: nat)
    requires Copied(before, after, a, b, n)
    ensures n <= |a| && n <= |b|
  {
  }

  /** Many sources to one target. */
  method CopyGather<T>(memory: array<T>, target: Buffer, source: seq<Buffer>) returns (total: nat)
    requires InMemory([target], memory.Length) && InMemory(source, memory.Length)
    requires Separate(Addresses([target]), Addresses(source))
    modifies memory
    ensures total == Min(|Addresses([target])|, |Addresses(source)|)
    ensures Copied(old(memory[..]), memory[..], Addresses([target]), Addresses(source), total)
  {
    hide Copied, Separate, Stretch, Addresses, Cursor, InMemory;
    ghost var before, a, b := memory[..], Addresses([target]), Addresses(source);
    NothingCopied(before, [target], source);
    SingleStretch(target);
    CursorStart(source);
    total := 0;
    var targetBuffer := target;
    var i := 0;
    while targetBuffer.size != 0 && i != |source|
      invariant 0 <= i <= |source| && (targetBuffer.size != 0 ==> Cursor(source, i, 0, total))
      invariant total + targetBuffer.size == target.size == |a| && Stretch(targetBuffer, a, total)
      invariant Copied(before, memory[..], a, b, total)
    {
      CursorStretch(source, i, 0, total);
      var n := CopyOneToOne(memory, targetBuffer, source[i], before, a, b, total);
      CursorMoves(source, i, 0, total, n);
      StretchDrop(targetBuffer, a, total, n);
      total := total + n;
      targetBuffer := Offset(targetBuffer, n);
      i := i + 1;
    }
    CopiedBound(before, memory[..], a, b, total);
    if targetBuffer.size != 0 {
      CursorTotal(source, i, 0, total);
    }
  }

  /** One source to many targets. */
  method CopyScatter<T>(memory: array<T>, target: seq<Buffer>, source: Buffer) returns (total: nat)
    requires InMemory(target, memory.Length) && InMemory([source], memory.Length)
    requires Separate(Addresses(target), Addresses([source]))
    modifies memory
    ensures total == Min(|Addresses(target)|, |Addresses([source])|)
    ensures Copied(old(memory[..]), memory[..], Addresses(target), Addresses([source]), total)
  {
    hide Copied, Separate, Stretch, Addresses, Cursor, InMemory;
    ghost var before, a, b := memory[..], Addresses(target), Addresses([source]);
    NothingCopied(before, target, [source]);
    SingleStretch(source);
    CursorStart(target);
    total := 0;
    var sourceBuffer := source;
    var i := 0;
    while sourceBuffer.size != 0 && i != |target|
      invariant 0 <= i <= |target| && (sourceBuffer.size != 0 ==> Cursor(target, i, 0, total))
      invariant total + sourceBuffer.size == source.size == |b| && Stretch(sourceBuffer, b, total)
      invariant Copied(before, memory[..], a, b, total)
    {
      CursorStretch(target, i, 0, total);
      var n := CopyOneToOne(memory, target[i], sourceBuffer, before, a, b, total);
      CursorMoves(target, i, 0, total, n);
      StretchDrop(sourceBuffer, b, total, n);
      total := total + n;
      sourceBuffer := Offset(sourceBuffer, n);
      i := i + 1;
    }
    CopiedBound(before, memory[..], a, b, total);
    if sourceBuffer.size != 0 {
      CursorTotal(target, i, 0, total);
    }
  }

  /** Many sources to many targets. */
  method CopyMany<T>(memory: array<T>, target: seq<Buffer>, source: seq<Buffer>) returns (total: nat)
    requires InMemory(target, memory.Length) && InMemory(source, memory.Length)
    requires Separate(Addresses(target), Addresses(source))
    modifies memory
    ensures total == Min(|Addresses(target)|, |Addresses(source)|)
    ensures Copied(old(memory[..]), memory[..], Addresses(target), Addresses(source), total)
  {
    hide Copied, Separate, Stretch, Addresses, Cursor, InMemory;
    ghost var before, a, b := memory[..], Addresses(target), Addresses(source);
    NothingCopied(before, target, source);
    CursorStart(target);
    CursorStart(source);
    total := 0;
    var i, targetOffset: nat := 0, 0;
    var k, sourceOffset: nat := 0, 0;
    while i != |target| && k != |source|
      invariant 0 <= i <= |target| && 0 <= k <= |source|
      invariant Cursor(target, i, targetOffset, total) && Cursor(source, k, sourceOffset, total)
      invariant Copied(before, memory[..], a, b, total)
      decreases |target| - i + |source| - k
    {
      var targetBuffer, sourceBuffer := Offset(target[i], targetOffset), Offset(source[k], sourceOffset);
      CursorStretch(target, i, targetOffset, total);
      CursorStretch(source, k, sourceOffset, total);
      var n := CopyOneToOne(memory, targetBuffer, sourceBuffer, before, a, b, total);
      CursorMoves(target, i, targetOffset, total, n);
      CursorMoves(source, k, sourceOffset, total, n);
      total := total + n;
      if n == targetBuffer.size {
        i, targetOffset := i + 1, 0;
      } else {
        targetOffset := targetOffset + n;
      }
      if n == sourceBuffer.size {
        k, sourceOffset := k + 1, 0;
      } else {
        sourceOffset := sourceOffset + n;
      }
    }
    CursorTotal(target, i, targetOffset, total);
    CursorTotal(source, k, sourceOffset, total);
  }

  lemma StretchLimited(piece: Buffer, a: seq<nat>, t: nat, max: nat)
    requires Stretch(piece, a, t)
    ensures Stretch(Limited(piece, max), a, t)
  {
  }

  /** Many sources to many targets, at most `max` bytes. */
  method CopyManyLimited<T>(memory: array<T>, target: seq<Buffer>, source: seq<Buffer>, max: nat) returns (total: nat)
    requires InMemory(target, memory.Length) && InMemory(source, memory.Length)
    requires Separate(Addresses(target), Addresses(source))
    modifies memory
    ensures total == Min(Min(|Addresses(target)|, |Addresses(source)|), max)
    ensures Copied(old(memory[..]), memory[..], Addresses(target), Addresses(source), total)
  {
    hide Copied, Separate, Stretch, Addresses, Cursor, InMemory;
    ghost var before, a, b := memory[..], Addresses(target), Addresses(source);
    NothingCopied(before, target, source);
    CursorStart(target);
    CursorStart(source);
    total := 0;
    var i, targetOffset: nat := 0, 0;
    var k, sourceOffset: nat := 0, 0;
    while total != max && i != |target| && k != |source|
      invariant 0 <= i <= |target| && 0 <= k <= |source| && total <= max
      invariant Cursor(target, i, targetOffset, total) && Cursor(source, k, sourceOffset, total)
      invariant Copied(before, memory[..], a, b, total)
      decreases |target| - i + |source| - k + if total != max then 1 else 0
    {
      var targetBuffer, sourceBuffer := Offset(target[i], targetOffset), Offset(source[k], sourceOffset);
      CursorStretch(target, i, targetOffset, total);
      CursorStretch(source, k, sourceOffset, total);
      StretchLimited(targetBuffer, a, total, max - total);
      var n := CopyOneToOne(memory, Limited(targetBuffer, max - total), sourceBuffer, before, a, b, total);
      CursorMoves(target, i, targetOffset, total, n);
      CursorMoves(source, k, sourceOffset, total, n);
      total := total + n;
      if n == targetBuffer.size {
        i, targetOffset := i + 1, 0;
      } else {
        targetOffset := targetOffset + n;
      }
      if n == sourceBuffer.size {
        k, sourceOffset := k + 1, 0;
      } else {
        sourceOffset := sourceOffset + n;
      }
    }
    CursorTotal(target, i, targetOffset, total);
    CursorTotal(source, k, sourceOffset, total);
  }
}
