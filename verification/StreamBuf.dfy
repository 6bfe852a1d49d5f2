/**
  * The growing, compacting stream buffer, proved to be a bounded FIFO of bytes with a put area in
  * every run of its operations, with the exact conditions under which operations throw and under
  * which their counts no longer fit the `int` they go through.
  */
module StreamBuf {
  import opened Helpers
  import opened Words

  const BUFFER_DELTA: nat := 128

  /** `static_cast<int>` of a count, which `pbump` and `gbump` go through. */
  function ToInt(n: nat): int {
    var m := n % 0x1_0000_0000;
    if m < 0x8000_0000 then m else m - 0x1_0000_0000
  }

  lemma ToIntExact(n: nat)
    ensures ToInt(n) == n <==> n < 0x8000_0000
  {
  }

  /** In general, the count is reduced modulo 2^32 into the range of an `int`. */
  lemma ToIntWrap(n: nat)
    ensures -0x8000_0000 <= ToInt(n) < 0x8000_0000 && (n - ToInt(n)) % 0x1_0000_0000 == 0
  {
  }

  /** What a user of the buffer can tell about it: the bytes to be read, and the room to be written to. */
  datatype Fifo = Fifo(data: seq<Byte>, area: seq<Byte>)

  /** `memmove` of `k` bytes from `from` to the start of the array. */
  method MoveDown(a: array<Byte>, from: nat, k: nat)
    requires from + k <= a.Length
    modifies a
    ensures a[..k] == old(a[from..from + k]) && a[k..] == old(a[k..])
  {
    for i := 0 to k
      invariant a[..i] == old(a[from..from + i])
      invariant a[i..] == old(a[i..])
    {
      a[i] := a[from + i];
    }
  }

  /** What `data()` shows after a throwing `reserve`: the bytes were moved down by `g`, the pointers were not. */
  function Smeared(data: seq<Byte>, g: nat): (s: seq<Byte>)
    ensures |s| == |data|
  {
    seq(|data|, j requires 0 <= j < |data| => if j + g < |data| then data[j + g] else data[j])
  }

  lemma SmearedNothing(data: seq<Byte>)
    ensures Smeared(data, 0) == data
  {
  }

  lemma SmearedMemory(before: seq<Byte>, after: seq<Byte>, g: nat, p: nat, e: nat)
    requires g <= p <= e <= |before| == |after|
    requires after[..p - g] == before[g..p] && after[p - g..] == before[p - g..]
    ensures after[g..p] == Smeared(before[g..p], g) && after[p..e] == before[p..e]
  {
    forall k | p - g <= k < |after| ensures after[k] == before[k] {
      assert after[k] == after[p - g..][k - (p - g)] && before[k] == before[p - g..][k - (p - g)];
    }
    forall j | 0 <= j < p - g ensures after[g..p][j] == Smeared(before[g..p], g)[j] {
      if g + j < p - g {
        assert after[g + j] == after[..p - g][g + j];
      }
    }
  }

  class StreamBuf {
    const maxSize: nat
    var buffer: array<Byte>
    var gptr: int
    var egptr: int
    var pptr: int
    var epptr: int

    ghost predicate Valid()
      reads this
    {
      && 0 <= gptr <= egptr <= pptr <= epptr <= maxSize
      && buffer.Length == Max(epptr, 1)
    }

    ghost function Data(): (d: seq<Byte>)
      requires Valid()
      reads this, buffer
      ensures |d| == pptr - gptr
    {
      buffer[gptr..pptr]
    }

    ghost function Area(): (a: seq<Byte>)
      requires Valid()
      reads this, buffer
      ensures |a| == epptr - pptr
    {
      buffer[pptr..epptr]
    }

    ghost function View(): Fifo
      requires Valid()
      reads this, buffer
    {
      Fifo(Data(), Area())
    }

    constructor (maximumSize: nat)
      ensures Valid() && fresh(buffer) && maxSize == maximumSize && Data() == [] && gptr == 0
      ensures |Area()| == if maximumSize < 128 then maximumSize else 128
    {
      maxSize := maximumSize;
      var pend := Min(maximumSize, BUFFER_DELTA);
      buffer := new Byte[Max(pend, 1)](_ => 0);
      gptr, egptr, pptr, epptr := 0, 0, 0, pend;
    }

    method Size() returns (n: nat)
      requires Valid()
      ensures n == |Data()| && n <= maxSize
    {
      n := pptr - gptr;
    }

    /** The readable bytes. */
    method Read() returns (d: seq<Byte>)
      requires Valid()
      ensures d == Data()
    {
      d := buffer[gptr..pptr];
    }

    /** False stands for the `length_error` exception. */
    method Reserve(n: nat) returns (ok: bool)
      requires Valid()
      modifies this, buffer
      ensures Valid() && (buffer == old(buffer) || fresh(buffer))
      ensures ok <==> old(|Data()|) + n <= maxSize
      ensures ok ==> Data() == old(Data()) && n <= |Area()| && (n <= old(|Area()|) ==> Area() == old(Area()))
      ensures !ok ==> gptr == old(gptr) && pptr == old(pptr) && epptr == old(epptr)
                      && Data() == Smeared(old(Data()), gptr) && Area() == old(Area())
    {
      hide Smeared;
      var gnext, pnext, pend := gptr, pptr, epptr;
      if n <= pend - pnext {
        return true;
      }
      if gnext > 0 {
        pnext := pnext - gnext;
        MoveDown(buffer, gnext, pnext);
      }
      assert buffer[..pnext] == old(Data()) && buffer[pnext..] == old(buffer[pnext..]);
      if n > pend - pnext {
        if n <= maxSize && pnext <= maxSize - n {
          pend := pnext + n;
          Resize(Max(pend, 1));
        } else {
          SmearedMemory(old(buffer[..]), buffer[..], gptr, pptr, epptr);
          return false;
        }
      }
      gptr, egptr, pptr, epptr := 0, pnext, pnext, pend;
      return true;
    }

    method Resize(length: nat)
      requires buffer.Length <= length
      modifies this`buffer
      ensures fresh(buffer) && buffer.Length == length && buffer[..old(buffer.Length)] == old(buffer[..])
    {
      var smaller, bigger := buffer, new Byte[length](_ => 0);
      for i := 0 to smaller.Length
        invariant bigger[..i] == smaller[..i]
      {
        bigger[i] := smaller[i];
      }
      buffer := bigger;
    }

    /** Makes room for `n` bytes at offset `start` of the buffer, for the caller to fill. */
    method Prepare(n: nat) returns (ok: bool, start: nat)
      requires Valid()
      modifies this, buffer
      ensures Valid() && (buffer == old(buffer) || fresh(buffer))
      ensures ok <==> old(|Data()|) + n <= maxSize
      ensures ok ==> Data() == old(Data()) && start == pptr && n <= |Area()| && (n <= old(|Area()|) ==> Area() == old(Area()))
      ensures !ok ==> Data() == Smeared(old(Data()), old(gptr)) && Area() == old(Area())
    {
      ok := Reserve(n);
      start := pptr;
    }

    /** Where the data ends and the put area begins, moved by `m`. */
    lemma Boundary(m: nat)
      requires Valid() && m <= epptr - pptr
      ensures buffer[gptr..pptr + m] == Data() + Area()[..m] && buffer[pptr + m..epptr] == Area()[m..]
    {
    }

    /**
      * Appends the first `m` prepared bytes, `m` being `n` or all that was prepared. Since the count goes
      * through an `int`, the put pointer moves by `m` exactly when `m` is below 2^31.
      */
    method Commit(n: nat)
      requires Valid()
      modifies this
      ensures buffer == old(buffer) && gptr == old(gptr) && epptr == old(epptr)
      ensures var m := Min(n, old(epptr - pptr));
              && pptr == old(pptr) + ToInt(m) && (pptr == old(pptr) + m <==> m < 0x8000_0000)
              && (m < 0x8000_0000 ==> Valid() && Data() == old(Data()) + old(Area())[..m] && Area() == old(Area())[m..])
    {
      var m: nat := n;
      if pptr + n > epptr {
        m := epptr - pptr;
      }
      ToIntExact(m);
      hide ToInt;
      Boundary(m);
      pptr := pptr + ToInt(m);
      egptr := pptr;
    }

    /** Drops the first `m` bytes, `m` being `n` or all there are, under the same condition on `m`. */
    method Consume(n: nat)
      requires Valid()
      modifies this
      ensures buffer == old(buffer) && pptr == old(pptr) && epptr == old(epptr)
      ensures var m := Min(n, old(|Data()|));
              && gptr == old(gptr) + ToInt(m) && (gptr == old(gptr) + m <==> m < 0x8000_0000)
              && (m < 0x8000_0000 ==> Valid() && Data() == old(Data())[m..] && Area() == old(Area()))
    {
      if egptr < pptr {
        egptr := pptr;
      }
      var m: nat := n;
      if gptr + n > pptr {
        m := pptr - gptr;
      }
      ToIntExact(m);
      hide ToInt;
      gptr := gptr + ToInt(m);
    }

    /** The next byte, without taking it. */
    method Underflow() returns (r: Option<Byte>)
      requires Valid()
      modifies this
      ensures Valid() && buffer == old(buffer) && View() == old(View())
      ensures r == if Data() == [] then None else Some(Data()[0])
    {
      if gptr < pptr {
        egptr := pptr;
        r := Some(buffer[gptr]);
      } else {
        r := None;
      }
    }

    /** Appends one character; end-of-file appends nothing. */
    method Overflow(c: Option<Byte>) returns (ok: bool)
      requires Valid()
      modifies this, buffer
      ensures Valid() && (buffer == old(buffer) || fresh(buffer))
      ensures ok <==> c.None? || old(|Data()|) < maxSize
      ensures !ok || c.None? ==> View() == old(View())
      ensures ok && c.Some? ==> Data() == old(Data()) + [c.value] && (old(Area()) != [] ==> Area() == old(Area())[1..])
    {
      hide Smeared;
      if c.Some? {
        if pptr == epptr {
          var bufferSize := pptr - gptr;
          if bufferSize < maxSize && maxSize - bufferSize < BUFFER_DELTA {
            ok := Reserve(maxSize - bufferSize);
          } else {
            ok := Reserve(BUFFER_DELTA);
          }
          if !ok {
            SmearedNothing(old(Data()));
            return;
          }
        }
        PutCharacter(c.value);
      }
      return true;
    }

    method PutCharacter(c: Byte)
      requires Valid() && pptr < epptr
      modifies this`pptr, buffer
      ensures Valid() && Data() == old(Data()) + [c] && Area() == old(Area())[1..]
    {
      buffer[pptr] := c;
      pptr := pptr + 1;
      assert Data() == old(Data()) + [c];
    }
  }

  // ----- Whole runs -----

  /** What a user of the buffer does, in any order. `Fill` is the network writing into the put area. */
  datatype Op = Prepare(n: nat) | Fill(bytes: seq<Byte>) | Commit(n: nat) | Put(c: Byte) | Take(n: nat) | Peek

  /** What an operation answers. */
  datatype Answer = Done | Threw | Seen(c: Option<Byte>)

  predicate Throws(f: Fifo, op: Op, max: nat) {
    (op.Prepare? && |f.data| + op.n > max) || (op.Put? && |f.data| >= max)
  }

  function AnswerTo(f: Fifo, op: Op, max: nat): Answer {
    if Throws(f, op, max) then Threw
    else if op.Peek? then Seen(if f.data == [] then None else Some(f.data[0]))
    else Done
  }

  /** The number of bytes that really move fits an `int`. */
  predicate Fits(f: Fifo, op: Op) {
    && (op.Commit? ==> Min(op.n, |f.area|) < 0x8000_0000)
    && (op.Take? ==> Min(op.n, |f.data|) < 0x8000_0000)
  }

  ghost predicate SmearedBy(data: seq<Byte>, after: seq<Byte>, g: nat) {
    after == Smeared(data, g)
  }

  /**
    * One step of a FIFO that holds at most `max` bytes. A `prepare` with enough room leaves the put
    * area alone, and otherwise makes one of unknown contents; one that throws may damage the data.
    */
  ghost predicate FifoStep(f: Fifo, op: Op, t: Fifo, max: nat) {
    && |t.data| + |t.area| <= max
    && match op
       case Prepare(n) =>
         if Throws(f, op, max) then t.area == f.area && exists g: nat :: SmearedBy(f.data, t.data, g)
         else t.data == f.data && n <= |t.area| && (n <= |f.area| ==> t.area == f.area)
       case Fill(bytes) => var m := Min(|bytes|, |f.area|); t == Fifo(f.data, bytes[..m] + f.area[m..])
       case Commit(n) => var m := Min(n, |f.area|); t == Fifo(f.data + f.area[..m], f.area[m..])
       case Put(c) =>
         if Throws(f, op, max) then t == f
         else t.data == f.data + [c] && (f.area != [] ==> t.area == f.area[1..])
       case Take(n) => t == Fifo(f.data[Min(n, |f.data|)..], f.area)
       case Peek => t == f
  }

  /** The caller, or the network, writes into the put area, as far as it goes. */
  method WriteArea(sb: StreamBuf, bytes: seq<Byte>)
    requires sb.Valid()
    modifies sb.buffer
    ensures sb.Valid() && sb.Data() == old(sb.Data())
    ensures var m := Min(|bytes|, old(|sb.Area()|)); sb.Area() == bytes[..m] + old(sb.Area())[m..]
  {
    var start, m := sb.pptr, Min(|bytes|, sb.epptr - sb.pptr);
    ghost var before := sb.buffer[..];
    WriteAt(sb.buffer, start, bytes[..m]);
    Written(before, sb.buffer[..], bytes[..m], sb.gptr, start, sb.epptr);
  }

  lemma Written(before: seq<Byte>, after: seq<Byte>, bytes: seq<Byte>, g: nat, p: nat, e: nat)
    requires g <= p && p + |bytes| <= e <= |before| == |after|
    requires after[..p] == before[..p] && after[p..p + |bytes|] == bytes && after[p + |bytes|..] == before[p + |bytes|..]
    ensures after[g..p] == before[g..p] && after[p..e] == bytes + before[p..e][|bytes|..]
  {
    var m := p + |bytes|;
    assert after[g..p] == after[..p][g..] && before[g..p] == before[..p][g..];
    assert after[p..e] == after[p..m] + after[m..][..e - m];
    assert before[p..e][|bytes|..] == before[m..][..e - m];
  }

  method WriteAt(a: array<Byte>, start: nat, bytes: seq<Byte>)
    requires start + |bytes| <= a.Length
    modifies a
    ensures a[..start] == old(a[..start]) && a[start..start + |bytes|] == bytes
    ensures a[start + |bytes|..] == old(a[start + |bytes|..])
  {
    for i := 0 to |bytes|
      invariant a[..start] == old(a[..start]) && a[start..start + i] == bytes[..i]
      invariant a[start + i..] == old(a[start + i..])
    {
      a[start + i] := bytes[i];
    }
  }

  /** `prepare` as a step of the FIFO. */
  method PrepareStep(sb: StreamBuf, n: nat) returns (ok: bool)
    requires sb.Valid()
    modifies sb, sb.buffer
    ensures sb.Valid() && (sb.buffer == old(sb.buffer) || fresh(sb.buffer))
    ensures FifoStep(old(sb.View()), Prepare(n), sb.View(), sb.maxSize)
    ensures ok <==> !Throws(old(sb.View()), Prepare(n), sb.maxSize)
  {
    hide Smeared;
    ghost var g: nat := sb.gptr;
    var start;
    ok, start := sb.Prepare(n);
    assert !ok ==> SmearedBy(old(sb.Data()), sb.Data(), g);
  }

  /** `overflow` as a step of the FIFO. */
  method PutStep(sb: StreamBuf, c: Byte) returns (ok: bool)
    requires sb.Valid()
    modifies sb, sb.buffer
    ensures sb.Valid() && (sb.buffer == old(sb.buffer) || fresh(sb.buffer))
    ensures FifoStep(old(sb.View()), Put(c), sb.View(), sb.maxSize)
    ensures ok <==> !Throws(old(sb.View()), Put(c), sb.maxSize)
  {
    hide FifoStep;
    ok := sb.Overflow(Some(c));
    PutIsStep(old(sb.View()), c, sb.View(), sb.maxSize);
  }

  lemma PutIsStep(f: Fifo, c: Byte, t: Fifo, max: nat)
    requires |t.data| + |t.area| <= max
    requires |f.data| >= max ==> t == f
    requires |f.data| < max ==> t.data == f.data + [c] && (f.area != [] ==> t.area == f.area[1..])
    ensures FifoStep(f, Put(c), t, max)
  {
  }

  /** Writing to the put area as a step of the FIFO. */
  method FillStep(sb: StreamBuf, bytes: seq<Byte>)
    requires sb.Valid()
    modifies sb.buffer
    ensures sb.Valid() && FifoStep(old(sb.View()), Fill(bytes), sb.View(), sb.maxSize)
  {
    hide FifoStep;
    WriteArea(sb, bytes);
    FillIsStep(old(sb.View()), bytes, sb.View(), sb.maxSize);
  }

  /** `commit` as a step of the FIFO. */
  method CommitStep(sb: StreamBuf, n: nat)
    requires sb.Valid() && Min(n, |sb.Area()|) < 0x8000_0000
    modifies sb
    ensures sb.Valid() && sb.buffer == old(sb.buffer) && FifoStep(old(sb.View()), Commit(n), sb.View(), sb.maxSize)
  {
    hide FifoStep, ToInt;
    sb.Commit(n);
    CommitIsStep(old(sb.View()), n, sb.View(), sb.maxSize);
  }

  /** `consume` as a step of the FIFO. */
  method TakeStep(sb: StreamBuf, n: nat)
    requires sb.Valid() && Min(n, |sb.Data()|) < 0x8000_0000
    modifies sb
    ensures sb.Valid() && sb.buffer == old(sb.buffer) && FifoStep(old(sb.View()), Take(n), sb.View(), sb.maxSize)
  {
    hide FifoStep, ToInt;
    sb.Consume(n);
    TakeIsStep(old(sb.View()), n, sb.View(), sb.maxSize);
  }

  /** `underflow` as a step of the FIFO. */
  method PeekStep(sb: StreamBuf) returns (seen: Option<Byte>)
    requires sb.Valid()
    modifies sb
    ensures sb.Valid() && sb.buffer == old(sb.buffer) && FifoStep(old(sb.View()), Peek, sb.View(), sb.maxSize)
    ensures seen == if old(sb.Data()) == [] then None else Some(old(sb.Data())[0])
  {
    hide FifoStep;
    seen := sb.Underflow();
    PeekIsStep(sb.View(), sb.maxSize);
  }

  lemma FillIsStep(f: Fifo, bytes: seq<Byte>, t: Fifo, max: nat)
    requires |t.data| + |t.area| <= max && t.data == f.data
    requires var m := Min(|bytes|, |f.area|); t.area == bytes[..m] + f.area[m..]
    ensures FifoStep(f, Fill(bytes), t, max)
  {
  }

  lemma CommitIsStep(f: Fifo, n: nat, t: Fifo, max: nat)
    requires |t.data| + |t.area| <= max
    requires var m := Min(n, |f.area|); t.data == f.data + f.area[..m] && t.area == f.area[m..]
    ensures FifoStep(f, Commit(n), t, max)
  {
  }

  lemma TakeIsStep(f: Fifo, n: nat, t: Fifo, max: nat)
    requires |t.data| + |t.area| <= max && t.data == f.data[Min(n, |f.data|)..] && t.area == f.area
    ensures FifoStep(f, Take(n), t, max)
  {
  }

  lemma PeekIsStep(f: Fifo, max: nat)
    requires |f.data| + |f.area| <= max
    ensures FifoStep(f, Peek, f, max)
  {
  }

  /** One operation on the buffer is one step of the FIFO, and throws exactly when that says so. */
  method Perform(sb: StreamBuf, op: Op) returns (answer: Answer)
    requires sb.Valid() && Fits(sb.View(), op)
    modifies sb, sb.buffer
    ensures sb.Valid() && (sb.buffer == old(sb.buffer) || fresh(sb.buffer))
    ensures FifoStep(old(sb.View()), op, sb.View(), sb.maxSize)
    ensures answer == AnswerTo(old(sb.View()), op, sb.maxSize)
  {
    hide FifoStep;
    match op {
      case Prepare(n) =>
        var ok := PrepareStep(sb, n);
        return if ok then Done else Threw;
      case Put(c) =>
        var ok := PutStep(sb, c);
        return if ok then Done else Threw;
      case Fill(bytes) =>
        FillStep(sb, bytes);
        return Done;
      case Commit(n) =>
        CommitStep(sb, n);
        return Done;
      case Take(n) =>
        TakeStep(sb, n);
        return Done;
      case Peek =>
        var seen := PeekStep(sb);
        return Seen(seen);
    }
  }

  method FitsInt(sb: StreamBuf, op: Op) returns (fits: bool)
    requires sb.Valid()
    ensures fits <==> Fits(sb.View(), op)
  {
    match op {
      case Commit(n) => fits := Min(n, sb.epptr - sb.pptr) < 0x8000_0000;
      case Take(n) => fits := Min(n, sb.pptr - sb.gptr) < 0x8000_0000;
      case _ => fits := true;
    }
  }

  /** The FIFOs of a run, one more than there are operations. */
  ghost predicate IsTrace(trace: seq<Fifo>, ops: seq<Op>, max: nat) {
    |trace| == |ops| + 1 && forall i | 0 <= i < |ops| :: FifoStep(trace[i], ops[i], trace[i + 1], max)
  }

  ghost predicate Answered(trace: seq<Fifo>, ops: seq<Op>, answers: seq<Answer>, max: nat) {
    && |trace| == |ops| + 1 && |answers| == |ops|
    && forall i | 0 <= i < |ops| :: Fits(trace[i], ops[i]) && answers[i] == AnswerTo(trace[i], ops[i], max)
  }

  /**
    * Any interleaving of the operations is a run of the FIFO, with its answers, also after operations
    * that threw. It can only be cut short in front of an operation that moves 2^31 bytes or more.
    */
  method Run(sb: StreamBuf, ops: seq<Op>) returns (answers: seq<Answer>, ghost trace: seq<Fifo>)
    requires sb.Valid()
    modifies sb, sb.buffer
    ensures sb.Valid()
    ensures |answers| <= |ops| && |trace| == |answers| + 1 && IsTrace(trace, ops[..|answers|], sb.maxSize)
    ensures trace[0] == old(sb.View()) && trace[|answers|] == sb.View()
    ensures Answered(trace, ops[..|answers|], answers, sb.maxSize)
    ensures |answers| < |ops| ==>
              var op := ops[|answers|];
              (op.Commit? || op.Take?) && op.n >= 0x8000_0000 && (if op.Commit? then |sb.Area()| else |sb.Data()|) >= 0x8000_0000
  {
    hide FifoStep, AnswerTo, IsTrace, Answered;
    answers, trace := [], [sb.View()];
    RunStarts(sb.View(), sb.maxSize);
    for i := 0 to |ops|
      invariant sb.Valid() && (sb.buffer == old(sb.buffer) || fresh(sb.buffer))
      invariant |answers| == i && |trace| == i + 1 && IsTrace(trace, ops[..i], sb.maxSize)
      invariant trace[0] == old(sb.View()) && trace[i] == sb.View()
      invariant Answered(trace, ops[..i], answers, sb.maxSize)
    {
      var fits := FitsInt(sb, ops[i]);
      if !fits {
        return;
      }
      var answer := Perform(sb, ops[i]);
      RunExtends(trace, ops[..i], answers, ops[i], sb.View(), sb.maxSize);
      assert ops[..i + 1] == ops[..i] + [ops[i]];
      answers, trace := answers + [answer], trace + [sb.View()];
    }
  }

  /** What the answers mean. */
  lemma AnswersMean(f: Fifo, op: Op, max: nat)
    ensures AnswerTo(f, op, max)
            == match op
               case Prepare(n) => if |f.data| + n > max then Threw else Done
               case Put(_) => if |f.data| >= max then Threw else Done
               case Peek => Seen(if f.data == [] then None else Some(f.data[0]))
               case _ => Done
  {
  }

  lemma RunStarts(f: Fifo, max: nat)
    ensures IsTrace([f], [], max) && Answered([f], [], [], max)
  {
  }

  lemma RunExtends(trace: seq<Fifo>, ops: seq<Op>, answers: seq<Answer>, op: Op, f: Fifo, max: nat)
    requires IsTrace(trace, ops, max) && Answered(trace, ops, answers, max)
    requires FifoStep(trace[|ops|], op, f, max) && Fits(trace[|ops|], op)
    ensures IsTrace(trace + [f], ops + [op], max)
    ensures Answered(trace + [f], ops + [op], answers + [AnswerTo(trace[|ops|], op, max)], max)
  {
    hide FifoStep, AnswerTo, Fits;
  }

  // ----- What goes in comes out -----

  /** The bytes an operation makes readable. */
  function Entering(f: Fifo, op: Op, max: nat): seq<Byte> {
    match op
    case Commit(n) => f.area[..Min(n, |f.area|)]
    case Put(c) => if Throws(f, op, max) then [] else [c]
    case _ => []
  }

  function Leaving(f: Fifo, op: Op): seq<Byte> {
    if op.Take? then f.data[..Min(op.n, |f.data|)] else []
  }

  function AllEntering(trace: seq<Fifo>, ops: seq<Op>, max: nat): seq<Byte>
    requires |trace| == |ops| + 1
  {
    if ops == [] then []
    else
      var k := |ops| - 1;
      AllEntering(trace[..k + 1], ops[..k], max) + Entering(trace[k], ops[k], max)
  }

  function AllLeaving(trace: seq<Fifo>, ops: seq<Op>): seq<Byte>
    requires |trace| == |ops| + 1
  {
    if ops == [] then []
    else
      var k := |ops| - 1;
      AllLeaving(trace[..k + 1], ops[..k]) + Leaving(trace[k], ops[k])
  }

  /** No `prepare` in the run throws. */
  ghost predicate Unharmed(trace: seq<Fifo>, ops: seq<Op>, max: nat)
    requires |trace| == |ops| + 1
  {
    forall i | 0 <= i < |ops| :: ops[i].Prepare? ==> !Throws(trace[i], ops[i], max)
  }

  /**
    * Conservation in every run: what went in is what came out, followed by what is still there, in the
    * same order. A `prepare` that threw may have damaged bytes, but even then none is lost or added.
    */
  lemma {:induction false} FifoConserves(trace: seq<Fifo>, ops: seq<Op>, max: nat)
    requires IsTrace(trace, ops, max)
    ensures var (entered, left) := (trace[0].data + AllEntering(trace, ops, max), AllLeaving(trace, ops) + trace[|ops|].data);
            |entered| == |left| && (Unharmed(trace, ops, max) ==> entered == left)
  {
    if ops != [] {
      var k := |ops| - 1;
      var init, before, after := trace[..k + 1], trace[k], trace[k + 1];
      hide FifoStep, Entering, Leaving;
      FifoConserves(init, ops[..k], max);
      FifoStepConserves(before, ops[k], after, max);
      if Unharmed(trace, ops, max) {
        assert Unharmed(init, ops[..k], max);
        Regroup(trace[0].data, AllEntering(init, ops[..k], max), Entering(before, ops[k], max),
                AllLeaving(init, ops[..k]), before.data, Leaving(before, ops[k]), after.data);
      }
    }
  }

  lemma FifoStepConserves(f: Fifo, op: Op, t: Fifo, max: nat)
    requires FifoStep(f, op, t, max)
    ensures |f.data + Entering(f, op, max)| == |Leaving(f, op) + t.data|
    ensures !op.Prepare? || !Throws(f, op, max) ==> f.data + Entering(f, op, max) == Leaving(f, op) + t.data
  {
    var m := Min(if op.Take? then op.n else 0, |f.data|);
    assert f.data == f.data[..m] + f.data[m..];
  }

  lemma Regroup(data: seq<Byte>, a: seq<Byte>, b: seq<Byte>, t: seq<Byte>, d: seq<Byte>, o: seq<Byte>, left: seq<Byte>)
    requires data + a == t + d && d + b == o + left
    ensures data + (a + b) == (t + o) + left
  {
    assert data + (a + b) == (t + d) + b == t + (d + b);
    assert (t + o) + left == t + (o + left);
  }

  /**
    * A read: room for `n` bytes, `bytes` of which arrive, committed in two portions. They follow the
    * data in the order in which they arrived.
    */
  lemma ReadAppends(trace: seq<Fifo>, n: nat, bytes: seq<Byte>, j: nat, k: nat, max: nat)
    requires IsTrace(trace, [Prepare(n), Fill(bytes), Commit(j), Commit(k)], max)
    requires |bytes| <= n && |trace[0].data| + n <= max && j + k <= |bytes|
    ensures trace[4].data == trace[0].data + bytes[..j + k]
  {
    FourSteps(trace, Prepare(n), Fill(bytes), Commit(j), Commit(k), max);
    hide IsTrace, FifoStep;
    var rest := FilledArea(trace[0], n, bytes, trace[1], trace[2], max);
    Committed(trace[2], j, trace[3], max);
    Committed(trace[3], k, trace[4], max);
    Portions(trace[0].data, bytes, rest, j, k);
  }

  lemma FourSteps(trace: seq<Fifo>, a: Op, b: Op, c: Op, d: Op, max: nat)
    requires IsTrace(trace, [a, b, c, d], max)
    ensures |trace| == 5 && FifoStep(trace[0], a, trace[1], max) && FifoStep(trace[1], b, trace[2], max)
    ensures FifoStep(trace[2], c, trace[3], max) && FifoStep(trace[3], d, trace[4], max)
  {
    hide FifoStep;
    var ops := [a, b, c, d];
    assert FifoStep(trace[0], ops[0], trace[1], max) && FifoStep(trace[1], ops[1], trace[2], max);
    assert FifoStep(trace[2], ops[2], trace[3], max) && FifoStep(trace[3], ops[3], trace[4], max);
  }

  lemma FilledArea(f: Fifo, n: nat, bytes: seq<Byte>, g: Fifo, h: Fifo, max: nat) returns (rest: seq<Byte>)
    requires FifoStep(f, Prepare(n), g, max) && FifoStep(g, Fill(bytes), h, max)
    requires |bytes| <= n && |f.data| + n <= max
    ensures h == Fifo(f.data, bytes + rest)
  {
    hide SmearedBy;
    rest := g.area[|bytes|..];
    assert bytes[..|bytes|] == bytes;
  }

  lemma Committed(f: Fifo, n: nat, g: Fifo, max: nat)
    requires FifoStep(f, Commit(n), g, max) && n <= |f.area|
    ensures g == Fifo(f.data + f.area[..n], f.area[n..])
  {
    hide SmearedBy;
  }

  lemma Portions(data: seq<Byte>, bytes: seq<Byte>, rest: seq<Byte>, j: nat, k: nat)
    requires j + k <= |bytes|
    ensures var a := bytes + rest; data + a[..j] + a[j..][..k] == data + bytes[..j + k]
  {
    var a := bytes + rest;
    assert a[..j] + a[j..][..k] == bytes[..j + k];
    assert data + a[..j] + a[j..][..k] == data + (a[..j] + a[j..][..k]);
  }

  // ----- The throwing path -----

  /** Whatever the `n` bytes are, they survive a throw with `g` bytes consumed before them, exactly under this condition. */
  lemma SurvivesThrow(n: nat, g: nat)
    ensures (forall data: seq<Byte> | |data| == n :: Smeared(data, g) == data) <==> g == 0 || n <= g
  {
    if 0 < g < n {
      var data: seq<Byte> := seq(n, i => if i < g then 0 else 1);
      assert Smeared(data, g)[0] != data[0];
    }
  }

  /** A `prepare` that throws after one byte has been consumed: the data reads differently afterwards. */
  method ThrowCanDamage() returns (before: seq<Byte>, ok: bool, after: seq<Byte>)
    ensures before == [2, 3, 4] && !ok && after == [3, 4, 4]
  {
    hide ToInt, Smeared;
    var sb := Holding([1, 2, 3, 4]);
    sb.Consume(1);
    before := sb.Read();
    var start;
    ok, start := sb.Prepare(2);
    after := sb.Read();
    SmearedBelow(before[0], before[1], before[2]);
  }

  /** A full buffer with nothing consumed. */
  method Holding(bytes: seq<Byte>) returns (sb: StreamBuf)
    requires |bytes| <= BUFFER_DELTA
    ensures fresh(sb) && fresh(sb.buffer) && sb.Valid() && sb.maxSize == |bytes| && sb.gptr == 0 && sb.View() == Fifo(bytes, [])
  {
    hide ToInt, Smeared;
    sb := new StreamBuf(|bytes|);
    WriteArea(sb, bytes);
    assert sb.Area() == bytes;
    sb.Commit(|bytes|);
  }

  lemma SmearedBelow(a: Byte, b: Byte, c: Byte)
    ensures Smeared([a, b, c], 1) == [b, c, c]
  {
  }

  /** Committing 2^31 bytes at once moves the put pointer in front of the buffer. */
  method HugeCommit() returns (position: int)
    ensures position == -0x8000_0000
  {
    ToIntWraps();
    position := CommitAtOnce(0x8000_0000);
  }

  /** A buffer of `n` bytes, all of them prepared and committed together: where the put pointer ends up. */
  method CommitAtOnce(n: nat) returns (position: int)
    ensures position == ToInt(n)
  {
    hide ToInt, Smeared, Min;
    var sb := new StreamBuf(n);
    assert |sb.Data()| == 0 && sb.maxSize == n;
    var ok, start := sb.Prepare(n);
    assert ok && n <= |sb.Area()| == sb.epptr - sb.pptr && sb.pptr == 0;
    MinOfEqual(n, sb.epptr - sb.pptr);
    sb.Commit(n);
    position := sb.pptr;
  }

  lemma MinOfEqual(n: nat, m: nat)
    requires n <= m
    ensures Min(n, m) == n
  {
  }

  lemma ToIntWraps()
    ensures ToInt(0x8000_0000) == -0x8000_0000
  {
  }
}
