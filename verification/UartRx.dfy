/** The receiver: the receive branch of uart0ISR and uart0Getch, whose two updates of the extract index are separate
    steps; and exactly when an interrupt between them does no harm. */
module UartRx {
  import opened Bytes
  import opened Arithmetic
  import opened UartRing

  /** The shared state.  Between the two updates in uart0Getch the extract index may be the size of the buffer. */
  datatype Ring = Ring(buf: seq<Byte>, ins: nat, ext: nat)

  predicate Shaped(r: Ring) {
    |r.buf| >= 2 && r.ins < |r.buf| && r.ext <= |r.buf|
  }

  predicate Good(r: Ring) {
    |r.buf| >= 2 && r.ins < |r.buf| && r.ext < |r.buf|
  }

  function Contents(r: Ring): seq<Byte>
    requires Good(r)
  {
    Queue(r.buf, r.ext, r.ins)
  }

  function Room(r: Ring): nat
    requires Good(r)
  {
    |r.buf| - 1 - Count(|r.buf|, r.ext, r.ins)
  }

  /** One received byte: it is stored, and kept if the next index is not the extract index. */
  function Receive(r: Ring, b: Byte): (r': Ring)
    requires Shaped(r)
    ensures Shaped(r') && |r'.buf| == |r.buf| && r'.ext == r.ext
  {
    var temp := Next(|r.buf|, r.ins);
    Ring(r.buf[r.ins := b], if temp != r.ext then temp else r.ins, r.ext)
  }

  function ReceiveAll(r: Ring, bytes: seq<Byte>): (r': Ring)
    requires Shaped(r)
    ensures Shaped(r') && |r'.buf| == |r.buf| && r'.ext == r.ext
    decreases |bytes|
  {
    if bytes == [] then r else ReceiveAll(Receive(r, bytes[0]), bytes[1..])
  }

  /** As many of the bytes as there is room for. */
  function Fitting(bytes: seq<Byte>, room: nat): seq<Byte> {
    if |bytes| <= room then bytes else bytes[..room]
  }

  /** An interrupt at any other time keeps what is in the queue and adds what fits. */
  lemma {:induction false} ReceiveKeeps(r: Ring, bytes: seq<Byte>)
    requires Good(r)
    ensures Good(ReceiveAll(r, bytes)) && Contents(ReceiveAll(r, bytes)) == Contents(r) + Fitting(bytes, Room(r))
    decreases |bytes|
  {
    hide Queue, Count, Next;
    if bytes == [] {
      assert Contents(r) + [] == Contents(r);
    } else {
      ReceiveOne(r, bytes[0]);
      ReceiveKeeps(Receive(r, bytes[0]), bytes[1..]);
      var q := Contents(r);
      if Room(r) > 0 {
        assert q + [bytes[0]] + Fitting(bytes[1..], Room(r) - 1) == q + Fitting(bytes, Room(r));
      } else {
        assert Fitting(bytes[1..], 0) == [] && Fitting(bytes, 0) == [];
      }
    }
  }

  lemma {:induction false} ReceiveOne(r: Ring, b: Byte)
    requires Good(r)
    ensures Good(Receive(r, b))
    ensures Room(r) > 0 ==> Contents(Receive(r, b)) == Contents(r) + [b] && Room(Receive(r, b)) == Room(r) - 1
    ensures Room(r) == 0 ==> Contents(Receive(r, b)) == Contents(r) && Room(Receive(r, b)) == 0
  {
    hide Queue, Count, Next;
    QueueGrows(r.buf, r.ext, r.ins, b);
    CountSteps(|r.buf|, r.ext, r.ins);
  }

  // ---------- uart0Getch ----------

  /** The state after the first update, after an interrupt with the bytes of `gap`, and after the second update. */
  function AfterGetch(r: Ring, gap: seq<Byte>): (r': Ring)
    requires Good(r)
    ensures Good(r')
  {
    var mid := ReceiveAll(Ring(r.buf, r.ins, r.ext + 1), gap);
    Ring(mid.buf, mid.ins, mid.ext % |mid.buf|)
  }

  /** The ring without its oldest byte. */
  function Taken(r: Ring): (r': Ring)
    requires Good(r)
    ensures Good(r')
  {
    Ring(r.buf, r.ins, Next(|r.buf|, r.ext))
  }

  /** What uart0Getch should leave. */
  ghost predicate Keeps(r: Ring, gap: seq<Byte>)
    requires Good(r) && r.ins != r.ext
  {
    Contents(AfterGetch(r, gap)) == Contents(r)[1..] + Fitting(gap, Room(Taken(r)))
  }

  lemma TakenContents(r: Ring)
    requires Good(r) && r.ins != r.ext
    ensures Contents(Taken(r)) == Contents(r)[1..] && Room(Taken(r)) == Room(r) + 1
  {
    hide Count, Next;
    QueueTakes(r.buf, r.ext, r.ins);
    CountSteps(|r.buf|, r.ext, r.ins);
  }

  /** While the extract index is out of range, the interrupt never finds the queue full. */
  lemma {:induction false} Unchecked(r: Ring, bytes: seq<Byte>)
    requires Shaped(r) && r.ext == |r.buf|
    ensures ReceiveAll(r, bytes).ins == (r.ins + |bytes|) % |r.buf|
    decreases |bytes|
  {
    var n := |r.buf|;
    if bytes != [] {
      NextIs(n, r.ins);
      Unchecked(Receive(r, bytes[0]), bytes[1..]);
      Wrapped(r.ins, |bytes| - 1, n);
    } else {
      Small(r.ins, n);
    }
  }

  lemma Small(i: nat, n: nat)
    requires i < n
    ensures i % n == i
  {
  }

  lemma Wrapped(i: nat, k: nat, n: nat)
    requires n >= 2 && i < n
    ensures (Next(n, i) + k) % n == (i + 1 + k) % n
  {
    NextIs(n, i);
    if i + 1 == n {
      var x := k;
      assert (x + n) % n == x % n by { AddMultiple(x, n, 1); }
    }
  }

  /** With the index at 0 and at the size of the buffer, an interrupt does the same as long as there is room. */
  lemma {:induction false} SameWhileRoom(buf: seq<Byte>, ins: nat, bytes: seq<Byte>)
    requires Good(Ring(buf, ins, 0)) && |bytes| <= Room(Ring(buf, ins, 0))
    ensures var a, b := ReceiveAll(Ring(buf, ins, 0), bytes), ReceiveAll(Ring(buf, ins, |buf|), bytes); a.buf == b.buf && a.ins == b.ins
    decreases |bytes|
  {
    hide Queue;
    if bytes != [] {
      CountSteps(|buf|, 0, ins);
      SameWhileRoom(buf[ins := bytes[0]], Next(|buf|, ins), bytes[1..]);
    }
  }

  /** If the index does not pass the end of the buffer, or enough room is left, nothing is lost. */
  lemma {:induction false} GetchKeeps(r: Ring, gap: seq<Byte>)
    requires Good(r) && r.ins != r.ext && (r.ext + 1 < |r.buf| || |gap| <= Room(Taken(r)))
    ensures Keeps(r, gap)
  {
    hide Queue, Count, Next, ReceiveAll;
    var n := |r.buf|;
    NextIs(n, r.ext);
    TakenContents(r);
    ReceiveKeeps(Taken(r), gap);
    if r.ext + 1 < n {
      Small(r.ext + 1, n);
    } else {
      SameWhileRoom(r.buf, r.ins, gap);
      Whole(n);
    }
  }

  lemma Whole(n: nat)
    requires n >= 1
    ensures n % n == 0
  {
  }

  lemma {:induction false} ReceiveSnoc(r: Ring, bytes: seq<Byte>)
    requires Shaped(r) && bytes != []
    ensures var k := |bytes| - 1; ReceiveAll(r, bytes) == Receive(ReceiveAll(r, bytes[..k]), bytes[k])
    decreases |bytes|
  {
    hide Receive;
    var k := |bytes| - 1;
    if k == 0 {
      assert bytes[..0] == [] && bytes[1..] == [];
      assert ReceiveAll(Receive(r, bytes[0]), []) == Receive(r, bytes[0]);
    } else {
      ReceiveSnoc(Receive(r, bytes[0]), bytes[1..]);
      assert bytes[1..][..k - 1] == bytes[..k][1..];
    }
  }

  lemma {:induction false} QueuePrefix(buf: seq<Byte>, e: nat, ins: nat)
    requires e <= ins < |buf|
    ensures Queue(buf, e, ins) == buf[e..ins]
    decreases ins - e
  {
    if e < ins {
      NextIs(|buf|, e);
      QueuePrefix(buf, e + 1, ins);
    }
  }

  /** Whatever is in the queue, and however many bytes of whatever value arrive. */
  ghost predicate KeepsAlways(n: nat, ins: nat, ext: nat, k: nat)
    requires n >= 2 && ins < n && ext < n && ins != ext
  {
    forall buf: seq<Byte>, gap: seq<Byte> :: |buf| == n && |gap| == k ==> Keeps(Ring(buf, ins, ext), gap)
  }

  function Zeros(n: nat): (r: seq<Byte>)
    ensures |r| == n && forall i :: 0 <= i < n ==> r[i] == 0
  {
    seq(n, _ => 0)
  }

  /** One byte more than there is room for, while the index is out of range, and bytes are lost. */
  lemma {:induction false} TooMany(n: nat, ins: nat, k: nat)
    requires n >= 2 && ins < n - 1 && k > n - 1 - ins
    ensures !Keeps(Ring(Zeros(n), ins, n - 1), Zeros(k)[k - 1 := 1])
  {
    hide ReceiveAll, Queue;
    var r, gap := Ring(Zeros(n), ins, n - 1), Zeros(k)[k - 1 := 1];
    NextIs(n, n - 1);
    TakenContents(r);
    Whole(n);
    var mid := Ring(r.buf, ins, n);
    Unchecked(mid, gap);
    var end := ReceiveAll(mid, gap);
    QueuePrefix(end.buf, 0, end.ins);
    if end.ins == n - 1 {
      ReceiveSnoc(mid, gap);
      Unchecked(mid, gap[..k - 1]);
      LastSlot(ins, k, n);
      assert Contents(AfterGetch(r, gap))[n - 2] == 1;
      ExpectedZero(r, gap, n - 2);
    }
  }

  lemma LastSlot(ins: nat, k: nat, n: nat)
    requires n >= 2 && k >= 1 && (ins + k) % n == n - 1
    ensures (ins + (k - 1)) % n == n - 2
  {
    var q := (ins + k) / n;
    assert ins + k == q * n + (n - 1);
    Remainder(ins + (k - 1), n, q, n - 2);
  }

  lemma {:induction false} ExpectedZero(r: Ring, gap: seq<Byte>, i: nat)
    requires Good(r) && r.ext == |r.buf| - 1 && r.ins < r.ext && r.buf == Zeros(|r.buf|)
    requires gap != [] && gap == Zeros(|gap|)[|gap| - 1 := 1] && |gap| > Room(Taken(r))
    ensures i < |Contents(r)[1..] + Fitting(gap, Room(Taken(r)))| ==> (Contents(r)[1..] + Fitting(gap, Room(Taken(r))))[i] == 0
  {
    hide Queue;
    NextIs(|r.buf|, r.ext);
    TakenContents(r);
    QueuePrefix(r.buf, 0, r.ins);
  }

  /** uart0Getch removes exactly the oldest byte and keeps what arrives meanwhile, whatever the bytes are, if and only
      if the index does not pass the end of the buffer at this call, or no more bytes arrive between its two updates
      than there is room for. */
  lemma {:induction false} GetchExact(n: nat, ins: nat, ext: nat, k: nat)
    requires n >= 2 && ins < n && ext < n && ins != ext
    ensures KeepsAlways(n, ins, ext, k) <==> ext + 1 < n || k <= n - 1 - Count(n, Next(n, ext), ins)
  {
    hide Keeps, Count, Next;
    if ext + 1 < n || k <= n - 1 - Count(n, Next(n, ext), ins) {
      forall buf: seq<Byte>, gap: seq<Byte> | |buf| == n && |gap| == k ensures Keeps(Ring(buf, ins, ext), gap) {
        GetchKeeps(Ring(buf, ins, ext), gap);
      }
    } else {
      NextIs(n, ext);
      CountFromZero(n, ins);
      TooMany(n, ins, k);
      var gap := Zeros(k)[k - 1 := 1];
      assert |Zeros(n)| == n && |gap| == k && !Keeps(Ring(Zeros(n), ins, ext), gap);
    }
  }

  lemma CountFromZero(n: nat, ins: nat)
    requires ins < n
    ensures Count(n, 0, ins) == ins
  {
  }

  class Receiver {
    const buffer: array<Byte>
    var insertIdx: nat
    var extractIdx: nat

    ghost function State(): Ring
      reads this, buffer
    {
      Ring(buffer[..], insertIdx, extractIdx)
    }

    /** uart0Init */
    constructor (size: nat)
      requires size >= 2
      ensures Good(State()) && Contents(State()) == []
    {
      buffer := new Byte[size](_ => 0);
      insertIdx, extractIdx := 0, 0;
    }

    /** The receive branch of uart0ISR: as long as the receiver has data. */
    method ReceiveInterrupt(bytes: seq<Byte>)
      requires Shaped(State())
      modifies this`insertIdx, buffer
      ensures State() == ReceiveAll(old(State()), bytes)
    {
      var i := 0;
      while i < |bytes|
        invariant 0 <= i <= |bytes| && Shaped(State()) && extractIdx == old(extractIdx)
        invariant ReceiveAll(State(), bytes[i..]) == ReceiveAll(old(State()), bytes)
      {
        ghost var before := State();
        assert bytes[i..][0] == bytes[i] && bytes[i..][1..] == bytes[i + 1..];
        var temp := Next(buffer.Length, insertIdx);
        buffer[insertIdx] := bytes[i];
        if temp != extractIdx { insertIdx := temp; }
        assert State() == Receive(before, bytes[i]);
        i := i + 1;
      }
    }

    /** uart0Getch; `early` and `gap` are what arrives after the check and between the two updates of the index. */
    method Getch(early: seq<Byte>, gap: seq<Byte>) returns (result: int)
      requires Good(State())
      modifies this, buffer
      ensures Good(State()) && (result == -1 <==> old(Contents(State())) == [])
      ensures result == -1 ==> State() == old(State())
      ensures result != -1 ==> result == old(Contents(State()))[0]
      ensures result != -1 ==> State() == AfterGetch(ReceiveAll(old(State()), early), gap)
    {
      hide ReceiveAll, Queue, Count;
      if insertIdx == extractIdx {
        Nothing(State());
        return -1;
      }
      ReceiveKeeps(State(), early);
      Oldest(State());
      ghost var q := Contents(State());
      ReceiveInterrupt(early);
      Oldest(State());
      assert Contents(State())[0] == q[0];
      result := buffer[extractIdx];
      extractIdx := extractIdx + 1;
      ReceiveInterrupt(gap);
      extractIdx := extractIdx % buffer.Length;
    }
  }

  lemma Nothing(r: Ring)
    requires Good(r)
    ensures r.ins == r.ext ==> Contents(r) == []
  {
  }

  lemma Oldest(r: Ring)
    requires Good(r)
    ensures Contents(r) == [] <==> r.ins == r.ext
    ensures r.ins != r.ext ==> Contents(r)[0] == r.buf[r.ext]
  {
  }
}
