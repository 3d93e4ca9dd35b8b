/** The transmitter: uart0Putch and uart0Write against interrupts and the hardware at every point between two
    accesses to shared state. */
module UartTx {
  import opened Bytes
  import opened UartRing

  /** What may happen at a point of interleaving: the holding register is emptied, or an interrupt is served;
      for the latter, the list says after which of its writes the register is emptied at once. */
  datatype Event = Drain | Interrupt(drains: seq<bool>)

  /** The number of interrupts that find the holding register empty because it was emptied after the one before; `empty`
      says that it is empty at first. */
  function Rounds(events: seq<Event>, empty: bool): nat {
    if events == [] then 0
    else match events[0]
         case Drain => Rounds(events[1..], true)
         case Interrupt(_) => (if empty then 1 else 0) + Rounds(events[1..], false)
  }

  class Transmitter {
    const buffer: array<Byte>
    var insertIdx: nat
    var extractIdx: nat
    var running: bool
    var etbei: bool                      // the transmit interrupt is enabled
    var thrFull: bool                    // the holding register has not been emptied yet
    var schedule: seq<seq<Event>>        // what happens at the points of interleaving to come
    ghost var sent: seq<Byte>            // the bytes written to the holding register
    ghost var accepted: seq<Byte>        // the characters that uart0Putch has accepted

    ghost predicate Sized()
      reads this
    {
      buffer.Length >= 2 && insertIdx < buffer.Length && extractIdx < buffer.Length
    }

    /** Accepted characters are sent or wait in the queue, in order; and if the transmitter is not running, the
        queue and the holding register are empty. */
    ghost predicate Valid()
      reads this, buffer
    {
      && Sized() && accepted == sent + Queue(buffer[..], extractIdx, insertIdx)
      && (!running ==> insertIdx == extractIdx && !thrFull)
    }

    /** Free slots. */
    ghost function Room(): (r: nat)
      requires Sized()
      reads this
    {
      buffer.Length - 1 - Count(buffer.Length, extractIdx, insertIdx)
    }

    /** uart0Init, for a transmitter that is idle. */
    constructor (size: nat, events: seq<seq<Event>>)
      requires size >= 2
      ensures Valid() && !running && accepted == sent == [] && buffer.Length == size && fresh(buffer)
    {
      buffer := new Byte[size](_ => 0);
      insertIdx, extractIdx, running, etbei, thrFull, schedule := 0, 0, false, false, false, events;
      sent, accepted := [], [];
    }

    /** Writing to the holding register is only allowed when it is empty; otherwise a byte would be lost. */
    method WriteThr(b: Byte)
      requires !thrFull
      modifies this`thrFull, this`sent
      ensures thrFull && sent == old(sent) + [b]
    {
      thrFull := true;
      sent := sent + [b];
    }

    /** The oldest byte of the queue goes to the holding register. */
    method SendOldest()
      requires Valid() && !thrFull && insertIdx != extractIdx
      modifies this`extractIdx, this`thrFull, this`sent
      ensures Valid() && Room() == old(Room()) + 1 && running
    {
      hide Queue, Count, Next;
      QueueTakes(buffer[..], extractIdx, insertIdx);
      CountSteps(buffer.Length, extractIdx, insertIdx);
      NextIs(buffer.Length, extractIdx);
      Shift(sent, buffer[extractIdx], Queue(buffer[..], Next(buffer.Length, extractIdx), insertIdx));
      WriteThr(buffer[extractIdx]);
      extractIdx := extractIdx + 1;
      extractIdx := extractIdx % buffer.Length;
    }

    /** The THRE branch of uart0ISR. */
    method ThreInterrupt(drains: seq<bool>)
      requires Valid()
      modifies this`extractIdx, this`running, this`thrFull, this`sent
      ensures Valid() && Room() >= old(Room()) && (running ==> old(running))
      ensures !old(thrFull) && running ==> Room() > old(Room())
    {
      hide Queue, Count, Next;
      var k := 0;
      while !thrFull
        invariant Valid() && Room() >= old(Room()) && k >= 0 && (running ==> old(running))
        invariant Room() > old(Room()) || thrFull == old(thrFull)
        decreases Count(buffer.Length, extractIdx, insertIdx), !thrFull
      {
        if insertIdx != extractIdx {
          SendOldest();
          if k < |drains| && drains[k] { thrFull := false; }
          k := k + 1;
        } else {
          running := false;
          break;
        }
      }
    }

    /** A point at which interrupts and the hardware may act.  The transmit interrupt is served only while it is
        enabled; then, with one round more than there are characters in the queue, everything that has been accepted
        is sent and the transmitter stops, whatever else happens. */
    method Interleave()
      requires Valid()
      modifies this`extractIdx, this`running, this`thrFull, this`sent, this`schedule
      ensures Valid() && Room() >= old(Room())
      ensures !etbei ==> extractIdx == old(extractIdx) && running == old(running) && sent == old(sent) && (thrFull ==> old(thrFull))
      ensures etbei && old(schedule) != [] && Rounds(old(schedule)[0], false) > buffer.Length - 1 - old(Room()) ==>
        !running && !thrFull && sent == accepted
    {
      hide Queue, Count;
      if schedule == [] { return; }
      var events := schedule[0];
      schedule := schedule[1..];
      ghost var empty := false;
      assert events[0..] == events;
      for k := 0 to |events|
        invariant Valid() && Room() >= old(Room())
        invariant !etbei ==> extractIdx == old(extractIdx) && running == old(running) && sent == old(sent) && (thrFull ==> old(thrFull))
        invariant empty ==> !thrFull
        invariant etbei && running ==> Rounds(events, false) - Rounds(events[k..], empty) <= Room() - old(Room())
      {
        assert events[k..][0] == events[k] && events[k..][1..] == events[k + 1..];
        match events[k]
        case Drain =>
          thrFull := false;
          empty := true;
        case Interrupt(drains) =>
          if etbei { ThreInterrupt(drains); }
          empty := false;
      }
      AllSent();
    }

    /** uart0Putch: -1 if the queue is full, and otherwise the character is accepted; at every point in between
        anything may happen that the hardware allows. */
    method Putch(ch: Byte) returns (result: int)
      requires Valid()
      modifies this, buffer
      ensures Valid() && (result == -1 || result == ch) && (result == -1 <==> old(Room()) == 0)
      ensures accepted == if result == -1 then old(accepted) else old(accepted) + [ch]
      ensures result != -1 ==> etbei
      ensures Room() >= old(Room()) - 1
    {
      hide Queue, Count, Next;
      CountSteps(buffer.Length, extractIdx, insertIdx);
      var temp := Next(buffer.Length, insertIdx);
      if temp == extractIdx { return -1; }
      Interleave();
      etbei := false;
      Interleave();
      if running {
        Enqueue(ch, temp);
      } else {
        running := true;
        Interleave();
        EmptyQueue(buffer[..], extractIdx);
        WriteThr(ch);
        accepted := accepted + [ch];
        assert sent + [] == sent;
      }
      Interleave();
      etbei := true;
      Interleave();
      return ch;
    }

    /** Put a character into the queue: first the byte, then the index. */
    method Enqueue(ch: Byte, temp: nat)
      requires Valid() && running && !etbei && Room() > 0 && temp == Next(buffer.Length, insertIdx)
      modifies this, buffer
      ensures Valid() && !etbei && accepted == old(accepted) + [ch] && Room() >= old(Room()) - 1
    {
      hide Queue, Count, Next;
      ghost var b := buffer[..];
      CountSteps(buffer.Length, extractIdx, insertIdx);
      QueueGrows(b, extractIdx, insertIdx, ch);
      buffer[insertIdx] := ch;
      assert buffer[..] == b[insertIdx := ch];
      Interleave();
      insertIdx := temp;
      accepted := accepted + [ch];
      Tail(sent, Queue(b, extractIdx, old(insertIdx)), ch);
    }

    /** uart0Space */
    method Space() returns (space: nat)
      requires Sized()
      ensures space == Room()
    {
      var s := extractIdx - insertIdx;
      if s <= 0 { s := s + buffer.Length; }
      return s - 1;
    }

    /** uart0Write: all or nothing; the result -2 does not occur. */
    method Write(data: seq<Byte>) returns (result: int)
      requires Valid()
      modifies this, buffer
      ensures Valid() && (result == 0 || result == -1) && (result == -1 <==> |data| > old(Room()))
      ensures accepted == if result == 0 then old(accepted) + data else old(accepted)
    {
      hide Queue, Count, Next;
      var space := Space();
      if |data| > space { return -1; }
      Interleave();
      var i := 0;
      while i < |data|
        invariant 0 <= i <= |data| && Valid() && accepted == old(accepted) + data[..i] && Room() >= |data| - i
      {
        var r := Putch(data[i]);
        if r < 0 { break; }
        i := i + 1;
        assert data[..i] == data[..i - 1] + [data[i - 1]];
      }
      assert data[..|data|] == data;
      return if i < |data| then -2 else 0;
    }

    /** Once the transmitter has stopped, every accepted character has been sent, in order. */
    lemma AllSent()
      requires Valid()
      ensures !running ==> sent == accepted && !thrFull
    {
      hide Queue;
      if !running { EmptyQueue(buffer[..], extractIdx); }
    }
  }

  lemma EmptyQueue(buf: seq<Byte>, i: nat)
    requires i < |buf|
    ensures Queue(buf, i, i) == []
  {
  }

  lemma Tail(sent: seq<Byte>, q: seq<Byte>, b: Byte)
    ensures sent + q + [b] == sent + (q + [b])
  {
  }

  lemma Shift(sent: seq<Byte>, b: Byte, q: seq<Byte>)
    ensures sent + ([b] + q) == sent + [b] + q
  {
  }
}
