/** A ring buffer with an insert and an extract index, in which one slot always stays free. */
module UartRing {
  import opened Bytes

  /** The number of bytes between the indices. */
  function Count(n: nat, ext: nat, ins: nat): (k: nat)
    requires ext < n && ins < n
    ensures k < n && (k == 0 <==> ext == ins)
  {
    if ins >= ext then ins - ext else ins - ext + n
  }

  function Next(n: nat, i: nat): (j: nat)
    requires i < n
    ensures j < n
  {
    (i + 1) % n
  }

  lemma NextIs(n: nat, i: nat)
    requires i < n
    ensures Next(n, i) == (i + 1) % n == if i + 1 == n then 0 else i + 1
  {
  }

  /** The bytes in the ring, oldest first. */
  function Queue(buf: seq<Byte>, ext: nat, ins: nat): (q: seq<Byte>)
    requires ext < |buf| && ins < |buf|
    ensures |q| == Count(|buf|, ext, ins)
    decreases Count(|buf|, ext, ins)
  {
    if ext == ins then [] else NextIs(|buf|, ext); [buf[ext]] + Queue(buf, Next(|buf|, ext), ins)
  }

  /** Storing at the insert index changes nothing until the index moves; then there is one byte more. */
  lemma {:induction false} QueueGrows(buf: seq<Byte>, ext: nat, ins: nat, b: Byte)
    requires ext < |buf| && ins < |buf|
    ensures Queue(buf[ins := b], ext, ins) == Queue(buf, ext, ins)
    ensures Next(|buf|, ins) != ext ==> Queue(buf[ins := b], ext, Next(|buf|, ins)) == Queue(buf, ext, ins) + [b]
    decreases Count(|buf|, ext, ins)
  {
    var n := |buf|;
    NextIs(n, ins);
    NextIs(n, ext);
    if ext == ins {
      assert Queue(buf[ins := b], Next(n, ins), Next(n, ins)) == [];
    } else {
      QueueGrows(buf, Next(n, ext), ins, b);
      assert [buf[ext]] + (Queue(buf, Next(n, ext), ins) + [b]) == Queue(buf, ext, ins) + [b];
    }
  }

  lemma QueueTakes(buf: seq<Byte>, ext: nat, ins: nat)
    requires ext < |buf| && ins < |buf| && ext != ins
    ensures Queue(buf, ext, ins) == [buf[ext]] + Queue(buf, Next(|buf|, ext), ins)
  {
  }

  lemma CountSteps(n: nat, ext: nat, ins: nat)
    requires ext < n && ins < n
    ensures ext != ins ==> Count(n, Next(n, ext), ins) == Count(n, ext, ins) - 1
    ensures Next(n, ins) != ext ==> Count(n, ext, Next(n, ins)) == Count(n, ext, ins) + 1
    ensures Next(n, ins) == ext <==> Count(n, ext, ins) == n - 1
  {
    NextIs(n, ext);
    NextIs(n, ins);
  }
}
