/** For which lengths of the input the search of gzip's deflate can read past the end of the window: inputs that make it
    do so, and what every round does on the way. */
module GzOverrun {
  import opened Arithmetic
  import opened Bytes
  import opened GzWindow

  /** An input that ends 2 to 257 bytes before the end of the window: it has 65279 to 65534 bytes, or any number of
      half windows more. */
  predicate LongTail(n: nat) {
    n + MAX_MATCH > WINDOW && WSIZE - MAX_MATCH < n % WSIZE <= WSIZE - 2
  }

  // ---------- the input ----------

  /** The number of bytes that are left for the search before the last one. */
  function Left(n: nat): nat {
    if n % WSIZE == WSIZE - 2 then 3 else 2
  }

  /** The position of the last match but one. */
  function End(n: nat): (e: nat)
    requires LongTail(n)
    ensures e == n - Left(n)
  {
    n - Left(n)
  }

  /** The number of bytes that are not zero: matches of 258 zeros lead from the position after the first zero to the end. */
  function Lead(n: nat): (j: nat)
    requires LongTail(n)
    ensures 1 <= j <= MAX_MATCH && j < End(n) && (End(n) - (j + 1)) % MAX_MATCH == 0
  {
    var r, q := (End(n) - 2) % MAX_MATCH, (End(n) - 2) / MAX_MATCH;
    Remainder(End(n) - (r + 2), MAX_MATCH, q, 0);
    r + 1
  }

  /** 1, 2, and so on up to 255, and 1 again if there are more; then zeros. */
  function ByteAt(n: nat, i: nat): Byte
    requires LongTail(n)
  {
    if i >= Lead(n) then 0 else if i < 255 then i + 1 else 1
  }

  function Data(n: nat): (data: seq<Byte>)
    requires LongTail(n)
    ensures |data| == n && forall i {:trigger data[i]} :: 0 <= i < n ==> data[i] == ByteAt(n, i)
  {
    seq(n, i requires 0 <= i < n => ByteAt(n, i))
  }

  /** Where the window is when the input has ended. */
  function Base(n: nat): (b: nat)
    requires LongTail(n)
    ensures b % WSIZE == 0 && n - b + MAX_MATCH > WINDOW && n - b + 2 <= WINDOW && b <= n
    ensures End(n) - b + 260 > WINDOW && End(n) - b - MAX_MATCH < WSIZE + MAX_DIST
  {
    var q, r := n / WSIZE, n % WSIZE;
    Remainder(n - r - WSIZE, WSIZE, q - 1, 0);
    n - r - WSIZE
  }

  /** No string before the zeros occurs before. */
  lemma {:induction false} Fresh(n: nat, p: nat, q: nat)
    requires LongTail(n) && p < q <= Lead(n)
    ensures !(ByteAt(n, p) == ByteAt(n, q) && ByteAt(n, p + 1) == ByteAt(n, q + 1) && ByteAt(n, p + 2) == ByteAt(n, q + 2))
  {
    hide Lead, LongTail;
  }

  // ---------- the course ----------

  /** What is still to be read. */
  function Rest(n: nat, pos: nat): seq<seq<Byte>>
    requires LongTail(n)
  {
    if pos < n then [Data(n)[pos..]] else []
  }

  /** The window is somewhere in the input, and after its end there are zeros. */
  ghost predicate Somewhere(v: View, n: nat)
    requires LongTail(n)
  {
    && |v.w| == WINDOW + SLACK && |v.head| == HASH_SIZE
    && (forall i {:trigger v.w[i]} :: 0 <= i < |v.w| ==> v.w[i] == ByteAt(n, v.base + i))
    && v.base % WSIZE == 0 && v.base <= Base(n) && v.s + v.look == Min(WINDOW, n - v.base)
    && v.file == Rest(n, v.base + v.s + v.look)
    && (if v.eof then v.base == Base(n) else v.base + v.s + MAX_MATCH <= End(n))
  }

  /** Before a round, with a match of `len` bytes at the position before: in the bytes that are not zero there is none;
      after them, matches of 258 zeros are found and skipped in turn. */
  ghost predicate Along(v: View, len: nat, n: nat)
    requires LongTail(n)
  {
    var at := v.base + v.s;
    if at <= Lead(n) then 1 <= len <= 2
    else
      && v.s >= 2 && |v.head| == HASH_SIZE && v.head[0] == v.s - 1
      && (|| (at <= End(n) && (End(n) - at) % MAX_MATCH == 0 && 1 <= len <= 2)
          || (at <= End(n) && (End(n) + 1 - at) % MAX_MATCH == 0 && len == MAX_MATCH)
          || (at == End(n) + 1 && 1 <= len <= 3))
  }

  /** The search has left the window, or is on its way. */
  ghost predicate Course(v: View, len: nat, n: nat)
    requires LongTail(n)
  {
    v.far > WINDOW || (Somewhere(v, n) && Along(v, len, n))
  }

  lemma {:induction false} Start(v: View, n: nat)
    requires LongTail(n) && v.base == v.s == 0 && !v.eof && |v.head| == HASH_SIZE && v.look == Min(WINDOW, n) && v.file == Rest(n, v.look)
    requires |v.w| == WINDOW + SLACK && (forall i :: 0 <= i < |v.w| ==> v.w[i] == ByteAt(n, i))
    ensures Course(v, 2, n)
  {
    hide Lead, ByteAt, Data;
  }

  lemma Finish(v: View, len: nat, n: nat)
    requires LongTail(n) && Course(v, len, n) && v.eof && v.look == 0
    ensures v.far > WINDOW
  {
    hide Lead, ByteAt, Data, Base, End;
  }

  // ---------- filling ----------

  lemma {:induction false} Fill(v: View, v': View, len: nat, n: nat)
    requires LongTail(n) && Course(v, len, n) && !v.eof && v.look < MIN_LOOKAHEAD && Filled(v, v')
    ensures Course(v', len, n)
  {
    hide Lead, ByteAt, Data, Base, SlidWindow, Slid, Put, Somewhere, Along, Appended, Rest, LongTail, End;
    if v.far <= WINDOW {
      if v.base < Base(n) { FillMore(v, v', len, n); } else { FillLast(v, v', len, n); }
    }
  }

  /** All has been read: the end of the input is noticed at a position from which the window does not slide. */
  lemma {:induction false} FillLast(v: View, v': View, len: nat, n: nat)
    requires LongTail(n) && Somewhere(v, n) && Along(v, len, n) && !v.eof && v.look < MIN_LOOKAHEAD && v.base >= Base(n) && Filled(v, v')
    ensures Somewhere(v', n) && Along(v', len, n)
  {
    hide Lead, ByteAt, Data, SlidWindow, Slid, Put, LongTail, Base;
    assert v.base == Base(n);
    assert v.s + v.look == n - v.base;
  }

  /** The window is full: it slides, and what follows is read. */
  lemma {:induction false} FillMore(v: View, v': View, len: nat, n: nat)
    requires LongTail(n) && Somewhere(v, n) && Along(v, len, n) && !v.eof && v.look < MIN_LOOKAHEAD && v.base < Base(n) && Filled(v, v')
    ensures Somewhere(v', n) && Along(v', len, n)
  {
    hide Lead, ByteAt, Data, SlidWindow, Slid, LongTail, Rest, Along, Appended, HalfFull;
    assert v.s + v.look == WINDOW;
    var v1 := v.(w := SlidWindow(v.w), head := Slid(v.head), base := v.base + WSIZE, s := v.s - WSIZE);
    SlideHalf(v, v1, len, n);
    FillHalf(v1, v', len, n);
  }

  ghost predicate HalfFull(v: View, n: nat)
    requires LongTail(n)
  {
    && |v.w| == WINDOW + SLACK && |v.head| == HASH_SIZE && (forall i {:trigger v.w[i]} :: 0 <= i < |v.w| ==> v.w[i] == ByteAt(n, v.base + i))
    && v.base % WSIZE == 0 && v.base <= Base(n) && v.s + v.look == WSIZE && v.file == Rest(n, v.base + WSIZE)
    && !v.eof && v.base + v.s + MAX_MATCH <= End(n)
  }

  lemma {:induction false} SlideHalf(v: View, v1: View, len: nat, n: nat)
    requires LongTail(n) && Somewhere(v, n) && Along(v, len, n) && !v.eof && v.look < MIN_LOOKAHEAD && v.base < Base(n) && v.s + v.look == WINDOW
    requires v1 == v.(w := SlidWindow(v.w), head := Slid(v.head), base := v.base + WSIZE, s := v.s - WSIZE)
    ensures HalfFull(v1, n) && Along(v1, len, n)
  {
    hide Lead, ByteAt, Data, SlidWindow, Slid, LongTail, Rest, Base, Along, End;
    HalfMore(v.base, Base(n));
    SlideBytes(v.w, v.base, n);
    SlideAlong(v, v1, len, n);
  }

  lemma HalfMore(a: nat, b: nat)
    requires a % WSIZE == 0 && b % WSIZE == 0 && a < b
    ensures (a + WSIZE) % WSIZE == 0 && a + WSIZE <= b
  {
    var q, r := a / WSIZE, b / WSIZE;
    Remainder(a + WSIZE, WSIZE, q + 1, 0);
  }

  lemma SlideAlong(v: View, v1: View, len: nat, n: nat)
    requires LongTail(n) && Along(v, len, n) && v1.head == Slid(v.head) && v1.base == v.base + WSIZE && v1.s == v.s - WSIZE && v1.s >= 2 && |v.head| == HASH_SIZE
    ensures Along(v1, len, n)
  {
    hide Lead, LongTail, End, Slid;
    var e, at, at1 := End(n), v.base + v.s, v1.base + v1.s;
    assert at == at1 && v1.head[0] == Back(v.head[0]);
    assert v.base + v.s > Lead(n);
  }

  lemma {:induction false} FillHalf(v: View, v': View, len: nat, n: nat)
    requires LongTail(n) && HalfFull(v, n) && Along(v, len, n) && Appended(v, v')
    ensures Somewhere(v', n) && Along(v', len, n)
  {
    hide Lead, ByteAt, Data, Put, Chunk, AfterChunk, LongTail, Rest;
    NextChunk(n, v.base + WSIZE);
    PutBytes(v.w, v.base, WSIZE, Chunk(v.file, WSIZE), n);
  }

  lemma {:induction false} SlideBytes(w: seq<Byte>, base: nat, n: nat)
    requires LongTail(n) && |w| == WINDOW + SLACK && forall i {:trigger w[i]} :: 0 <= i < |w| ==> w[i] == ByteAt(n, base + i)
    ensures forall i {:trigger SlidWindow(w)[i]} :: 0 <= i < |w| ==> SlidWindow(w)[i] == ByteAt(n, base + WSIZE + i)
  {
    forall i | 0 <= i < |w| ensures SlidWindow(w)[i] == ByteAt(n, base + WSIZE + i) {
      if i < WSIZE {
        assert SlidWindow(w)[i] == w[i + WSIZE];
      } else {
        assert SlidWindow(w)[i] == w[i];
      }
    }
  }

  lemma {:induction false} NextChunk(n: nat, pos: nat)
    requires LongTail(n) && pos < n
    ensures var k := Min(WSIZE, n - pos);
            Chunk(Rest(n, pos), WSIZE) == Data(n)[pos..pos + k] && AfterChunk(Rest(n, pos), WSIZE) == Rest(n, pos + k)
  {
    hide Data, LongTail;
    var k := Min(WSIZE, n - pos);
    assert Data(n)[pos..][..k] == Data(n)[pos..pos + k];
    if k == WSIZE && pos + k < n { assert Data(n)[pos..][k..] == Data(n)[pos + k..]; }
  }

  lemma {:induction false} PutBytes(w: seq<Byte>, base: nat, top: nat, data: seq<Byte>, n: nat)
    requires LongTail(n) && top + |data| <= |w| && base + top + |data| <= n && data == Data(n)[base + top..base + top + |data|]
    requires forall i {:trigger w[i]} :: 0 <= i < |w| ==> w[i] == ByteAt(n, base + i)
    ensures forall i {:trigger Put(w, top, data)[i]} :: 0 <= i < |w| ==> Put(w, top, data)[i] == ByteAt(n, base + i)
  {
    hide LongTail, ByteAt, Data;
    forall i | 0 <= i < |w| ensures Put(w, top, data)[i] == ByteAt(n, base + i) {
      if top <= i < top + |data| {
        assert Put(w, top, data)[i] == data[i - top] == Data(n)[base + i];
      } else {
        assert Put(w, top, data)[i] == w[i];
      }
    }
  }

  // ---------- one round ----------

  lemma {:induction false} Go(v: View, v1: View, v': View, len: nat, len': nat, best: nat, found: nat, n: nat)
    requires LongTail(n) && Course(v, len, n) && (v.eof || v.look >= MIN_LOOKAHEAD) && v.look >= 1 && Round(v, v1, v', len, len', best, found)
    ensures Course(v', len', n)
  {
    hide Lead, ByteAt, Data, Base, LongTail, End, Somewhere, Along, KeyAt, NoLonger, SameBytes, Rest;
    if v.far <= WINDOW {
      InReach(v, n);
      if v.base + v.s <= Lead(n) {
        GoBefore(v, v1, v', len, len', best, found, n);
      } else if len == MAX_MATCH {
        GoSkip(v, v1, v', len, len', best, found, n);
      } else {
        GoSearch(v, v1, v', len, len', best, found, n);
      }
    }
  }

  /** As long as the end of the input has not been noticed, there is a match to come. */
  lemma InReach(v: View, n: nat)
    requires LongTail(n) && Somewhere(v, n) && (v.eof || v.look >= MIN_LOOKAHEAD)
    ensures v.base + v.s + v.look <= n && (v.eof ==> v.base + v.s + v.look == n) && v.s + v.look <= WINDOW
    ensures !v.eof ==> v.base + v.s + MAX_MATCH < End(n)
  {
    hide Lead, ByteAt, Data, LongTail, Rest;
  }

  /** There is no match in the bytes that are not zero, nor at the first zero. */
  lemma {:induction false} GoBefore(v: View, v1: View, v': View, len: nat, len': nat, best: nat, found: nat, n: nat)
    requires LongTail(n) && Somewhere(v, n) && Along(v, len, n) && v.base + v.s <= Lead(n) && v.look >= 1
    requires !v.eof ==> v.base + v.s + MAX_MATCH < End(n)
    requires Round(v, v1, v', len, len', best, found)
    ensures Somewhere(v', n) && Along(v', len', n)
  {
    hide Lead, ByteAt, Data, LongTail, Base, KeyAt, NoLonger, SameBytes, Rest;
    assert v.base == 0;
    forall p: nat | p < v.s && found >= 3 ensures !SameBytes(v.w, p, v.s, found) { NoCopy(v.w, p, v.s, found, n); }
    if v.s == Lead(n) { ZeroKey(v.w, v.base, v.s, n); }
  }

  lemma {:induction false} NoCopy(w: seq<Byte>, p: nat, q: nat, len: nat, n: nat)
    requires LongTail(n) && p < q <= Lead(n) && len >= 3 && q + 2 < |w| && (forall i {:trigger w[i]} :: 0 <= i < |w| ==> w[i] == ByteAt(n, i))
    ensures !SameBytes(w, p, q, len)
  {
    hide Lead, ByteAt, LongTail;
    Fresh(n, p, q);
    assert w[q] != w[p] || w[q + 1] != w[p + 1] || w[q + 2] != w[p + 2];
  }

  lemma {:induction false} ZeroKey(w: seq<Byte>, base: nat, p: nat, n: nat)
    requires LongTail(n) && base + p >= Lead(n) && p + 2 < |w| && (forall i {:trigger w[i]} :: 0 <= i < |w| ==> w[i] == ByteAt(n, base + i))
    ensures KeyAt(w, p) == 0
  {
    hide Lead, LongTail, Key;
    assert w[p] == 0 && w[p + 1] == 0 && w[p + 2] == 0;
    ZeroKeys();
  }

  lemma ZeroKeys()
    ensures Key(0, 0, 0) == 0
  {
    hide Upd;
    ZeroUpdate(0);
  }

  lemma ZeroUpdate(h: nat)
    requires h == 0
    ensures Upd(h, 0) == 0
  {
    hide Xor3;
    Xor3Zero(h % 8);
  }

  lemma {:induction false} ZeroMatch(w: seq<Byte>, base: nat, p: nat, best: nat, n: nat)
    requires LongTail(n) && p >= 1 && base + p > Lead(n) && p < WINDOW && |w| == WINDOW + SLACK && best <= MAX_MATCH
    requires (forall i {:trigger w[i]} :: 0 <= i < |w| ==> w[i] == ByteAt(n, base + i)) && NoLonger(w, p - 1, p, best)
    ensures best == MAX_MATCH
  {
    hide Lead, LongTail;
    assert SameBytes(w, p - 1, p, MAX_MATCH);
  }

  /** A match of 258 zeros is skipped without a search for a better one. */
  lemma {:induction false} GoSkip(v: View, v1: View, v': View, len: nat, len': nat, best: nat, found: nat, n: nat)
    requires LongTail(n) && Somewhere(v, n) && Along(v, len, n) && v.base + v.s > Lead(n) && len == MAX_MATCH && v.look >= 1
    requires !v.eof ==> v.base + v.s + MAX_MATCH < End(n)
    requires v.base + v.s + v.look <= n && v.s + v.look <= WINDOW
    requires Round(v, v1, v', len, len', best, found)
    ensures Somewhere(v', n) && Along(v', len', n)
  {
    hide Lead, ByteAt, Data, LongTail, Base, KeyAt, NoLonger, SameBytes, Rest;
    ZeroKey(v.w, v.base, v'.s - 1, n);
  }

  /** A match of 258 zeros is found, or of what is left of them; and the search at the end leaves the window. */
  lemma {:induction false} GoSearch(v: View, v1: View, v': View, len: nat, len': nat, best: nat, found: nat, n: nat)
    requires LongTail(n) && Somewhere(v, n) && Along(v, len, n) && v.base + v.s > Lead(n) && len != MAX_MATCH && v.look >= 1
    requires !v.eof ==> v.base + v.s + MAX_MATCH < End(n)
    requires v.base + v.s + v.look <= n && (v.eof ==> v.base + v.s + v.look == n) && (v.eof || v.look >= MIN_LOOKAHEAD) && v.s + v.look <= WINDOW
    requires Round(v, v1, v', len, len', best, found)
    ensures v'.far > WINDOW || (Somewhere(v', n) && Along(v', len', n))
  {
    hide Lead, ByteAt, Data, LongTail, KeyAt, NoLonger, SameBytes, Rest;
    ZeroKey(v.w, v.base, v.s, n);
    assert v.head[0] == v.s - 1;
    ZeroMatch(v.w, v.base, v.s, best, n);
  }
}
