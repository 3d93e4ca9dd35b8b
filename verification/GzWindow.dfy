/** The sliding window of gzip's deflate: reading, sliding, the hash chains and the match search. */
module GzWindow {
  import opened Arithmetic
  import opened Bytes

  const WSIZE := 0x8000
  const MIN_MATCH := 3
  const MAX_MATCH := 258
  const MIN_LOOKAHEAD := MAX_MATCH + MIN_MATCH + 1
  const MAX_DIST := WSIZE - MIN_LOOKAHEAD
  const HASH_SIZE := 0x2000
  const WINDOW := 2 * WSIZE
  /** The search may read this far past the window once the input is exhausted. */
  const SLACK := MIN_LOOKAHEAD
  const MAX_CHAIN := 4096
  const GOOD_MATCH := 32
  const NICE_MATCH := 258
  const MAX_LAZY := 258

  // ---------- the hash ----------

  /** UPDATE_HASH */
  function Upd(h: nat, c: Byte): (r: nat)
    ensures r < HASH_SIZE
  {
    ShiftXor(h, c) % HASH_SIZE
  }

  function Key(a: Byte, b: Byte, c: Byte): (k: nat)
    ensures k < HASH_SIZE
  {
    Upd(Upd(Upd(0, a), b), c)
  }

  lemma UpdLow(h: nat, g: nat, c: Byte)
    requires h % 256 == g % 256
    ensures Upd(h, c) == Upd(g, c)
  {
    hide Xor3;
    var x := 32 * Xor3(h % 8, c / 32) + c % 32;
    Nest(h);
    Nest(g);
    Fold(h, x);
    Fold(g, x);
  }

  lemma Fold(h: nat, x: nat)
    requires x < 256
    ensures (256 * (h / 8) + x) % HASH_SIZE == 256 * (h % 256 / 8) + x
  {
    var q, r := h / 256, h % 256;
    assert h / 8 == 32 * q + r / 8;
    Remainder(256 * (h / 8) + x, HASH_SIZE, q, 256 * (r / 8) + x);
  }

  /** The low bits after an update do not depend on anything but the last bytes. */
  lemma UpdMixed(h: nat, g: nat, c: Byte)
    ensures Upd(h, c) % 8 == Upd(g, c) % 8
    ensures h % 8 == g % 8 ==> Upd(h, c) % 256 == Upd(g, c) % 256
  {
    hide Xor3;
    LowBits(h, c);
    LowBits(g, c);
  }

  lemma LowBits(h: nat, c: Byte)
    ensures Upd(h, c) % 8 == c % 8
    ensures Upd(h, c) % 256 == 32 * Xor3(h % 8, c / 32) + c % 32
  {
    hide Xor3;
    var y, z := Xor3(h % 8, c / 32), c % 32;
    Fold(h, 32 * y + z);
    var u := h % 256 / 8;
    By8(z, z / 8, z % 8);
    By8(256 * u + (32 * y + z), 32 * u + 4 * y + z / 8, z % 8);
    By8(c as nat, (c as nat) / 8, (c as nat) % 8);
    By8(c as nat, 4 * ((c as nat) / 32) + z / 8, z % 8);
    Low256(u, 32 * y + z);
  }

  lemma Low256(u: nat, x: nat)
    requires x < 256
    ensures (256 * u + x) % 256 == x
  {
  }

  lemma By8(x: nat, q: nat, r: nat)
    requires r < 8 && x == 8 * q + r
    ensures x / 8 == q && x % 8 == r
  {
  }

  lemma Nest(h: nat)
    ensures h % 256 % 8 == h % 8
  {
    var q, r := h / 256, h % 256;
    By8(h, 32 * q + r / 8, r % 8);
  }

  /** After two bytes the running value is good for the next key. */
  predicate Primed(h: nat, a: Byte, b: Byte) {
    h % 256 == Upd(Upd(0, a), b) % 256
  }

  lemma {:induction false} PrimedKey(h: nat, a: Byte, b: Byte, c: Byte)
    requires Primed(h, a, b)
    ensures Upd(h, c) == Key(a, b, c) && Primed(Upd(h, c), b, c)
  {
    hide Upd;
    UpdLow(h, Upd(Upd(0, a), b), c);
    UpdMixed(Upd(0, a), 0, b);
    UpdMixed(Upd(Upd(0, a), b), Upd(0, b), c);
  }

  lemma PrimedStart(h: nat, a: Byte, b: Byte)
    ensures Primed(Upd(Upd(h, a), b), a, b)
  {
    hide Upd;
    UpdMixed(h, 0, a);
    UpdMixed(Upd(h, a), Upd(0, a), b);
  }

  lemma SameLow(h: nat, x: nat, y: nat)
    requires x < 256 && y < 256 && (256 * (h / 8) + x) % HASH_SIZE == (256 * (h / 8) + y) % HASH_SIZE
    ensures x == y
  {
    Fold(h, x);
    Fold(h, y);
  }

  lemma {:induction false} UpdInjective(h: nat, c: Byte, d: Byte)
    requires Upd(h, c) == Upd(h, d)
    ensures c == d
  {
    hide Xor3;
    SameLow(h, 32 * Xor3(h % 8, c / 32) + c % 32, 32 * Xor3(h % 8, d / 32) + d % 32);
    ShiftXorInjective(h, c, d);
  }

  /** The search does not compare the third byte: with two bytes equal, equal keys make it equal. */
  lemma {:induction false} KeyInjective(a: Byte, b: Byte, c: Byte, d: Byte)
    requires Key(a, b, c) == Key(a, b, d)
    ensures c == d
  {
    hide Upd;
    UpdInjective(Upd(Upd(0, a), b), c, d);
  }

  // ---------- the chains ----------

  function KeyAt(w: seq<Byte>, p: nat): (k: nat)
    requires p + 2 < |w|
    ensures k < HASH_SIZE
  {
    Key(w[p], w[p + 1], w[p + 2])
  }

  /** The last position before p with that key; 0 if there is none but position 0. */
  ghost function LastAt(w: seq<Byte>, key: nat, p: nat): (q: nat)
    requires p + 1 < |w|
    ensures q == 0 || (q < p && KeyAt(w, q) == key)
    ensures forall r: nat {:trigger KeyAt(w, r)} :: q < r < p ==> KeyAt(w, r) != key
  {
    if p <= 1 then 0 else if KeyAt(w, p - 1) == key then p - 1 else LastAt(w, key, p - 1)
  }

  /** Every head is the last position with that key that has been entered. */
  ghost predicate Heads(head: seq<nat>, w: seq<Byte>, ins: nat) {
    && |head| == HASH_SIZE && ins + 1 < |w|
    && forall h {:trigger head[h]} :: 0 <= h < HASH_SIZE ==> head[h] == LastAt(w, h, ins)
  }

  /** For the last WSIZE positions, the link is the last earlier position with the same key. */
  ghost predicate Links(prev: seq<nat>, w: seq<Byte>, ins: nat) {
    && |prev| == WSIZE && ins + 1 < |w|
    && forall p: nat {:trigger prev[p % WSIZE]} :: p < ins <= p + WSIZE ==> prev[p % WSIZE] == LastAt(w, KeyAt(w, p), p)
  }

  /** The first position that is looked up: no string with that key lies between it and p. */
  lemma HeadIs(head: seq<nat>, w: seq<Byte>, ins: nat, h: nat)
    requires Heads(head, w, ins) && h < HASH_SIZE
    ensures |head| == HASH_SIZE && ins + 1 < |w| && head[h] == LastAt(w, h, ins)
  {
  }

  lemma {:induction false} LastSame(w: seq<Byte>, w': seq<Byte>, key: nat, p: nat)
    requires p + 1 < |w| == |w'| && (p == 0 || forall i :: 0 <= i < p + 2 ==> w'[i] == w[i])
    ensures LastAt(w', key, p) == LastAt(w, key, p)
    decreases p
  {
    hide Key;
    if p > 1 { LastSame(w, w', key, p - 1); }
  }

  lemma {:induction false} LastSlid(w: seq<Byte>, key: nat, p: nat)
    requires |w| == WINDOW + SLACK && WSIZE <= p && p + 2 <= WINDOW
    ensures LastAt(SlidWindow(w), key, p - WSIZE) == Back(LastAt(w, key, p))
    decreases p
  {
    hide Key;
    if p > WSIZE + 1 {
      LastSlid(w, key, p - 1);
      assert KeyAt(SlidWindow(w), p - 1 - WSIZE) == KeyAt(w, p - 1);
    }
  }

  lemma {:induction false} EnterChains(head: seq<nat>, prev: seq<nat>, w: seq<Byte>, s: nat)
    requires Heads(head, w, s) && Links(prev, w, s) && s + 2 < |w|
    ensures Heads(head[KeyAt(w, s) := s], w, s + 1)
    ensures Links(prev[s % WSIZE := head[KeyAt(w, s)]], w, s + 1)
  {
    hide KeyAt;
    var head', prev' := head[KeyAt(w, s) := s], prev[s % WSIZE := head[KeyAt(w, s)]];
    forall h | 0 <= h < HASH_SIZE ensures head'[h] == LastAt(w, h, s + 1) { assert head[h] == LastAt(w, h, s); }
    forall p: nat | p < s + 1 <= p + WSIZE ensures prev'[p % WSIZE] == LastAt(w, KeyAt(w, p), p) {
      if p < s {
        if p % WSIZE == s % WSIZE { SameSlot(p, s); }
        assert prev'[p % WSIZE] == prev[p % WSIZE];
      }
    }
  }

  lemma SameSlot(p: nat, s: nat)
    requires p <= s < p + WSIZE && p % WSIZE == s % WSIZE
    ensures p == s
  {
  }

  /** Bytes that change only where no key reaches leave the chains alone. */
  lemma {:induction false} ChainsKept(head: seq<nat>, prev: seq<nat>, w: seq<Byte>, w': seq<Byte>, ins: nat, top: nat)
    requires Heads(head, w, ins) && Links(prev, w, ins) && |w'| == |w|
    requires (ins == 0 || ins + 2 <= top) && top <= |w| && forall i :: 0 <= i < top ==> w'[i] == w[i]
    ensures Heads(head, w', ins) && Links(prev, w', ins)
  {
    hide Key, LastAt;
    forall h | 0 <= h < HASH_SIZE ensures head[h] == LastAt(w', h, ins) { LastSame(w, w', h, ins); }
    forall p: nat | p < ins <= p + WSIZE ensures prev[p % WSIZE] == LastAt(w', KeyAt(w', p), p) {
      assert KeyAt(w, p) == KeyAt(w', p);
      LastSame(w, w', KeyAt(w, p), p);
    }
  }

  function Back(m: nat): nat {
    if m >= WSIZE then m - WSIZE else 0
  }

  function Slid(t: seq<nat>): (r: seq<nat>)
    ensures |r| == |t| && forall i :: 0 <= i < |t| ==> r[i] == Back(t[i])
  {
    seq(|t|, i requires 0 <= i < |t| => Back(t[i]))
  }

  function SlidWindow(w: seq<Byte>): (r: seq<Byte>)
    requires |w| == WINDOW + SLACK
    ensures |r| == |w|
  {
    w[WSIZE..WINDOW] + w[WSIZE..]
  }

  /** The upper half moves down, and all positions with it. */
  lemma {:induction false} ChainsSlide(head: seq<nat>, prev: seq<nat>, w: seq<Byte>, ins: nat)
    requires |w| == WINDOW + SLACK && Heads(head, w, ins) && Links(prev, w, ins) && WSIZE <= ins && ins + 2 <= WINDOW
    ensures Heads(Slid(head), SlidWindow(w), ins - WSIZE) && Links(Slid(prev), SlidWindow(w), ins - WSIZE)
  {
    hide Key, LastAt, Back;
    var w', head', prev' := SlidWindow(w), Slid(head), Slid(prev);
    forall h | 0 <= h < HASH_SIZE ensures head'[h] == LastAt(w', h, ins - WSIZE) {
      assert head[h] == LastAt(w, h, ins);
      LastSlid(w, h, ins);
    }
    forall p: nat | p < ins - WSIZE <= p + WSIZE ensures prev'[p % WSIZE] == LastAt(w', KeyAt(w', p), p) {
      var q := p + WSIZE;
      assert q % WSIZE == p % WSIZE;
      assert prev[q % WSIZE] == LastAt(w, KeyAt(w, q), q);
      assert KeyAt(w', p) == KeyAt(w, q);
      LastSlid(w, KeyAt(w, q), q);
    }
  }

  // ---------- the input ----------

  /** What is still to be read, given the reads that the system will serve: up to the first empty one,
      which stands for the end of the file or an error. */
  function Unread(file: seq<seq<Byte>>): (r: seq<Byte>) {
    if file == [] || file[0] == [] then [] else file[0] + Unread(file[1..])
  }

  /** What one call of read() returns, and what is left. */
  function Chunk(file: seq<seq<Byte>>, size: nat): (data: seq<Byte>)
    ensures |data| <= size
  {
    if file == [] then [] else if |file[0]| <= size then file[0] else file[0][..size]
  }

  function AfterChunk(file: seq<seq<Byte>>, size: nat): seq<seq<Byte>> {
    if file == [] || file[0] == [] then file else if |file[0]| <= size then file[1..] else [file[0][size..]] + file[1..]
  }

  lemma NoChunk(file: seq<seq<Byte>>, size: nat)
    requires size >= 1 && Chunk(file, size) == []
    ensures AfterChunk(file, size) == file
  {
  }

  // ---------- the state as a value ----------

  datatype View = View(w: seq<Byte>, head: seq<nat>, base: nat, s: nat, look: nat, eof: bool, file: seq<seq<Byte>>, far: nat)

  function Put(w: seq<Byte>, top: nat, data: seq<Byte>): (r: seq<Byte>)
    requires top + |data| <= |w|
    ensures |r| == |w|
  {
    w[..top] + data + w[top + |data|..]
  }

  /** What fill_window does: the upper half moves down if it has to, and then one read follows. */
  ghost predicate Filled(v: View, v': View) {
    && |v.w| == WINDOW + SLACK && v.s + v.look <= WINDOW && v'.far == v.far
    && if v.s >= WSIZE + MAX_DIST then
         Appended(v.(w := SlidWindow(v.w), head := Slid(v.head), base := v.base + WSIZE, s := v.s - WSIZE), v')
       else
         Appended(v, v')
  }

  ghost predicate Appended(v: View, v': View)
    requires |v.w| == WINDOW + SLACK && v.s + v.look <= WINDOW
  {
    var data := Chunk(v.file, WINDOW - v.s - v.look);
    if data == [] then v' == v.(eof := true)
    else v' == v.(w := Put(v.w, v.s + v.look, data), look := v.look + |data|, file := AfterChunk(v.file, WINDOW - v.s - v.look))
  }

  /** What a search does.  The string is entered.  If the head of its chain is in reach, and the match before is not long
      enough, a match of `found` bytes is found, cut from `best`; nothing at that head is longer, and the window is read
      as far as the byte after the best match. */
  ghost predicate Searched(v: View, v1: View, len: nat, best: nat, found: nat) {
    && v.s + 2 < |v.w| && |v.head| == HASH_SIZE
    && var key := KeyAt(v.w, v.s);
       var h := v.head[key];
       && v1 == v.(head := v.head[key := v.s], far := v1.far)
       && if h != 0 && len < MAX_LAZY && v.s - h <= MAX_DIST then
            && 1 <= found <= best <= MAX_MATCH && NoLonger(v.w, h, v.s, best) && v1.far == Max(v.far, v.s + 1 + Max(best, 2))
            && (Min(best, v.look) != MIN_MATCH ==> found == Min(best, v.look))
            && (found > len ==> exists p: nat :: p < v.s && SameBytes(v.w, p, v.s, found))
          else found == MIN_MATCH - 1 && v1.far == Max(v.far, v.s + 3)
  }

  /** After the search the match before is skipped if it is not shorter, or else the next position follows. */
  ghost predicate Moved(v1: View, v': View, len: nat, len': nat, found: nat) {
    if len >= MIN_MATCH && found <= len then
      && v' == v1.(head := v'.head, s := v1.s + len - 1, look := v'.look, far := v'.far) && v'.look == v1.look - (len - 1)
      && v1.far <= v'.far && len' == MIN_MATCH - 1
      && |v'.head| == HASH_SIZE && v'.s + 1 < |v1.w| && v'.head[KeyAt(v1.w, v'.s - 1)] == v'.s - 1
    else
      v' == v1.(s := v1.s + 1, look := v'.look) && v'.look == v1.look - 1 && len' == found
  }

  /** What a round of deflate does to the window. */
  ghost predicate Round(v: View, v1: View, v': View, len: nat, len': nat, best: nat, found: nat) {
    Searched(v, v1, len, best, found) && Moved(v1, v', len, len', found)
  }

  class Window {
    var window: seq<Byte>
    var head: seq<nat>
    var prev: seq<nat>
    var insH: nat
    var prevLength: nat
    var strstart: nat
    var matchStart: int
    var lookahead: nat
    var blockStart: int
    var eofile: bool
    var file: seq<seq<Byte>>
    ghost var all: seq<Byte>   // all bytes read so far
    ghost var base: nat        // how many of them have left the window
    ghost var ins: nat         // how many window positions are in the chains
    ghost var far: nat         // the hash and the search have read the window below this position

    ghost predicate Valid()
      reads this`window, this`strstart, this`lookahead, this`base, this`all, this`head, this`prev, this`ins, this`eofile
    {
      && |window| == WINDOW + SLACK && strstart + lookahead <= WINDOW && (base == 0 || strstart >= 1)
      && |all| == base + strstart + lookahead
      && (forall i {:trigger window[i]} :: 0 <= i < strstart + lookahead ==> window[i] == all[base + i])
      && Heads(head, window, ins) && Links(prev, window, ins)
      && (eofile || ins == 0 || ins + 2 <= strstart + lookahead) && ins <= strstart + 1
      && base % WSIZE == 0 && (eofile ==> strstart + lookahead + 2 <= WINDOW)
    }

    /** The hash and the search have stayed inside the window, unless the input ends less than MAX_MATCH bytes
        before the end of the window. */
    ghost predicate Inside()
      reads this`far, this`eofile, this`all, this`base
    {
      far <= WINDOW || (eofile && |all| - base + MAX_MATCH > WINDOW)
    }

    ghost function Now(): View
      reads this`window, this`head, this`base, this`strstart, this`lookahead, this`eofile, this`file, this`far
    {
      View(window, head, base, strstart, lookahead, eofile, file, far)
    }

    /** A byte of the window. */
    method Read(i: nat) returns (c: Byte)
      requires i < |window|
      modifies this`far
      ensures c == window[i] && far == Max(old(far), i + 1)
    {
      far := Max(far, i + 1);
      c := window[i];
    }

    /** The running hash value is good for the next position to be entered. */
    ghost predicate Ready()
      reads this`window, this`strstart, this`lookahead, this`base, this`all, this`head, this`prev, this`ins, this`eofile, this`insH
    {
      Valid() && Primed(insH, window[ins], window[ins + 1])
    }

    /** A window and its chains with whatever the memory held before. */
    constructor (memory: seq<Byte>, links: seq<nat>, reads0: seq<seq<Byte>>)
      requires |memory| == WINDOW + SLACK && |links| == WSIZE
      ensures window == memory && prev == links && file == reads0
    {
      window, prev, file := memory, links, reads0;
      head, insH, prevLength, strstart, matchStart, lookahead, blockStart, eofile := [], 0, 0, 0, 0, 0, 0, false;
      all, base, ins, far := [], 0, 0, 0;
    }

    /** The whole input: what has been read and what will be. */
    ghost function Input(): seq<Byte>
      reads this`all, this`eofile, this`file
    {
      all + (if eofile then [] else Unread(file))
    }

    /** file_read: between one byte and `size` bytes, or nothing at the end. */
    method FileRead(size: nat) returns (data: seq<Byte>)
      requires size >= 1
      modifies this`file
      ensures |data| <= size && (data == [] ==> old(Unread(file)) == [])
      ensures data != [] ==> data + Unread(file) == old(Unread(file))
      ensures data == Chunk(old(file), size) && file == AfterChunk(old(file), size)
    {
      if file == [] || file[0] == [] { return []; }
      if |file[0]| <= size {
        data := file[0];
        file := file[1..];
      } else {
        data := file[0][..size];
        var rest := file[0][size..];
        assert file[0] == data + rest;
        file := [rest] + file[1..];
        assert file[1..] == old(file)[1..];
        assert data + (rest + Unread(file[1..])) == (data + rest) + Unread(file[1..]);
      }
    }

    /** The sliding part of fill_window.  match_start and block_start go down with the rest and may become
        negative. */
    method Slide()
      requires Valid() && !eofile && strstart >= WSIZE + MAX_DIST && ins == strstart
      modifies this`window, this`head, this`prev, this`strstart, this`matchStart, this`blockStart, this`base, this`ins
      ensures Valid() && base == old(base) + WSIZE && strstart == old(strstart) - WSIZE && ins == strstart
      ensures matchStart == old(matchStart) - WSIZE && blockStart == old(blockStart) - WSIZE
      ensures window == SlidWindow(old(window)) && head == Slid(old(head))
      ensures old(ins + 2 <= strstart + lookahead && Ready()) ==> Ready()
    {
      hide Heads, Links, Slid, SlidWindow, Primed;
      ChainsSlide(head, prev, window, ins);
      SlidData(window, all, base, strstart + lookahead);
      window := SlidWindow(window);
      matchStart := matchStart - WSIZE;
      strstart := strstart - WSIZE;
      blockStart := blockStart - WSIZE;
      head := Slid(head);
      prev := Slid(prev);
      base := base + WSIZE;
      ins := ins - WSIZE;
    }

    /** New bytes go behind those in the window. */
    method Take(data: seq<Byte>)
      requires Valid() && !eofile && strstart + lookahead + |data| <= WINDOW
      modifies this`window, this`lookahead, this`all
      ensures Valid() && all == old(all) + data && lookahead == old(lookahead) + |data|
      ensures window == Put(old(window), strstart + old(lookahead), data)
      ensures old(ins + 2 <= strstart + lookahead && Ready()) ==> Ready()
    {
      hide Heads, Links, Primed;
      ghost var top := strstart + lookahead;
      ghost var w := window;
      window := Put(window, strstart + lookahead, data);
      ChainsKept(head, prev, w, window, ins, top);
      all := all + data;
      lookahead := lookahead + |data|;
    }

    /** The reading part of fill_window. */
    method ReadMore(more: nat)
      requires Valid() && !eofile && more >= 2 && strstart + lookahead + more <= WINDOW
      modifies this`window, this`lookahead, this`eofile, this`file, this`all
      ensures Valid() && Input() == old(Input()) && old(all) <= all && lookahead >= old(lookahead)
      ensures eofile || lookahead > old(lookahead)
      ensures old(ins + 2 <= strstart + lookahead && Ready()) ==> Ready()
      ensures more == WINDOW - strstart - old(lookahead) ==> Appended(old(Now()), Now())
    {
      hide Heads, Links, Primed, Unread, Chunk, AfterChunk, Put;
      var data := FileRead(more);
      if data == [] {
        NoChunk(old(file), more);
        eofile := true;
      } else {
        Take(data);
        assert all + Unread(file) == old(all) + (data + Unread(file));
      }
    }

    /** fill_window: at least two bytes are asked for every time. */
    method FillWindow()
      requires Valid() && !eofile && lookahead < MIN_LOOKAHEAD && (ins == strstart || (ins == 0 && strstart == 0))
      modifies this`window, this`head, this`prev, this`strstart, this`matchStart, this`blockStart, this`base, this`ins,
               this`lookahead, this`eofile, this`file, this`all
      ensures Valid() && Input() == old(Input()) && old(all) <= all && lookahead >= old(lookahead)
      ensures base + strstart == old(base + strstart) && base >= old(base)
      ensures base + ins == old(base + ins) && base + matchStart == old(base + matchStart) && base + blockStart == old(base + blockStart)
      ensures eofile || lookahead > old(lookahead)
      ensures old(ins + 2 <= strstart + lookahead && Ready()) ==> Ready()
      ensures Filled(old(Now()), Now())
    {
      hide Heads, Links, Primed, Unread, Appended, SlidWindow, Slid;
      var more := WINDOW - lookahead - strstart;
      if strstart >= WSIZE + MAX_DIST {
        Slide();
        more := more + WSIZE;
      }
      assert more >= 2;
      ReadMore(more);
    }

    /** INSERT_STRING for the next position. */
    method Enter(s: nat) returns (hashHead: nat)
      requires |window| == WINDOW + SLACK && s == ins && ins + 2 < |window|
      requires Heads(head, window, ins) && Links(prev, window, ins) && Primed(insH, window[ins], window[ins + 1])
      modifies this`insH, this`head, this`prev, this`ins, this`far
      ensures ins == old(ins) + 1 && far == Max(old(far), s + 3)
      ensures |old(head)| == HASH_SIZE && hashHead == old(head)[KeyAt(window, s)] && head == old(head)[KeyAt(window, s) := s]
      ensures Heads(head, window, ins) && Links(prev, window, ins) && Primed(insH, window[ins], window[ins + 1])
      ensures hashHead == LastAt(window, KeyAt(window, s), s)
    {
      hide Key, Upd, Primed, Heads, Links, LastAt;
      HeadIs(head, window, ins, KeyAt(window, s));
      LinksSize(prev, window, ins);
      PrimedKey(insH, window[ins], window[ins + 1], window[ins + 2]);
      EnterChains(head, prev, window, ins);
      var c := Read(s + 2);
      insH := Upd(insH, c);
      hashHead := head[insH];
      prev := prev[s % WSIZE := hashHead];
      head := head[insH := s];
      ins := ins + 1;
    }

    /** The comparison of longest_match: the two bytes around the length to beat, the first two, and then from
        the fourth on until they differ, or up to 258 bytes after the current one.  Zero means that the candidate is
        skipped, because it is not longer. */
    method Compare(cur: nat, best: nat) returns (len: nat)
      requires |window| == WINDOW + SLACK && cur < strstart && strstart + MAX_MATCH < |window| && 1 <= best < MAX_MATCH
      requires KeyAt(window, cur) == KeyAt(window, strstart)
      modifies this`far
      ensures far == Max(old(far), strstart + 1 + Max(best, len))
      ensures len == 0 || (3 <= len <= MAX_MATCH && SameBytes(window, cur, strstart, len))
      ensures NoLonger(window, cur, strstart, if len > best then len else best)
    {
      hide KeyAt, SameBytes;
      var same := Promising(cur, best);
      if !same { return 0; }
      len := Extend(cur);
    }

    /** The filter before the scan. */
    method Promising(cur: nat, best: nat) returns (same: bool)
      requires |window| == WINDOW + SLACK && cur < strstart && strstart + MAX_MATCH < |window| && 1 <= best < MAX_MATCH
      modifies this`far
      ensures far == Max(old(far), strstart + best + 1)
      ensures same ==> window[cur] == window[strstart] && window[cur + 1] == window[strstart + 1]
      ensures !same ==> NoLonger(window, cur, strstart, best)
    {
      same := Equal(cur, best);
      if same { same := Equal(cur, best - 1); }
      if same { same := Equal(cur, 0); }
      if same { same := Equal(cur, 1); }
    }

    /** The scan, from the fourth byte on. */
    method Extend(cur: nat) returns (len: nat)
      requires |window| == WINDOW + SLACK && cur < strstart && strstart + MAX_MATCH < |window|
      requires KeyAt(window, cur) == KeyAt(window, strstart) && window[cur] == window[strstart] && window[cur + 1] == window[strstart + 1]
      modifies this`far
      ensures 3 <= len <= MAX_MATCH && SameBytes(window, cur, strstart, len) && NoLonger(window, cur, strstart, len)
      ensures far == Max(old(far), strstart + len + 1)
    {
      hide Key;
      KeyInjective(window[cur], window[cur + 1], window[cur + 2], window[strstart + 2]);
      len := 3;
      var same := Equal(cur, len);
      while same && len < MAX_MATCH
        invariant 3 <= len <= MAX_MATCH && SameBytes(window, cur, strstart, len)
        invariant same <==> window[cur + len] == window[strstart + len]
        invariant far == Max(old(far), strstart + len + 1)
        decreases MAX_MATCH - len
      {
        len := len + 1;
        same := Equal(cur, len);
      }
    }

    /** Are the bytes k after cur and k after strstart equal? */
    method Equal(cur: nat, k: nat) returns (same: bool)
      requires cur < strstart && strstart + k < |window|
      modifies this`far
      ensures same <==> window[cur + k] == window[strstart + k]
      ensures far == Max(old(far), strstart + k + 1)
    {
      var a := Read(cur + k);
      var b := Read(strstart + k);
      same := a == b;
    }

    /** longest_match: only a match longer than prev_length is reported, and then match_start is its position.
        Of the first `tried` positions on the chain none has a longer match.  The search only stops at the greatest
        length, or after as many positions as it may try, or when no position in reach has a longer match.  It reads
        exactly as far as the byte after the best match. */
    method LongestMatch(curMatch: nat) returns (best: nat, ghost tried: nat)
      requires |window| == WINDOW + SLACK && strstart < WINDOW && ins == strstart + 1 && Links(prev, window, ins)
      requires 0 < curMatch < strstart <= curMatch + MAX_DIST && curMatch == LastAt(window, KeyAt(window, strstart), strstart)
      requires 1 <= prevLength < MAX_MATCH
      modifies this`matchStart, this`far
      ensures best >= prevLength && far == Max(old(far), strstart + 1 + best)
      ensures best == prevLength ==> matchStart == old(matchStart)
      ensures best > prevLength ==> 3 <= best <= 258 && 0 < matchStart < strstart <= matchStart + 32506
                                    && SameBytes(window, matchStart, strstart, best)
      ensures NoLonger(window, curMatch, strstart, best)
      ensures 1 <= tried <= 4096 && forall k: nat :: k < tried ==> NoLonger(window, OnChain(prev, curMatch, k), strstart, best)
      ensures best >= 258 || tried == (if prevLength >= 32 then 1024 else 4096)
              || NoneLonger(window, strstart, best)
    {
      hide KeyAt, SameBytes, NoLonger, Links, LastAt, Beaten, Tried, OnChain, NoneLonger;
      var chain := if prevLength >= GOOD_MATCH then MAX_CHAIN / 4 else MAX_CHAIN;
      ghost var most := chain;
      var limit := if strstart > MAX_DIST then strstart - MAX_DIST else 0;
      var cur := curMatch;
      best, tried := prevLength, 0;
      LinksSize(prev, window, ins);
      SearchStart(window, prev, strstart, cur, best);
      while true
        invariant 0 < cur < strstart <= cur + MAX_DIST && KeyAt(window, cur) == KeyAt(window, strstart)
        invariant prevLength <= best < MAX_MATCH && far == (if tried == 0 then old(far) else Max(old(far), strstart + 1 + best))
        invariant best == prevLength ==> matchStart == old(matchStart)
        invariant best > prevLength ==> 3 <= best && 0 < matchStart < strstart <= matchStart + MAX_DIST
                                        && SameBytes(window, matchStart, strstart, best)
        invariant tried + chain == most && chain >= 1
        invariant cur == OnChain(prev, curMatch, tried)
        invariant Tried(window, prev, curMatch, tried, strstart, best) && Beaten(window, cur, strstart, best)
        decreases cur
      {
        var len := Compare(cur, best);
        OneTried(window, prev, curMatch, tried, strstart, best, if len > best then len else best);
        LinkIs(prev, window, ins, cur);
        var next := prev[cur % WSIZE];
        BeatenStep(window, cur, next, strstart, best, if len > best then len else best);
        tried := tried + 1;
        if len > best {
          matchStart := cur;
          best := len;
          if len >= NICE_MATCH { break; }
        }
        chain := chain - 1;
        if next <= limit || chain == 0 {
          if chain != 0 { BeatenAll(window, next, strstart, best); }
          break;
        }
        cur := next;
      }
      TriedMeans(window, prev, curMatch, tried, strstart, best);
    }
  }

  /** No position in reach agrees with position q for more than `best` bytes, nor for more than two. */
  ghost predicate NoneLonger(w: seq<Byte>, q: nat, best: nat) {
    forall p: nat :: 0 < p < q < p + MAX_DIST ==> NoLonger(w, p, q, Max(best, 2))
  }

  /** In numbers: for every position less than 32506 back, one of the first three bytes differs, or one of the first
      best + 1. */
  lemma {:induction false} NoneLongerMeans(w: seq<Byte>, p: nat, q: nat, best: nat)
    requires NoneLonger(w, q, best) && 0 < p < q < p + 32506 && best < 258 && q + Max(best, 2) < |w|
    ensures exists k {:trigger w[k]} :: q <= k <= q + (if best < 2 then 2 else best) && w[k] != w[k - (q - p)]
  {
    assert NoLonger(w, p, q, Max(best, 2));
    assert !SameBytes(w, p, q, Max(best, 2) + 1);
  }

  lemma LinksSize(prev: seq<nat>, w: seq<Byte>, ins: nat)
    requires Links(prev, w, ins)
    ensures |prev| == WSIZE && ins + 1 < |w|
  {
  }

  lemma LinkIs(prev: seq<nat>, w: seq<Byte>, ins: nat, p: nat)
    requires Links(prev, w, ins) && p < ins <= p + WSIZE
    ensures |prev| == WSIZE && p + 2 < |w|
    ensures var q := prev[p % WSIZE]; q == LastAt(w, KeyAt(w, p), p) && (q == 0 || (q < p && KeyAt(w, q) == KeyAt(w, p)))
  {
    hide Key;
  }

  /** The first `tried` positions on the chain have no longer match. */
  ghost predicate Tried(w: seq<Byte>, prev: seq<nat>, p: nat, tried: nat, q: nat, best: nat)
    requires |prev| == WSIZE
  {
    (forall k: nat :: k < tried ==> NoLonger(w, OnChain(prev, p, k), q, best)) && (tried > 0 ==> NoLonger(w, p, q, best))
  }

  lemma TriedMeans(w: seq<Byte>, prev: seq<nat>, p: nat, tried: nat, q: nat, best: nat)
    requires |prev| == WSIZE && Tried(w, prev, p, tried, q, best) && tried > 0
    ensures NoLonger(w, p, q, best) && forall k: nat :: k < tried ==> NoLonger(w, OnChain(prev, p, k), q, best)
  {
    hide NoLonger;
  }

  /** None of the positions after `from` has a longer match. */
  ghost predicate Beaten(w: seq<Byte>, from: nat, q: nat, best: nat) {
    forall p: nat :: from < p < q ==> NoLonger(w, p, q, Max(best, 2))
  }

  /** Positions with different keys do not agree in three bytes. */
  lemma OtherKey(w: seq<Byte>, p: nat, q: nat, best: nat)
    requires p <= q && q + 2 < |w| && KeyAt(w, p) != KeyAt(w, q) && best >= 2
    ensures NoLonger(w, p, q, best)
  {
    hide Key;
    assert w[q] != w[p] || w[q + 1] != w[p + 1] || w[q + 2] != w[p + 2];
  }

  lemma SearchStart(w: seq<Byte>, prev: seq<nat>, q: nat, p: nat, best: nat)
    requires |prev| == WSIZE && q + 2 < |w| && p == LastAt(w, KeyAt(w, q), q)
    ensures Beaten(w, p, q, best) && Tried(w, prev, p, 0, q, best)
    ensures (p != 0 ==> KeyAt(w, p) == KeyAt(w, q)) && OnChain(prev, p, 0) == p
  {
    hide KeyAt, NoLonger;
    forall r: nat | p < r < q ensures NoLonger(w, r, q, Max(best, 2)) { OtherKey(w, r, q, Max(best, 2)); }
  }

  lemma {:induction false} BeatenStep(w: seq<Byte>, p: nat, next: nat, q: nat, best: nat, best': nat)
    requires p < q && q + 2 < |w| && KeyAt(w, p) == KeyAt(w, q) && next == LastAt(w, KeyAt(w, p), p)
    requires Beaten(w, p, q, best) && best <= best' && NoLonger(w, p, q, best')
    ensures Beaten(w, next, q, best')
  {
    hide KeyAt, NoLonger;
    forall r: nat | next < r < q ensures NoLonger(w, r, q, Max(best', 2)) {
      if r < p {
        OtherKey(w, r, q, Max(best', 2));
      } else if r == p {
        LessLonger(w, r, q, best', Max(best', 2));
      } else {
        LessLonger(w, r, q, Max(best, 2), Max(best', 2));
      }
    }
  }

  lemma BeatenAll(w: seq<Byte>, next: nat, q: nat, best: nat)
    requires Beaten(w, next, q, best) && next <= (if q > MAX_DIST then q - MAX_DIST else 0)
    ensures NoneLonger(w, q, best)
  {
    hide NoLonger;
  }

  /** The k-th position on the chain that starts at p. */
  function OnChain(prev: seq<nat>, p: nat, k: nat): nat
    requires |prev| == WSIZE
  {
    if k == 0 then p else prev[OnChain(prev, p, k - 1) % WSIZE]
  }

  /** Position p does not agree with position q for more than len bytes. */
  ghost predicate NoLonger(w: seq<Byte>, p: nat, q: nat, len: nat) {
    forall more: nat :: len < more <= MAX_MATCH ==> !SameBytes(w, p, q, more)
  }

  lemma {:induction false} OneTried(w: seq<Byte>, prev: seq<nat>, p: nat, tried: nat, q: nat, best: nat, best': nat)
    requires |prev| == WSIZE && best <= best' && NoLonger(w, OnChain(prev, p, tried), q, best')
    requires Tried(w, prev, p, tried, q, best)
    ensures Tried(w, prev, p, tried + 1, q, best') && OnChain(prev, p, tried + 1) == prev[OnChain(prev, p, tried) % WSIZE]
  {
    hide NoLonger;
    forall k: nat | k < tried ensures NoLonger(w, OnChain(prev, p, k), q, best') { LessLonger(w, OnChain(prev, p, k), q, best, best'); }
    assert OnChain(prev, p, 0) == p;
  }

  lemma LessLonger(w: seq<Byte>, p: nat, q: nat, len: nat, len': nat)
    requires NoLonger(w, p, q, len) && len <= len'
    ensures NoLonger(w, p, q, len')
  {
  }

  /** Position p and position q of the window agree for len bytes. */
  ghost predicate SameBytes(w: seq<Byte>, p: nat, q: nat, len: nat) {
    p <= q && q + len <= |w| && forall k {:trigger w[k]} :: q <= k < q + len ==> w[k] == w[k - (q - p)]
  }

  lemma SlidData(w: seq<Byte>, all: seq<Byte>, base: nat, top: nat)
    requires |w| == WINDOW + SLACK && WSIZE <= top <= WINDOW && |all| == base + top
    requires forall i {:trigger w[i]} :: 0 <= i < top ==> w[i] == all[base + i]
    ensures forall i {:trigger SlidWindow(w)[i]} :: 0 <= i < top - WSIZE ==> SlidWindow(w)[i] == all[base + WSIZE + i]
  {
    forall i | 0 <= i < top - WSIZE ensures SlidWindow(w)[i] == all[base + WSIZE + i] {
      assert w[i + WSIZE] == all[base + (i + WSIZE)];
    }
  }
}
