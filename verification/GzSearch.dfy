/** The operations of gzip's deflate on the window alone: filling it, searching at one position, and moving on. */
module GzSearch {
  import opened Arithmetic
  import opened Bytes
  import opened GzWindow
  import opened GzOverrun

  const TOO_FAR := 4096

  /** The bytes from p on repeat those d back. */
  ghost predicate MatchAt(all: seq<Byte>, p: nat, d: int, len: nat) {
    1 <= d <= p && p + len <= |all| && forall k {:trigger all[k]} :: p <= k < p + len ==> all[k] == all[k - d]
  }

  // ---------- filling and initialising ----------

  /** Reading and sliding change nothing that is counted from the start of the input. */
  twostate predicate SameInput(win: Window)
    reads win
  {
    && win.Input() == old(win.Input()) && old(win.all) <= win.all
    && win.base + win.strstart == old(win.base + win.strstart) && win.base + win.matchStart == old(win.base + win.matchStart)
    && win.base + win.blockStart == old(win.base + win.blockStart)
  }

  /** Fill the window until there is enough lookahead or the input ends. */
  method Refill(win: Window, ghost len: nat, ghost n: nat)
    requires win.Valid() && win.ins == win.strstart
    modifies win
    ensures win.Valid() && win.ins == win.strstart && SameInput(win)
    ensures (win.eofile || win.lookahead >= MIN_LOOKAHEAD) && win.lookahead >= old(win.lookahead)
    ensures old(win.Ready() && (win.eofile || win.lookahead >= 2)) ==> win.Ready()
    ensures win.far == old(win.far) && (old(win.eofile || win.lookahead >= MIN_LOOKAHEAD) ==> unchanged(win))
    ensures LongTail(n) && old(LongTail(n) && Course(win.Now(), len, n)) ==> Course(win.Now(), len, n)
  {
    hide Heads, Links, Primed, Unread, Course, LongTail, Filled;
    while win.lookahead < MIN_LOOKAHEAD && !win.eofile
      invariant win.Valid() && win.ins == win.strstart && SameInput(win) && win.lookahead >= old(win.lookahead)
      invariant win.eofile || win.lookahead >= MIN_LOOKAHEAD || (win.eofile == old(win.eofile))
      invariant old(win.Ready() && (win.eofile || win.lookahead >= 2)) ==> win.Ready()
      invariant win.far == old(win.far) && (old(win.eofile || win.lookahead >= MIN_LOOKAHEAD) ==> unchanged(win))
      invariant LongTail(n) && old(LongTail(n) && Course(win.Now(), len, n)) ==> Course(win.Now(), len, n)
      decreases !win.eofile, MIN_LOOKAHEAD - win.lookahead
    {
      ghost var v := win.Now();
      win.FillWindow();
      if LongTail(n) && Course(v, len, n) { Fill(v, win.Now(), len, n); }
    }
  }

  /** lm_init */
  method LmInit(win: Window, ghost n: nat)
    requires |win.window| == WINDOW + SLACK && |win.prev| == WSIZE
    modifies win
    ensures win.Valid() && win.ins == win.strstart && win.base + win.strstart == 0 && win.base + win.blockStart == 0
    ensures win.Input() == old(Unread(win.file))
    ensures win.eofile || win.lookahead >= MIN_LOOKAHEAD
    ensures win.lookahead != 0 ==> win.Ready()
    ensures win.Inside()
    ensures LongTail(n) && old(win.file) == [Data(n)] && (forall i :: 0 <= i < |old(win.window)| ==> old(win.window)[i] == 0) ==>
      Course(win.Now(), MIN_MATCH - 1, n)
  {
    hide Heads, Links, Primed, Unread, Course, LongTail, Put, Chunk, AfterChunk, Data;
    FirstRead(win);
    ghost var all := LongTail(n) && old(win.file) == [Data(n)] && (forall i :: 0 <= i < |old(win.window)| ==> old(win.window)[i] == 0);
    if all { OnCourse(win.Now(), old(win.window), n); }
    if win.lookahead == 0 { return; }
    Refill(win, MIN_MATCH - 1, n);
    ghost var v := win.Now();
    Prime(win);
    if all { SameCourse(v, win.Now(), MIN_MATCH - 1, n); }
  }

  /** The first read puts the input into a window of zeros. */
  lemma {:induction false} OnCourse(v: View, memory: seq<Byte>, n: nat)
    requires LongTail(n) && |memory| == WINDOW + SLACK && (forall i :: 0 <= i < |memory| ==> memory[i] == 0)
    requires v.base == v.s == v.far == 0 && v.head == seq(HASH_SIZE, _ => 0) && (v.eof <==> v.look == 0)
    requires v.w == Put(memory, 0, Chunk([Data(n)], WINDOW)) && v.look == |Chunk([Data(n)], WINDOW)| && v.file == AfterChunk([Data(n)], WINDOW)
    ensures Course(v, MIN_MATCH - 1, n) && v.look > 0
  {
    hide Lead;
    var k := Min(WINDOW, n);
    var data := Data(n);
    assert data[..n] == data;
    assert Chunk([data], WINDOW) == data[..k];
    if n > WINDOW { assert data[k..] == data[WINDOW..]; }
    forall i | 0 <= i < |v.w| ensures v.w[i] == ByteAt(n, i) {
      if i < k { assert v.w[i] == data[i]; } else { assert v.w[i] == memory[i]; }
    }
    GzOverrun.Start(v, n);
  }

  lemma SameCourse(v: View, v': View, len: nat, n: nat)
    requires LongTail(n) && Course(v, len, n) && v.far <= WINDOW && v' == v.(far := v'.far)
    ensures Course(v', len, n)
  {
    hide Lead, ByteAt, Data, Base, End;
  }

  method FirstRead(win: Window)
    requires |win.window| == WINDOW + SLACK && |win.prev| == WSIZE
    modifies win
    ensures win.Valid() && win.ins == win.strstart == win.base == win.blockStart == win.far == 0
    ensures win.Input() == old(Unread(win.file)) && (win.lookahead == 0 <==> win.eofile)
    ensures win.head == seq(HASH_SIZE, _ => 0)
    ensures var data := Chunk(old(win.file), WINDOW);
      win.window == Put(old(win.window), 0, data) && win.lookahead == |data| && win.file == AfterChunk(old(win.file), WINDOW)
  {
    hide Heads, Links, Unread, Chunk, AfterChunk;
    win.head := seq(HASH_SIZE, _ => 0);
    win.strstart, win.blockStart := 0, 0;
    win.all, win.base, win.ins, win.far := [], 0, 0, 0;
    var data := win.FileRead(WINDOW);
    NoChains(win.head, win.prev, win.window, Put(win.window, 0, data));
    if data == [] {
      win.eofile, win.lookahead := true, 0;
      assert Put(win.window, 0, data) == win.window;
      return;
    }
    assert Put(win.window, 0, data) == data + win.window[|data|..];
    win.window := Put(win.window, 0, data);
    win.lookahead, win.eofile := |data|, false;
    win.all := data;
  }

  lemma NoChains(head: seq<nat>, prev: seq<nat>, w: seq<Byte>, w': seq<Byte>)
    requires |head| == HASH_SIZE && (forall h :: 0 <= h < HASH_SIZE ==> head[h] == 0) && |prev| == WSIZE && |w| == |w'| >= 2
    ensures Heads(head, w, 0) && Links(prev, w, 0) && Heads(head, w', 0) && Links(prev, w', 0)
  {
    hide KeyAt;
  }

  method Prime(win: Window)
    requires win.Valid() && win.ins == 0
    modifies win`insH, win`far
    ensures win.Ready() && win.far == Max(old(win.far), 2)
  {
    hide Heads, Links, Primed, Upd;
    win.insH := 0;
    PrimedStart(0, win.window[win.ins], win.window[win.ins + 1]);
    var c := win.Read(0);
    win.insH := Upd(win.insH, c);
    c := win.Read(1);
    win.insH := Upd(win.insH, c);
  }

  // ---------- one position ----------

  /** Enter the current position and search for a match that is longer than the one before. */
  method Search(win: Window, matchLength0: nat) returns (matchLength: nat, prevMatch: int, ghost best: nat, ghost tried: nat)
    requires win.Ready() && win.ins == win.strstart && win.lookahead >= 1 && (win.eofile || win.lookahead >= MIN_LOOKAHEAD)
    requires 1 <= matchLength0 <= MAX_MATCH
    modifies win`insH, win`head, win`prev, win`ins, win`matchStart, win`prevLength, win`far
    ensures win.Ready() && win.ins == win.strstart + 1
    ensures Searched(old(win.Now()), win.Now(), matchLength0, best, matchLength) && (old(win.Inside()) ==> win.Inside())
    ensures win.lookahead >= MIN_LOOKAHEAD ==> win.far <= Max(old(win.far), WINDOW)
    ensures win.prevLength == matchLength0 && prevMatch == old(win.matchStart) && 1 <= matchLength <= MAX_MATCH
    ensures matchLength > win.prevLength && matchLength >= MIN_MATCH ==>
      win.strstart - win.matchStart <= MAX_DIST && MatchAt(win.all, win.base + win.strstart, win.strstart - win.matchStart, matchLength)
    ensures |win.window| == WINDOW + SLACK && win.strstart < WINDOW
    ensures best == 0 ==> matchLength == 2
    ensures best > 0 ==> best >= matchLength0
    ensures best > 0 ==> var cut := if best < win.lookahead then best else win.lookahead;
                         matchLength == (if cut == 3 && win.strstart - win.matchStart > 4096 then 2 else cut)
    ensures matchLength0 < 258 && best < 258 && tried != (if matchLength0 >= 32 then 1024 else 4096) ==>
              NoneLonger(win.window, win.strstart, best)
    ensures tried <= 4096 && (matchLength0 < 258 && best == 0 ==> tried == 0)
  {
    hide Window.Valid, Primed, KeyAt, SameBytes, MatchAt, NoLonger, Capped, LastAt, Links, Heads, NoneLonger, Searched, Window.Inside, Window.Ready, Worth, Result;
    ReadyChains(win);
    var hashHead := EnterHere(win);
    win.prevLength := matchLength0;
    prevMatch := win.matchStart;
    matchLength, best, tried := Choose(win, hashHead);
    WasSearched(old(win.Now()), win.Now(), hashHead, matchLength0, best, matchLength, win.matchStart);
    InsideKept(win);
  }

  /** Whether a search is made at all. */
  predicate Worth(head: nat, s: nat, len: nat) {
    head != 0 && len < MAX_LAZY && s - head <= MAX_DIST
  }

  /** What a search that is made finds. */
  ghost predicate Result(w: seq<Byte>, head: nat, s: nat, look: nat, len: nat, best: nat, found: nat, at: int) {
    && look >= 1 && 1 <= len <= best <= MAX_MATCH && NoLonger(w, head, s, best) && found == Capped(best, look, s - at)
    && (found > len ==> 0 <= at < s && SameBytes(w, at, s, found))
  }

  /** Search from the head of the chain, if that is worth while. */
  method Choose(win: Window, hashHead: nat) returns (matchLength: nat, ghost best: nat, ghost tried: nat)
    requires win.Ready() && win.ins == win.strstart + 1 && win.lookahead >= 1 && win.strstart < WINDOW && 1 <= win.prevLength <= MAX_MATCH
    requires |win.window| == WINDOW + SLACK && win.strstart + 2 < |win.window| && hashHead == LastAt(win.window, KeyAt(win.window, win.strstart), win.strstart)
    modifies win`matchStart, win`far
    ensures win.Ready() && Found(win.prevLength, best, win.lookahead, win.strstart - win.matchStart, matchLength) && tried <= 4096
    ensures 1 <= matchLength <= MAX_MATCH && best <= MAX_MATCH && (best == 0 ==> tried == 0)
    ensures win.far <= Max(old(win.far), win.strstart + 1 + MAX_MATCH)
    ensures win.prevLength < 258 && best < 258 && tried != (if win.prevLength >= 32 then 1024 else 4096) ==>
              NoneLonger(win.window, win.strstart, best)
    ensures if Worth(hashHead, win.strstart, win.prevLength) then
              && Result(win.window, hashHead, win.strstart, win.lookahead, win.prevLength, best, matchLength, win.matchStart)
              && win.far == Max(old(win.far), win.strstart + 1 + best)
            else best == 0 && matchLength == 2 && win.far == old(win.far)
    ensures matchLength > win.prevLength && matchLength >= MIN_MATCH ==>
      win.strstart - win.matchStart <= MAX_DIST && MatchAt(win.all, win.base + win.strstart, win.strstart - win.matchStart, matchLength)
  {
    hide Primed, KeyAt, SameBytes, MatchAt, NoLonger, Capped, LastAt, Links, Found, Heads, NoneLonger, Worth;
    best, tried := 0, 0;
    NoneFound(win.prevLength, win.lookahead);
    matchLength := MIN_MATCH - 1;
    HeadBelow(win.window, hashHead, win.strstart);
    WorthMeans(hashHead, win.strstart, win.prevLength);
    if hashHead != 0 && win.prevLength < MAX_LAZY && win.strstart - hashHead <= MAX_DIST {
      matchLength, best, tried := LookBack(win, hashHead);
    } else {
      if win.prevLength < MAX_LAZY { OutOfReach(win.window, hashHead, win.strstart); }
    }
  }

  lemma WorthMeans(head: nat, s: nat, len: nat)
    ensures Worth(head, s, len) <==> head != 0 && len < MAX_LAZY && s - head <= MAX_DIST
  {
  }

  lemma HeadBelow(w: seq<Byte>, head: nat, q: nat)
    requires q + 2 < |w| && head == LastAt(w, KeyAt(w, q), q)
    ensures head != 0 ==> head < q
  {
    hide KeyAt;
  }

  lemma WasSearched(v: View, v1: View, head: nat, len: nat, best: nat, found: nat, at: int)
    requires v.s + 2 < |v.w| && |v.head| == HASH_SIZE && head == v.head[KeyAt(v.w, v.s)] && 1 <= len <= MAX_MATCH
    requires v1 == v.(head := v.head[KeyAt(v.w, v.s) := v.s], far := v1.far)
    requires if Worth(head, v.s, len) then
               Result(v.w, head, v.s, v.look, len, best, found, at) && v1.far == Max(Max(v.far, v.s + 3), v.s + 1 + best)
             else best == 0 && found == 2 && v1.far == Max(v.far, v.s + 3)
    ensures Searched(v, v1, len, best, found)
  {
    hide KeyAt, NoLonger, SameBytes, Capped;
  }

  /** A search from a position with a byte of lookahead leaves the window only near the end of the input. */
  twostate lemma InsideKept(win: Window)
    requires win.eofile == old(win.eofile) && win.all == old(win.all) && win.base == old(win.base)
    requires win.far <= Max(old(win.far), win.strstart + 1 + MAX_MATCH) && win.base + win.strstart + 1 <= |win.all|
    requires win.eofile || win.strstart + 1 + MAX_MATCH <= WINDOW
    ensures old(win.Inside()) ==> win.Inside()
  {
  }

  lemma ReadyChains(win: Window)
    requires win.Ready()
    ensures Links(win.prev, win.window, win.ins) && |win.window| == WINDOW + SLACK && win.strstart <= WINDOW
    ensures win.strstart + win.lookahead <= WINDOW && win.base + win.strstart + win.lookahead == |win.all|
    ensures |win.head| == HASH_SIZE
  {
    hide Links, Primed;
  }

  /** What becomes of the best length: it is cut to the lookahead, and then a match of three bytes that is more than
      4096 back is dropped.  Without a search (best is 0) the length is 2. */
  ghost predicate Found(len: nat, best: nat, lookahead: nat, dist: int, found: nat) {
    if best == 0 then found == 2
    else
      var cut := if best < lookahead then best else lookahead;
      best >= len && found == (if cut == 3 && dist > 4096 then 2 else cut)
  }

  lemma NoneFound(len: nat, lookahead: nat)
    ensures forall dist: int {:trigger Found(len, 0, lookahead, dist, 2)} :: Found(len, 0, lookahead, dist, 2)
  {
  }

  lemma CappedFound(len: nat, best: nat, lookahead: nat, dist: int)
    requires 1 <= len <= best && lookahead >= 1
    ensures Found(len, best, lookahead, dist, Capped(best, lookahead, dist))
  {
  }

  /** Without a first position in reach, no position in reach has the three bytes. */
  lemma OutOfReach(w: seq<Byte>, head: nat, q: nat)
    requires q + 2 < |w| && head == LastAt(w, KeyAt(w, q), q) && (head == 0 || q - head > MAX_DIST)
    ensures NoneLonger(w, q, 0)
  {
    hide KeyAt, NoLonger;
    forall p: nat | 0 < p < q < p + MAX_DIST ensures NoLonger(w, p, q, Max(0, 2)) { OtherKey(w, p, q, 2); }
  }

  method EnterHere(win: Window) returns (hashHead: nat)
    requires win.Ready() && win.ins == win.strstart && win.lookahead >= 1 && (win.eofile || win.lookahead >= MIN_LOOKAHEAD)
    modifies win`insH, win`head, win`prev, win`ins, win`far
    ensures win.Ready() && win.ins == win.strstart + 1 && win.strstart + 2 < |win.window| && win.far == Max(old(win.far), win.strstart + 3)
    ensures |old(win.head)| == HASH_SIZE && hashHead == old(win.head)[KeyAt(win.window, win.strstart)]
    ensures win.head == old(win.head)[KeyAt(win.window, win.strstart) := win.strstart]
    ensures hashHead == LastAt(win.window, KeyAt(win.window, win.strstart), win.strstart)
  {
    hide Heads, Links, Primed, KeyAt;
    hashHead := win.Enter(win.strstart);
  }

  /** longest_match, and what becomes of its result. */
  method LookBack(win: Window, hashHead: nat) returns (matchLength: nat, ghost best: nat, ghost tried: nat)
    requires win.Ready() && win.ins == win.strstart + 1 && win.lookahead >= 1 && win.strstart < WINDOW && 1 <= win.prevLength < MAX_MATCH
    requires |win.window| == WINDOW + SLACK
    requires 0 < hashHead < win.strstart <= hashHead + MAX_DIST && hashHead == LastAt(win.window, KeyAt(win.window, win.strstart), win.strstart)
    modifies win`matchStart, win`far
    ensures win.Ready() && win.prevLength <= best <= MAX_MATCH && NoLonger(win.window, hashHead, win.strstart, best)
    ensures win.far == Max(old(win.far), win.strstart + 1 + best)
    ensures matchLength == Capped(best, win.lookahead, win.strstart - win.matchStart) && 1 <= tried <= 4096
    ensures Found(win.prevLength, best, win.lookahead, win.strstart - win.matchStart, matchLength)
    ensures best >= 258 || tried == (if win.prevLength >= 32 then 1024 else 4096)
            || NoneLonger(win.window, win.strstart, best)
    ensures matchLength > win.prevLength ==>
      && 0 <= win.matchStart < win.strstart && SameBytes(win.window, win.matchStart, win.strstart, matchLength)
      && win.strstart - win.matchStart <= MAX_DIST && MatchAt(win.all, win.base + win.strstart, win.strstart - win.matchStart, matchLength)
  {
    hide Heads, Primed, KeyAt, SameBytes, MatchAt, NoLonger, Capped, OnChain, Links, LastAt, Found, NoneLonger;
    matchLength, tried := win.LongestMatch(hashHead);
    best := matchLength;
    matchLength := Capped(matchLength, win.lookahead, win.strstart - win.matchStart);
    CappedFound(win.prevLength, best, win.lookahead, win.strstart - win.matchStart);
    if best > win.prevLength { WindowMatch(win, best, matchLength); }
  }

  lemma FewerBytes(w: seq<Byte>, p: nat, q: nat, len: nat, less: nat)
    requires SameBytes(w, p, q, len) && less <= len
    ensures SameBytes(w, p, q, less)
  {
  }

  /** A match is cut to the lookahead, and a shortest match that is too far away is dropped. */
  function Capped(best: nat, lookahead: nat, dist: int): (len: nat)
    requires best >= 1 && lookahead >= 1
    ensures 1 <= len <= best && len <= lookahead && (Min(best, lookahead) != MIN_MATCH ==> len == Min(best, lookahead))
  {
    var len := if best > lookahead then lookahead else best;
    if len == MIN_MATCH && dist > TOO_FAR then len - 1 else len
  }

  /** A match in the window, as far as it lies in the input, is a match in the input. */
  lemma {:induction false} WindowMatch(win: Window, best: nat, len: nat)
    requires win.Valid() && 0 <= win.matchStart < win.strstart && SameBytes(win.window, win.matchStart, win.strstart, best)
    requires len <= best && len <= win.lookahead
    ensures MatchAt(win.all, win.base + win.strstart, win.strstart - win.matchStart, len)
    ensures SameBytes(win.window, win.matchStart, win.strstart, len)
  {
    hide Heads, Links, SameBytes, MatchAt;
    FewerBytes(win.window, win.matchStart, win.strstart, best, len);
    DataMatch(win.window, win.all, win.base, win.strstart + win.lookahead, win.matchStart, win.strstart, best, len);
  }

  lemma {:induction false} DataMatch(w: seq<Byte>, all: seq<Byte>, base: nat, top: nat, p: nat, q: nat, best: nat, len: nat)
    requires |all| == base + top && top <= |w| && (forall i {:trigger w[i]} :: 0 <= i < top ==> w[i] == all[base + i])
    requires p < q && SameBytes(w, p, q, best) && len <= best && q + len <= top
    ensures MatchAt(all, base + q, q - p, len)
  {
    forall k | base + q <= k < base + q + len ensures all[k] == all[k - (q - p)] {
      var i := k - base;
      assert w[i] == w[i - (q - p)];
      assert w[i] == all[base + i] && w[i - (q - p)] == all[base + (i - (q - p))];
    }
  }

  /** Enter the strings inside a match. */
  method InsertRest(win: Window)
    requires |win.window| == WINDOW + SLACK && win.ins == win.strstart + 1 && win.prevLength >= 1 && win.ins + win.prevLength + 1 < |win.window|
    requires Heads(win.head, win.window, win.ins) && Links(win.prev, win.window, win.ins) && Primed(win.insH, win.window[win.ins], win.window[win.ins + 1])
    modifies win`insH, win`head, win`prev, win`ins, win`strstart, win`prevLength, win`far
    ensures win.ins == win.strstart + 1 == old(win.ins + win.prevLength) && win.far == Max(old(win.far), win.ins + 2)
    ensures |win.head| == HASH_SIZE && win.head[KeyAt(win.window, win.ins - 1)] == win.ins - 1
    ensures Heads(win.head, win.window, win.ins) && Links(win.prev, win.window, win.ins) && Primed(win.insH, win.window[win.ins], win.window[win.ins + 1])
  {
    hide Heads, Links, Primed, KeyAt;
    while win.prevLength != 0
      invariant win.ins == win.strstart + 1 && win.ins + win.prevLength == old(win.ins + win.prevLength)
      invariant win.ins != old(win.ins) ==> win.far == Max(old(win.far), win.ins + 2)
      invariant win.ins != old(win.ins) ==> |win.head| == HASH_SIZE && win.head[KeyAt(win.window, win.ins - 1)] == win.ins - 1
      invariant win.ins == old(win.ins) ==> win.far == old(win.far) && win.prevLength == old(win.prevLength)
      invariant Heads(win.head, win.window, win.ins) && Links(win.prev, win.window, win.ins)
      invariant Primed(win.insH, win.window[win.ins], win.window[win.ins + 1])
      decreases win.prevLength
    {
      win.strstart := win.strstart + 1;
      var hashHead := win.Enter(win.strstart);
      win.prevLength := win.prevLength - 1;
    }
  }

  /** Move behind a match that has been tallied. */
  method SkipMatch(win: Window)
    requires win.Ready() && win.ins == win.strstart + 1 && MIN_MATCH <= win.prevLength <= MAX_MATCH && win.prevLength - 1 <= win.lookahead
    requires win.eofile || win.lookahead >= MIN_LOOKAHEAD
    modifies win`insH, win`head, win`prev, win`ins, win`strstart, win`prevLength, win`lookahead, win`far
    ensures win.Ready() && win.ins == win.strstart == old(win.strstart + win.prevLength - 1)
    ensures win.lookahead == old(win.lookahead - (win.prevLength - 1)) && win.far >= old(win.far) && (old(win.Inside()) ==> win.Inside())
    ensures |win.head| == HASH_SIZE && win.head[KeyAt(win.window, win.strstart - 1)] == win.strstart - 1
  {
    hide Heads, Links, Primed, KeyAt;
    win.lookahead := win.lookahead - (win.prevLength - 1);
    win.prevLength := win.prevLength - 2;
    InsertRest(win);
    win.strstart := win.strstart + 1;
  }

  lemma Extent(win: Window)
    requires win.Valid()
    ensures (win.base == 0 || win.strstart >= 1) && win.base + win.strstart + win.lookahead == |win.all|
    ensures win.strstart + win.lookahead <= WINDOW && (win.eofile ==> win.strstart + win.lookahead + 2 <= WINDOW)
  {
    hide Heads, Links;
  }

  method Advance(win: Window)
    requires win.Ready() && win.ins == win.strstart + 1 && win.lookahead >= 1
    modifies win`strstart, win`lookahead
    ensures win.Ready() && win.strstart == old(win.strstart) + 1 && win.lookahead == old(win.lookahead) - 1
    ensures win.base + win.strstart <= |win.all|
  {
    hide Heads, Links, Primed;
    win.strstart := win.strstart + 1;
    win.lookahead := win.lookahead - 1;
  }
}
