/** Code lengths as runs (section 3.2.7 of RFC 1951): what scan_tree and send_tree do, and why reading gives the
    lengths back. */
module DeflateRuns {
  import opened Arithmetic
  import opened BitSeq
  import opened HuffmanCodes
  import opened DeflateFormat
  import opened DeflateTokens

  /** A length, 3 to 6 copies of the last length, or 3 to 138 zeros. */
  datatype Run = Len(l: nat) | Rep(n: nat) | Zeros(n: nat)

  predicate SoundRun(r: Run) {
    match r
    case Len(l) => l < 16
    case Rep(n) => 3 <= n <= 6
    case Zeros(n) => 3 <= n <= 138
  }

  function Grow(acc: seq<nat>, r: Run): seq<nat> {
    match r
    case Len(l) => acc + [l]
    case Rep(n) => if acc == [] then [] else acc + Times(acc[|acc| - 1], n)
    case Zeros(n) => acc + Times(0, n)
  }

  function Expand(acc: seq<nat>, runs: seq<Run>): seq<nat>
    decreases |runs|
  {
    if runs == [] then acc else Expand(Grow(acc, runs[0]), runs[1..])
  }

  /** No copy comes before there is something to copy. */
  ghost predicate Expandable(acc: seq<nat>, runs: seq<Run>)
    decreases |runs|
  {
    runs != [] ==> SoundRun(runs[0]) && (runs[0].Rep? ==> acc != []) && Expandable(Grow(acc, runs[0]), runs[1..])
  }

  lemma {:induction false} ExpandAppend(acc: seq<nat>, a: seq<Run>, b: seq<Run>)
    ensures Expand(acc, a + b) == Expand(Expand(acc, a), b)
    ensures Expandable(acc, a) && Expandable(Expand(acc, a), b) ==> Expandable(acc, a + b)
    decreases |a|
  {
    hide Grow;
    if a == [] {
      assert a + b == b;
    } else {
      assert (a + b)[1..] == a[1..] + b;
      ExpandAppend(Grow(acc, a[0]), a[1..], b);
    }
  }

  // ---------- the runs of a list of lengths ----------

  const GUARD := 0xffff

  function MaxCount(cur: nat, prev: int): nat {
    if cur == 0 then 138 else if cur == prev then 6 else 7
  }

  function MinCount(cur: nat, prev: int): nat {
    if cur != 0 && cur != prev then 4 else 3
  }

  function Singles(cur: nat, c: nat): seq<Run> {
    seq(c, _ => Len(cur))
  }

  /** The runs for c copies of `cur` after a run of `prev`. */
  function Emit(cur: nat, c: nat, prev: int): seq<Run>
    requires c >= 1
  {
    if c < MinCount(cur, prev) then Singles(cur, c)
    else if cur == 0 then [Zeros(c)]
    else if cur != prev then [Len(cur), Rep(c - 1)]
    else [Rep(c)]
  }

  /** The runs from position n on, when the last `count` lengths have not been written yet and the run before
      them was of length `prev`. */
  function RunsFrom(lens: seq<nat>, n: nat, prev: int, count: nat): seq<Run>
    requires n <= |lens|
    decreases |lens| - n
  {
    if n == |lens| then []
    else if count + 1 < MaxCount(lens[n], prev) && n + 1 < |lens| && lens[n] == lens[n + 1] then RunsFrom(lens, n + 1, prev, count + 1)
    else Emit(lens[n], count + 1, prev) + RunsFrom(lens, n + 1, lens[n], 0)
  }

  function Runs(lens: seq<nat>): seq<Run> {
    RunsFrom(lens, 0, -1, 0)
  }

  lemma {:induction false} SinglesExpand(acc: seq<nat>, cur: nat, c: nat)
    requires cur < 16
    ensures Expand(acc, Singles(cur, c)) == acc + Times(cur, c) && Expandable(acc, Singles(cur, c))
    decreases c
  {
    if c == 0 {
      assert Times(cur, 0) == [];
    } else {
      assert Singles(cur, c)[1..] == Singles(cur, c - 1);
      SinglesExpand(acc + [cur], cur, c - 1);
      assert acc + [cur] + Times(cur, c - 1) == acc + Times(cur, c);
    }
  }

  lemma {:induction false} EmitExpand(acc: seq<nat>, cur: nat, c: nat, prev: int)
    requires cur < 16 && 1 <= c <= MaxCount(cur, prev) && (prev == cur ==> acc != [] && acc[|acc| - 1] == cur)
    ensures Expand(acc, Emit(cur, c, prev)) == acc + Times(cur, c) && Expandable(acc, Emit(cur, c, prev))
  {
    if c < MinCount(cur, prev) {
      SinglesExpand(acc, cur, c);
    } else if cur == 0 {
      ExpandOne(acc, Zeros(c));
    } else if cur != prev {
      ExpandOne(acc, Len(cur));
      ExpandOne(acc + [cur], Rep(c - 1));
      ExpandAppend(acc, [Len(cur)], [Rep(c - 1)]);
      assert [Len(cur)] + [Rep(c - 1)] == [Len(cur), Rep(c - 1)];
      assert acc + [cur] + Times(cur, c - 1) == acc + Times(cur, c);
    } else {
      ExpandOne(acc, Rep(c));
    }
  }

  lemma ExpandOne(acc: seq<nat>, r: Run)
    requires SoundRun(r) && (r.Rep? ==> acc != [])
    ensures Expand(acc, [r]) == Grow(acc, r) && Expandable(acc, [r])
  {
    assert [r][1..] == [];
    assert Expand(Grow(acc, r), []) == Grow(acc, r);
  }

  /** The lengths between the last run and position n. */
  ghost predicate Waiting(lens: seq<nat>, n: nat, prev: int, count: nat) {
    && count <= n <= |lens| && (n == |lens| ==> count == 0)
    && (n < |lens| ==> count < MaxCount(lens[n], prev) && forall i :: n - count <= i < n ==> lens[i] == lens[n])
    && (if n == count then prev == -1 else prev == lens[n - count - 1])
  }

  /** Expanding the runs gives the lengths back, after whatever came before. */
  lemma {:induction false} RunsExpand(lens: seq<nat>, n: nat, prev: int, count: nat, pre: seq<nat>)
    requires (forall i :: 0 <= i < |lens| ==> lens[i] < 16) && Waiting(lens, n, prev, count)
    ensures Expand(pre + lens[..n - count], RunsFrom(lens, n, prev, count)) == pre + lens
    ensures Expandable(pre + lens[..n - count], RunsFrom(lens, n, prev, count))
    decreases |lens| - n
  {
    hide Emit, Grow;
    if n == |lens| {
      assert lens[..n] == lens;
    } else if count + 1 < MaxCount(lens[n], prev) && n + 1 < |lens| && lens[n] == lens[n + 1] {
      RunsExpand(lens, n + 1, prev, count + 1, pre);
    } else {
      var cur, c := lens[n], count + 1;
      var acc := pre + lens[..n - count];
      EmitExpand(acc, cur, c, prev);
      var rest := RunsFrom(lens, n + 1, cur, 0);
      ExpandAppend(acc, Emit(cur, c, prev), rest);
      assert acc + Times(cur, c) == pre + lens[..n + 1] by { RunIsConstant(lens, n, count, pre); }
      RunsExpand(lens, n + 1, cur, 0, pre);
    }
  }

  lemma RunIsConstant(lens: seq<nat>, n: nat, count: nat, pre: seq<nat>)
    requires count <= n < |lens| && forall i :: n - count <= i < n ==> lens[i] == lens[n]
    ensures pre + lens[..n - count] + Times(lens[n], count + 1) == pre + lens[..n + 1]
  {
    assert lens[..n + 1] == lens[..n - count] + Times(lens[n], count + 1);
  }

  // ---------- runs as bits ----------

  function RunSym(r: Run): (s: nat)
    requires SoundRun(r)
    ensures s < BL_CODES
  {
    match r
    case Len(l) => l
    case Rep(_) => 16
    case Zeros(n) => if n <= 10 then 17 else 18
  }

  /** The repeat count, and the number of bits it is sent with. */
  function RunExtra(r: Run): (x: (nat, nat))
    requires SoundRun(r)
  {
    match r
    case Len(_) => (0, 0)
    case Rep(n) => (n - 3, 2)
    case Zeros(n) => if n <= 10 then (n - 3, 3) else (n - 11, 7)
  }

  ghost predicate RunCovered(cl: seq<nat>, r: Run) {
    SoundRun(r) && HasCode(cl, RunSym(r))
  }

  ghost predicate RunsCovered(cl: seq<nat>, runs: seq<Run>) {
    forall i :: 0 <= i < |runs| ==> RunCovered(cl, runs[i])
  }

  ghost function EncRun(cl: seq<nat>, r: Run): seq<Bit>
    requires RunCovered(cl, r)
  {
    CodeSeq(cl, RunSym(r)) + LowBits(RunExtra(r).0, RunExtra(r).1)
  }

  ghost function EncRuns(cl: seq<nat>, runs: seq<Run>): seq<Bit>
    requires RunsCovered(cl, runs)
  {
    if runs == [] then [] else EncRun(cl, runs[0]) + EncRuns(cl, runs[1..])
  }

  lemma {:induction false} EncRunsAppend(cl: seq<nat>, a: seq<Run>, b: seq<Run>)
    requires RunsCovered(cl, a) && RunsCovered(cl, b)
    ensures RunsCovered(cl, a + b) && EncRuns(cl, a + b) == EncRuns(cl, a) + EncRuns(cl, b)
    decreases |a|
  {
    hide EncRun, RunCovered;
    if a == [] {
      assert a + b == b;
    } else {
      assert (a + b)[1..] == a[1..] + b;
      EncRunsAppend(cl, a[1..], b);
    }
  }

  lemma {:induction false} RunBack(cl: seq<nat>, r: Run, acc: seq<nat>, rest: seq<Bit>)
    requires CodeLens(cl) && |cl| == BL_CODES && RunCovered(cl, r) && (r.Rep? ==> acc != [])
    ensures ReadRun(cl, EncRun(cl, r) + rest, acc) == Got(Grow(acc, r), rest)
  {
    hide CodeLens, CodeSeq, LowBits, ReadBits, ReadSymbol, HasCode, Pow2;
    var extra := LowBits(RunExtra(r).0, RunExtra(r).1);
    SymbolBack(cl, RunSym(r), extra + rest);
    assert EncRun(cl, r) + rest == CodeSeq(cl, RunSym(r)) + (extra + rest);
    Powers();
    BitsBack(RunExtra(r).0, RunExtra(r).1, rest);
    if r.Len? {
      assert LowBits(0, 0) == [];
      assert extra + rest == rest;
    }
  }

  lemma {:induction false} GrowLonger(acc: seq<nat>, runs: seq<Run>)
    requires Expandable(acc, runs)
    ensures |Expand(acc, runs)| >= |acc| + |runs|
    decreases |runs|
  {
    if runs != [] { GrowLonger(Grow(acc, runs[0]), runs[1..]); }
  }

  /** A list of runs is read back as the lengths it stands for. */
  lemma {:induction false} LengthsBack(cl: seq<nat>, runs: seq<Run>, acc: seq<nat>, rest: seq<Bit>)
    requires CodeLens(cl) && |cl| == BL_CODES && RunsCovered(cl, runs) && Expandable(acc, runs)
    ensures ReadLengths(cl, |Expand(acc, runs)|, EncRuns(cl, runs) + rest, acc) == Got(Expand(acc, runs), rest)
    decreases |runs|
  {
    hide CodeLens, Grow, ReadRun, EncRun, SoundRun;
    GrowLonger(acc, runs);
    if runs == [] {
      assert EncRuns(cl, runs) + rest == rest;
    } else {
      var more := EncRuns(cl, runs[1..]) + rest;
      RunBack(cl, runs[0], acc, more);
      assert EncRuns(cl, runs) + rest == EncRun(cl, runs[0]) + more;
      LengthsBack(cl, runs[1..], Grow(acc, runs[0]), rest);
    }
  }

  // ---------- counting and sending ----------

  function Bump(freq: seq<nat>, s: nat): (r: seq<nat>)
    requires s < |freq|
    ensures |r| == |freq|
  {
    freq[s := freq[s] + 1]
  }

  ghost predicate SoundRuns(runs: seq<Run>) {
    forall i :: 0 <= i < |runs| ==> SoundRun(runs[i])
  }

  /** The frequencies after counting the symbols of the runs. */
  ghost function TallyRuns(freq: seq<nat>, runs: seq<Run>): (r: seq<nat>)
    requires SoundRuns(runs) && |freq| >= BL_CODES
    ensures |r| == |freq|
    decreases |runs|
  {
    if runs == [] then freq else TallyRuns(Bump(freq, RunSym(runs[0])), runs[1..])
  }

  lemma {:induction false} TallyAppend(freq: seq<nat>, a: seq<Run>, b: seq<Run>)
    requires SoundRuns(a) && SoundRuns(b) && |freq| >= BL_CODES
    ensures SoundRuns(a + b) && TallyRuns(freq, a + b) == TallyRuns(TallyRuns(freq, a), b)
    decreases |a|
  {
    if a == [] {
      assert a + b == b;
    } else {
      assert (a + b)[1..] == a[1..] + b;
      TallyAppend(Bump(freq, RunSym(a[0])), a[1..], b);
    }
  }

  lemma {:induction false} EmitSound(cur: nat, c: nat, prev: int)
    requires cur < 16 && 1 <= c <= MaxCount(cur, prev)
    ensures SoundRuns(Emit(cur, c, prev))
  {
  }

  lemma {:induction false} RunsSound(lens: seq<nat>, n: nat, prev: int, count: nat)
    requires (forall i :: 0 <= i < |lens| ==> lens[i] < 16) && n <= |lens| && (n < |lens| ==> count < MaxCount(lens[n], prev))
    ensures SoundRuns(RunsFrom(lens, n, prev, count))
    decreases |lens| - n
  {
    hide Emit, SoundRun;
    if n < |lens| {
      if count + 1 < MaxCount(lens[n], prev) && n + 1 < |lens| && lens[n] == lens[n + 1] {
        RunsSound(lens, n + 1, prev, count + 1);
      } else {
        EmitSound(lens[n], count + 1, prev);
        RunsSound(lens, n + 1, lens[n], 0);
      }
    }
  }

  lemma {:induction false} SinglesTally(freq: seq<nat>, cur: nat, c: nat)
    requires cur < 16 && |freq| >= BL_CODES
    ensures SoundRuns(Singles(cur, c)) && TallyRuns(freq, Singles(cur, c)) == freq[cur := freq[cur] + c]
    decreases c
  {
    if c > 0 {
      assert Singles(cur, c)[1..] == Singles(cur, c - 1);
      SinglesTally(Bump(freq, cur), cur, c - 1);
    }
  }

  lemma TallyTwo(freq: seq<nat>, a: Run, b: Run)
    requires SoundRun(a) && SoundRun(b) && |freq| >= BL_CODES
    ensures TallyRuns(freq, [a]) == Bump(freq, RunSym(a))
    ensures TallyRuns(freq, [a, b]) == Bump(Bump(freq, RunSym(a)), RunSym(b))
  {
    assert [a][1..] == [] && [a, b][1..] == [b] && [b][1..] == [];
    assert TallyRuns(Bump(freq, RunSym(a)), []) == Bump(freq, RunSym(a));
    assert TallyRuns(Bump(freq, RunSym(a)), [b]) == TallyRuns(Bump(Bump(freq, RunSym(a)), RunSym(b)), []);
  }

  /** One step of the loop that both functions have: how the runs continue. */
  lemma {:induction false} RunStep(lens: seq<nat>, n: nat, prev: int, count: nat)
    requires (forall i :: 0 <= i < |lens| ==> lens[i] < 16) && n < |lens| && count < MaxCount(lens[n], prev)
    ensures var nextlen := (lens + [GUARD])[n + 1];
            RunsFrom(lens, n, prev, count) ==
              if count + 1 < MaxCount(lens[n], prev) && lens[n] == nextlen then RunsFrom(lens, n + 1, prev, count + 1)
              else Emit(lens[n], count + 1, prev) + RunsFrom(lens, n + 1, lens[n], 0)
  {
    hide Emit;
  }

  /** What scan_tree does with a finished run. */
  method CountRun(freq0: seq<nat>, curlen: nat, count: nat, prevlen: int, minCount: nat) returns (freq: seq<nat>)
    requires curlen < 16 && 1 <= count <= MaxCount(curlen, prevlen) && minCount == MinCount(curlen, prevlen) && |freq0| >= BL_CODES
    ensures SoundRuns(Emit(curlen, count, prevlen)) && freq == TallyRuns(freq0, Emit(curlen, count, prevlen))
  {
    hide TallyRuns;
    freq := freq0;
    if count < minCount {
      SinglesTally(freq, curlen, count);
      freq := freq[curlen := freq[curlen] + count];
    } else if curlen != 0 {
      if curlen != prevlen {
        TallyTwo(freq, Len(curlen), Rep(count - 1));
        freq := freq[curlen := freq[curlen] + 1];
      } else {
        TallyTwo(freq, Rep(count), Rep(count));
      }
      freq := freq[16 := freq[16] + 1];
    } else if count <= 10 {
      TallyTwo(freq, Zeros(count), Zeros(count));
      freq := freq[17 := freq[17] + 1];
    } else {
      TallyTwo(freq, Zeros(count), Zeros(count));
      freq := freq[18 := freq[18] + 1];
    }
  }

  /** How often the next length may repeat, and from when on that is worth a repeat code. */
  method NextCounts(nextlen: nat, curlen: nat) returns (maxCount: nat, minCount: nat)
    ensures maxCount == MaxCount(nextlen, curlen) && minCount == MinCount(nextlen, curlen)
  {
    if nextlen == 0 {
      maxCount, minCount := 138, 3;
    } else if curlen == nextlen {
      maxCount, minCount := 6, 3;
    } else {
      maxCount, minCount := 7, 4;
    }
  }

  /** scan_tree: counts exactly the symbols that send_tree will send. */
  method ScanTree(lens: seq<nat>, freq0: seq<nat>) returns (freq: seq<nat>)
    requires (forall i :: 0 <= i < |lens| ==> lens[i] < 16) && lens != [] && |freq0| >= BL_CODES
    ensures SoundRuns(Runs(lens)) && freq == TallyRuns(freq0, Runs(lens)) && |freq| == |freq0|
  {
    hide TallyRuns, Emit, SoundRuns, RunsFrom;
    RunsSound(lens, 0, -1, 0);
    var tree := lens + [GUARD];
    var prevlen, nextlen, count, maxCount, minCount := -1, tree[0], 0, 7, 4;
    freq := freq0;
    if nextlen == 0 { maxCount, minCount := 138, 3; }
    for n := 0 to |lens|
      invariant nextlen == tree[n] && count < maxCount && |freq| == |freq0|
      invariant maxCount == MaxCount(nextlen, prevlen) && minCount == MinCount(nextlen, prevlen)
      invariant SoundRuns(RunsFrom(lens, n, prevlen, count))
      invariant TallyRuns(freq, RunsFrom(lens, n, prevlen, count)) == TallyRuns(freq0, Runs(lens))
    {
      var curlen := nextlen;
      nextlen := tree[n + 1];
      RunStep(lens, n, prevlen, count);
      count := count + 1;
      if count < maxCount && curlen == nextlen { continue; }
      RunsSound(lens, n + 1, curlen, 0);
      EmitSound(curlen, count, prevlen);
      TallyAppend(freq, Emit(curlen, count, prevlen), RunsFrom(lens, n + 1, curlen, 0));
      freq := CountRun(freq, curlen, count, prevlen, minCount);
      count := 0;
      prevlen := curlen;
      maxCount, minCount := 7, 4;
      if nextlen == 0 {
        maxCount, minCount := 138, 3;
      } else if curlen == nextlen {
        maxCount, minCount := 6, 3;
      }
    }
    NoRuns(lens, prevlen, count, freq);
  }

  lemma NoRuns(lens: seq<nat>, prev: int, count: nat, freq: seq<nat>)
    requires |freq| >= BL_CODES
    ensures RunsFrom(lens, |lens|, prev, count) == [] && SoundRuns([]) && TallyRuns(freq, []) == freq
  {
  }
}
