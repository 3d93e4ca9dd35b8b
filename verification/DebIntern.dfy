/** The hash tables of dpkg.c: open addressing with double hashing over a prime number of slots. */
module DebIntern {
  import opened Bytes
  import opened Arithmetic
  import opened DebVersion
  import opened DebCompare

  const NAME_HASH_PRIME := 16381
  const PACKAGE_HASH_PRIME := 10007

  // ---------- primes ----------

  ghost predicate Prime(p: nat) {
    p >= 2 && forall m :: 2 <= m < p ==> p % m != 0
  }

  /** It is enough to try divisors up to the square root. */
  lemma {:induction false} SmallDivisors(p: nat, r: nat)
    requires p >= 2 && r >= 3 && r * r > p && forall m :: 2 <= m < r ==> p % m != 0
    ensures Prime(p)
  {
    forall m | 2 <= m < p ensures p % m != 0 {
      if m >= r && p % m == 0 {
        var q := p / m;
        assert p == q * m;
        Cofactor(p, q, m, r);
      }
    }
  }

  lemma Cofactor(p: nat, q: nat, m: nat, r: nat)
    requires p == q * m && 2 <= r <= m < p && r * r > p
    ensures 2 <= q < r && p % q == 0
  {
    if q >= r { MulBoth(q, r, m); }
    if q <= 1 { AtMost(q, m); }
    assert p % q == 0 by { MulMod(q, m); }
  }

  lemma AtMost(q: nat, m: nat)
    requires q <= 1
    ensures q * m <= m
  {
  }

  lemma MulBoth(q: nat, r: nat, m: nat)
    requires q >= r && m >= r
    ensures q * m >= r * r
  {
    assert q * m >= r * m;
    assert r * m >= r * r;
  }

  lemma MulMod(q: nat, m: nat)
    requires q >= 1
    ensures (q * m) % q == 0
  {
    var x := q * m;
    assert x == m * q + 0;
    Remainder(x, q, m, 0);
  }

  /** The sizes of the tables are prime. */
  lemma TableSizesPrime()
    ensures Prime(16381) && Prime(10007) && NAME_HASH_PRIME == 16381 && PACKAGE_HASH_PRIME == 10007
  {
    hide Prime;
    forall m | 2 <= m < 129 ensures NAME_HASH_PRIME % m != 0 && PACKAGE_HASH_PRIME % m != 0 {
      if m < 34 { Tried0(m); } else if m < 66 { Tried1(m); } else if m < 98 { Tried2(m); } else { Tried3(m); }
    }
    SmallDivisors(NAME_HASH_PRIME, 129);
    SmallDivisors(PACKAGE_HASH_PRIME, 129);
  }

  lemma Tried0(m: nat)
    requires 2 <= m < 34
    ensures NAME_HASH_PRIME % m != 0 && PACKAGE_HASH_PRIME % m != 0
  {
    assert m == 2 || m == 3 || m == 4 || m == 5 || m == 6 || m == 7 || m == 8 || m == 9 || m == 10 || m == 11
        || m == 12 || m == 13 || m == 14 || m == 15 || m == 16 || m == 17 || m == 18 || m == 19 || m == 20
        || m == 21 || m == 22 || m == 23 || m == 24 || m == 25 || m == 26 || m == 27 || m == 28 || m == 29
        || m == 30 || m == 31 || m == 32 || m == 33;
  }

  lemma Tried1(m: nat)
    requires 34 <= m < 66
    ensures NAME_HASH_PRIME % m != 0 && PACKAGE_HASH_PRIME % m != 0
  {
    assert m == 34 || m == 35 || m == 36 || m == 37 || m == 38 || m == 39 || m == 40 || m == 41 || m == 42
        || m == 43 || m == 44 || m == 45 || m == 46 || m == 47 || m == 48 || m == 49 || m == 50 || m == 51
        || m == 52 || m == 53 || m == 54 || m == 55 || m == 56 || m == 57 || m == 58 || m == 59 || m == 60
        || m == 61 || m == 62 || m == 63 || m == 64 || m == 65;
  }

  lemma Tried2(m: nat)
    requires 66 <= m < 98
    ensures NAME_HASH_PRIME % m != 0 && PACKAGE_HASH_PRIME % m != 0
  {
    assert m == 66 || m == 67 || m == 68 || m == 69 || m == 70 || m == 71 || m == 72 || m == 73 || m == 74
        || m == 75 || m == 76 || m == 77 || m == 78 || m == 79 || m == 80 || m == 81 || m == 82 || m == 83
        || m == 84 || m == 85 || m == 86 || m == 87 || m == 88 || m == 89 || m == 90 || m == 91 || m == 92
        || m == 93 || m == 94 || m == 95 || m == 96 || m == 97;
  }

  lemma Tried3(m: nat)
    requires 98 <= m < 129
    ensures NAME_HASH_PRIME % m != 0 && PACKAGE_HASH_PRIME % m != 0
  {
    assert m == 98 || m == 99 || m == 100 || m == 101 || m == 102 || m == 103 || m == 104 || m == 105
        || m == 106 || m == 107 || m == 108 || m == 109 || m == 110 || m == 111 || m == 112 || m == 113
        || m == 114 || m == 115 || m == 116 || m == 117 || m == 118 || m == 119 || m == 120 || m == 121
        || m == 122 || m == 123 || m == 124 || m == 125 || m == 126 || m == 127 || m == 128;
  }

  // ---------- a step that is not zero reaches every slot ----------

  /** The extended Euclidean algorithm. */
  lemma {:induction false} Bezout(a: nat, b: nat) returns (g: nat, x: int, y: int)
    requires a >= 1
    ensures g >= 1 && a * x + b * y == g && a % g == 0 && b % g == 0
    decreases b
  {
    if b == 0 {
      g, x, y := a, 1, 0;
      assert a % a == 0 by { Remainder(a, a, 1, 0); }
    } else {
      var q, r := a / b, a % b;
      var x', y';
      g, x', y' := Bezout(b, r);
      x, y := y', x' - q * y';
      assert a == q * b + r;
      Combine(a, b, q, r, x', y');
      DividesSum(b, r, q, g);
    }
  }

  lemma Combine(a: int, b: int, q: int, r: int, x: int, y: int)
    requires a == q * b + r
    ensures a * y + b * (x - q * y) == b * x + r * y
  {
    assert a * y == (q * b + r) * y == q * b * y + r * y;
    assert b * (x - q * y) == b * x - b * (q * y);
    assert b * (q * y) == q * b * y;
  }

  lemma DividesSum(b: nat, r: nat, q: nat, g: nat)
    requires g >= 1 && b % g == 0 && r % g == 0
    ensures (q * b + r) % g == 0
  {
    var u, v := b / g, r / g;
    assert b == u * g && r == v * g;
    assert q * (u * g) == (q * u) * g;
    assert q * b + r == (q * u + v) * g by { assert (q * u + v) * g == q * u * g + v * g; }
    Remainder(q * b + r, g, q * u + v, 0);
  }

  /** The n-th slot that is tried. */
  function Slot(start: int, dec: int, p: nat, n: nat): (s: nat)
    requires p >= 1
    ensures s < p
  {
    (start - n * dec) % p
  }

  /** Every slot is tried at some time. */
  lemma {:induction false} Reaches(start: nat, dec: nat, p: nat, f: nat) returns (n: nat)
    requires Prime(p) && 1 <= dec < p && f < p
    ensures Slot(start, dec, p, n) == f
  {
    var g, x, y := Bezout(dec, p);
    assert g == 1 by {
      if g >= 2 { DivisorSmall(dec, g); }
    }
    // dec * x == 1 modulo p
    var k := (start - f) * x;
    n := k % p;
    var t := k / p;
    assert k == t * p + n;
    Solves(start, dec, p, f, x, y, t, n);
    Remainder(start - n * dec, p, (start - f) * y + t * dec, f);
  }

  lemma DivisorSmall(a: nat, g: nat)
    requires a >= 1 && g >= 1 && a % g == 0
    ensures g <= a
  {
  }

  lemma Solves(start: int, dec: int, p: int, f: int, x: int, y: int, t: int, n: int)
    requires dec * x + p * y == 1 && (start - f) * x == t * p + n
    ensures start - n * dec == ((start - f) * y + t * dec) * p + f
  {
    var d := start - f;
    assert n == d * x - t * p;
    assert n * dec == (d * x) * dec - (t * p) * dec;
    assert (d * x) * dec == d * (dec * x);
    assert d * (dec * x) == d * (1 - p * y) == d - d * (p * y);
    assert (t * p) * dec == (t * dec) * p && d * (p * y) == (d * y) * p;
    assert (d * y + t * dec) * p == (d * y) * p + (t * dec) * p;
  }

  // ---------- make_hash ----------

  const LONG := 0x1_0000_0000

  /** The hash value after n characters. */
  function HashNum(key: seq<Byte>, n: nat): nat
    requires n <= |key|
  {
    if n == 0 then 0
    else if n == 1 then key[0]
    else Mix(HashNum(key, n - 1), key[n - 1], key[n - 2], n - 1)
  }

  /** One more character c at position i, after the character b. */
  function Mix(h: nat, c: Byte, b: Byte, i: nat): nat {
    (h + (c + b) * Pow2((c as int) * i % 24)) % LONG
  }

  /** The first n characters added up, every one together with the one before it and shifted: without any wrap-around. */
  function HashSum(key: seq<Byte>, n: nat): nat
    requires n <= |key|
  {
    if n == 0 then 0
    else if n == 1 then key[0]
    else HashSum(key, n - 1) + Shifted((key[n - 1] as int) + key[n - 2], (key[n - 1] as int) * (n - 1) % 24)
  }

  /** x << k */
  function Shifted(x: nat, k: nat): nat {
    x * Pow2(k)
  }

  /** Wrapping around at every step is wrapping around once at the end. */
  lemma {:induction false} HashMeans(key: seq<Byte>, n: nat)
    requires n <= |key|
    ensures HashNum(key, n) == HashSum(key, n) % 0x1_0000_0000
  {
    if n > 1 {
      HashMeans(key, n - 1);
      var x := Shifted((key[n - 1] as int) + key[n - 2], (key[n - 1] as int) * (n - 1) % 24);
      assert HashSum(key, n) == HashSum(key, n - 1) + x;
      hide HashSum, HashNum, Pow2;
      assert HashNum(key, n) == (HashNum(key, n - 1) + x) % LONG by { HashStep(key, n); }
      WrapOnce(HashSum(key, n - 1), x);
    }
  }

  lemma HashStep(key: seq<Byte>, n: nat)
    requires 1 < n <= |key|
    ensures HashNum(key, n) == (HashNum(key, n - 1) + Shifted((key[n - 1] as int) + key[n - 2], (key[n - 1] as int) * (n - 1) % 24)) % LONG
  {
    hide Pow2;
  }

  lemma WrapOnce(h: nat, x: nat)
    ensures (h % LONG + x) % LONG == (h + x) % LONG
  {
  }

  method MakeHash(key: seq<Byte>, prime: nat) returns (start: nat, decrement: nat)
    requires prime >= 3
    ensures start == HashNum(key, |key|) % prime && decrement == 1 + HashNum(key, |key|) % (prime - 1)
    ensures start == HashSum(key, |key|) % 0x1_0000_0000 % prime && decrement == 1 + HashSum(key, |key|) % 0x1_0000_0000 % (prime - 1)
  {
    HashMeans(key, |key|);
    hide Mix, HashSum;
    var hashNum := if key == [] then 0 else key[0];
    if |key| > 1 {
      for i := 1 to |key|
        invariant hashNum == HashNum(key, i)
      {
        hashNum := Mix(hashNum, key[i], key[i - 1], i);
      }
    }
    start, decrement := hashNum % prime, 1 + hashNum % (prime - 1);
  }

  /** The n-th slot that is tried for a key. */
  function SlotOf(key: seq<Byte>, prime: nat, n: nat): (s: nat)
    requires prime >= 3
    ensures s < prime
  {
    Slot(HashNum(key, |key|) % prime, 1 + HashNum(key, |key|) % (prime - 1), prime, n)
  }

  // ---------- probing ----------

  datatype Entry<T> = Free | Used(value: T)

  /** The search ends at this slot: it is free or it is what is looked for. */
  predicate Stops<T>(e: Entry<T>, hit: T -> bool) {
    e.Free? || hit(e.value)
  }

  lemma Advance(start: int, dec: nat, p: nat, n: nat)
    requires 1 <= dec < p
    ensures Slot(start, dec, p, n + 1) == if Slot(start, dec, p, n) >= dec then Slot(start, dec, p, n) - dec else Slot(start, dec, p, n) - dec + p
  {
    var s, q := Slot(start, dec, p, n), (start - n * dec) / p;
    assert start - n * dec == q * p + s;
    assert start - (n + 1) * dec == q * p + (s - dec);
    if s >= dec {
      Remainder(start - (n + 1) * dec, p, q, s - dec);
    } else {
      assert (q - 1) * p == q * p - p;
      Remainder(start - (n + 1) * dec, p, q - 1, s - dec + p);
    }
  }

  /** The loop that all three searches have: the first slot in the order of trying at which the search stops.
      It ends, because every slot is tried at some time. */
  method Probe<T>(slots: seq<Entry<T>>, p: nat, start: nat, dec: nat, hit: T -> bool) returns (addr: nat, ghost n: nat)
    requires Prime(p) && |slots| >= p && start < p && 1 <= dec < p
    requires exists f :: 0 <= f < p && Stops(slots[f], hit)
    ensures addr == Slot(start, dec, p, n) && Stops(slots[addr], hit)
    ensures forall m: nat :: m < n ==> !Stops(slots[Slot(start, dec, p, m)], hit)
  {
    hide Slot, Stops;
    ghost var f :| 0 <= f < p && Stops(slots[f], hit);
    ghost var last := Reaches(start, dec, p, f);
    addr, n := start, 0;
    FirstSlot(start, dec, p);
    while !Stops(slots[addr], hit)
      invariant addr == Slot(start, dec, p, n) && n <= last
      invariant forall m: nat :: m < n ==> !Stops(slots[Slot(start, dec, p, m)], hit)
      decreases last - n
    {
      Advance(start, dec, p, n);
      var next := addr - dec;
      if next < 0 { next := next + p; }
      addr := next;
      n := n + 1;
    }
  }

  /** The search ends if and only if some slot is free or holds what is looked for: in a full table without it,
      every slot that is ever tried is one at which the search goes on. */
  lemma {:induction false} ProbeEnds<T>(slots: seq<Entry<T>>, p: nat, start: nat, dec: nat, hit: T -> bool)
    requires Prime(p) && |slots| >= p && start < p && 1 <= dec < p
    ensures (exists n: nat :: Stops(slots[Slot(start, dec, p, n)], hit)) <==> (exists s: nat :: s < p && Stops(slots[s], hit))
  {
    hide Slot, Stops, Prime;
    if s: nat :| s < p && Stops(slots[s], hit) {
      var n := Reaches(start, dec, p, s);
      assert Stops(slots[Slot(start, dec, p, n)], hit);
    }
  }

  lemma FirstSlot(start: nat, dec: nat, p: nat)
    requires start < p
    ensures Slot(start, dec, p, 0) == start
  {
  }

  // ---------- names ----------

  /** The string in slot s would be found there: no slot before it in its order of trying is free or holds it. */
  ghost predicate Findable(slots: seq<Entry<seq<Byte>>>, s: nat, n: nat)
    requires |slots| > NAME_HASH_PRIME && s < NAME_HASH_PRIME && slots[s].Used?
  {
    && SlotOf(slots[s].value, NAME_HASH_PRIME, n) == s
    && forall m: nat :: m < n ==> slots[SlotOf(slots[s].value, NAME_HASH_PRIME, m)].Used?
                                  && slots[SlotOf(slots[s].value, NAME_HASH_PRIME, m)].value != slots[s].value
  }

  /** Every string that is in the table can be found. */
  ghost predicate Interned(slots: seq<Entry<seq<Byte>>>) {
    && |slots| == NAME_HASH_PRIME + 1
    && forall s: nat :: s < NAME_HASH_PRIME && slots[s].Used? ==> exists n: nat :: Findable(slots, s, n)
  }

  /** A string that is in the table is where its search ends. */
  lemma {:induction false} FoundAt(slots: seq<Entry<seq<Byte>>>, s: nat, key: seq<Byte>, n: nat)
    requires Interned(slots) && s < NAME_HASH_PRIME && slots[s] == Used(key)
    requires Stops(slots[SlotOf(key, NAME_HASH_PRIME, n)], (v: seq<Byte>) => v == key)
    requires forall m: nat :: m < n ==> !Stops(slots[SlotOf(key, NAME_HASH_PRIME, m)], (v: seq<Byte>) => v == key)
    ensures SlotOf(key, NAME_HASH_PRIME, n) == s
  {
    hide SlotOf;
    var k: nat :| Findable(slots, s, k);
    assert n == k;
  }

  /** Adding a string where its search ended keeps all others findable. */
  lemma {:induction false} StillInterned(slots: seq<Entry<seq<Byte>>>, key: seq<Byte>, n: nat)
    requires Interned(slots) && slots[SlotOf(key, NAME_HASH_PRIME, n)].Free?
    requires forall m: nat :: m < n ==> !Stops(slots[SlotOf(key, NAME_HASH_PRIME, m)], (v: seq<Byte>) => v == key)
    ensures Interned(slots[SlotOf(key, NAME_HASH_PRIME, n) := Used(key)])
  {
    hide SlotOf;
    var at := SlotOf(key, NAME_HASH_PRIME, n);
    var slots' := slots[at := Used(key)];
    forall s: nat | s < NAME_HASH_PRIME && slots'[s].Used? ensures exists k: nat :: Findable(slots', s, k) {
      if s == at {
        assert Findable(slots', at, n);
      } else {
        var k: nat :| Findable(slots, s, k);
        assert Findable(slots', s, k);
      }
    }
  }

  class NameTable {
    var slots: seq<Entry<seq<Byte>>>

    ghost predicate Valid()
      reads this
    {
      Interned(slots)
    }

    constructor ()
      ensures Valid() && forall s :: 0 <= s < NAME_HASH_PRIME ==> slots[s].Free?
    {
      slots := seq(NAME_HASH_PRIME + 1, _ => Free);
    }

    /** search_name_hashtable: the number of a string, new if it is new.  Without a free slot and without the
        string the search would not end. */
    method SearchName(key: seq<Byte>) returns (id: nat)
      requires Valid() && exists s :: 0 <= s < NAME_HASH_PRIME && (slots[s].Free? || slots[s].value == key)
      modifies this
      ensures Valid() && id < NAME_HASH_PRIME && slots[id] == Used(key)
      ensures forall s :: 0 <= s < |old(slots)| && old(slots)[s].Used? ==> slots[s] == old(slots)[s]
      ensures forall s :: 0 <= s < NAME_HASH_PRIME && old(slots)[s] == Used(key) ==> id == s && slots == old(slots)
      ensures slots == old(slots) || (old(slots)[id].Free? && slots == old(slots)[id := Used(key)])
      ensures exists n: nat :: id == SlotOf(key, NAME_HASH_PRIME, n) &&
                forall m: nat :: m < n ==> old(slots)[SlotOf(key, NAME_HASH_PRIME, m)].Used? && old(slots)[SlotOf(key, NAME_HASH_PRIME, m)].value != key
    {
      hide HashNum, Slot, Prime, Findable;
      TableSizesPrime();
      var start, dec := MakeHash(key, NAME_HASH_PRIME);
      var addr;
      ghost var n;
      addr, n := Probe(slots, NAME_HASH_PRIME, start, dec, (v: seq<Byte>) => v == key);
      forall s: nat | s < NAME_HASH_PRIME && slots[s] == Used(key) ensures addr == s { FoundAt(slots, s, key, n); }
      if slots[addr].Free? {
        StillInterned(slots, key, n);
        slots := slots[addr := Used(key)];
      }
      return addr;
    }
  
    /** A run of lookups, with as many repetitions as one likes: equal strings get equal numbers, different strings
        different ones, and every number still stands for its string at the end.  There must be room for the strings
        that are new; `RoomNeeded` says that no run can do without it. */
    method InternAll(keys: seq<seq<Byte>>) returns (ids: seq<nat>)
      requires Valid() && UsedUpTo(slots, NAME_HASH_PRIME) + |New(keys, slots)| <= NAME_HASH_PRIME
      modifies this
      ensures Valid() && |ids| == |keys|
      ensures forall i :: 0 <= i < |keys| ==> ids[i] < NAME_HASH_PRIME && slots[ids[i]] == Used(keys[i])
      ensures forall i, j :: 0 <= i < |keys| && 0 <= j < |keys| ==> (ids[i] == ids[j] <==> keys[i] == keys[j])
      ensures forall s :: 0 <= s < |old(slots)| && old(slots)[s].Used? ==> slots[s] == old(slots)[s]
    {
      hide Findable, UsedUpTo, New;
      ids := [];
      for k := 0 to |keys|
        invariant Valid() && |ids| == k && |slots| == |old(slots)| == NAME_HASH_PRIME + 1
        invariant UsedUpTo(slots, NAME_HASH_PRIME) + |New(keys, slots)| <= NAME_HASH_PRIME
        invariant forall i :: 0 <= i < k ==> ids[i] < NAME_HASH_PRIME && slots[ids[i]] == Used(keys[i])
        invariant forall i, j :: 0 <= i < k && 0 <= j < k ==> (ids[i] == ids[j] <==> keys[i] == keys[j])
        invariant forall s :: 0 <= s < |old(slots)| && old(slots)[s].Used? ==> slots[s] == old(slots)[s]
      {
        ghost var before := slots;
        RoomOrThere(keys, slots, k);
        var id := SearchName(keys[k]);
        if slots != before {
          OneMoreUsed(before, NAME_HASH_PRIME, id, keys[k]);
          OneLessNew(keys, before, id, k);
        }
        ids := ids + [id];
      }
    }
  }

  function UsedUpTo<T>(slots: seq<Entry<T>>, n: nat): (r: nat)
    requires n <= |slots|
    ensures r <= n
  {
    if n == 0 then 0 else UsedUpTo(slots, n - 1) + (if slots[n - 1].Used? then 1 else 0)
  }

  lemma {:induction false} SomeFree<T>(slots: seq<Entry<T>>, n: nat)
    requires n <= |slots| && UsedUpTo(slots, n) < n
    ensures exists s :: 0 <= s < n && slots[s].Free?
    decreases n
  {
    if slots[n - 1].Used? { SomeFree(slots, n - 1); }
  }

  lemma {:induction false} OneMoreUsed<T>(slots: seq<Entry<T>>, n: nat, s: nat, v: T)
    requires n <= |slots| && s < |slots| && slots[s].Free?
    ensures UsedUpTo(slots[s := Used(v)], n) == UsedUpTo(slots, n) + (if s < n then 1 else 0)
    decreases n
  {
    if n > 0 { OneMoreUsed(slots, n - 1, s, v); }
  }

  /** The strings among `keys` that are not in the table. */
  ghost function New(keys: seq<seq<Byte>>, slots: seq<Entry<seq<Byte>>>): set<seq<Byte>>
    requires |slots| > NAME_HASH_PRIME
  {
    set k | k in keys && forall s :: 0 <= s < NAME_HASH_PRIME ==> slots[s] != Used(k)
  }

  lemma RoomOrThere(keys: seq<seq<Byte>>, slots: seq<Entry<seq<Byte>>>, k: nat)
    requires |slots| > NAME_HASH_PRIME && k < |keys| && UsedUpTo(slots, NAME_HASH_PRIME) + |New(keys, slots)| <= NAME_HASH_PRIME
    ensures exists s :: 0 <= s < NAME_HASH_PRIME && (slots[s].Free? || slots[s].value == keys[k])
  {
    hide UsedUpTo;
    if keys[k] in New(keys, slots) {
      assert |New(keys, slots)| >= 1;
      SomeFree(slots, NAME_HASH_PRIME);
    } else {
      var s :| 0 <= s < NAME_HASH_PRIME && slots[s] == Used(keys[k]);
    }
  }

  lemma OneLessNew(keys: seq<seq<Byte>>, slots: seq<Entry<seq<Byte>>>, id: nat, k: nat)
    requires |slots| > NAME_HASH_PRIME > id && k < |keys| && slots[id].Free?
    requires forall s :: 0 <= s < NAME_HASH_PRIME ==> slots[s] != Used(keys[k])
    ensures |New(keys, slots[id := Used(keys[k])])| == |New(keys, slots)| - 1
  {
    var slots' := slots[id := Used(keys[k])];
    assert slots'[id] == Used(keys[k]);
    forall x | x in New(keys, slots) && x != keys[k] ensures x in New(keys, slots') {
      assert forall s :: 0 <= s < NAME_HASH_PRIME ==> slots'[s] == slots[s] || slots'[s] == Used(keys[k]);
    }
    forall x | x in New(keys, slots') ensures x in New(keys, slots) && x != keys[k] {
      assert forall s :: 0 <= s < NAME_HASH_PRIME && slots[s].Used? ==> slots'[s] == slots[s];
    }
    assert New(keys, slots') == New(keys, slots) - {keys[k]};
  }

  /** The room that a run asks for is no more than any table needs that keeps its entries and has all the strings. */
  lemma {:induction false} RoomNeeded(slots: seq<Entry<seq<Byte>>>, keys: seq<seq<Byte>>, slots': seq<Entry<seq<Byte>>>)
    requires |slots| > NAME_HASH_PRIME && |slots'| == |slots|
    requires forall s :: 0 <= s < NAME_HASH_PRIME && slots[s].Used? ==> slots'[s] == slots[s]
    requires forall k :: k in keys ==> exists s :: 0 <= s < NAME_HASH_PRIME && slots'[s] == Used(k)
    ensures UsedUpTo(slots, NAME_HASH_PRIME) + |New(keys, slots)| <= NAME_HASH_PRIME
  {
    hide UsedUpTo;
    forall k | k in New(keys, slots) ensures exists s :: 0 <= s < NAME_HASH_PRIME && slots'[s] == Used(k) && slots[s].Free? {
      var s :| 0 <= s < NAME_HASH_PRIME && slots'[s] == Used(k);
    }
    Fill(slots, NAME_HASH_PRIME, New(keys, slots), slots');
  }

  /** Values that have slots of their own among the free ones. */
  lemma {:induction false} Fill<T>(slots: seq<Entry<T>>, n: nat, more: set<T>, slots': seq<Entry<T>>)
    requires n <= |slots| == |slots'|
    requires forall k :: k in more ==> exists s :: 0 <= s < n && slots'[s] == Used(k) && slots[s].Free?
    ensures UsedUpTo(slots, n) + |more| <= n
    decreases |more|
  {
    hide UsedUpTo;
    if more != {} {
      var k :| k in more;
      var s :| 0 <= s < n && slots'[s] == Used(k) && slots[s].Free?;
      OneMoreUsed(slots, n, s, k);
      var rest := more - {k};
      forall j | j in rest ensures exists t :: 0 <= t < n && slots'[t] == Used(j) && slots[s := Used(k)][t].Free? {
        var t :| 0 <= t < n && slots'[t] == Used(j) && slots[t].Free?;
        assert slots[s := Used(k)][t].Free?;
      }
      Fill(slots[s := Used(k)], n, rest, slots');
    }
  }

  // ---------- packages ----------

  /** A package: the numbers of its name and of its version. */
  datatype Package = Package(name: nat, version: nat)

  /** The package that is asked for: its name, and a version that passes the test. */
  predicate Wanted(names: seq<Entry<seq<Byte>>>, name: nat, version: nat, op: Operator, p: Package) {
    && p.name == name
    && (op == VerAny || (p.version < |names| && version < |names| && names[p.version].Used? && names[version].Used?
                         && Holds(VersionOrder(Split(names[p.version].value), Split(names[version].value)), op)))
  }

  /** What each test says of the package that is wanted. */
  lemma {:induction false} WantedMeans(names: seq<Entry<seq<Byte>>>, name: nat, version: nat, op: Operator, p: Package)
    requires p.version < |names| && version < |names| && names[p.version].Used? && names[version].Used?
    requires CString(names[p.version].value) && CString(names[version].value)
    ensures var v, w, wanted := Split(names[p.version].value), Split(names[version].value), Wanted(names, name, version, op, p);
            && (op == VerAny ==> (wanted <==> p.name == name)) && (op == VerNull ==> !wanted)
            && (op == VerLess ==> (wanted <==> p.name == name && VersionEarlier(v, w)))
            && (op == VerLessEqual ==> (wanted <==> p.name == name && !VersionEarlier(w, v)))
            && (op == VerEqual ==> (wanted <==> p.name == name && !VersionEarlier(v, w) && !VersionEarlier(w, v)))
            && (op == VerMoreEqual ==> (wanted <==> p.name == name && !VersionEarlier(v, w)))
            && (op == VerMore ==> (wanted <==> p.name == name && VersionEarlier(w, v)))
  {
    hide VersionOrder, Split, VersionEarlier;
    var v, w := Split(names[p.version].value), Split(names[version].value);
    SplitStrings(names[p.version].value);
    SplitStrings(names[version].value);
    HoldsMeans(v, w, op);
    HoldsMeans(v, w, VerAny);
  }

  lemma WantedName(names: seq<Entry<seq<Byte>>>, name: nat, version: nat, op: Operator, p: Package)
    requires Wanted(names, name, version, op, p)
    ensures p.name == name && op != VerNull
  {
    hide VersionOrder;
  }

  /** The strings that stand for versions are in the table of names. */
  ghost predicate Versions(names: seq<Entry<seq<Byte>>>, packages: seq<Entry<Package>>, version: nat) {
    && version < |names| && names[version].Used? && CString(names[version].value)
    && forall s :: 0 <= s < |packages| && packages[s].Used? ==>
         packages[s].value.version < |names| && names[packages[s].value.version].Used? && CString(names[packages[s].value.version].value)
  }

  /** search_package_hashtable: the first package in the order of trying that is wanted, or the free slot at which
      the search ends; nothing is added. */
  method SearchPackage(names: seq<Entry<seq<Byte>>>, packages: seq<Entry<Package>>, name: nat, version: nat, op: Operator)
    returns (addr: nat, ghost n: nat)
    requires name < |names| && names[name].Used? && |packages| == PACKAGE_HASH_PRIME + 1
    requires exists s :: 0 <= s < PACKAGE_HASH_PRIME && (packages[s].Free? || Wanted(names, name, version, op, packages[s].value))
    ensures addr == SlotOf(names[name].value, PACKAGE_HASH_PRIME, n) && addr < |packages|
    ensures packages[addr].Free? || Wanted(names, name, version, op, packages[addr].value)
    ensures forall m: nat :: m < n ==> var e := packages[SlotOf(names[name].value, PACKAGE_HASH_PRIME, m)];
                                       e.Used? && !Wanted(names, name, version, op, e.value)
    ensures packages[addr].Used? ==> packages[addr].value.name == name && op != VerNull
    ensures packages[addr].Used? && Versions(names, packages, version) ==>
              var v, w := Split(names[packages[addr].value.version].value), Split(names[version].value);
              && (op == VerLess ==> VersionEarlier(v, w)) && (op == VerLessEqual ==> !VersionEarlier(w, v))
              && (op == VerEqual ==> !VersionEarlier(v, w) && !VersionEarlier(w, v))
              && (op == VerMoreEqual ==> !VersionEarlier(v, w)) && (op == VerMore ==> VersionEarlier(w, v))
  {
    hide HashNum, Slot, Prime, Wanted, VersionEarlier, Split;
    TableSizesPrime();
    var start, dec := MakeHash(names[name].value, PACKAGE_HASH_PRIME);
    addr, n := Probe(packages, PACKAGE_HASH_PRIME, start, dec, (p: Package) => Wanted(names, name, version, op, p));
    if packages[addr].Used? {
      WantedName(names, name, version, op, packages[addr].value);
      if Versions(names, packages, version) { WantedMeans(names, name, version, op, packages[addr].value); }
    }
  }
}
