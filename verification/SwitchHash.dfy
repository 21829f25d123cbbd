/** Hash switches: open addressing by an odd stride in a table whose size is a power of two. Key 0 marks a free slot. */
module SwitchHash {

  datatype Entry = Entry(tag: nat, target: nat)

  type Table = seq<Entry>

  function Pow2(e: nat): (r: nat)
    ensures 0 < r && (0 < e ==> r % 2 == 0 && e < r)
  {
    if e == 0 then 1 else 2 * Pow2(e - 1)
  }

  /** Masking with size - 1 is the remainder by size, a power of two; the shift by HASH_SHIFT divides by 64. */
  function Start(key: nat, size: nat): (h: nat)
    requires 0 < size
    ensures h < size
  {
    key / 64 % size
  }

  function Stride(key: nat, size: nat): nat
    requires 0 < size
  {
    (if key % 2 == 0 then key + 1 else key) % size
  }

  function Probe(key: nat, size: nat, i: nat): (k: nat)
    requires 0 < size
    ensures k < size
  {
    (Start(key, size) + i * Stride(key, size)) % size
  }

  /** The emulator keeps offsets in cells, two to an entry: they are the entries' indices doubled. */
  lemma CellOffsets(d: bv64, s: bv64)
    ensures (d >> 5) & ((s - 1) << 1) == ((d >> 6) & (s - 1)) << 1
    ensures ((d | 1) << 1) & ((s - 1) << 1) == ((d | 1) & (s - 1)) << 1
  {
  }

  // ---------------------------------------------------------------- an odd stride meets every slot once

  lemma Quotient(a: int, n: nat) returns (q: int)
    requires 0 < n
    ensures a == q * n + a % n
  {
    q := a / n;
  }

  lemma Distribute(p: int, q: int, n: int)
    ensures (p + q) * n == p * n + q * n && (p - q) * n == p * n - q * n
  {
  }

  lemma TimesAtLeast(q: int, n: int)
    requires q >= 1 && n >= 0
    ensures q * n >= n
  {
  }

  lemma NoMultiple(r: int, q: int, n: int)
    requires r == q * n && -n < r < n
    ensures r == 0
  {
    if q >= 1 { TimesAtLeast(q, n); }
    if q <= -1 { TimesAtLeast(-q, n); }
  }

  lemma ModStep(a: int, b: int, q: int, n: nat)
    requires 0 < n && a == b + q * n
    ensures a % n == b % n
  {
    var p := Quotient(a, n);
    var r := Quotient(b, n);
    Distribute(q, r, n);
    Distribute(q + r, p, n);
    NoMultiple(a % n - b % n, q + r - p, n);
  }

  lemma Congruent(a: int, b: int, n: nat) returns (q: int)
    requires 0 < n && a % n == b % n
    ensures a == b + q * n
  {
    var p := Quotient(a, n);
    var r := Quotient(b, n);
    Distribute(p, r, n);
    q := p - r;
  }

  lemma OddStride(key: nat, e: nat)
    requires 0 < e
    ensures Stride(key, Pow2(e)) % 2 == 1
  {
    OddRemainder(if key % 2 == 0 then key + 1 else key, Pow2(e - 1));
  }

  lemma OddRemainder(k: nat, m: nat)
    requires 0 < m && k % 2 == 1
    ensures k % (2 * m) % 2 == 1
  {
    var q := Quotient(k, 2 * m);
    HalfMul(q, m);
    OddLess(k, q * m, k % (2 * m));
  }

  lemma OddLess(k: int, p: int, r: int)
    requires k == 2 * p + r && k % 2 == 1
    ensures r % 2 == 1
  {
  }

  lemma HalfMul(q: int, m: int)
    ensures q * (2 * m) == 2 * (q * m) && (2 * q) * m == 2 * (q * m)
  {
  }

  /** Multiples of an odd number hit every remainder by a power of two. */
  lemma {:induction false} Solve(e: nat, d: nat, t: nat) returns (i: nat)
    requires d % 2 == 1
    ensures i < Pow2(e) && i * d % Pow2(e) == t % Pow2(e)
  {
    if e == 0 {
      i := 0;
    } else {
      var n := Pow2(e - 1);
      var j := Solve(e - 1, d, t);
      var q := Congruent(j * d, t, n);
      i := if q % 2 == 0 then j else j + n;
      SolveStep(j, d, t, q, n);
    }
  }

  lemma SolveStep(j: nat, d: nat, t: nat, q: int, n: nat)
    requires 0 < n && d % 2 == 1 && j * d == t + q * n
    ensures (if q % 2 == 0 then j else j + n) * d % (2 * n) == t % (2 * n)
  {
    if q % 2 == 0 {
      SolveHalf(j * d, t, q / 2, q, n);
    } else {
      Distribute(j, n, d);
      Distribute(q, d, n);
      Commute(n, d);
      SolveHalf((j + n) * d, t, (q + d) / 2, q + d, n);
    }
  }

  lemma Commute(a: int, b: int)
    ensures a * b == b * a
  {
  }

  lemma SolveHalf(a: int, t: int, p: int, q: int, n: nat)
    requires 0 < n && a == t + q * n && q == 2 * p
    ensures a % (2 * n) == t % (2 * n)
  {
    HalfMul(p, n);
    ModStep(a, t, p, 2 * n);
  }

  /** The first Pow2(e) probes meet every slot... */
  lemma ProbesReach(key: nat, e: nat, k: nat) returns (i: nat)
    requires 0 < e && k < Pow2(e)
    ensures i < Pow2(e) && Probe(key, Pow2(e), i) == k
  {
    var n, h, d := Pow2(e), Start(key, Pow2(e)), Stride(key, Pow2(e));
    OddStride(key, e);
    i := Solve(e, d, k + n - h);
    ReachStep(h, i * d, k, n);
  }

  lemma ReachStep(h: nat, a: nat, k: nat, n: nat)
    requires h < n && k < n && a % n == (k + n - h) % n
    ensures (h + a) % n == k
  {
    var q := Congruent(a, k + n - h, n);
    Distribute(q, 1, n);
    ModStep(h + a, k, q + 1, n);
    SmallMod(k, n);
  }

  lemma {:induction false} OddCancel(e: nat, x: int, d: nat, q: int)
    requires d % 2 == 1 && x * d == q * Pow2(e)
    ensures x % Pow2(e) == 0
  {
    if e > 0 {
      var n := Pow2(e - 1);
      HalfMul(q, n);
      OddCancel(e - 1, x, d, 2 * q);
      var y := Quotient(x, n);
      HalfCancel(x, y, d, q, n);
    }
  }

  lemma HalfCancel(x: int, y: int, d: nat, q: int, n: nat)
    requires 0 < n && d % 2 == 1 && x == y * n && x * d == (2 * q) * n
    ensures x % (2 * n) == 0
  {
    Regroup(y, n, d);
    CancelFactor(y * d, 2 * q, n);
    if y % 2 == 1 { OddProduct(y, d); }
    SolveHalf(x, 0, y / 2, y, n);
    SmallMod(0, 2 * n);
  }

  lemma Regroup(y: int, n: int, d: int)
    ensures (y * n) * d == (y * d) * n
  {
  }

  lemma CancelFactor(a: int, b: int, n: nat)
    requires 0 < n && a * n == b * n
    ensures a == b
  {
    Distribute(a, b, n);
    Distribute(b, a, n);
    if a < b { TimesAtLeast(b - a, n); }
    if a > b { TimesAtLeast(a - b, n); }
  }

  lemma OddProduct(a: int, b: int)
    requires a % 2 == 1 && b % 2 == 1
    ensures a * b % 2 == 1
  {
    assert a == 2 * (a / 2) + 1;
    assert a * b == 2 * ((a / 2) * b) + b;
  }

  /** ...and none of them twice. */
  lemma ProbesDistinct(key: nat, e: nat, i: nat, j: nat)
    requires 0 < e && i < j < Pow2(e)
    ensures Probe(key, Pow2(e), i) != Probe(key, Pow2(e), j)
  {
    var n, h, d := Pow2(e), Start(key, Pow2(e)), Stride(key, Pow2(e));
    OddStride(key, e);
    if Probe(key, n, i) == Probe(key, n, j) {
      var q := Congruent(h + j * d, h + i * d, n);
      Distribute(j, i, d);
      OddCancel(e, j - i, d, q);
      SmallMod(j - i, n);
    }
  }

  lemma SmallMod(x: nat, n: nat)
    requires x < n
    ensures x % n == x
  {
  }

  // ---------------------------------------------------------------- tables

  predicate Hit(tab: Table, key: nat, i: nat)
    requires 0 < |tab|
  {
    var t := tab[Probe(key, |tab|, i)].tag;
    t == key || t == 0
  }

  /** Probe i is the first to meet the key or a free slot. */
  ghost predicate FirstHit(tab: Table, key: nat, i: nat)
    requires 0 < |tab|
  {
    i < |tab| && Hit(tab, key, i) && forall j: nat {:trigger Hit(tab, key, j)} :: j < i ==> !Hit(tab, key, j)
  }

  ghost predicate FoundAt(tab: Table, key: nat, k: nat)
    requires 0 < |tab|
  {
    exists i: nat :: FirstHit(tab, key, i) && Probe(key, |tab|, i) == k
  }

  function Used(tab: Table): (n: nat)
    ensures n <= |tab|
  {
    if tab == [] then 0 else (if tab[0].tag != 0 then 1 else 0) + Used(tab[1..])
  }

  /** A slot is free, and every key is where a search for it ends. */
  ghost predicate TableOk(tab: Table, e: nat) {
    && 0 < e && |tab| == Pow2(e) && Used(tab) < |tab|
    && forall k {:trigger tab[k]} :: 0 <= k < |tab| && tab[k].tag != 0 ==> FoundAt(tab, tab[k].tag, k)
  }

  /** The map the table stands for; free slots lead to fail. */
  ghost predicate Stands(tab: Table, m: map<nat, nat>, fail: nat) {
    && (forall k {:trigger tab[k]} :: 0 <= k < |tab| ==>
          if tab[k].tag == 0 then tab[k].target == fail else tab[k].tag in m && tab[k].target == m[tab[k].tag])
    && 0 !in m
    && forall key {:trigger Holds(tab, key)} :: key in m ==> Holds(tab, key)
  }

  predicate Holds(tab: Table, key: nat) {
    exists k :: 0 <= k < |tab| && tab[k].tag == key
  }

  lemma {:induction false} FreeSlot(tab: Table) returns (k: nat)
    requires Used(tab) < |tab|
    ensures k < |tab| && tab[k].tag == 0
  {
    if tab[0].tag == 0 {
      k := 0;
    } else {
      k := FreeSlot(tab[1..]);
      k := k + 1;
    }
  }

  lemma FoundOnce(tab: Table, key: nat, k: nat, l: nat)
    requires 0 < |tab| && FoundAt(tab, key, k) && FoundAt(tab, key, l)
    ensures k == l
  {
    var i: nat :| FirstHit(tab, key, i) && Probe(key, |tab|, i) == k;
    var j: nat :| FirstHit(tab, key, j) && Probe(key, |tab|, j) == l;
    assert Hit(tab, key, i) && Hit(tab, key, j);
  }

  /** Where a search ends tells what the map holds for the key. */
  lemma FoundIs(tab: Table, e: nat, m: map<nat, nat>, fail: nat, key: nat, k: nat)
    requires TableOk(tab, e) && Stands(tab, m, fail) && key != 0 && k < |tab| && FoundAt(tab, key, k)
    ensures tab[k].target == if key in m then m[key] else fail
    ensures tab[k].tag == key <==> key in m
  {
    if key in m {
      assert Holds(tab, key);
      var l :| 0 <= l < |tab| && tab[l].tag == key;
      FoundOnce(tab, key, k, l);
    }
  }

  /** Putting a key where a search for it ends disturbs no other search. */
  lemma InsertKeeps(tab: Table, e: nat, m: map<nat, nat>, fail: nat, key: nat, target: nat, k: nat)
    requires TableOk(tab, e) && Stands(tab, m, fail) && key != 0 && k < |tab| && FoundAt(tab, key, k)
    requires Used(tab) + 1 < |tab|
    ensures TableOk(tab[k := Entry(key, target)], e) && Stands(tab[k := Entry(key, target)], m[key := target], fail)
    ensures Used(tab[k := Entry(key, target)]) <= Used(tab) + 1
  {
    InsertTable(tab, e, key, target, k);
    SlotOf(tab, key, k);
    forall l | 0 <= l < |tab| && l != k
      ensures tab[l].tag != key
    {
      if tab[l].tag == key { FoundOnce(tab, key, k, l); }
    }
    InsertStands(tab, m, fail, key, target, k);
  }

  lemma InsertTable(tab: Table, e: nat, key: nat, target: nat, k: nat)
    requires TableOk(tab, e) && key != 0 && k < |tab| && FoundAt(tab, key, k) && Used(tab) + 1 < |tab|
    ensures TableOk(tab[k := Entry(key, target)], e) && Used(tab[k := Entry(key, target)]) <= Used(tab) + 1
  {
    hide FoundAt;
    var t := tab[k := Entry(key, target)];
    UsedUpdate(tab, k, Entry(key, target));
    forall l | 0 <= l < |t| && t[l].tag != 0
      ensures FoundAt(t, t[l].tag, l)
    {
      InsertFound(tab, key, target, k, l);
    }
  }

  lemma InsertStands(tab: Table, m: map<nat, nat>, fail: nat, key: nat, target: nat, k: nat)
    requires Stands(tab, m, fail) && key != 0 && k < |tab| && (tab[k].tag == key || tab[k].tag == 0)
    requires forall l {:trigger tab[l]} :: 0 <= l < |tab| && l != k ==> tab[l].tag != key
    ensures Stands(tab[k := Entry(key, target)], m[key := target], fail)
  {
    var t, m' := tab[k := Entry(key, target)], m[key := target];
    forall l | 0 <= l < |t|
      ensures if t[l].tag == 0 then t[l].target == fail else t[l].tag in m' && t[l].target == m'[t[l].tag]
    {
      assert l != k ==> t[l] == tab[l];
    }
    forall y {:trigger Holds(t, y)} | y in m'
      ensures Holds(t, y)
    {
      if y == key {
        assert t[k].tag == y;
      } else {
        assert Holds(tab, y);
        var l :| 0 <= l < |tab| && tab[l].tag == y;
        assert t[l].tag == y;
      }
    }
  }

  lemma SlotOf(tab: Table, key: nat, k: nat)
    requires k < |tab| && FoundAt(tab, key, k)
    ensures tab[k].tag == key || tab[k].tag == 0
  {
    var i: nat :| FirstHit(tab, key, i) && Probe(key, |tab|, i) == k;
    assert Hit(tab, key, i);
  }

  lemma InsertFound(tab: Table, key: nat, target: nat, k: nat, l: nat)
    requires k < |tab| && key != 0 && FoundAt(tab, key, k) && l < |tab|
    requires l != k ==> tab[l].tag != 0 && FoundAt(tab, tab[l].tag, l)
    ensures var t := tab[k := Entry(key, target)]; FoundAt(t, t[l].tag, l)
  {
    var t := tab[k := Entry(key, target)];
    SlotOf(tab, key, k);
    var i: nat :| FirstHit(tab, key, i) && Probe(key, |tab|, i) == k;
    if l == k {
      assert Hit(tab, key, i) && Hit(t, key, i);
      forall j: nat | j < i
        ensures !Hit(t, key, j)
      {
        assert !Hit(tab, key, j);
      }
      assert FirstHit(t, key, i);
    } else {
      var x := tab[l].tag;
      var j: nat :| FirstHit(tab, x, j) && Probe(x, |tab|, j) == l;
      if x == key { FoundOnce(tab, key, k, l); }
      StillFirst(tab, key, target, k, x, j);
    }
  }

  lemma StillFirst(tab: Table, key: nat, target: nat, k: nat, x: nat, j: nat)
    requires k < |tab| && key != 0 && x != key && (tab[k].tag == 0 || tab[k].tag == key)
    requires FirstHit(tab, x, j) && x != 0 && tab[Probe(x, |tab|, j)].tag == x
    ensures FirstHit(tab[k := Entry(key, target)], x, j)
  {
    var t := tab[k := Entry(key, target)];
    assert Hit(tab, x, j);
    assert Hit(t, x, j);
    forall l: nat | l < j
      ensures !Hit(t, x, l)
    {
      assert !Hit(tab, x, l);
    }
  }

  lemma {:induction false} UsedUpdate(tab: Table, k: nat, x: Entry)
    requires k < |tab|
    ensures Used(tab[k := x]) <= Used(tab) + 1
  {
    if k == 0 {
      assert tab[k := x][1..] == tab[1..];
    } else {
      assert tab[k := x][1..] == tab[1..][k - 1 := x];
      UsedUpdate(tab[1..], k - 1, x);
    }
  }

  /** The probing loop: it ends, because the probes meet every slot and one of them is free. */
  method Search(tab: array<Entry>, key: nat, ghost e: nat) returns (k: nat)
    requires 0 < e && tab.Length == Pow2(e) && Used(tab[..]) < tab.Length
    ensures k < tab.Length && FoundAt(tab[..], key, k)
  {
    var size := tab.Length;
    var hash := Start(key, size);
    var d := Stride(key, size);
    ghost var i: nat := 0;
    ghost var free := FreeSlot(tab[..]);
    ghost var last := ProbesReach(key, e, free);
    ProbeFrom(key, size, 0, hash);
    while tab[hash].tag != key && tab[hash].tag != 0
      invariant hash == Probe(key, size, i) && i <= last
      invariant forall j: nat {:trigger Hit(tab[..], key, j)} :: j < i ==> !Hit(tab[..], key, j)
      decreases last - i
    {
      assert !Hit(tab[..], key, i);
      ProbeFrom(key, size, i, hash);
      hash := (hash + d) % size;
      i := i + 1;
    }
    k := hash;
    assert FirstHit(tab[..], key, i);
  }

  /** One more stride. */
  lemma ProbeFrom(key: nat, size: nat, i: nat, hash: nat)
    requires 0 < size
    ensures Probe(key, size, 0) == Start(key, size)
    ensures hash == Probe(key, size, i) ==> (hash + Stride(key, size)) % size == Probe(key, size, i + 1)
  {
    var h, d := Start(key, size), Stride(key, size);
    SmallMod(h, size);
    var q := Quotient(h + i * d, size);
    Distribute(i, 1, d);
    if hash == Probe(key, size, i) { ModStep(h + (i + 1) * d, hash + d, q, size); }
  }

  /** switch_on_cons and switch_on_func: where to go for a key. */
  method Switch(tab: array<Entry>, key: nat, ghost e: nat, ghost m: map<nat, nat>, ghost fail: nat)
      returns (target: nat)
    requires TableOk(tab[..], e) && Stands(tab[..], m, fail) && key != 0
    ensures target == if key in m then m[key] else fail
  {
    var k := Search(tab, key, e);
    FoundIs(tab[..], e, m, fail, key, k);
    target := tab[k].target;
  }

  /** fetch_centry for a hash table: entry for key, made room for by the caller. */
  method Insert(tab: array<Entry>, key: nat, target: nat, ghost e: nat, ghost m: map<nat, nat>, ghost fail: nat)
    requires TableOk(tab[..], e) && Stands(tab[..], m, fail) && key != 0 && Used(tab[..]) + 1 < tab.Length
    modifies tab
    ensures TableOk(tab[..], e) && Stands(tab[..], m[key := target], fail)
    ensures Used(tab[..]) <= Used(old(tab[..])) + 1
  {
    hide TableOk, Stands, FoundAt;
    TableLength(tab[..], e);
    var k := Search(tab, key, e);
    InsertKeeps(tab[..], e, m, fail, key, target, k);
    tab[k] := Entry(key, target);
  }

  lemma TableLength(tab: Table, e: nat)
    requires TableOk(tab, e)
    ensures 0 < e && |tab| == Pow2(e) && Used(tab) < |tab|
  {
  }

  const MIN_HASH_ENTRIES: nat := 4

  // ---------------------------------------------------------------- switches of either form

  /** Entries one after the other and, after the last, where other keys lead: if_cons and if_func. */
  ghost predicate ListOk(tab: Table, m: map<nat, nat>, fail: nat) {
    && |tab| > 0 && tab[|tab| - 1] == Entry(0, fail) && 0 !in m
    && (forall k {:trigger tab[k]} :: 0 <= k < |tab| - 1 ==> tab[k].tag in m && tab[k].target == m[tab[k].tag])
    && forall key {:trigger Holds(tab, key)} :: key in m ==> Holds(tab, key)
  }

  /** The table of a switch of s entries: a list up to MIN_HASH_ENTRIES, hashed beyond. */
  ghost predicate SwitchOk(tab: Table, s: nat, e: nat, m: map<nat, nat>, fail: nat) {
    if s > MIN_HASH_ENTRIES then |tab| == s && TableOk(tab, e) && Stands(tab, m, fail)
    else |tab| == s + 1 && ListOk(tab, m, fail)
  }

  /** if_cons and if_func: where to go for a key. */
  method Walk(tab: array<Entry>, key: nat, ghost m: map<nat, nat>, ghost fail: nat) returns (target: nat)
    requires ListOk(tab[..], m, fail) && key != 0
    ensures target == if key in m then m[key] else fail
  {
    var k := 0;
    while tab[k].tag != key && tab[k].tag != 0
      invariant k < tab.Length
      invariant forall j :: 0 <= j < k ==> tab[j].tag != key
      decreases tab.Length - k
    {
      assert tab[..][tab.Length - 1].tag == 0;
      k := k + 1;
    }
    if key in m { assert Holds(tab[..], key); }
    assert k < tab.Length - 1 ==> tab[..][k].tag in m;
    assert tab[..][tab.Length - 1] == Entry(0, fail);
    target := tab[k].target;
  }

  /** The entries of a table, in order, as a map. */
  function Entries(tab: Table): map<nat, nat> {
    if tab == [] then map[]
    else
      var m, x := Entries(tab[..|tab| - 1]), tab[|tab| - 1];
      if x.tag == 0 then m else m[x.tag := x.target]
  }

  /** In whatever order they are, they are the map the table stands for. */
  lemma {:induction false} EntriesIn(tab: Table, m: map<nat, nat>)
    requires forall k {:trigger tab[k]} :: 0 <= k < |tab| && tab[k].tag != 0 ==>
      tab[k].tag in m && tab[k].target == m[tab[k].tag]
    ensures forall key :: key in Entries(tab) <==> key != 0 && Holds(tab, key)
    ensures forall key :: key in Entries(tab) ==> key in m && Entries(tab)[key] == m[key]
  {
    if tab != [] {
      var n := |tab| - 1;
      EntriesIn(tab[..n], m);
      forall key
        ensures Holds(tab, key) <==> Holds(tab[..n], key) || tab[n].tag == key
      {
        if Holds(tab[..n], key) {
          var k :| 0 <= k < n && tab[..n][k].tag == key;
          assert tab[k].tag == key;
        }
        if Holds(tab, key) {
          var k :| 0 <= k <= n && tab[k].tag == key;
          assert k < n ==> tab[..n][k].tag == key;
        }
      }
    }
  }

  lemma EntriesOf(tab: Table, s: nat, e: nat, m: map<nat, nat>, fail: nat)
    requires SwitchOk(tab, s, e, m, fail)
    ensures Entries(tab) == m
  {
    hide TableOk;
    EntriesIn(tab, m);
  }

  lemma {:induction false} UsedSoFar(tab: Table, i: nat)
    requires i < |tab|
    ensures Used(tab[..i + 1]) == Used(tab[..i]) + (if tab[i].tag != 0 then 1 else 0)
    ensures Used(tab[..i]) <= Used(tab)
    decreases i
  {
    if i == 0 {
      assert tab[..1][1..] == [];
    } else {
      assert tab[..i + 1][1..] == tab[1..][..i] && tab[..i][1..] == tab[1..][..i - 1];
      UsedSoFar(tab[1..], i - 1);
    }
  }

  lemma UsedUpTo(tab: Table, i: nat)
    requires i <= |tab|
    ensures Used(tab[..i]) <= Used(tab)
  {
    if i < |tab| { UsedSoFar(tab, i); } else { assert tab[..i] == tab; }
  }

  lemma UsedOfList(tab: Table, m: map<nat, nat>, fail: nat, i: nat)
    requires ListOk(tab, m, fail) && i < |tab|
    ensures Used(tab[..i]) == i
  {
    if i > 0 {
      UsedOfList(tab, m, fail, i - 1);
      UsedSoFar(tab, i - 1);
      assert tab[i - 1].tag in m;
    }
  }

  lemma {:induction false} EmptyTable(n: nat, e: nat, fail: nat)
    requires 0 < e && n == Pow2(e)
    ensures
      var tab := seq(n, (k: nat) => Entry(0, fail));
      TableOk(tab, e) && Stands(tab, map[], fail) && Used(tab) == 0
  {
    var tab := seq(n, (k: nat) => Entry(0, fail));
    NoneUsed(tab);
  }

  lemma {:induction false} NoneUsed(tab: Table)
    requires forall k :: 0 <= k < |tab| ==> tab[k].tag == 0
    ensures Used(tab) == 0
  {
    if tab != [] { NoneUsed(tab[1..]); }
  }

  /** The entries there are and one more, and where other keys lead. */
  method Count(tab: array<Entry>, s: nat, ghost e: nat, ghost m: map<nat, nat>, ghost fail: nat)
      returns (n: nat, miss: nat)
    requires SwitchOk(tab[..], s, e, m, fail)
    ensures n == Used(tab[..]) + 1 && miss == fail
    ensures s <= MIN_HASH_ENTRIES ==> n == s + 1
  {
    hide TableOk;
    if s <= MIN_HASH_ENTRIES {
      UsedOfList(tab[..], m, fail, s);
      UsedSoFar(tab[..], s);
      assert tab[..][..s + 1] == tab[..];
      return s + 1, tab[s].target;
    }
    n, miss := 1, 0;
    ghost var open := FreeSlotOf(tab[..], e);
    var i := 0;
    while i < s
      invariant i <= s && n == Used(tab[..][..i]) + 1 && (open < i ==> miss == fail)
    {
      UsedSoFar(tab[..], i);
      assert tab[..][i] == tab[i];
      if tab[i].tag != 0 { n := n + 1; } else { miss := tab[i].target; }
      i := i + 1;
    }
    assert tab[..][..s] == tab[..];
  }

  lemma FreeSlotOf(tab: Table, e: nat) returns (k: nat)
    requires TableOk(tab, e)
    ensures k < |tab| && tab[k].tag == 0
  {
    k := FreeSlot(tab);
  }

  /** A power of two with room for n entries, a quarter more and one. */
  method Cases(n: nat) returns (cases: nat, ghost e: nat)
    requires n > MIN_HASH_ENTRIES
    ensures 0 < e && cases == Pow2(e) && n + 1 + n / 4 <= cases
  {
    cases, e := MIN_HASH_ENTRIES, 2;
    assert Pow2(2) == 4 by { assert Pow2(0) == 1 && Pow2(1) == 2; }
    while cases < n + 1 + n / 4
      invariant 2 <= e && cases == Pow2(e)
      decreases n + 1 + n / 4 - cases
    {
      cases, e := 2 * cases, e + 1;
    }
  }

  /** A hash table of so many cases with the entries of another table. */
  method Rehash(was: array<Entry>, i0: nat, cases: nat, miss: nat, ghost e: nat) returns (tab: array<Entry>)
    requires i0 <= was.Length && 0 < e && cases == Pow2(e) && Used(was[..]) + 1 < cases
    ensures fresh(tab) && tab.Length == cases && TableOk(tab[..], e) && Stands(tab[..], Entries(was[..i0]), miss)
    ensures Used(tab[..]) + 1 < cases
  {
    hide TableOk, Stands;
    tab := new Entry[cases](_ => Entry(0, miss));
    EmptyTable(cases, e, miss);
    assert tab[..] == seq(cases, (k: nat) => Entry(0, miss));
    var i := 0;
    while i < i0
      invariant i <= i0 && fresh(tab) && tab.Length == cases
      invariant TableOk(tab[..], e) && Stands(tab[..], Entries(was[..i]), miss)
      invariant Used(tab[..]) <= Used(was[..i]) && Used(was[..i]) <= Used(was[..])
    {
      UsedSoFar(was[..], i);
      assert was[..][..i + 1] == was[..i + 1] && was[..][..i] == was[..i] && was[..i + 1][..i] == was[..i];
      if was[i].tag != 0 { Insert(tab, was[i].tag, was[i].target, e, Entries(was[..i]), miss); }
      i := i + 1;
      UsedUpTo(was[..], i);
      if i < i0 { assert was[..][..i] == was[..i]; }
    }
  }

  lemma ListLength(tab: Table, m: map<nat, nat>, fail: nat)
    requires ListOk(tab, m, fail)
    ensures |tab| > 0 && forall k :: 0 <= k < |tab| - 1 ==> tab[k].tag != 0
  {
    assert forall k :: 0 <= k < |tab| - 1 ==> tab[k].tag in m;
  }

  /** A list with the entries of a shorter one; the place before its end is for the caller to fill. */
  method Relist(was: array<Entry>, n: nat, miss: nat) returns (tab: array<Entry>)
    requires 0 < n == was.Length && forall k :: 0 <= k < n - 1 ==> was[k].tag != 0
    ensures fresh(tab) && tab.Length == n + 1 && tab[n] == Entry(0, miss) && tab[..n - 1] == was[..n - 1]
  {
    tab := new Entry[n + 1](_ => Entry(0, miss));
    var i := 0;
    while i < n - 1
      invariant i <= n - 1 && fresh(tab) && tab.Length == n + 1 && tab[n] == Entry(0, miss)
      invariant forall k :: 0 <= k < i ==> tab[k] == was[k]
    {
      if was[i].tag != 0 { tab[i] := was[i]; }
      i := i + 1;
    }
  }

  lemma ListAdded(was: Table, tab: Table, m: map<nat, nat>, fail: nat, key: nat, target: nat)
    requires ListOk(was, m, fail) && key != 0 && key !in m
    requires |tab| == |was| + 1 && tab[|was|] == Entry(0, fail) && tab[..|was| - 1] == was[..|was| - 1]
    ensures ListOk(tab[|was| - 1 := Entry(key, target)], m[key := target], fail)
  {
    var n, q, m' := |was| - 1, tab[|was| - 1 := Entry(key, target)], m[key := target];
    forall k | 0 <= k <= n
      ensures q[k].tag in m' && q[k].target == m'[q[k].tag]
    {
      if k < n { assert was[..n][k] == tab[..n][k] == q[k] && was[k].tag in m; }
    }
    forall y {:trigger Holds(q, y)} | y in m'
      ensures Holds(q, y)
    {
      if y == key {
        assert q[n].tag == y;
      } else {
        assert Holds(was, y);
        var k :| 0 <= k < |was| && was[k].tag == y;
        assert was[..n][k] == tab[..n][k] == q[k];
      }
    }
  }

  /** expand_ctable and expand_ftable: the table to put a new key in, and where in it; it may be the same table. As soon
      as the caller has stored the key there, the table answers as before for every other key. A hash table has to have
      more entries than a list could take: callers come here only when it is nearly full. */
  method Expand(was: array<Entry>, s: nat, key: nat, ghost e: nat, ghost m: map<nat, nat>, ghost fail: nat)
      returns (tab: array<Entry>, size: nat, k: nat, ghost d: nat)
    requires SwitchOk(was[..], s, e, m, fail) && key != 0 && key !in m
    requires s > MIN_HASH_ENTRIES ==> Used(was[..]) >= MIN_HASH_ENTRIES
    ensures (tab == was && size == s) || fresh(tab)
    ensures k < tab.Length && forall target ::
      SwitchOk(tab[..][k := Entry(key, target)], size, d, m[key := target], fail)
  {
    hide TableOk, Stands, ListOk;
    var n, miss := Count(was, s, e, m, fail);
    EntriesOf(was[..], s, e, m, fail);
    if n > MIN_HASH_ENTRIES {
      var cases;
      cases, d := Cases(n);
      if cases == s {
        TableLength(was[..], e);
        k := Search(was, key, e);
        PutBack(was[..], s, e, m, fail, key, k);
        return was, s, k, e;
      }
      tab := Rehash(was, was.Length, cases, miss, d);
      assert was[..was.Length] == was[..];
      size := cases;
      TableLength(tab[..], d);
      k := Search(tab, key, d);
      PutBack(tab[..], size, d, m, fail, key, k);
    } else {
      ListLength(was[..], m, fail);
      tab := Relist(was, n, miss);
      size, k, d := n, n - 1, e;
      forall target
        ensures ListOk(tab[..][k := Entry(key, target)], m[key := target], fail)
      {
        ListAdded(was[..], tab[..], m, fail, key, target);
      }
    }
  }

  lemma PutBack(tab: Table, s: nat, e: nat, m: map<nat, nat>, fail: nat, key: nat, k: nat)
    requires TableOk(tab, e) && Stands(tab, m, fail) && key != 0 && k < |tab| == s && FoundAt(tab, key, k)
    requires Used(tab) + 1 < |tab| && s > MIN_HASH_ENTRIES
    ensures forall target :: SwitchOk(tab[k := Entry(key, target)], s, e, m[key := target], fail)
  {
    hide TableOk, Stands, FoundAt;
    forall target
      ensures SwitchOk(tab[k := Entry(key, target)], s, e, m[key := target], fail)
    {
      InsertKeeps(tab, e, m, fail, key, target, k);
    }
  }
}
