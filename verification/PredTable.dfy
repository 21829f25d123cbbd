/** The predicates of functors: the first of a functor hangs from it, the others are in one hash table for all. */
module PredTable {
  import opened Prelude

  /** A predicate entry; next is NextOfPE. */
  datatype Entry = Entry(functor: nat, mod: nat, multifile: bool, next: Option<nat>)

  const WORD: nat := 0x1_0000_0000_0000_0000
  const PRED_HASH_INITIAL: nat := 1039
  const PRED_HASH_INCREMENT: nat := 7919

  /** The prolog module is 0 in an entry, whichever way it is named. */
  const PROLOG: nat := 0

  function PredHash(functor: nat, mod: nat, size: nat): (h: nat)
    requires size > 0
    ensures h < size
  {
    ((functor + mod) % WORD) / 4 % size
  }

  // ---------------------------------------------------------------- chains

  ghost predicate IsChain(entries: seq<Entry>, head: Option<nat>, s: seq<nat>)
    decreases |s|
  {
    if s == [] then head == None
    else head == Some(s[0]) && s[0] < |entries| && IsChain(entries, entries[s[0]].next, s[1..])
  }

  /** The same predicates, whatever their links. */
  ghost predicate SameIds(p: seq<Entry>, q: seq<Entry>) {
    |p| <= |q| && forall i :: 0 <= i < |p| ==> q[i] == p[i].(next := q[i].next)
  }

  function HashOf(entries: seq<Entry>, x: nat, size: nat): (h: nat)
    requires x < |entries| && size > 0
    ensures h < size
  {
    PredHash(entries[x].functor, entries[x].mod, size)
  }

  /** Entries of who, each once, with the hash h. */
  ghost predicate Sorted(entries: seq<Entry>, b: seq<nat>, size: nat, h: nat, who: set<nat>)
    requires size > 0
  {
    Distinct(b) && forall i {:trigger b[i]} :: 0 <= i < |b| ==>
        b[i] in who && b[i] < |entries| && HashOf(entries, b[i], size) == h
  }

  ghost predicate InTable(entries: seq<Entry>, buckets: seq<seq<nat>>, x: nat)
    requires |buckets| > 0
  {
    x < |entries| && x in buckets[HashOf(entries, x, |buckets|)]
  }

  /** A table whose chains have exactly the entries of who, each once and in its slot. */
  ghost predicate Holds(entries: seq<Entry>, table: seq<Option<nat>>, buckets: seq<seq<nat>>, who: set<nat>) {
    && |table| == |buckets| > 0
    && (forall h {:trigger buckets[h]} :: 0 <= h < |table| ==>
          IsChain(entries, table[h], buckets[h]) && Sorted(entries, buckets[h], |table|, h, who))
    && (forall x: nat {:trigger InTable(entries, buckets, x)} :: x in who ==> InTable(entries, buckets, x))
  }

  lemma {:induction false} ChainSame(p: seq<Entry>, q: seq<Entry>, head: Option<nat>, s: seq<nat>)
    requires IsChain(p, head, s) && |p| <= |q| && forall x :: x in s && x < |p| ==> q[x] == p[x]
    ensures IsChain(q, head, s)
    decreases |s|
  {
    if s != [] { ChainSame(p, q, p[s[0]].next, s[1..]); }
  }

  lemma {:induction false} ChainFrom(p: seq<Entry>, head: Option<nat>, s: seq<nat>, k: nat)
    requires IsChain(p, head, s) && k < |s|
    ensures s[k] < |p|
    decreases |s|
  {
    if k > 0 { ChainFrom(p, p[s[0]].next, s[1..], k - 1); }
  }

  function Linked(entries: seq<Entry>, x: nat, next: Option<nat>): seq<Entry>
    requires x < |entries|
  {
    entries[x := entries[x].(next := next)]
  }

  lemma SortedSame(p: seq<Entry>, q: seq<Entry>, b: seq<nat>, size: nat, h: nat, who: set<nat>, more: set<nat>)
    requires size > 0 && Sorted(p, b, size, h, who) && SameIds(p, q) && who <= more
    ensures Sorted(q, b, size, h, more)
  {
  }

  lemma SortedPush(p: seq<Entry>, b: seq<nat>, size: nat, h: nat, who: set<nat>, x: nat)
    requires size > 0 && Sorted(p, b, size, h, who) && x < |p| && HashOf(p, x, size) == h && x !in who
    ensures Sorted(p, [x] + b, size, h, who + {x}) && x !in b
  {
  }

  /** Pushing an entry in front of its chain. */
  lemma PushHolds(p: seq<Entry>, table: seq<Option<nat>>, buckets: seq<seq<nat>>, who: set<nat>, x: nat)
    requires Holds(p, table, buckets, who) && x < |p| && x !in who
    ensures
      var h := HashOf(p, x, |table|);
      Holds(Linked(p, x, table[h]), table[h := Some(x)], buckets[h := [x] + buckets[h]], who + {x})
  {
    hide Sorted, InTable;
    var n, h := |table|, HashOf(p, x, |table|);
    var q, t, b := Linked(p, x, table[h]), table[h := Some(x)], buckets[h := [x] + buckets[h]];
    forall k | 0 <= k < n
      ensures IsChain(q, t[k], b[k]) && Sorted(q, b[k], n, k, who + {x})
    {
      assert Sorted(p, buckets[k], n, k, who);
      NotIn(p, buckets[k], n, k, who, x);
      ChainSame(p, q, table[k], buckets[k]);
      if k == h {
        assert b[h][1..] == buckets[h];
        SortedPush(p, buckets[h], n, h, who, x);
        SortedSame(p, q, b[h], n, h, who + {x}, who + {x});
      } else {
        SortedSame(p, q, b[k], n, k, who, who + {x});
      }
    }
    forall y: nat | y in who + {x}
      ensures InTable(q, b, y)
    {
      if y != x { assert InTable(p, buckets, y); }
      StaysIn(p, q, buckets, b, y, x, h);
    }
  }

  lemma NotIn(p: seq<Entry>, b: seq<nat>, size: nat, h: nat, who: set<nat>, x: nat)
    requires size > 0 && Sorted(p, b, size, h, who) && x !in who
    ensures x !in b
  {
  }

  lemma StaysIn(p: seq<Entry>, q: seq<Entry>, buckets: seq<seq<nat>>, b: seq<seq<nat>>, y: nat, x: nat, h: nat)
    requires |b| == |buckets| > 0 && SameIds(p, q) && h < |b| && b == buckets[h := [x] + buckets[h]]
    requires if y == x then x < |p| && HashOf(p, x, |b|) == h else InTable(p, buckets, y)
    ensures InTable(q, b, y)
  {
  }

  /** Links of entries that are not in the table do not matter to it, nor do new entries. */
  lemma HoldsSame(p: seq<Entry>, q: seq<Entry>, table: seq<Option<nat>>, buckets: seq<seq<nat>>, who: set<nat>)
    requires Holds(p, table, buckets, who) && SameIds(p, q) && forall x :: x in who && x < |p| ==> q[x] == p[x]
    ensures Holds(q, table, buckets, who)
  {
    hide InTable;
    forall k | 0 <= k < |table|
      ensures IsChain(q, table[k], buckets[k]) && Sorted(q, buckets[k], |table|, k, who)
    {
      assert Sorted(p, buckets[k], |table|, k, who);
      ChainSame(p, q, table[k], buckets[k]);
      SortedSame(p, q, buckets[k], |table|, k, who, who);
    }
    forall y: nat | y in who
      ensures InTable(q, buckets, y)
    {
      assert InTable(p, buckets, y);
      SameIn(p, q, buckets, y);
    }
  }

  lemma SameIn(p: seq<Entry>, q: seq<Entry>, buckets: seq<seq<nat>>, y: nat)
    requires |buckets| > 0 && SameIds(p, q) && InTable(p, buckets, y)
    ensures InTable(q, buckets, y)
  {
  }

  lemma HoldsSize(p: seq<Entry>, table: seq<Option<nat>>, buckets: seq<seq<nat>>, who: set<nat>)
    requires Holds(p, table, buckets, who)
    ensures |table| == |buckets| > 0
  {
  }

  lemma SlotChain(p: seq<Entry>, table: seq<Option<nat>>, buckets: seq<seq<nat>>, who: set<nat>, h: nat)
    requires Holds(p, table, buckets, who)
    ensures |table| == |buckets| > 0
    ensures h < |table| ==> IsChain(p, table[h], buckets[h]) && forall x: nat :: x in buckets[h] ==> x in who && x < |p|
  {
    hide InTable;
    if h < |table| { assert Sorted(p, buckets[h], |table|, h, who); }
  }

  /** An entry of the table is in the chain its functor and module lead to. */
  lemma InItsSlot(p: seq<Entry>, table: seq<Option<nat>>, buckets: seq<seq<nat>>, who: set<nat>, f: nat, m: nat)
    requires Holds(p, table, buckets, who)
    ensures |table| == |buckets| > 0
    ensures forall x: nat :: x in who && x < |p| && p[x].functor == f && p[x].mod == m ==>
      x in buckets[PredHash(f, m, |table|)]
  {
    forall x: nat | x in who && x < |p| && p[x].functor == f && p[x].mod == m
      ensures x in buckets[PredHash(f, m, |table|)]
    {
      assert InTable(p, buckets, x);
    }
  }

  lemma EmptyHolds(entries: seq<Entry>, n: nat)
    requires n > 0
    ensures Holds(entries, seq(n, i => None), seq(n, i => []), {})
  {
  }

  // ---------------------------------------------------------------- which entry answers

  predicate IsEntry(entries: seq<Entry>, x: nat, f: nat, m: nat) {
    x < |entries| && entries[x].functor == f && entries[x].mod == m
  }

  function Canon(m: nat, termProlog: nat): nat {
    if m == termProlog then PROLOG else m
  }

  /** The two names of the prolog module. */
  predicate System(m: nat, termProlog: nat) {
    m == PROLOG || m == termProlog
  }

  predicate OfSystem(entries: seq<Entry>, x: nat, f: nat, termProlog: nat) {
    x < |entries| && entries[x].functor == f && System(entries[x].mod, termProlog)
  }

  /** A functor's last entry in the prolog module. */
  ghost predicate Newest(entries: seq<Entry>, x: nat, f: nat, termProlog: nat) {
    OfSystem(entries, x, f, termProlog) && forall y: nat :: x < y ==> !OfSystem(entries, y, f, termProlog)
  }

  /** A functor's entry in the prolog module is the one for every module, unless it is multifile; one that was declared
      multifile has the module's other name, and is the one for that name only. */
  ghost predicate Shadows(entries: seq<Entry>, x: nat, f: nat, m: nat, termProlog: nat) {
    && Newest(entries, x, f, termProlog)
    && if entries[x].mod == PROLOG then !entries[x].multifile || System(m, termProlog) else m == termProlog
  }

  /** The entry for functor f called in module m. */
  ghost predicate Found(entries: seq<Entry>, x: nat, f: nat, m: nat, termProlog: nat) {
    || Shadows(entries, x, f, m, termProlog)
    || (IsEntry(entries, x, f, m) && forall y: nat :: !Shadows(entries, y, f, m, termProlog))
  }

  ghost predicate UniqueIds(entries: seq<Entry>, termProlog: nat) {
    forall x, y :: 0 <= x < y < |entries| && entries[x].mod != termProlog ==>
        entries[x].functor != entries[y].functor || entries[x].mod != entries[y].mod
  }

  lemma {:induction false} HasNewest(entries: seq<Entry>, x: nat, f: nat, termProlog: nat) returns (z: nat)
    requires OfSystem(entries, x, f, termProlog)
    ensures Newest(entries, z, f, termProlog)
    decreases |entries| - x
  {
    z := x;
    if !Newest(entries, x, f, termProlog) {
      var y: nat :| x < y && OfSystem(entries, y, f, termProlog);
      z := HasNewest(entries, y, f, termProlog);
    }
  }

  lemma FoundUnique(entries: seq<Entry>, x: nat, y: nat, f: nat, m: nat, termProlog: nat)
    requires UniqueIds(entries, termProlog)
    requires Found(entries, x, f, m, termProlog) && Found(entries, y, f, m, termProlog)
    ensures x == y
  {
    if m == termProlog && IsEntry(entries, x, f, m) {
      var z := HasNewest(entries, x, f, termProlog);
      assert Shadows(entries, z, f, m, termProlog);
    }
  }

  /** Links have nothing to do with it. */
  lemma FoundSame(p: seq<Entry>, q: seq<Entry>, x: nat, f: nat, m: nat, termProlog: nat)
    requires SameIds(p, q) && |p| == |q|
    ensures Found(p, x, f, m, termProlog) <==> Found(q, x, f, m, termProlog)
  {
    assert forall y: nat :: OfSystem(p, y, f, termProlog) <==> OfSystem(q, y, f, termProlog);
    assert forall y: nat :: Shadows(p, y, f, m, termProlog) <==> Shadows(q, y, f, m, termProlog);
  }

  /** A new entry changes no answer but its own, unless it is the functor's in the prolog module: that one takes
      over. */
  lemma NewAnswers(p: seq<Entry>, q: seq<Entry>, termProlog: nat, f: nat, m: nat, x: nat)
    requires SameIds(p, q) && |q| == |p| + 1 && !q[|p|].multifile && q[|p|].mod != termProlog
    requires UniqueIds(q, termProlog)
    ensures Found(q, x, f, m, termProlog) <==>
      if q[|p|].functor == f && (q[|p|].mod == PROLOG ||
          (q[|p|].mod == m && forall y: nat :: !Shadows(p, y, f, m, termProlog)))
      then x == |p|
      else Found(p, x, f, m, termProlog)
  {
    assert forall y: nat :: y < |p| ==> (OfSystem(p, y, f, termProlog) <==> OfSystem(q, y, f, termProlog));
    if q[|p|].functor == f && q[|p|].mod == PROLOG {
      assert Newest(q, |p|, f, termProlog) && Shadows(q, |p|, f, m, termProlog);
      assert forall y: nat :: Newest(q, y, f, termProlog) ==> y == |p|;
    } else {
      assert !OfSystem(q, |p|, f, termProlog);
      assert forall y: nat :: Newest(p, y, f, termProlog) <==> Newest(q, y, f, termProlog);
      assert forall y: nat :: Shadows(p, y, f, m, termProlog) <==> Shadows(q, y, f, m, termProlog);
    }
  }

  /** An entry declared multifile: one of the prolog module takes that module's other name. */
  function Declared(e: Entry, termProlog: nat): Entry {
    e.(multifile := true, mod := if e.mod == PROLOG then termProlog else e.mod)
  }

  /** Declaring a predicate multifile changes no answer, unless it is one of the prolog module: that one then answers
      for TermProlog only, every other module has what it has itself, and PROLOG_MODULE has nothing. */
  lemma DeclaredAnswers(p: seq<Entry>, x: nat, termProlog: nat, f: nat, m: nat, y: nat)
    requires UniqueIds(p, termProlog) && termProlog != PROLOG && x < |p|
    requires p[x].mod == PROLOG ==> Newest(p, x, p[x].functor, termProlog)
    ensures
      var q := p[x := Declared(p[x], termProlog)];
      Found(q, y, f, m, termProlog) <==>
        if p[x].functor == f && p[x].mod == PROLOG
        then (if m == termProlog then y == x else m != PROLOG && IsEntry(p, y, f, m))
        else Found(p, y, f, m, termProlog)
  {
    var q := p[x := Declared(p[x], termProlog)];
    assert forall z: nat :: OfSystem(p, z, f, termProlog) <==> OfSystem(q, z, f, termProlog);
    assert forall z: nat :: Newest(p, z, f, termProlog) <==> Newest(q, z, f, termProlog);
    if p[x].functor == f && p[x].mod == PROLOG {
      assert forall z: nat :: Newest(q, z, f, termProlog) ==> z == x;
      assert Shadows(q, x, f, termProlog, termProlog);
    } else {
      assert forall z: nat :: Shadows(p, z, f, m, termProlog) <==> Shadows(q, z, f, m, termProlog);
    }
  }

  /** A prolog predicate declared multifile: a call in PROLOG_MODULE makes a second one, which then answers for every
      module, the other name included. */
  lemma DeclaredLost(termProlog: nat, f: nat, m: nat)
    requires termProlog != PROLOG
    ensures
      var p := [Entry(f, PROLOG, false, None)];
      var q := p[0 := Declared(p[0], termProlog)];
      var r := [q[0], Entry(f, PROLOG, false, Some(1))];
      && Found(p, 0, f, m, termProlog)
      && Found(q, 0, f, termProlog, termProlog) && (forall y: nat :: !Found(q, y, f, PROLOG, termProlog))
      && Found(r, 1, f, m, termProlog) && !Found(r, 0, f, m, termProlog)
  {
    var p := [Entry(f, PROLOG, false, None)];
    var q := p[0 := Declared(p[0], termProlog)];
    var r := [q[0], Entry(f, PROLOG, false, Some(1))];
    assert Newest(p, 0, f, termProlog);
    forall y: nat
      ensures Found(q, y, f, PROLOG, termProlog) <==> false
    {
      DeclaredAnswers(p, 0, termProlog, f, PROLOG, y);
    }
    DeclaredAnswers(p, 0, termProlog, f, termProlog, 0);
    NewAnswers(q, r, termProlog, f, m, 1);
    NewAnswers(q, r, termProlog, f, m, 0);
  }

  // ---------------------------------------------------------------- the table

  /** The first entry of a functor, and whether it is the only one: its link then is nil, and else to itself. */
  ghost predicate FirstOk(entries: seq<Entry>, props: map<nat, nat>, f: nat)
    requires f in props
  {
    && props[f] < |entries| && entries[props[f]].functor == f
    && entries[props[f]].next == if Alone(entries, f, props[f]) then None else Some(props[f])
  }

  /** An entry in the prolog module is the first of its functor; those declared multifile are, or were. */
  ghost predicate EntryOk(entries: seq<Entry>, props: map<nat, nat>, termProlog: nat, x: nat)
    requires x < |entries|
  {
    && entries[x].functor in props
    && (entries[x].mod == termProlog ==> entries[x].multifile)
    && (System(entries[x].mod, termProlog) ==>
          var y := props[entries[x].functor];
          x <= y < |entries| && System(entries[y].mod, termProlog) && (entries[x].mod == PROLOG ==> x == y))
  }

  ghost predicate FirstsOk(entries: seq<Entry>, props: map<nat, nat>, termProlog: nat) {
    && (forall f: nat {:trigger FirstOk(entries, props, f)} :: f in props ==> FirstOk(entries, props, f))
    && (forall x {:trigger EntryOk(entries, props, termProlog, x)} :: 0 <= x < |entries| ==>
        EntryOk(entries, props, termProlog, x))
  }

  ghost predicate Alone(entries: seq<Entry>, f: nat, x: nat) {
    forall y :: 0 <= y < |entries| && entries[y].functor == f ==> y == x
  }

  /** The entries that are not the first of their functor. */
  ghost predicate AreOthers(entries: seq<Entry>, props: map<nat, nat>, who: set<nat>) {
    forall x: nat :: x in who <==> x < |entries| && entries[x].functor in props && props[entries[x].functor] != x
  }

  class PredTable {
    const termProlog: nat
    var entries: seq<Entry>
    var props: map<nat, nat>
    var table: seq<Option<nat>>
    var count: nat
    ghost var buckets: seq<seq<nat>>
    ghost var others: set<nat>

    ghost predicate Valid()
      reads this
    {
      && termProlog != PROLOG
      && UniqueIds(entries, termProlog) && FirstsOk(entries, props, termProlog) && AreOthers(entries, props, others)
      && Holds(entries, table, buckets, others)
      && count == |others| && 10 * count <= 6 * |table|
    }

    constructor (termProlog: nat)
      requires termProlog != PROLOG
      ensures Valid() && entries == []
    {
      this.termProlog := termProlog;
      entries, props, count, others := [], map[], 0, {};
      table := seq(PRED_HASH_INITIAL, _ => None);
      buckets := seq(PRED_HASH_INITIAL, _ => []);
    }

    /** The chain of a slot, walked for a functor and module. */
    method Search(f: nat, m: nat) returns (r: Option<nat>)
      requires Valid()
      ensures r.Some? ==> r.value in others && IsEntry(entries, r.value, f, m)
      ensures r == None ==> forall x: nat :: x in others ==> !IsEntry(entries, x, f, m)
    {
      hide UniqueIds, FirstsOk, AreOthers, Holds;
      InItsSlot(entries, table, buckets, others, f, m);
      SlotChain(entries, table, buckets, others, PredHash(f, m, |table|));
      var h := PredHash(f, m, |table|);
      var p := table[h];
      ghost var done, rest := [], buckets[h];
      while p.Some?
        invariant IsChain(entries, p, rest) && buckets[h] == done + rest
        invariant forall x: nat :: x in done ==> !IsEntry(entries, x, f, m)
        decreases |rest|
      {
        assert rest[0] in buckets[h];
        if entries[p.value].functor == f && entries[p.value].mod == m { return p; }
        done, rest := done + [rest[0]], rest[1..];
        p := entries[p.value].next;
      }
      assert done == buckets[h];
      return None;
    }

    /** One chain of the old table, entry by entry, onto the chains of the new one. */
    method MoveChain(p0: Option<nat>, np0: seq<Option<nat>>, ghost s: seq<nat>, ghost nb0: seq<seq<nat>>,
        ghost who: set<nat>)
      returns (np: seq<Option<nat>>, ghost nb: seq<seq<nat>>, ghost all: set<nat>)
      requires IsChain(entries, p0, s) && Distinct(s) && Holds(entries, np0, nb0, who) && forall x: nat :: x in s ==>
        x !in who
      modifies this`entries
      ensures Holds(entries, np, nb, all) && |np| == |np0| && Relinked(old(entries), entries, s)
      ensures forall x: nat :: x in all <==> x in who || x in s
    {
      hide Holds, HashOf, Relinked, Distinct;
      np, nb, all := np0, nb0, who;
      var p := p0;
      ghost var done: seq<nat>, rest := [], s;
      RelinkedNone(entries);
      while p.Some?
        invariant s == done + rest && |np| == |np0| && Distinct(rest)
        invariant Relinked(old(entries), entries, done)
        invariant IsChain(entries, p, rest) && Holds(entries, np, nb, all)
        invariant forall x: nat :: x in all <==> x in who || x in done
        invariant forall x: nat :: x in rest ==> x !in all
        decreases |rest|
      {
        var x := p.value;
        HoldsSize(entries, np, nb, all);
        var h := HashOf(entries, x, |np|);
        var next := entries[x].next;
        FirstApart(rest);
        PushHolds(entries, np, nb, all, x);
        ChainSame(entries, Linked(entries, x, np[h]), next, rest[1..]);
        RelinkedMore(old(entries), entries, done, x, np[h]);
        entries := Linked(entries, x, np[h]);
        np, nb, all := np[h := Some(x)], nb[h := [x] + nb[h]], all + {x};
        done, rest := done + [x], rest[1..];
        p := next;
      }
      assert done == s;
    }

    /** ExpandPredHash: every chain moved to a larger table. */
    method ExpandPredHash()
      requires Holds(entries, table, buckets, others)
      modifies this`entries, this`table, this`buckets
      ensures Holds(entries, table, buckets, others) && |table| == |old(table)| + PRED_HASH_INCREMENT
      ensures SameIds(old(entries), entries) && |entries| == |old(entries)|
      ensures forall x :: 0 <= x < |entries| && x !in others ==> entries[x] == old(entries)[x]
    {
      hide Holds, HashOf, Relinked, Distinct;
      HoldsSize(entries, table, buckets, others);
      var size := |table| + PRED_HASH_INCREMENT;
      var np: seq<Option<nat>> := seq(size, _ => None);
      ghost var nb: seq<seq<nat>>, all: set<nat> := seq(size, _ => []), {};
      EmptyHolds(entries, size);
      assert np == seq(size, i => None) && nb == seq(size, i => []);
      ghost var before := entries;
      AllChains(entries, table, buckets, others);
      var i := 0;
      while i < |table|
        invariant i <= |table| && |np| == size && table == old(table) && buckets == old(buckets)
        invariant SameIds(before, entries) && |entries| == |before|
        invariant forall x :: 0 <= x < |entries| && x !in others ==> entries[x] == before[x]
        invariant Holds(entries, np, nb, all)
        invariant forall x: nat :: x in all <==> x in others && x < |before| && HashOf(before, x, |table|) < i
        invariant forall k :: i <= k < |table| ==> IsChain(entries, table[k], buckets[k])
      {
        ghost var mid := entries;
        SlotIs(before, table, buckets, others, i);
        np, nb, all := MoveChain(table[i], np, buckets[i], nb, all);
        RestKept(before, mid, entries, table, buckets, others, i);
        i := i + 1;
      }
      InRange(before, table, buckets, others);
      assert all == others;
      table, buckets := np, nb;
    }

    /** An entry in front of the chain its functor and module lead to. */
    method Insert(x: nat) returns (ghost next: Option<nat>)
      requires Holds(entries, table, buckets, others) && x < |entries| && x !in others
      modifies this`entries, this`table, this`buckets, this`others
      ensures Holds(entries, table, buckets, others) && others == old(others) + {x} && |table| == |old(table)|
      ensures |entries| == |old(entries)| && entries == Linked(old(entries), x, next)
    {
      hide Holds, HashOf;
      HoldsSize(entries, table, buckets, others);
      PushHolds(entries, table, buckets, others, x);
      var h := HashOf(entries, x, |table|);
      next := table[h];
      entries := Linked(entries, x, table[h]);
      table, buckets, others := table[h := Some(x)], buckets[h := [x] + buckets[h]], others + {x};
    }

    /** A larger table answers the same. */
    method Grow()
      requires Valid()
      modifies this`entries, this`table, this`buckets
      ensures Valid() && |table| == |old(table)| + PRED_HASH_INCREMENT
      ensures SameIds(old(entries), entries) && |entries| == |old(entries)|
      ensures forall x: nat, f: nat, m: nat ::
                Found(entries, x, f, m, termProlog) <==> Found(old(entries), x, f, m, termProlog)
    {
      hide Holds, UniqueIds, FirstsOk, AreOthers, Found;
      ghost var p := entries;
      ExpandPredHash();
      IdsKept(p, entries, props, others, termProlog);
      forall x: nat, f: nat, m: nat
        ensures Found(entries, x, f, m, termProlog) <==> Found(p, x, f, m, termProlog)
      {
        FoundSame(p, entries, x, f, m, termProlog);
      }
    }

    /** The prolog module's entry takes the place of the first one, which goes into the table; any other goes there
        itself. */
    method PushOther(f: nat, mod: nat, x: nat) returns (ghost next: Option<nat>)
      requires Holds(entries, table, buckets, others) && f in props && props[f] < |entries| && x < |entries|
      requires props[f] !in others && x !in others
      modifies this`entries, this`table, this`buckets, this`others, this`props
      ensures Holds(entries, table, buckets, others) && |table| == |old(table)|
      ensures others == old(others) + {if mod == PROLOG then old(props)[f] else x}
      ensures props == if mod == PROLOG then old(props)[f := x] else old(props)
      ensures entries == Linked(old(entries), if mod == PROLOG then old(props)[f] else x, next)
    {
      hide Holds;
      if mod == PROLOG {
        next := Insert(props[f]);
        props := props[f := x];
      } else {
        next := Insert(x);
      }
    }

    /** A new entry for a functor that has some. */
    method AddOther(f: nat, mod: nat)
      requires Valid() && f in props && mod != termProlog && 10 * (count + 1) <= 6 * |table|
      requires forall x: nat :: !IsEntry(entries, x, f, mod)
      modifies this
      ensures Valid() && NewAt(old(entries), entries, f, mod)
    {
      hide Holds, UniqueIds, FirstsOk, AreOthers, Alone, NewAt, NewFirst;
      ghost var p, first, who := entries, props, others;
      FirstsApart(p, props, who, termProlog);
      var x := |entries|;
      entries := entries + [Entry(f, mod, false, None)];
      AppendNew(p, f, mod);
      HoldsSame(p, entries, table, buckets, others);
      count := count + 1;
      ghost var next := PushOther(f, mod, x);
      ghost var u := entries;
      FirstLinked(p, u, first, props, who, others, termProlog, f, mod, next);
      entries := Linked(entries, props[f], Some(props[f]));
      HoldsFirst(u, entries, table, buckets, others, props[f]);
      NewUnique(p, entries, f, mod, termProlog);
      NewFirsts(p, entries, first, props, termProlog, f);
      NewOthers(p, entries, first, props, who, others, termProlog, f);
    }

    /** A functor's first entry. */
    method AddFirst(f: nat, mod: nat)
      requires Valid() && f !in props && mod != termProlog
      requires forall x: nat :: !IsEntry(entries, x, f, mod)
      modifies this
      ensures Valid() && NewAt(old(entries), entries, f, mod)
    {
      hide Holds, UniqueIds, FirstsOk, AreOthers, Alone, NewAt, NewFirst;
      ghost var p, first, who := entries, props, others;
      FirstsApart(p, props, who, termProlog);
      props := props[f := |entries|];
      entries := entries + [Entry(f, mod, false, None)];
      AppendNew(p, f, mod);
      FirstAppended(p, first, props, termProlog, f, mod);
      HoldsSame(p, entries, table, buckets, others);
      NewUnique(p, entries, f, mod, termProlog);
      NewFirsts(p, entries, first, props, termProlog, f);
      NewOthers(p, entries, first, props, who, others, termProlog, f);
    }

    /** Yap_NewPredPropByFunctor; room is whether a larger table can be had. */
    method NewPred(f: nat, m: nat, room: bool) returns (r: Option<nat>)
      requires Valid() && forall x: nat :: !IsEntry(entries, x, f, Canon(m, termProlog))
      modifies this
      ensures Valid() && SameIds(old(entries), entries)
      ensures r == None <==> f in old(props) && 10 * (old(count) + 1) > 6 * |old(table)| && !room
      ensures r == None ==> entries == old(entries)
      ensures r.Some? ==> r.value == |old(entries)| && |entries| == |old(entries)| + 1 && !entries[r.value].multifile
      ensures r.Some? ==> IsEntry(entries, r.value, f, Canon(m, termProlog))
    {
      hide Holds, UniqueIds, FirstsOk, AreOthers;
      var x, mod := |entries|, Canon(m, termProlog);
      if f in props {
        if 10 * (count + 1) > 6 * |table| {
          if !room { return None; }
          ghost var p := entries;
          Grow();
          EntriesSame(p, entries, f, mod);
        }
        AddOther(f, mod);
      } else {
        AddFirst(f, mod);
      }
      return Some(x);
    }

    /** Yap_PredPropByFunctorNonThreadLocal: the entry for functor f called in module m, made if there is none. */
    method PredProp(f: nat, m: nat, room: bool) returns (r: Option<nat>)
      requires Valid()
      modifies this
      ensures Valid() && SameIds(old(entries), entries)
      ensures forall x: nat :: Found(old(entries), x, f, m, termProlog) ==> r == Some(x) && entries == old(entries)
      ensures r.Some? ==> Found(entries, r.value, f, m, termProlog)
      ensures r.Some? && |entries| != |old(entries)| ==>
                r.value == |old(entries)| && |entries| == r.value + 1 && !entries[r.value].multifile
      ensures r == None ==> entries == old(entries)
      ensures r == None <==>
        && !room && f in old(props) && 10 * (old(count) + 1) > 6 * |old(table)|
        && forall x: nat :: !Found(old(entries), x, f, m, termProlog)
    {
      hide Holds, UniqueIds, AreOthers, FirstsOk;
      if f in props {
        FirstHere(entries, props, others, termProlog, f);
        var p := entries[props[f]];
        FirstAnswers(entries, props, termProlog, f, m);
        if Answers(p, m, termProlog) {
          AnswerIs(entries, props[f], f, m, termProlog);
          return Some(props[f]);
        }
        if p.next.Some? {
          r := Search(f, m);
          if r.Some? {
            AnswerIs(entries, r.value, f, m, termProlog);
            return;
          }
        }
        NotThere(entries, props, others, termProlog, f, m);
      } else {
        NoneYet(entries, props, termProlog, f);
      }
      ghost var p := entries;
      r := NewPred(f, m, room);
      if r.Some? { NewAnswers(p, entries, termProlog, f, m, r.value); }
    }

    /** A predicate is declared multifile. */
    method SetMultifile(x: nat)
      requires Valid() && x < |entries|
      modifies this`entries
      ensures Valid() && entries == old(entries)[x := Declared(old(entries)[x], termProlog)]
      ensures forall f: nat, m: nat, y: nat ::
                Found(entries, y, f, m, termProlog) <==>
                  (if old(entries)[x].functor == f && old(entries)[x].mod == PROLOG
                   then (if m == termProlog then y == x else m != PROLOG && IsEntry(old(entries), y, f, m))
                   else Found(old(entries), y, f, m, termProlog))
    {
      hide Holds, UniqueIds, FirstsOk, AreOthers, Found;
      ghost var p := entries;
      entries := entries[x := entries[x].(multifile := true)];
      if entries[x].mod == PROLOG {
        entries := entries[x := entries[x].(mod := termProlog)];
      }
      assert entries == p[x := Declared(p[x], termProlog)];
      MultifileKeeps(p, entries, table, buckets, props, others, termProlog, x);
      FirstNewest(p, props, termProlog, x);
      forall f: nat, m: nat, y: nat
        ensures Found(entries, y, f, m, termProlog) <==>
          (if p[x].functor == f && p[x].mod == PROLOG
           then (if m == termProlog then y == x else m != PROLOG && IsEntry(p, y, f, m))
           else Found(p, y, f, m, termProlog))
      {
        DeclaredAnswers(p, x, termProlog, f, m, y);
      }
    }
  }

  lemma FirstNewest(p: seq<Entry>, props: map<nat, nat>, termProlog: nat, x: nat)
    requires FirstsOk(p, props, termProlog) && x < |p|
    ensures p[x].mod == PROLOG ==> Newest(p, x, p[x].functor, termProlog)
  {
    assert EntryOk(p, props, termProlog, x);
    forall y: nat | x < y && p[x].mod == PROLOG
      ensures !OfSystem(p, y, p[x].functor, termProlog)
    {
      if y < |p| { assert EntryOk(p, props, termProlog, y); }
    }
  }

  lemma AllChains(p: seq<Entry>, table: seq<Option<nat>>, buckets: seq<seq<nat>>, who: set<nat>)
    requires Holds(p, table, buckets, who)
    ensures |table| == |buckets| && forall k :: 0 <= k < |table| ==> IsChain(p, table[k], buckets[k])
  {
  }

  lemma SlotIs(p: seq<Entry>, table: seq<Option<nat>>, buckets: seq<seq<nat>>, who: set<nat>, h: nat)
    requires Holds(p, table, buckets, who) && h < |table|
    ensures Distinct(buckets[h])
    ensures forall x: nat :: x in buckets[h] <==> x in who && x < |p| && HashOf(p, x, |table|) == h
  {
    hide HashOf;
    assert Sorted(p, buckets[h], |table|, h, who);
    forall x: nat
      ensures x in buckets[h] <==> x in who && x < |p| && HashOf(p, x, |table|) == h
    {
      if x in who { assert InTable(p, buckets, x); }
    }
  }

  lemma InRange(p: seq<Entry>, table: seq<Option<nat>>, buckets: seq<seq<nat>>, who: set<nat>)
    requires Holds(p, table, buckets, who)
    ensures |table| > 0 && forall x: nat :: x in who ==> x < |p| && HashOf(p, x, |table|) < |table|
  {
    forall x: nat | x in who
      ensures x < |p|
    {
      assert InTable(p, buckets, x);
    }
  }

  /** Moving one chain leaves the chains to come as they are. */
  lemma RestKept(p: seq<Entry>, mid: seq<Entry>, q: seq<Entry>, table: seq<Option<nat>>, buckets: seq<seq<nat>>,
      who: set<nat>, i: nat)
    requires Holds(p, table, buckets, who) && SameIds(p, mid) && |p| == |mid| && i < |table| == |buckets|
    requires Relinked(mid, q, buckets[i])
    requires forall k :: i <= k < |table| ==> IsChain(mid, table[k], buckets[k])
    ensures SameIds(p, q) && |q| == |p|
    ensures forall x :: 0 <= x < |q| && x !in who ==> q[x] == mid[x]
    ensures forall k :: i < k < |table| ==> IsChain(q, table[k], buckets[k])
  {
    hide Holds, HashOf, Distinct;
    SlotIs(p, table, buckets, who, i);
    forall k | i < k < |table|
      ensures IsChain(q, table[k], buckets[k])
    {
      SlotIs(p, table, buckets, who, k);
      ChainSame(mid, q, table[k], buckets[k]);
    }
  }

  lemma FirstApart(s: seq<nat>)
    requires Distinct(s) && s != []
    ensures s[0] !in s[1..] && Distinct(s[1..])
  {
  }

  /** Only the links of some entries are new. */
  ghost predicate Relinked(p: seq<Entry>, q: seq<Entry>, s: seq<nat>) {
    SameIds(p, q) && |p| == |q| && forall x :: 0 <= x < |p| && x !in s ==> q[x] == p[x]
  }

  lemma RelinkedNone(p: seq<Entry>)
    ensures Relinked(p, p, [])
  {
  }

  lemma RelinkedMore(p: seq<Entry>, q: seq<Entry>, s: seq<nat>, x: nat, next: Option<nat>)
    requires Relinked(p, q, s) && x < |q|
    ensures Relinked(p, Linked(q, x, next), s + [x])
  {
  }

  lemma HoldsFirst(p: seq<Entry>, q: seq<Entry>, table: seq<Option<nat>>, buckets: seq<seq<nat>>, who: set<nat>, x: nat)
    requires Holds(p, table, buckets, who) && x < |p| && x !in who && q == Linked(p, x, Some(x))
    ensures Holds(q, table, buckets, who)
  {
    HoldsSame(p, q, table, buckets, who);
  }

  /** q is p with a new entry at the end, and perhaps other links. */
  ghost predicate NewAt(p: seq<Entry>, q: seq<Entry>, f: nat, mod: nat) {
    SameIds(p, q) && |q| == |p| + 1 && IsEntry(q, |p|, f, mod) && !q[|p|].multifile
  }

  lemma AppendNew(p: seq<Entry>, f: nat, mod: nat)
    ensures NewAt(p, p + [Entry(f, mod, false, None)], f, mod) && SameIds(p, p + [Entry(f, mod, false, None)])
  {
  }

  /** An entry pushed on the table, and the first one then linked to itself. */
  lemma FirstLinked(p: seq<Entry>, u: seq<Entry>, props: map<nat, nat>, props': map<nat, nat>, who: set<nat>,
      who': set<nat>, termProlog: nat, f: nat, mod: nat, next: Option<nat>)
    requires FirstsOk(p, props, termProlog) && AreOthers(p, props, who) && f in props && mod != termProlog
    requires props[f] < |p| && u == Linked(p + [Entry(f, mod, false, None)], if mod == PROLOG then props[f] else |p|,
      next)
    requires props' == if mod == PROLOG then props[f := |p|] else props
    requires forall x: nat :: !IsEntry(p, x, f, mod)
    requires who' == who + {if mod == PROLOG then props[f] else |p|}
    ensures props'[f] < |u| && props'[f] !in who' && NewAt(p, Linked(u, props'[f], Some(props'[f])), f, mod)
    ensures NewFirst(p, Linked(u, props'[f], Some(props'[f])), props, props', termProlog, f)
    ensures Linked(u, props'[f], Some(props'[f]))[|p|].mod == mod
  {
    hide Alone;
    FirstsApart(p, props, who, termProlog);
    var q := Linked(u, props'[f], Some(props'[f]));
    assert q[|p|].functor == f && q[|p|].mod == mod;
    forall x | 0 <= x < |p| && mod == PROLOG
      ensures p[x].functor != f || p[x].mod != PROLOG
    {
      assert !IsEntry(p, x, f, mod);
    }
    forall g: nat | g in props && g != f && props[g] < |p|
      ensures q[props[g]] == p[props[g]]
    {
      assert props[g] != props[f];
    }
  }

  lemma FirstAppended(p: seq<Entry>, props: map<nat, nat>, props': map<nat, nat>, termProlog: nat, f: nat, mod: nat)
    requires FirstsOk(p, props, termProlog) && f !in props && mod != termProlog && props' == props[f := |p|]
    requires forall x: nat :: !IsEntry(p, x, f, mod)
    ensures NewFirst(p, p + [Entry(f, mod, false, None)], props, props', termProlog, f)
  {
    hide Alone;
    forall x | 0 <= x < |p| && mod == PROLOG
      ensures p[x].functor != f || p[x].mod != PROLOG
    {
      assert !IsEntry(p, x, f, mod);
    }
  }

  lemma NewUnique(p: seq<Entry>, q: seq<Entry>, f: nat, mod: nat, termProlog: nat)
    requires UniqueIds(p, termProlog) && NewAt(p, q, f, mod) && forall x: nat :: !IsEntry(p, x, f, mod)
    ensures UniqueIds(q, termProlog)
  {
    forall x, y | 0 <= x < y < |q| && q[x].mod != termProlog
      ensures q[x].functor != q[y].functor || q[x].mod != q[y].mod
    {
      assert !IsEntry(p, x, f, mod) && q[x].functor == p[x].functor && q[x].mod == p[x].mod;
    }
  }

  /** First entries are not in the table, and functors do not share them. */
  lemma FirstsApart(p: seq<Entry>, props: map<nat, nat>, who: set<nat>, termProlog: nat)
    requires FirstsOk(p, props, termProlog) && AreOthers(p, props, who)
    ensures forall f: nat :: f in props ==> props[f] < |p| && props[f] !in who && p[props[f]].functor == f
    ensures forall x: nat :: x in who ==> x < |p|
    ensures forall x :: 0 <= x < |p| && p[x].mod == PROLOG ==> p[x].functor in props && props[p[x].functor] == x
  {
    forall f: nat | f in props
      ensures props[f] < |p| && props[f] !in who && p[props[f]].functor == f
    {
      assert FirstOk(p, props, f);
    }
    forall x | 0 <= x < |p| && p[x].mod == PROLOG
      ensures p[x].functor in props && props[p[x].functor] == x
    {
      assert EntryOk(p, props, termProlog, x);
    }
  }

  /** The same first entries, linked as before, in a list with the same functors and modules. */
  lemma FirstsKept(p: seq<Entry>, q: seq<Entry>, props: map<nat, nat>, termProlog: nat)
    requires FirstsOk(p, props, termProlog) && |q| == |p|
    requires forall x :: 0 <= x < |p| ==> q[x] == p[x].(next := q[x].next) || q[x] == Declared(p[x], termProlog)
    requires forall f: nat :: f in props && props[f] < |p| ==> q[props[f]].next == p[props[f]].next
    ensures FirstsOk(q, props, termProlog)
  {
    forall f: nat | f in props
      ensures FirstOk(q, props, f)
    {
      assert FirstOk(p, props, f);
      AloneSame(p, q, f, props[f]);
    }
    forall x | 0 <= x < |q|
      ensures EntryOk(q, props, termProlog, x)
    {
      assert EntryOk(p, props, termProlog, x);
    }
  }

  lemma IdsKept(p: seq<Entry>, q: seq<Entry>, props: map<nat, nat>, who: set<nat>, termProlog: nat)
    requires UniqueIds(p, termProlog) && FirstsOk(p, props, termProlog) && AreOthers(p, props, who)
    requires SameIds(p, q) && |q| == |p|
    requires forall x :: 0 <= x < |q| && x !in who ==> q[x] == p[x]
    ensures UniqueIds(q, termProlog) && FirstsOk(q, props, termProlog) && AreOthers(q, props, who)
  {
    hide FirstsOk;
    FirstsApart(p, props, who, termProlog);
    FirstsKept(p, q, props, termProlog);
  }

  lemma AloneSame(p: seq<Entry>, q: seq<Entry>, f: nat, x: nat)
    requires |p| == |q| && forall y :: 0 <= y < |p| ==> p[y].functor == q[y].functor
    ensures Alone(p, f, x) <==> Alone(q, f, x)
  {
  }

  lemma MultifileKeeps(p: seq<Entry>, q: seq<Entry>, table: seq<Option<nat>>, buckets: seq<seq<nat>>,
      props: map<nat, nat>, who: set<nat>, termProlog: nat, x: nat)
    requires Holds(p, table, buckets, who) && UniqueIds(p, termProlog) && FirstsOk(p, props, termProlog)
    requires AreOthers(p, props, who) && x < |p| && q == p[x := Declared(p[x], termProlog)]
    ensures Holds(q, table, buckets, who) && UniqueIds(q, termProlog) && FirstsOk(q, props, termProlog)
    ensures AreOthers(q, props, who)
  {
    hide FirstsOk, Holds;
    FirstsApart(p, props, who, termProlog);
    FirstsKept(p, q, props, termProlog);
    MultifileHolds(p, q, table, buckets, who, termProlog, x);
  }

  /** The name changes for a first entry only, and that is not in the table. */
  lemma MultifileHolds(p: seq<Entry>, q: seq<Entry>, table: seq<Option<nat>>, buckets: seq<seq<nat>>, who: set<nat>,
      termProlog: nat, x: nat)
    requires Holds(p, table, buckets, who) && x < |p| && q == p[x := Declared(p[x], termProlog)]
    requires p[x].mod == PROLOG ==> x !in who
    ensures Holds(q, table, buckets, who)
  {
    forall k | 0 <= k < |table|
      ensures IsChain(q, table[k], buckets[k]) && Sorted(q, buckets[k], |table|, k, who)
    {
      ChainLinks(p, q, table[k], buckets[k]);
      assert Sorted(p, buckets[k], |table|, k, who);
    }
    forall y: nat | y in who
      ensures InTable(q, buckets, y)
    {
      assert InTable(p, buckets, y);
    }
  }

  lemma {:induction false} ChainLinks(p: seq<Entry>, q: seq<Entry>, head: Option<nat>, s: seq<nat>)
    requires IsChain(p, head, s) && |p| == |q| && forall x :: 0 <= x < |p| ==> q[x].next == p[x].next
    ensures IsChain(q, head, s)
    decreases |s|
  {
    if s != [] { ChainLinks(p, q, p[s[0]].next, s[1..]); }
  }

  lemma AnswerIs(p: seq<Entry>, x: nat, f: nat, m: nat, termProlog: nat)
    requires UniqueIds(p, termProlog) && Found(p, x, f, m, termProlog)
    ensures forall y: nat :: Found(p, y, f, m, termProlog) ==> y == x
  {
    forall y: nat | Found(p, y, f, m, termProlog)
      ensures y == x
    {
      FoundUnique(p, x, y, f, m, termProlog);
    }
  }

  predicate Answers(e: Entry, m: nat, termProlog: nat) {
    (e.mod == m || e.mod == PROLOG) && (!e.multifile || e.mod != PROLOG || System(m, termProlog))
  }

  /** What the functor's first entry says: the one of the prolog module that counts can only be that one. */
  lemma FirstAnswers(p: seq<Entry>, props: map<nat, nat>, termProlog: nat, f: nat, m: nat)
    requires FirstsOk(p, props, termProlog) && f in props && termProlog != PROLOG
    ensures props[f] < |p| && p[props[f]].functor == f
    ensures Answers(p[props[f]], m, termProlog) ==> Found(p, props[f], f, m, termProlog)
    ensures !Answers(p[props[f]], m, termProlog) ==>
      && (forall y: nat :: !Shadows(p, y, f, m, termProlog)) && !IsEntry(p, props[f], f, m)
      && (System(m, termProlog) ==> forall y: nat :: !IsEntry(p, y, f, PROLOG))
      && (m == termProlog ==> forall y: nat :: !IsEntry(p, y, f, m))
  {
    assert FirstOk(p, props, f) && EntryOk(p, props, termProlog, props[f]);
    forall y: nat | OfSystem(p, y, f, termProlog)
      ensures y <= props[f] && System(p[props[f]].mod, termProlog) && (p[y].mod == PROLOG ==> y == props[f])
    {
      assert EntryOk(p, props, termProlog, y);
    }
    assert System(p[props[f]].mod, termProlog) ==> Newest(p, props[f], f, termProlog);
    assert forall y: nat :: Newest(p, y, f, termProlog) ==> y == props[f];
    assert forall y: nat :: IsEntry(p, y, f, PROLOG) || IsEntry(p, y, f, termProlog) ==> OfSystem(p, y, f, termProlog);
  }

  lemma EntriesSame(p: seq<Entry>, q: seq<Entry>, f: nat, mod: nat)
    requires SameIds(p, q) && |p| == |q|
    ensures forall x: nat :: IsEntry(p, x, f, mod) <==> IsEntry(q, x, f, mod)
  {
  }

  lemma FirstHere(p: seq<Entry>, props: map<nat, nat>, who: set<nat>, termProlog: nat, f: nat)
    requires FirstsOk(p, props, termProlog) && AreOthers(p, props, who) && f in props
    ensures props[f] < |p| && props[f] !in who && p[props[f]].functor == f
  {
    assert FirstOk(p, props, f);
  }

  /** A functor with an entry that is not its first has a link that says so. */
  lemma OtherLinked(p: seq<Entry>, props: map<nat, nat>, who: set<nat>, termProlog: nat, x: nat)
    requires FirstsOk(p, props, termProlog) && AreOthers(p, props, who) && x < |p|
    ensures
      var f := p[x].functor;
      f in props && props[f] < |p| && (props[f] != x ==> x in who && p[props[f]].next.Some?)
  {
    assert EntryOk(p, props, termProlog, x);
    assert FirstOk(p, props, p[x].functor);
    if props[p[x].functor] != x { assert !Alone(p, p[x].functor, props[p[x].functor]); }
  }

  lemma NoneYet(p: seq<Entry>, props: map<nat, nat>, termProlog: nat, f: nat)
    requires FirstsOk(p, props, termProlog) && f !in props
    ensures forall x :: 0 <= x < |p| ==> p[x].functor != f
  {
    forall x | 0 <= x < |p|
      ensures p[x].functor != f
    {
      assert EntryOk(p, props, termProlog, x);
    }
  }

  /** Neither the first entry nor any in the table is it, so there is none. */
  lemma NotThere(p: seq<Entry>, props: map<nat, nat>, who: set<nat>, termProlog: nat, f: nat, m: nat)
    requires FirstsOk(p, props, termProlog) && AreOthers(p, props, who) && f in props && termProlog != PROLOG
    requires !IsEntry(p, props[f], f, m) && props[f] < |p|
    requires p[props[f]].next.Some? ==> forall x: nat :: x in who ==> !IsEntry(p, x, f, m)
    requires System(m, termProlog) ==> forall y: nat :: !IsEntry(p, y, f, PROLOG)
    ensures forall x: nat :: !IsEntry(p, x, f, Canon(m, termProlog))
    ensures m != termProlog ==> forall x: nat :: !IsEntry(p, x, f, m)
  {
    forall x: nat
      ensures !IsEntry(p, x, f, Canon(m, termProlog)) && (m != termProlog ==> !IsEntry(p, x, f, m))
    {
      if IsEntry(p, x, f, Canon(m, termProlog)) {
        OtherLinked(p, props, who, termProlog, x);
      }
      assert m != termProlog ==> Canon(m, termProlog) == m;
    }
  }

  /** What the entry of functor f, new at the end of q, does to the first entries. */
  ghost predicate NewFirst(p: seq<Entry>, q: seq<Entry>, props: map<nat, nat>, props': map<nat, nat>,
      termProlog: nat, f: nat) {
    && SameIds(p, q) && |q| == |p| + 1 && q[|p|].functor == f && q[|p|].mod != termProlog
    && (forall x :: 0 <= x < |p| && q[|p|].mod == PROLOG ==> p[x].functor != f || p[x].mod != PROLOG)
    && props' == (if f in props && q[|p|].mod != PROLOG then props else props[f := |p|])
    && props'[f] < |q| && q[props'[f]].next == (if f in props then Some(props'[f]) else None)
    && (forall g: nat :: g in props && g != f && props[g] < |p| ==> q[props[g]] == p[props[g]])
  }

  lemma NewFirsts(p: seq<Entry>, q: seq<Entry>, props: map<nat, nat>, props': map<nat, nat>, termProlog: nat, f: nat)
    requires FirstsOk(p, props, termProlog) && NewFirst(p, q, props, props', termProlog, f)
    ensures FirstsOk(q, props', termProlog)
  {
    forall g: nat | g in props'
      ensures FirstOk(q, props', g)
    {
      if g in props { assert FirstOk(p, props, g); }
      if g != f {
        AloneKept(p, q, g, props[g]);
      } else if f in props {
        assert q[|p|].functor == f && q[props[f]].functor == f;
      } else {
        NoneYet(p, props, termProlog, f);
      }
    }
    forall x | 0 <= x < |q|
      ensures EntryOk(q, props', termProlog, x)
    {
      if x < |p| { assert EntryOk(p, props, termProlog, x); }
    }
  }

  lemma AloneKept(p: seq<Entry>, q: seq<Entry>, g: nat, x: nat)
    requires SameIds(p, q) && |q| == |p| + 1 && q[|p|].functor != g
    ensures Alone(p, g, x) <==> Alone(q, g, x)
  {
    assert forall y :: 0 <= y < |p| ==> q[y].functor == p[y].functor;
    if Alone(q, g, x) {
      forall y | 0 <= y < |p| && p[y].functor == g
        ensures y == x
      {
        assert q[y].functor == g;
      }
    }
  }

  lemma NewOthers(p: seq<Entry>, q: seq<Entry>, props: map<nat, nat>, props': map<nat, nat>, who: set<nat>,
      who': set<nat>, termProlog: nat, f: nat)
    requires FirstsOk(p, props, termProlog) && NewFirst(p, q, props, props', termProlog, f) && AreOthers(p, props, who)
    requires who' == if f !in props then who else if q[|p|].mod == PROLOG then who + {props[f]} else who + {|p|}
    ensures AreOthers(q, props', who') && |who'| == if f in props then |who| + 1 else |who|
  {
    hide FirstsOk, NewFirst;
    forall x: nat
      ensures x in who' <==> x < |q| && q[x].functor in props' && props'[q[x].functor] != x
    {
      NewOther(p, q, props, props', who, who', termProlog, f, x);
    }
    if f in props { FirstHere(p, props, who, termProlog, f); }
    assert |p| !in who;
    Lengths(p, q, props, props', termProlog, f);
  }

  lemma Lengths(p: seq<Entry>, q: seq<Entry>, props: map<nat, nat>, props': map<nat, nat>, termProlog: nat, f: nat)
    requires NewFirst(p, q, props, props', termProlog, f)
    ensures |q| == |p| + 1
  {
  }

  lemma NewOther(p: seq<Entry>, q: seq<Entry>, props: map<nat, nat>, props': map<nat, nat>, who: set<nat>,
      who': set<nat>, termProlog: nat, f: nat, x: nat)
    requires FirstsOk(p, props, termProlog) && NewFirst(p, q, props, props', termProlog, f) && AreOthers(p, props, who)
    requires who' == if f !in props then who else if q[|p|].mod == PROLOG then who + {props[f]} else who + {|p|}
    ensures x in who' <==> x < |q| && q[x].functor in props' && props'[q[x].functor] != x
  {
    hide FirstsOk;
    if f in props { FirstHere(p, props, who, termProlog, f); }
    if x < |p| { Functors(p, props, termProlog, x); }
  }

  lemma Functors(p: seq<Entry>, props: map<nat, nat>, termProlog: nat, x: nat)
    requires FirstsOk(p, props, termProlog) && x < |p|
    ensures p[x].functor in props
  {
    assert EntryOk(p, props, termProlog, x);
  }
}
