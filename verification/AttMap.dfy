/** The attributes of a variable: a chain of blocks, one for each module, that stands for a map from the module's
    functor to a vector of values. */
module AttMap {
  import opened Cells
  import opened Terms

  /** TermVoidAtt: no value; TermFreeTerm: leave the value as it is. */
  const VOID := Con(0)
  const FREE := Con(1)

  // ---------------------------------------------------------------- reading

  /** Dereferencing c ends, and goes through no cell of s. */
  predicate Avoids(mem: seq<Cell>, c: Cell, s: set<nat>, left: set<nat>)
    decreases left
  {
    c.Ref? ==>
      && c.a < |mem| && c.a !in s
      && (mem[c.a] == c || (c.a in left && Avoids(mem, mem[c.a], s, left - {c.a})))
  }

  predicate Clear(mem: seq<Cell>, c: Cell, s: set<nat>) {
    Avoids(mem, c, s, Addresses(|mem|))
  }

  /** A dereferenced cell: not a reference, or an unbound variable outside s. */
  predicate Settled(mem: seq<Cell>, c: Cell, s: set<nat>) {
    c.Ref? ==> c.a < |mem| && c.a !in s && mem[c.a] == c
  }

  lemma {:induction false} AvoidsSettles(mem: seq<Cell>, c: Cell, s: set<nat>, left: set<nat>)
    requires Avoids(mem, c, s, left)
    ensures Settled(mem, Deref(mem, c, left), s)
    decreases left
  {
    if c.Ref? && mem[c.a] != c { AvoidsSettles(mem, mem[c.a], s, left - {c.a}); }
  }

  lemma {:induction false} AvoidsFewer(mem: seq<Cell>, c: Cell, s: set<nat>, fewer: set<nat>, left: set<nat>)
    requires Avoids(mem, c, s, left) && forall a :: a in fewer ==> a in s
    ensures Avoids(mem, c, fewer, left)
    decreases left
  {
    if c.Ref? && mem[c.a] != c { AvoidsFewer(mem, mem[c.a], s, fewer, left - {c.a}); }
  }

  lemma {:induction false} AvoidsBoth(mem: seq<Cell>, c: Cell, s: set<nat>, t: set<nat>, left: set<nat>)
    requires Avoids(mem, c, s, left) && Avoids(mem, c, t, left)
    ensures Avoids(mem, c, s + t, left)
    decreases left
  {
    if c.Ref? && mem[c.a] != c { AvoidsBoth(mem, mem[c.a], s, t, left - {c.a}); }
  }

  /** Changes to cells it does not go through do not matter to it. */
  lemma {:induction false} DerefKept(mem: seq<Cell>, mem': seq<Cell>, c: Cell, s: set<nat>, x: set<nat>, left: set<nat>)
    requires |mem'| == |mem| && (forall a :: 0 <= a < |mem| && a !in x ==> mem'[a] == mem[a])
    requires Avoids(mem, c, s, left) && Avoids(mem, c, x, left)
    ensures Deref(mem', c, left) == Deref(mem, c, left) && Avoids(mem', c, s, left) && Avoids(mem', c, x, left)
    decreases left
  {
    if c.Ref? && mem[c.a] != c { DerefKept(mem, mem', mem[c.a], s, x, left - {c.a}); }
  }

  /** Storing a dereferenced cell keeps dereferencing apart from s. */
  lemma {:induction false} AvoidsStore(mem: seq<Cell>, c: Cell, s: set<nat>, x: nat, v: Cell, left: set<nat>)
    requires Avoids(mem, c, s, left) && x < |mem| && x in left && Settled(mem, v, s)
    ensures Avoids(mem[x := v], c, s, left)
    decreases left
  {
    if c.Ref? && mem[c.a] != c && c.a != x { AvoidsStore(mem, mem[c.a], s, x, v, left - {c.a}); }
  }

  // ---------------------------------------------------------------- the chain

  function ArityAt(mem: seq<Cell>, b: nat): nat {
    if b < |mem| && mem[b].Fun? then mem[b].arity else 0
  }

  /** A functor word, a link, and the values. */
  predicate BlockAt(mem: seq<Cell>, b: nat) {
    b < |mem| && mem[b].Fun? && mem[b].arity > 0 && b + mem[b].arity < |mem|
  }

  /** The cells that hold the chain together. */
  function Frame(atts: nat, bs: seq<nat>): (s: set<nat>)
    ensures forall a: nat :: a in s <==> a == atts || exists k :: 0 <= k < |bs| && (a == bs[k] || a == bs[k] + 1)
  {
    {atts} + (set k | 0 <= k < |bs| :: bs[k]) + (set k | 0 <= k < |bs| :: bs[k] + 1)
  }

  /** Where the pointer to block k, or the variable at the end, is. */
  function LinkAt(atts: nat, bs: seq<nat>, k: nat): nat
    requires k <= |bs|
  {
    if k == 0 then atts else bs[k - 1] + 1
  }

  predicate Disjoint(mem: seq<Cell>, b: nat, d: nat) {
    b + ArityAt(mem, b) < d || d + ArityAt(mem, d) < b
  }

  /** Blocks that share no cell and no functor. */
  ghost predicate Apart(mem: seq<Cell>, atts: nat, bs: seq<nat>) {
    && (forall k :: 0 <= k < |bs| ==> BlockAt(mem, bs[k]) && (atts < bs[k] || bs[k] + ArityAt(mem, bs[k]) < atts))
    && (forall j, k :: 0 <= j < k < |bs| ==> Disjoint(mem, bs[j], bs[k]) && mem[bs[j]] != mem[bs[k]])
  }

  ghost predicate LinkOk(mem: seq<Cell>, atts: nat, bs: seq<nat>, k: nat)
    requires k <= |bs|
  {
    && LinkAt(atts, bs, k) < |mem|
    && if k < |bs| then mem[LinkAt(atts, bs, k)] == Appl(bs[k]) else EndOk(mem, LinkAt(atts, bs, k), atts, bs)
  }

  ghost predicate Linked(mem: seq<Cell>, atts: nat, bs: seq<nat>) {
    forall k :: 0 <= k <= |bs| ==> LinkOk(mem, atts, bs, k)
  }

  /** The end of a chain: a variable, here or, where a block has been replaced or deleted, in that block. */
  ghost predicate EndOk(mem: seq<Cell>, l: nat, atts: nat, bs: seq<nat>)
    requires l < |mem|
  {
    && Settled(mem, mem[l], if mem[l] == Ref(l) then {} else Frame(atts, bs)) && mem[l].Ref?
    && forall k :: 0 <= k < |bs| ==> !IsArg(mem, bs[k], mem[l].a)
  }

  predicate IsArg(mem: seq<Cell>, b: nat, x: nat) {
    b + 2 <= x <= b + ArityAt(mem, b)
  }

  /** Values do not lead to the cells of the chain. */
  ghost predicate Tidy(mem: seq<Cell>, atts: nat, bs: seq<nat>) {
    forall k, x: nat :: 0 <= k < |bs| && IsArg(mem, bs[k], x) && x < |mem| ==> Clear(mem, mem[x], Frame(atts, bs))
  }

  ghost predicate Valid(mem: seq<Cell>, atts: nat, bs: seq<nat>) {
    Apart(mem, atts, bs) && Linked(mem, atts, bs) && Tidy(mem, atts, bs)
  }

  // ---------------------------------------------------------------- the map

  function Values(mem: seq<Cell>, b: nat): (r: seq<Cell>)
    requires BlockAt(mem, b)
    ensures |r| == mem[b].arity - 1
  {
    seq(mem[b].arity - 1, i requires 0 <= i < mem[b].arity - 1 => DerefCell(mem, mem[b + 2 + i]))
  }

  lemma ValuesAre(mem: seq<Cell>, b: nat, v: seq<Cell>)
    requires BlockAt(mem, b) && |v| == mem[b].arity - 1
    requires forall i: nat :: i < |v| ==> DerefCell(mem, mem[b + 2 + i]) == v[i]
    ensures Values(mem, b) == v
  {
  }

  ghost function Attributes(mem: seq<Cell>, atts: nat, bs: seq<nat>): (m: map<Cell, seq<Cell>>)
    requires Apart(mem, atts, bs)
  {
    map k | 0 <= k < |bs| :: mem[bs[k]] := Values(mem, bs[k])
  }

  lemma AttributesAre(mem: seq<Cell>, atts: nat, bs: seq<nat>, m: map<Cell, seq<Cell>>)
    requires Apart(mem, atts, bs)
    requires forall k :: 0 <= k < |bs| ==> mem[bs[k]] in m && m[mem[bs[k]]] == Values(mem, bs[k])
    requires forall f :: f in m ==> exists k :: 0 <= k < |bs| && mem[bs[k]] == f
    ensures Attributes(mem, atts, bs) == m
  {
  }

  // ---------------------------------------------------------------- overwriting values

  /** Only values of block b have changed. */
  ghost predicate ArgsOnly(mem: seq<Cell>, mem': seq<Cell>, b: nat) {
    |mem'| == |mem| && forall a :: 0 <= a < |mem| && !IsArg(mem, b, a) ==> mem'[a] == mem[a]
  }

  /** x is the place of a value of a block of the chain. */
  lemma ArgOutside(mem: seq<Cell>, atts: nat, bs: seq<nat>, k: nat, x: nat)
    requires Apart(mem, atts, bs) && k < |bs| && IsArg(mem, bs[k], x)
    ensures x < |mem| && x !in Frame(atts, bs)
    ensures forall j :: 0 <= j < |bs| && j != k ==> !IsArg(mem, bs[j], x)
  {
    forall j | 0 <= j < |bs|
      ensures x != bs[j] && x != bs[j] + 1 && (j != k ==> !IsArg(mem, bs[j], x))
    {
      assert BlockAt(mem, bs[j]);
      if j < k { assert Disjoint(mem, bs[j], bs[k]); } else if k < j { assert Disjoint(mem, bs[k], bs[j]); }
    }
  }

  /** The functor words are as they were. */
  ghost predicate SameHeaders(m0: seq<Cell>, mem: seq<Cell>, bs: seq<nat>) {
    |mem| == |m0| && forall j :: 0 <= j < |bs| && bs[j] < |m0| ==> mem[bs[j]] == m0[bs[j]]
  }

  lemma ApartKept(m0: seq<Cell>, mem: seq<Cell>, atts: nat, bs: seq<nat>)
    requires Apart(m0, atts, bs) && SameHeaders(m0, mem, bs)
    ensures Apart(mem, atts, bs)
  {
    forall j, k | 0 <= j < k < |bs|
      ensures Disjoint(mem, bs[j], bs[k]) && mem[bs[j]] != mem[bs[k]]
    {
      assert BlockAt(m0, bs[j]) && BlockAt(m0, bs[k]) && Disjoint(m0, bs[j], bs[k]);
    }
  }

  lemma StoreApart(mem: seq<Cell>, atts: nat, bs: seq<nat>, k: nat, x: nat, v: Cell)
    requires Apart(mem, atts, bs) && k < |bs| && IsArg(mem, bs[k], x) && x < |mem|
    ensures Apart(mem[x := v], atts, bs) && SameHeaders(mem, mem[x := v], bs)
    ensures forall j :: 0 <= j < |bs| ==> bs[j] < |mem| && mem[x := v][bs[j]] == mem[bs[j]]
  {
    hide Disjoint, Apart;
    ArgOutside(mem, atts, bs, k, x);
    forall j | 0 <= j < |bs|
      ensures bs[j] < |mem| && bs[j] != x
    {
      assert bs[j] in Frame(atts, bs);
      BlockIn(mem, atts, bs, j);
    }
    ApartKept(mem, mem[x := v], atts, bs);
  }

  lemma BlockIn(mem: seq<Cell>, atts: nat, bs: seq<nat>, j: nat)
    requires Apart(mem, atts, bs) && j < |bs|
    ensures BlockAt(mem, bs[j])
  {
  }

  lemma StoreLinked(mem: seq<Cell>, atts: nat, bs: seq<nat>, k: nat, x: nat, v: Cell)
    requires Apart(mem, atts, bs) && Linked(mem, atts, bs) && k < |bs| && IsArg(mem, bs[k], x) && x < |mem|
    ensures Linked(mem[x := v], atts, bs)
  {
    var mem' := mem[x := v];
    ArgOutside(mem, atts, bs, k, x);
    StoreApart(mem, atts, bs, k, x, v);
    forall j | 0 <= j <= |bs|
      ensures LinkOk(mem', atts, bs, j)
    {
      assert LinkOk(mem, atts, bs, j);
      assert LinkAt(atts, bs, j) in Frame(atts, bs);
      if j == |bs| {
        assert mem[LinkAt(atts, bs, j)].a != x;
        assert forall i :: 0 <= i < |bs| ==> ArityAt(mem', bs[i]) == ArityAt(mem, bs[i]);
      }
    }
  }

  lemma StoreTidy(mem: seq<Cell>, atts: nat, bs: seq<nat>, k: nat, x: nat, v: Cell)
    requires Apart(mem, atts, bs) && Tidy(mem, atts, bs) && k < |bs| && IsArg(mem, bs[k], x) && x < |mem|
    requires Settled(mem, v, Frame(atts, bs))
    ensures Tidy(mem[x := v], atts, bs)
  {
    hide Apart, Tidy, Avoids;
    var mem', s := mem[x := v], Frame(atts, bs);
    StoreApart(mem, atts, bs, k, x, v);
    forall j, y: nat | 0 <= j < |bs| && IsArg(mem', bs[j], y) && y < |mem|
      ensures Clear(mem', mem'[y], s)
    {
      assert IsArg(mem, bs[j], y);
      TidyAt(mem, atts, bs, j, y);
      ClearStore(mem, mem[y], s, x, v);
      ClearSettled(mem, v, s);
      ClearStore(mem, v, s, x, v);
    }
    TidyIs(mem', atts, bs);
  }

  lemma TidyAt(mem: seq<Cell>, atts: nat, bs: seq<nat>, j: nat, y: nat)
    requires Tidy(mem, atts, bs) && j < |bs| && IsArg(mem, bs[j], y) && y < |mem|
    ensures Clear(mem, mem[y], Frame(atts, bs))
  {
  }

  lemma TidyIs(mem: seq<Cell>, atts: nat, bs: seq<nat>)
    requires forall j, y: nat :: 0 <= j < |bs| && IsArg(mem, bs[j], y) && y < |mem| ==>
      Clear(mem, mem[y], Frame(atts, bs))
    ensures Tidy(mem, atts, bs)
  {
  }

  lemma ClearStore(mem: seq<Cell>, c: Cell, s: set<nat>, x: nat, v: Cell)
    requires Clear(mem, c, s) && x < |mem| && Settled(mem, v, s)
    ensures Clear(mem[x := v], c, s)
  {
    AvoidsStore(mem, c, s, x, v, Addresses(|mem|));
  }

  lemma ClearSettled(mem: seq<Cell>, c: Cell, s: set<nat>)
    requires Settled(mem, c, s)
    ensures Clear(mem, c, s) && DerefCell(mem, c) == c
  {
  }

  lemma StoreKeeps(mem: seq<Cell>, atts: nat, bs: seq<nat>, k: nat, x: nat, v: Cell)
    requires Valid(mem, atts, bs) && k < |bs| && IsArg(mem, bs[k], x) && x < |mem| && Settled(mem, v, Frame(atts, bs))
    ensures Valid(mem[x := v], atts, bs)
  {
    hide Apart, Linked, Tidy, Settled;
    StoreApart(mem, atts, bs, k, x, v);
    StoreLinked(mem, atts, bs, k, x, v);
    StoreTidy(mem, atts, bs, k, x, v);
  }

  // ---------------------------------------------------------------- what an operation should give

  /** Equal but for the cells of x. */
  ghost predicate Only(mem: seq<Cell>, mem': seq<Cell>, x: set<nat>) {
    |mem'| == |mem| && forall a :: 0 <= a < |mem| && a !in x ==> mem'[a] == mem[a]
  }

  lemma ClearKept(mem: seq<Cell>, mem': seq<Cell>, c: Cell, x: set<nat>, s: set<nat>)
    requires Only(mem, mem', x) && Clear(mem, c, x)
    ensures DerefCell(mem', c) == DerefCell(mem, c) && Clear(mem', c, x)
    ensures Clear(mem, c, s) ==> Clear(mem', c, s)
  {
    DerefKept(mem, mem', c, x, x, Addresses(|mem|));
    if Clear(mem, c, s) { DerefKept(mem, mem', c, s, x, Addresses(|mem|)); }
  }

  /** The values of block t, with those of block b where t leaves them as they are. */
  function Merged(mem: seq<Cell>, b: nat, t: nat): (r: seq<Cell>)
    requires BlockAt(mem, b) && BlockAt(mem, t) && mem[b] == mem[t]
    ensures |r| == mem[b].arity - 1
  {
    seq(mem[b].arity - 1, i requires 0 <= i < mem[b].arity - 1 =>
      if DerefCell(mem, mem[t + 2 + i]) == FREE then DerefCell(mem, mem[b + 2 + i]) else DerefCell(mem, mem[t + 2 + i]))
  }

  /** The values of block t, with none where it leaves them as they are. */
  function Normal(mem: seq<Cell>, t: nat): (r: seq<Cell>)
    requires BlockAt(mem, t)
    ensures |r| == mem[t].arity - 1
  {
    seq(mem[t].arity - 1, i requires 0 <= i < mem[t].arity - 1 =>
      if DerefCell(mem, mem[t + 2 + i]) == FREE then VOID else DerefCell(mem, mem[t + 2 + i]))
  }

  /** The places of block t that leave the value as it is. */
  function FreeArgs(mem: seq<Cell>, t: nat): set<nat>
    requires BlockAt(mem, t)
  {
    set x: nat | t + 2 <= x <= t + mem[t].arity && DerefCell(mem, mem[x]) == FREE
  }

  /** What nothing else leads to in a new block. */
  function Private(mem: seq<Cell>, t: nat): set<nat>
    requires BlockAt(mem, t)
  {
    {t, t + 1} + FreeArgs(mem, t)
  }

  /** A new block: a functor word, a fresh variable and values, beside the chain. */
  ghost predicate Fresh(mem: seq<Cell>, atts: nat, bs: seq<nat>, t: nat) {
    && BlockAt(mem, t) && mem[t + 1] == Ref(t + 1) && (atts < t || t + mem[t].arity < atts)
    && (forall k :: 0 <= k < |bs| ==> Disjoint(mem, bs[k], t))
    && (forall k, x: nat :: 0 <= k < |bs| && IsArg(mem, bs[k], x) && x < |mem| ==> Clear(mem, mem[x], Private(mem, t)))
    && (forall x: nat :: IsArg(mem, t, x) ==>
        Clear(mem, mem[x], Private(mem, t)) && Clear(mem, mem[x], Frame(atts, bs)))
    && LinkAt(atts, bs, |bs|) < |mem|
    && (mem[LinkAt(atts, bs, |bs|)].Ref? ==>
          !(t <= mem[LinkAt(atts, bs, |bs|)].a <= t + mem[t].arity))
  }

  /** What block t has for place x of block b. */
  function NewFor(mem: seq<Cell>, b: nat, t: nat, x: nat): Cell {
    if b <= x && t + (x - b) < |mem| then DerefCell(mem, mem[t + (x - b)]) else FREE
  }

  lemma ClearSettles(mem: seq<Cell>, c: Cell, s: set<nat>)
    requires Clear(mem, c, s)
    ensures Settled(mem, DerefCell(mem, c), s) && DerefCell(mem, DerefCell(mem, c)) == DerefCell(mem, c)
  {
    AvoidsSettles(mem, c, s, Addresses(|mem|));
    ClearSettled(mem, DerefCell(mem, c), s);
  }

  lemma HeadersDiffer(mem: seq<Cell>, atts: nat, bs: seq<nat>, j: nat, k: nat)
    requires Apart(mem, atts, bs) && j < |bs| && k < |bs|
    ensures BlockAt(mem, bs[j]) && BlockAt(mem, bs[k]) && (mem[bs[j]] == mem[bs[k]] ==> j == k)
  {
    if j < k { assert Disjoint(mem, bs[j], bs[k]); } else if k < j { assert Disjoint(mem, bs[k], bs[j]); }
  }

  // ---------------------------------------------------------------- changing the chain

  /** After a change of the cells of z, the values of the new chain lead neither through them nor to the chain. */
  ghost predicate Steady(m0: seq<Cell>, mem: seq<Cell>, atts: nat, bs: seq<nat>, z: set<nat>) {
    && Only(m0, mem, z)
    && forall j, x: nat :: 0 <= j < |bs| && IsArg(mem, bs[j], x) && x < |mem| ==> Clear(m0, mem[x], z + Frame(atts, bs))
  }

  lemma ClearFewer(mem: seq<Cell>, c: Cell, s: set<nat>, fewer: set<nat>)
    requires Clear(mem, c, s) && fewer <= s
    ensures Clear(mem, c, fewer)
  {
    AvoidsFewer(mem, c, s, fewer, Addresses(|mem|));
  }

  lemma ClearBoth(mem: seq<Cell>, c: Cell, s: set<nat>, t: set<nat>)
    requires Clear(mem, c, s) && Clear(mem, c, t)
    ensures Clear(mem, c, s + t)
  {
    AvoidsBoth(mem, c, s, t, Addresses(|mem|));
  }

  lemma SteadyTidy(m0: seq<Cell>, mem: seq<Cell>, atts: nat, bs: seq<nat>, z: set<nat>)
    requires Steady(m0, mem, atts, bs, z)
    ensures Tidy(mem, atts, bs)
  {
    hide Clear;
    forall j, x: nat | 0 <= j < |bs| && IsArg(mem, bs[j], x) && x < |mem|
      ensures Clear(mem, mem[x], Frame(atts, bs))
    {
      SteadyAt(m0, mem, atts, bs, z, j, x);
    }
    TidyIs(mem, atts, bs);
  }

  lemma SteadyAt(m0: seq<Cell>, mem: seq<Cell>, atts: nat, bs: seq<nat>, z: set<nat>, j: nat, x: nat)
    requires Steady(m0, mem, atts, bs, z) && j < |bs| && IsArg(mem, bs[j], x) && x < |mem|
    ensures Clear(mem, mem[x], Frame(atts, bs)) && DerefCell(mem, mem[x]) == DerefCell(m0, mem[x])
  {
    hide Clear, DerefCell;
    assert Clear(m0, mem[x], z + Frame(atts, bs));
    ClearFewer(m0, mem[x], z + Frame(atts, bs), z);
    ClearFewer(m0, mem[x], z + Frame(atts, bs), Frame(atts, bs));
    ClearKept(m0, mem, mem[x], z, Frame(atts, bs));
  }

  // ---------------------------------------------------------------- a copy in place of a block

  /** What the other branch leaves: block t filled up from block k, and in its place in the chain. */
  ghost predicate Copied(m0: seq<Cell>, mem: seq<Cell>, atts: nat, bs: seq<nat>, k: nat, t: nat)
    requires k < |bs| && BlockAt(m0, t) && BlockAt(m0, bs[k])
  {
    && Only(m0, mem, {LinkAt(atts, bs, k), t + 1} + FreeArgs(m0, t))
    && LinkAt(atts, bs, k) < |mem| && mem[LinkAt(atts, bs, k)] == Appl(t) && t + 1 < |mem| &&
        mem[t + 1] == m0[bs[k] + 1]
    && forall x: nat :: x in FreeArgs(m0, t) && t <= x < |mem| && bs[k] + (x - t) < |m0| ==>
         mem[x] == DerefCell(m0, m0[bs[k] + (x - t)])
  }

  /** Links of a chain are apart from its values and from each other. */
  lemma LinksApart(mem: seq<Cell>, atts: nat, bs: seq<nat>, i: nat, j: nat)
    requires Apart(mem, atts, bs) && i <= |bs| && j <= |bs|
    ensures LinkAt(atts, bs, i) == LinkAt(atts, bs, j) ==> i == j
    ensures forall h :: 0 <= h < |bs| ==> LinkAt(atts, bs, i) != bs[h] && !IsArg(mem, bs[h], LinkAt(atts, bs, i))
    ensures LinkAt(atts, bs, i) in Frame(atts, bs)
  {
    forall h | 0 <= h < |bs|
      ensures LinkAt(atts, bs, i) != bs[h] && !IsArg(mem, bs[h], LinkAt(atts, bs, i))
    {
      assert BlockAt(mem, bs[h]);
      if i > 0 {
        assert BlockAt(mem, bs[i - 1]);
        if i - 1 < h { assert Disjoint(mem, bs[i - 1], bs[h]); }
            else if h < i - 1 { assert Disjoint(mem, bs[h], bs[i - 1]); }
      }
    }
    if 0 < i < j { assert Disjoint(mem, bs[i - 1], bs[j - 1]) && BlockAt(mem, bs[i - 1]) && BlockAt(mem, bs[j - 1]); }
    if 0 < j < i { assert Disjoint(mem, bs[j - 1], bs[i - 1]) && BlockAt(mem, bs[i - 1]) && BlockAt(mem, bs[j - 1]); }
  }

  lemma ApartReplaced(m0: seq<Cell>, mem: seq<Cell>, atts: nat, bs: seq<nat>, k: nat, t: nat)
    requires Apart(m0, atts, bs) && k < |bs| && Fresh(m0, atts, bs, t) && BlockAt(m0, bs[k]) && m0[bs[k]] == m0[t]
    requires SameHeaders(m0, mem, bs) && mem[t] == m0[t]
    ensures Apart(mem, atts, bs[k := t])
  {
    var bs' := bs[k := t];
    forall i, j | 0 <= i < j < |bs'|
      ensures Disjoint(mem, bs'[i], bs'[j]) && mem[bs'[i]] != mem[bs'[j]]
    {
      HeadersDiffer(m0, atts, bs, i, j);
      HeadersDiffer(m0, atts, bs, i, k);
      HeadersDiffer(m0, atts, bs, j, k);
      assert Disjoint(m0, bs[i], t) && Disjoint(m0, bs[j], t) && Disjoint(m0, bs[i], bs[j]);
    }
    forall j | 0 <= j < |bs'|
      ensures BlockAt(mem, bs'[j]) && (atts < bs'[j] || bs'[j] + ArityAt(mem, bs'[j]) < atts)
    {
      HeadersDiffer(m0, atts, bs, j, k);
    }
  }

  lemma CopiedApart(m0: seq<Cell>, mem: seq<Cell>, atts: nat, bs: seq<nat>, k: nat, t: nat)
    requires Apart(m0, atts, bs) && k < |bs| && Fresh(m0, atts, bs, t) && BlockAt(m0, bs[k]) && m0[bs[k]] == m0[t]
    requires Copied(m0, mem, atts, bs, k, t)
    ensures Apart(mem, atts, bs[k := t]) && SameHeaders(m0, mem, bs) && mem[t] == m0[t]
  {
    LinksApart(m0, atts, bs, k, k);
    LinkNotIn(m0, atts, bs, t, k);
    forall j | 0 <= j < |bs| && bs[j] < |m0|
      ensures mem[bs[j]] == m0[bs[j]]
    {
      assert Disjoint(m0, bs[j], t);
    }
    ApartReplaced(m0, mem, atts, bs, k, t);
  }

  /** A new block has none of the links. */
  lemma LinkNotIn(mem: seq<Cell>, atts: nat, bs: seq<nat>, t: nat, k: nat)
    requires Apart(mem, atts, bs) && Fresh(mem, atts, bs, t) && k <= |bs|
    ensures !(t <= LinkAt(atts, bs, k) <= t + ArityAt(mem, t))
  {
    if k > 0 { assert Disjoint(mem, bs[k - 1], t) && BlockAt(mem, bs[k - 1]); }
  }

  /** Where a chain ends: an unbound variable, in the last link or out of the way. */
  lemma EndTarget(mem: seq<Cell>, atts: nat, bs: seq<nat>)
    requires Linked(mem, atts, bs)
    ensures
      var l := LinkAt(atts, bs, |bs|);
      && l < |mem| && mem[l].Ref? && mem[l].a < |mem| && mem[mem[l].a] == mem[l]
      && (mem[l].a == l || mem[l].a !in Frame(atts, bs))
      && forall k :: 0 <= k < |bs| ==> !IsArg(mem, bs[k], mem[l].a)
  {
    assert LinkOk(mem, atts, bs, |bs|);
  }

  lemma EndIs(mem: seq<Cell>, l: nat, atts: nat, bs: seq<nat>)
    requires l < |mem| && mem[l].Ref? && mem[l].a < |mem| && mem[mem[l].a] == mem[l]
    requires mem[l].a == l || mem[l].a !in Frame(atts, bs)
    requires forall k :: 0 <= k < |bs| ==> !IsArg(mem, bs[k], mem[l].a)
    ensures EndOk(mem, l, atts, bs)
  {
  }

  lemma EndBeside(mem: seq<Cell>, atts: nat, bs: seq<nat>, k: nat, t: nat, r: nat)
    requires Apart(mem, atts, bs) && k < |bs| && r != t && r != t + 1
    requires r == LinkAt(atts, bs, |bs|) || r !in Frame(atts, bs)
    ensures r in Frame(atts, bs[k := t]) ==> r == LinkAt(atts, bs[k := t], |bs|)
  {
    hide Disjoint, Apart;
    var bs' := bs[k := t];
    if r in Frame(atts, bs') {
      LinksApart(mem, atts, bs, |bs|, 0);
      if r != atts {
        var j :| 0 <= j < |bs'| && (r == bs'[j] || r == bs'[j] + 1);
        assert j != k && bs'[j] == bs[j] && bs[j] in Frame(atts, bs) && bs[j] + 1 in Frame(atts, bs);
        LinksApart(mem, atts, bs, |bs|, j + 1);
      }
    }
  }

  lemma FreshEnd(mem: seq<Cell>, atts: nat, bs: seq<nat>, t: nat)
    requires Fresh(mem, atts, bs, t)
    ensures LinkAt(atts, bs, |bs|) < |mem|
    ensures mem[LinkAt(atts, bs, |bs|)].Ref? ==> !(t <= mem[LinkAt(atts, bs, |bs|)].a <= t + ArityAt(mem, t))
    ensures BlockAt(mem, t)
  {
  }

  /** A cell that is neither the changed link nor in the new block. */
  lemma CopiedCell(m0: seq<Cell>, mem: seq<Cell>, atts: nat, bs: seq<nat>, k: nat, t: nat, a: nat)
    requires k < |bs| && BlockAt(m0, t) && BlockAt(m0, bs[k]) && Copied(m0, mem, atts, bs, k, t) && a < |m0|
    requires a != LinkAt(atts, bs, k) && !(t < a <= t + ArityAt(m0, t))
    ensures |mem| == |m0| && mem[a] == m0[a]
  {
    FreeInside(m0, t);
  }

  lemma CopiedLinks(m0: seq<Cell>, mem: seq<Cell>, atts: nat, bs: seq<nat>, k: nat, t: nat)
    requires k < |bs| && BlockAt(m0, t) && BlockAt(m0, bs[k]) && Copied(m0, mem, atts, bs, k, t)
    ensures |mem| == |m0| && LinkAt(atts, bs, k) < |mem| && mem[LinkAt(atts, bs, k)] == Appl(t) &&
      mem[t + 1] == m0[bs[k] + 1]
  {
  }

  /** The end of the old chain, or of block k, is one for the new chain. */
  lemma CopiedEnd(m0: seq<Cell>, mem: seq<Cell>, atts: nat, bs: seq<nat>, k: nat, t: nat)
    requires Apart(m0, atts, bs) && Linked(m0, atts, bs) && k < |bs| && Fresh(m0, atts, bs, t) &&
      BlockAt(m0, bs[k]) && m0[bs[k]] == m0[t]
    requires BlockAt(m0, t) && Copied(m0, mem, atts, bs, k, t) && SameHeaders(m0, mem, bs) && mem[t] == m0[t]
    ensures LinkOk(mem, atts, bs[k := t], |bs|)
  {
    hide Disjoint, Copied, Fresh, EndOk, Linked;
    var n := |bs|;
    var l, bs' := LinkAt(atts, bs, n), bs[k := t];
    var l' := LinkAt(atts, bs', n);
    EndTarget(m0, atts, bs);
    FreshEnd(m0, atts, bs, t);
    var r := m0[l].a;
    LinksApart(m0, atts, bs, n, k);
    LinkNotIn(m0, atts, bs, t, n);
    CopiedLinks(m0, mem, atts, bs, k, t);
    if k + 1 != n { CopiedCell(m0, mem, atts, bs, k, t, l); }
    assert mem[l'] == m0[l];
    CopiedCell(m0, mem, atts, bs, k, t, r);
    NotArgs(m0, mem, bs, k, t, r);
    EndBeside(m0, atts, bs, k, t, r);
    EndIs(mem, l', atts, bs');
  }

  lemma NotArgs(m0: seq<Cell>, mem: seq<Cell>, bs: seq<nat>, k: nat, t: nat, r: nat)
    requires k < |bs| && t < |m0| && SameHeaders(m0, mem, bs) && mem[t] == m0[t] && !IsArg(m0, t, r)
    requires forall j :: 0 <= j < |bs| ==> !IsArg(m0, bs[j], r)
    ensures var bs' := bs[k := t]; forall j :: 0 <= j < |bs'| ==> !IsArg(mem, bs'[j], r)
  {
  }

  lemma CopiedLinked(m0: seq<Cell>, mem: seq<Cell>, atts: nat, bs: seq<nat>, k: nat, t: nat)
    requires Apart(m0, atts, bs) && Linked(m0, atts, bs) && k < |bs| && Fresh(m0, atts, bs, t) &&
      BlockAt(m0, bs[k]) && m0[bs[k]] == m0[t]
    requires BlockAt(m0, t) && Copied(m0, mem, atts, bs, k, t) && SameHeaders(m0, mem, bs) && mem[t] == m0[t]
    ensures Linked(mem, atts, bs[k := t])
  {
    hide Disjoint, Copied, Fresh, EndOk, Apart;
    var bs' := bs[k := t];
    CopiedLinks(m0, mem, atts, bs, k, t);
    forall j | 0 <= j <= |bs|
      ensures LinkOk(mem, atts, bs', j)
    {
      if j == |bs| {
        CopiedEnd(m0, mem, atts, bs, k, t);
      } else {
        assert LinkOk(m0, atts, bs, j);
        LinksApart(m0, atts, bs, j, k);
        LinkNotIn(m0, atts, bs, t, j);
        if j != k && j != k + 1 { CopiedCell(m0, mem, atts, bs, k, t, LinkAt(atts, bs, j)); }
      }
    }
  }

  lemma FreshClear(mem: seq<Cell>, atts: nat, bs: seq<nat>, t: nat, j: nat, x: nat)
    requires Fresh(mem, atts, bs, t) && Tidy(mem, atts, bs) && x < |mem|
    requires IsArg(mem, t, x) || (j < |bs| && IsArg(mem, bs[j], x))
    ensures Clear(mem, mem[x], Private(mem, t) + Frame(atts, bs))
  {
    if IsArg(mem, t, x) {
      ClearBoth(mem, mem[x], Private(mem, t), Frame(atts, bs));
    } else {
      TidyAt(mem, atts, bs, j, x);
      ClearBoth(mem, mem[x], Private(mem, t), Frame(atts, bs));
    }
  }

  /** The cells a copy changes, and those of the new chain, are among these. */
  lemma CopiedCovers(mem: seq<Cell>, atts: nat, bs: seq<nat>, k: nat, t: nat)
    requires k < |bs| && BlockAt(mem, t)
    ensures {LinkAt(atts, bs, k), t + 1} + FreeArgs(mem, t) + Frame(atts, bs[k := t])
      <= Private(mem, t) + Frame(atts, bs)
  {
    var bs' := bs[k := t];
    forall a: nat | a in Frame(atts, bs') && a != t && a != t + 1
      ensures a in Frame(atts, bs)
    {
      if a != atts {
        var j :| 0 <= j < |bs'| && (a == bs'[j] || a == bs'[j] + 1);
        assert bs[j] == bs'[j];
      }
    }
    if k > 0 { assert bs[k - 1] + 1 in Frame(atts, bs); }
  }

  lemma CopiedArg(m0: seq<Cell>, mem: seq<Cell>, atts: nat, bs: seq<nat>, k: nat, t: nat, j: nat, x: nat)
    requires Apart(m0, atts, bs) && Tidy(m0, atts, bs) && k < |bs| && Fresh(m0, atts, bs, t) && BlockAt(m0, bs[k]) &&
      m0[bs[k]] == m0[t]
    requires BlockAt(m0, t) && Copied(m0, mem, atts, bs, k, t) && SameHeaders(m0, mem, bs) && mem[t] == m0[t]
    requires j < |bs| && IsArg(mem, bs[k := t][j], x) && x < |m0|
    ensures x < |mem| && Clear(m0, mem[x], Private(m0, t) + Frame(atts, bs))
    ensures DerefCell(m0, mem[x]) == if j != k then DerefCell(m0, m0[x])
                                     else if DerefCell(m0, m0[x]) == FREE then DerefCell(m0, m0[bs[k] + (x - t)])
                                         else DerefCell(m0, m0[x])
  {
    hide Disjoint, Clear, DerefCell, Tidy;
    var s := Private(m0, t) + Frame(atts, bs);
    if j != k {
      assert IsArg(m0, bs[j], x);
      FreshClear(m0, atts, bs, t, j, x);
      LinksApart(m0, atts, bs, k, j);
      assert Disjoint(m0, bs[j], t);
      ArgBeside(m0, bs[j], t, x);
      CopiedCell(m0, mem, atts, bs, k, t, x);
    } else {
      assert IsArg(m0, t, x);
      LinkNotIn(m0, atts, bs, t, k);
      FreshClear(m0, atts, bs, t, j, x);
      if DerefCell(m0, m0[x]) == FREE {
        var y := bs[k] + (x - t);
        assert x in FreeArgs(m0, t) && mem[x] == DerefCell(m0, m0[y]);
        assert IsArg(m0, bs[k], y);
        FreshClear(m0, atts, bs, t, k, y);
        ClearSettles(m0, m0[y], s);
        ClearSettled(m0, mem[x], s);
      } else {
        assert x !in FreeArgs(m0, t);
      }
    }
  }

  lemma ArgBeside(mem: seq<Cell>, b: nat, t: nat, x: nat)
    requires Disjoint(mem, b, t) && IsArg(mem, b, x)
    ensures !(t <= x <= t + ArityAt(mem, t))
  {
  }

  /** The copy is part of the chain, and the map is the same as if the values had been merged in place. */
  lemma CopiedKeeps(m0: seq<Cell>, mem: seq<Cell>, atts: nat, bs: seq<nat>, k: nat, t: nat)
    requires Valid(m0, atts, bs) && k < |bs| && Fresh(m0, atts, bs, t) && BlockAt(m0, bs[k]) && m0[bs[k]] == m0[t]
    requires BlockAt(m0, t) && Copied(m0, mem, atts, bs, k, t)
    ensures Valid(mem, atts, bs[k := t])
    ensures Attributes(mem, atts, bs[k := t]) == Attributes(m0, atts, bs)[m0[t] := Merged(m0, bs[k], t)]
  {
    hide Disjoint, Clear, DerefCell, Tidy, Linked, Fresh, Copied, Apart, Values, Merged;
    var bs', z := bs[k := t], {LinkAt(atts, bs, k), t + 1} + FreeArgs(m0, t);
    CopiedApart(m0, mem, atts, bs, k, t);
    CopiedLinked(m0, mem, atts, bs, k, t);
    CopiedSteady(m0, mem, atts, bs, k, t);
    SteadyTidy(m0, mem, atts, bs', z);
    forall j {:trigger bs'[j]} | 0 <= j < |bs|
      ensures BlockAt(mem, bs'[j]) && BlockAt(m0, bs[j])
      ensures mem[bs'[j]] == m0[bs[j]] && Values(mem, bs'[j]) == if j == k then Merged(m0, bs[k], t)
        else Values(m0, bs[j])
    {
      HeadersDiffer(m0, atts, bs, j, k);
      HeadersDiffer(mem, atts, bs', j, k);
      CopiedValues(m0, mem, atts, bs, k, t, j);
    }
    AttributesReplaced(m0, mem, atts, bs, bs', k, Merged(m0, bs[k], t));
  }

  lemma CopiedSteady(m0: seq<Cell>, mem: seq<Cell>, atts: nat, bs: seq<nat>, k: nat, t: nat)
    requires Valid(m0, atts, bs) && k < |bs| && Fresh(m0, atts, bs, t) && BlockAt(m0, bs[k]) && m0[bs[k]] == m0[t]
    requires BlockAt(m0, t) && Copied(m0, mem, atts, bs, k, t) && SameHeaders(m0, mem, bs) && mem[t] == m0[t]
    ensures Steady(m0, mem, atts, bs[k := t], {LinkAt(atts, bs, k), t + 1} + FreeArgs(m0, t))
  {
    hide Disjoint, Clear, DerefCell, Tidy, Linked, Fresh, Apart;
    var bs', z := bs[k := t], {LinkAt(atts, bs, k), t + 1} + FreeArgs(m0, t);
    CopiedCovers(m0, atts, bs, k, t);
    forall j, x: nat | 0 <= j < |bs'| && IsArg(mem, bs'[j], x) && x < |mem|
      ensures Clear(m0, mem[x], z + Frame(atts, bs'))
    {
      CopiedArg(m0, mem, atts, bs, k, t, j, x);
      ClearFewer(m0, mem[x], Private(m0, t) + Frame(atts, bs), z + Frame(atts, bs'));
    }
  }

  lemma CopiedSlot(m0: seq<Cell>, mem: seq<Cell>, atts: nat, bs: seq<nat>, k: nat, t: nat, j: nat, x: nat)
    requires Valid(m0, atts, bs) && k < |bs| && Fresh(m0, atts, bs, t) && BlockAt(m0, bs[k]) && m0[bs[k]] == m0[t]
    requires BlockAt(m0, t) && Copied(m0, mem, atts, bs, k, t) && SameHeaders(m0, mem, bs) && mem[t] == m0[t]
    requires j < |bs| && IsArg(mem, bs[k := t][j], x) && x < |m0|
    requires Steady(m0, mem, atts, bs[k := t], {LinkAt(atts, bs, k), t + 1} + FreeArgs(m0, t))
    ensures x < |mem|
    ensures DerefCell(mem, mem[x]) == if j != k then DerefCell(m0, m0[x])
                                      else if DerefCell(m0, m0[x]) == FREE then DerefCell(m0, m0[bs[k] + (x - t)])
                                          else DerefCell(m0, m0[x])
  {
    hide Disjoint, Clear, DerefCell, Tidy, Linked, Fresh, Apart, Copied, Steady;
    CopiedArg(m0, mem, atts, bs, k, t, j, x);
    SteadyAt(m0, mem, atts, bs[k := t], {LinkAt(atts, bs, k), t + 1} + FreeArgs(m0, t), j, x);
  }

  lemma CopiedValues(m0: seq<Cell>, mem: seq<Cell>, atts: nat, bs: seq<nat>, k: nat, t: nat, j: nat)
    requires Valid(m0, atts, bs) && k < |bs| && Fresh(m0, atts, bs, t) && BlockAt(m0, bs[k]) && m0[bs[k]] == m0[t]
    requires BlockAt(m0, t) && Copied(m0, mem, atts, bs, k, t) && SameHeaders(m0, mem, bs) && mem[t] == m0[t]
    requires j < |bs| && BlockAt(m0, bs[j]) && BlockAt(mem, bs[k := t][j])
    requires Steady(m0, mem, atts, bs[k := t], {LinkAt(atts, bs, k), t + 1} + FreeArgs(m0, t))
    ensures Values(mem, bs[k := t][j]) == if j == k then Merged(m0, bs[k], t) else Values(m0, bs[j])
  {
    hide Disjoint, DerefCell, Valid, Fresh, Copied, Steady, FreeArgs, LinkAt;
    var b, v := bs[k := t][j], if j == k then Merged(m0, bs[k], t) else Values(m0, bs[j]);
    forall i: nat | i < |v|
      ensures DerefCell(mem, mem[b + 2 + i]) == v[i]
    {
      assert IsArg(mem, b, b + 2 + i);
      CopiedSlot(m0, mem, atts, bs, k, t, j, b + 2 + i);
      if j == k { assert v[i] == Merged(m0, bs[k], t)[i]; } else { assert v[i] == Values(m0, bs[j])[i]; }
    }
    ValuesAre(mem, b, v);
  }

  lemma AttributesReplaced(m0: seq<Cell>, mem: seq<Cell>, atts: nat, bs: seq<nat>, bs': seq<nat>, k: nat, v: seq<Cell>)
    requires Apart(m0, atts, bs) && Apart(mem, atts, bs') && k < |bs| == |bs'|
    requires forall j {:trigger bs'[j]} :: 0 <= j < |bs| ==>
      && BlockAt(mem, bs'[j]) && BlockAt(m0, bs[j]) && mem[bs'[j]] == m0[bs[j]]
      && Values(mem, bs'[j]) == if j == k then v else Values(m0, bs[j])
    ensures Attributes(mem, atts, bs') == Attributes(m0, atts, bs)[m0[bs[k]] := v]
  {
    hide Values, Disjoint;
    var m := Attributes(m0, atts, bs)[m0[bs[k]] := v];
    forall j | 0 <= j < |bs'|
      ensures mem[bs'[j]] in m && m[mem[bs'[j]]] == Values(mem, bs'[j])
    {
      HeadersDiffer(m0, atts, bs, j, k);
    }
    forall f | f in m
      ensures exists j :: 0 <= j < |bs'| && mem[bs'[j]] == f
    {
      var j :| 0 <= j < |bs| && m0[bs[j]] == f;
      assert mem[bs'[j]] == f;
    }
    AttributesAre(mem, atts, bs', m);
  }

  lemma FreeInside(mem: seq<Cell>, t: nat)
    requires BlockAt(mem, t)
    ensures forall x :: x in FreeArgs(mem, t) ==> t + 2 <= x <= t + ArityAt(mem, t)
  {
  }

  // ---------------------------------------------------------------- a block more

  /** AddNewModule: block t, without its free places, at the end of the chain. */
  ghost predicate Appended(m0: seq<Cell>, mem: seq<Cell>, atts: nat, bs: seq<nat>, t: nat)
    requires BlockAt(m0, t)
  {
    && Only(m0, mem, {LinkAt(atts, bs, |bs|)} + FreeArgs(m0, t))
    && LinkAt(atts, bs, |bs|) < |mem| && mem[LinkAt(atts, bs, |bs|)] == Appl(t)
    && forall x: nat :: x in FreeArgs(m0, t) && x < |mem| ==> mem[x] == VOID
  }

  ghost predicate NoSuch(mem: seq<Cell>, bs: seq<nat>, f: Cell) {
    forall k :: 0 <= k < |bs| && bs[k] < |mem| ==> mem[bs[k]] != f
  }

  lemma AppendedCell(m0: seq<Cell>, mem: seq<Cell>, atts: nat, bs: seq<nat>, t: nat, a: nat)
    requires BlockAt(m0, t) && Appended(m0, mem, atts, bs, t) && a < |m0|
    requires a != LinkAt(atts, bs, |bs|) && !IsArg(m0, t, a)
    ensures |mem| == |m0| && mem[a] == m0[a]
  {
    FreeInside(m0, t);
  }

  lemma AppendedApart(m0: seq<Cell>, mem: seq<Cell>, atts: nat, bs: seq<nat>, t: nat)
    requires Apart(m0, atts, bs) && Fresh(m0, atts, bs, t) && BlockAt(m0, t) && NoSuch(m0, bs, m0[t])
    requires Appended(m0, mem, atts, bs, t)
    ensures Apart(mem, atts, bs + [t]) && SameHeaders(m0, mem, bs) && mem[t] == m0[t] && mem[t + 1] == Ref(t + 1)
  {
    hide Appended;
    var bs' := bs + [t];
    LinkNotIn(m0, atts, bs, t, |bs|);
    AppendedCell(m0, mem, atts, bs, t, t);
    AppendedCell(m0, mem, atts, bs, t, t + 1);
    forall j | 0 <= j < |bs|
      ensures mem[bs[j]] == m0[bs[j]]
    {
      HeadersDiffer(m0, atts, bs, j, j);
      LinksApart(m0, atts, bs, |bs|, 0);
      assert Disjoint(m0, bs[j], t);
      AppendedCell(m0, mem, atts, bs, t, bs[j]);
    }
    forall i, j | 0 <= i < j < |bs'|
      ensures Disjoint(mem, bs'[i], bs'[j]) && mem[bs'[i]] != mem[bs'[j]]
    {
      assert Disjoint(m0, bs[i], t);
      if j < |bs| { assert Disjoint(m0, bs[i], bs[j]); HeadersDiffer(m0, atts, bs, i, j); }
          else { HeadersDiffer(m0, atts, bs, i, i); }
    }
  }

  lemma AppendedLinked(m0: seq<Cell>, mem: seq<Cell>, atts: nat, bs: seq<nat>, t: nat)
    requires Apart(m0, atts, bs) && Linked(m0, atts, bs) && Fresh(m0, atts, bs, t) && BlockAt(m0, t)
    requires Appended(m0, mem, atts, bs, t) && Apart(mem, atts, bs + [t]) && mem[t + 1] == Ref(t + 1)
    ensures Linked(mem, atts, bs + [t])
  {
    hide Disjoint, Apart, Fresh;
    var bs' := bs + [t];
    forall j | 0 <= j <= |bs'|
      ensures LinkOk(mem, atts, bs', j)
    {
      if j < |bs| {
        assert LinkOk(m0, atts, bs, j);
        LinksApart(m0, atts, bs, j, |bs|);
        LinkNotIn(m0, atts, bs, t, j);
        AppendedCell(m0, mem, atts, bs, t, LinkAt(atts, bs, j));
      } else if j > |bs| {
        LinksApart(mem, atts, bs', j, j);
        assert LinkAt(atts, bs', j) == t + 1;
        EndIs(mem, t + 1, atts, bs');
      }
    }
  }

  lemma AppendedCovers(mem: seq<Cell>, atts: nat, bs: seq<nat>, t: nat)
    requires BlockAt(mem, t)
    ensures {LinkAt(atts, bs, |bs|)} + FreeArgs(mem, t) + Frame(atts, bs + [t]) <= Private(mem, t) + Frame(atts, bs)
  {
    var bs' := bs + [t];
    forall a: nat | a in Frame(atts, bs') && a != t && a != t + 1
      ensures a in Frame(atts, bs)
    {
      if a != atts {
        var j :| 0 <= j < |bs'| && (a == bs'[j] || a == bs'[j] + 1);
        assert bs[j] == bs'[j];
      }
    }
    if |bs| > 0 { assert bs[|bs| - 1] + 1 in Frame(atts, bs); }
  }

  lemma AppendedArg(m0: seq<Cell>, mem: seq<Cell>, atts: nat, bs: seq<nat>, t: nat, j: nat, x: nat)
    requires Apart(m0, atts, bs) && Tidy(m0, atts, bs) && Fresh(m0, atts, bs, t) && BlockAt(m0, t)
    requires Appended(m0, mem, atts, bs, t) && SameHeaders(m0, mem, bs) && mem[t] == m0[t]
    requires j <= |bs| && IsArg(mem, (bs + [t])[j], x) && x < |m0|
    ensures x < |mem| && Clear(m0, mem[x], Private(m0, t) + Frame(atts, bs))
    ensures DerefCell(m0, mem[x]) == if j == |bs| && DerefCell(m0, m0[x]) == FREE then VOID else DerefCell(m0, m0[x])
  {
    hide Disjoint, Clear, DerefCell, Tidy;
    if j < |bs| {
      assert IsArg(m0, bs[j], x);
      FreshClear(m0, atts, bs, t, j, x);
      LinksApart(m0, atts, bs, |bs|, j);
      assert Disjoint(m0, bs[j], t);
      ArgBeside(m0, bs[j], t, x);
      AppendedCell(m0, mem, atts, bs, t, x);
    } else {
      assert IsArg(m0, t, x);
      LinkNotIn(m0, atts, bs, t, |bs|);
      FreshClear(m0, atts, bs, t, j, x);
      if DerefCell(m0, m0[x]) == FREE {
        assert x in FreeArgs(m0, t);
        ClearSettled(m0, VOID, Private(m0, t) + Frame(atts, bs));
      } else {
        assert x !in FreeArgs(m0, t);
      }
    }
  }

  lemma AppendedSteady(m0: seq<Cell>, mem: seq<Cell>, atts: nat, bs: seq<nat>, t: nat)
    requires Apart(m0, atts, bs) && Tidy(m0, atts, bs) && Fresh(m0, atts, bs, t) && BlockAt(m0, t)
    requires Appended(m0, mem, atts, bs, t) && SameHeaders(m0, mem, bs) && mem[t] == m0[t]
    ensures Steady(m0, mem, atts, bs + [t], {LinkAt(atts, bs, |bs|)} + FreeArgs(m0, t))
  {
    hide Disjoint, Clear, DerefCell, Tidy, Linked, Fresh, Apart;
    var bs', z := bs + [t], {LinkAt(atts, bs, |bs|)} + FreeArgs(m0, t);
    AppendedCovers(m0, atts, bs, t);
    forall j, x: nat | 0 <= j < |bs'| && IsArg(mem, bs'[j], x) && x < |mem|
      ensures Clear(m0, mem[x], z + Frame(atts, bs'))
    {
      AppendedArg(m0, mem, atts, bs, t, j, x);
      ClearFewer(m0, mem[x], Private(m0, t) + Frame(atts, bs), z + Frame(atts, bs'));
    }
  }

  lemma AppendedSlot(m0: seq<Cell>, mem: seq<Cell>, atts: nat, bs: seq<nat>, t: nat, j: nat, x: nat)
    requires Apart(m0, atts, bs) && Tidy(m0, atts, bs) && Fresh(m0, atts, bs, t) && BlockAt(m0, t)
    requires Appended(m0, mem, atts, bs, t) && SameHeaders(m0, mem, bs) && mem[t] == m0[t]
    requires j <= |bs| && IsArg(mem, (bs + [t])[j], x) && x < |m0|
    ensures x < |mem|
    ensures DerefCell(mem, mem[x]) == if j == |bs| && DerefCell(m0, m0[x]) == FREE then VOID else DerefCell(m0, m0[x])
  {
    hide Disjoint, Clear, DerefCell, Tidy, Linked, Fresh, Apart, Appended, Steady;
    AppendedSteady(m0, mem, atts, bs, t);
    AppendedArg(m0, mem, atts, bs, t, j, x);
    SteadyAt(m0, mem, atts, bs + [t], {LinkAt(atts, bs, |bs|)} + FreeArgs(m0, t), j, x);
  }

  lemma AppendedValues(m0: seq<Cell>, mem: seq<Cell>, atts: nat, bs: seq<nat>, t: nat, j: nat)
    requires Apart(m0, atts, bs) && Tidy(m0, atts, bs) && Fresh(m0, atts, bs, t) && BlockAt(m0, t)
    requires Appended(m0, mem, atts, bs, t) && SameHeaders(m0, mem, bs) && mem[t] == m0[t]
    requires j <= |bs| && BlockAt(m0, (bs + [t])[j]) && BlockAt(mem, (bs + [t])[j])
    ensures Values(mem, (bs + [t])[j]) == if j == |bs| then Normal(m0, t) else Values(m0, bs[j])
  {
    hide Disjoint, DerefCell, Apart, Tidy, Fresh, Appended, FreeArgs, LinkAt;
    var b, v := (bs + [t])[j], if j == |bs| then Normal(m0, t) else Values(m0, bs[j]);
    forall i: nat | i < |v|
      ensures DerefCell(mem, mem[b + 2 + i]) == v[i]
    {
      assert IsArg(mem, b, b + 2 + i);
      AppendedSlot(m0, mem, atts, bs, t, j, b + 2 + i);
      if j == |bs| { assert v[i] == Normal(m0, t)[i]; } else { assert v[i] == Values(m0, bs[j])[i]; }
    }
    ValuesAre(mem, b, v);
  }

  /** The new block's vector is in the map, and nothing else has changed. */
  lemma AppendedKeeps(m0: seq<Cell>, mem: seq<Cell>, atts: nat, bs: seq<nat>, t: nat)
    requires Valid(m0, atts, bs) && Fresh(m0, atts, bs, t) && BlockAt(m0, t) && NoSuch(m0, bs, m0[t])
    requires Appended(m0, mem, atts, bs, t)
    ensures Valid(mem, atts, bs + [t])
    ensures Attributes(mem, atts, bs + [t]) == Attributes(m0, atts, bs)[m0[t] := Normal(m0, t)]
  {
    hide Disjoint, Clear, DerefCell, Tidy, Linked, Fresh, Appended, Apart, Values, Normal;
    var bs' := bs + [t];
    AppendedApart(m0, mem, atts, bs, t);
    AppendedLinked(m0, mem, atts, bs, t);
    AppendedSteady(m0, mem, atts, bs, t);
    SteadyTidy(m0, mem, atts, bs', {LinkAt(atts, bs, |bs|)} + FreeArgs(m0, t));
    forall j {:trigger bs'[j]} | 0 <= j < |bs'|
      ensures BlockAt(mem, bs'[j]) && (j < |bs| ==> BlockAt(m0, bs[j]))
      ensures Values(mem, bs'[j]) == if j == |bs| then Normal(m0, t) else Values(m0, bs[j])
    {
      HeadersDiffer(mem, atts, bs', j, |bs|);
      if j < |bs| { HeadersDiffer(m0, atts, bs, j, j); }
      AppendedValues(m0, mem, atts, bs, t, j);
    }
    AttributesAppended(m0, mem, atts, bs, t, Normal(m0, t));
  }

  lemma AttributesAppended(m0: seq<Cell>, mem: seq<Cell>, atts: nat, bs: seq<nat>, t: nat, v: seq<Cell>)
    requires Apart(m0, atts, bs) && Apart(mem, atts, bs + [t]) && SameHeaders(m0, mem, bs) && t < |mem| &&
      NoSuch(m0, bs, mem[t])
    requires forall j {:trigger (bs + [t])[j]} :: 0 <= j <= |bs| ==>
      && BlockAt(mem, (bs + [t])[j]) && (j < |bs| ==> BlockAt(m0, bs[j]))
      && Values(mem, (bs + [t])[j]) == if j == |bs| then v else Values(m0, bs[j])
    ensures Attributes(mem, atts, bs + [t]) == Attributes(m0, atts, bs)[mem[t] := v]
  {
    hide Values, Disjoint;
    var bs', m := bs + [t], Attributes(m0, atts, bs)[mem[t] := v];
    forall j | 0 <= j < |bs'|
      ensures mem[bs'[j]] in m && m[mem[bs'[j]]] == Values(mem, bs'[j])
    {
      assert j < |bs| ==> bs'[j] == bs[j];
    }
    forall f | f in m
      ensures exists j :: 0 <= j < |bs'| && mem[bs'[j]] == f
    {
      if f == mem[t] {
        assert mem[bs'[|bs|]] == f;
      } else {
        var j :| 0 <= j < |bs| && m0[bs[j]] == f;
        assert mem[bs'[j]] == f;
      }
    }
    AttributesAre(mem, atts, bs', m);
  }

  // ---------------------------------------------------------------- a block less

  /** DelAtts: what follows block k takes its place. */
  ghost predicate Removed(m0: seq<Cell>, mem: seq<Cell>, atts: nat, bs: seq<nat>, k: nat)
    requires k < |bs| && BlockAt(m0, bs[k])
  {
    && Only(m0, mem, {LinkAt(atts, bs, k)})
    && LinkAt(atts, bs, k) < |mem| && mem[LinkAt(atts, bs, k)] == DerefCell(m0, m0[bs[k] + 1])
  }

  function Remove(bs: seq<nat>, k: nat): (r: seq<nat>)
    requires k < |bs|
    ensures |r| == |bs| - 1 && forall j :: 0 <= j < |r| ==> r[j] == bs[if j < k then j else j + 1]
  {
    bs[..k] + bs[k + 1..]
  }

  lemma RemovedApart(m0: seq<Cell>, mem: seq<Cell>, atts: nat, bs: seq<nat>, k: nat)
    requires Apart(m0, atts, bs) && k < |bs| && BlockAt(m0, bs[k]) && Removed(m0, mem, atts, bs, k)
    ensures Apart(mem, atts, Remove(bs, k)) && SameHeaders(m0, mem, bs)
  {
    LinksApart(m0, atts, bs, k, k);
    var bs' := Remove(bs, k);
    forall i, j | 0 <= i < j < |bs'|
      ensures Disjoint(mem, bs'[i], bs'[j]) && mem[bs'[i]] != mem[bs'[j]]
    {
      var i', j' := if i < k then i else i + 1, if j < k then j else j + 1;
      assert Disjoint(m0, bs[i'], bs[j']);
      HeadersDiffer(m0, atts, bs, i', j');
    }
    forall j | 0 <= j < |bs'|
      ensures BlockAt(mem, bs'[j]) && (atts < bs'[j] || bs'[j] + ArityAt(mem, bs'[j]) < atts)
    {
      HeadersDiffer(m0, atts, bs, if j < k then j else j + 1, k);
    }
  }

  lemma RemoveFrame(atts: nat, bs: seq<nat>, k: nat)
    requires k < |bs|
    ensures Frame(atts, Remove(bs, k)) <= Frame(atts, bs) && LinkAt(atts, bs, k) in Frame(atts, bs)
  {
    var bs' := Remove(bs, k);
    forall a: nat | a in Frame(atts, bs')
      ensures a in Frame(atts, bs)
    {
      if a != atts {
        var j :| 0 <= j < |bs'| && (a == bs'[j] || a == bs'[j] + 1);
        assert bs'[j] == bs[if j < k then j else j + 1];
      }
    }
    if k > 0 { assert bs[k - 1] + 1 in Frame(atts, bs); }
  }

  lemma RemovedEnd(m0: seq<Cell>, mem: seq<Cell>, atts: nat, bs: seq<nat>, k: nat)
    requires Apart(m0, atts, bs) && Linked(m0, atts, bs) && k < |bs| && BlockAt(m0, bs[k]) &&
      Removed(m0, mem, atts, bs, k)
    requires SameHeaders(m0, mem, bs)
    ensures LinkOk(mem, atts, Remove(bs, k), |bs| - 1)
  {
    hide Disjoint, EndOk, Linked, Apart, DerefCell;
    var n, bs' := |bs|, Remove(bs, k);
    var l, l' := LinkAt(atts, bs, n), LinkAt(atts, bs', n - 1);
    EndTarget(m0, atts, bs);
    var r := m0[l].a;
    LinksApart(m0, atts, bs, n, k);
    RemoveFrame(atts, bs, k);
    if k + 1 == n { ClearSettled(m0, m0[l], {}); }
    assert mem[l'] == m0[l] && mem[r] == m0[r];
    RemovedNotArgs(m0, mem, bs, k, r);
    if r == l && r != l' && r in Frame(atts, bs') { RemovedBeside(m0, atts, bs, k); }
    EndIs(mem, l', atts, bs');
  }

  lemma RemovedNotArgs(m0: seq<Cell>, mem: seq<Cell>, bs: seq<nat>, k: nat, r: nat)
    requires k < |bs| && SameHeaders(m0, mem, bs)
    requires forall j :: 0 <= j < |bs| ==> !IsArg(m0, bs[j], r)
    ensures var bs' := Remove(bs, k); forall j :: 0 <= j < |bs'| ==> !IsArg(mem, bs'[j], r)
  {
  }

  lemma RemovedBeside(mem: seq<Cell>, atts: nat, bs: seq<nat>, k: nat)
    requires Apart(mem, atts, bs) && k < |bs|
    ensures
      var l, bs' := LinkAt(atts, bs, |bs|), Remove(bs, k);
      l in Frame(atts, bs') ==> l == LinkAt(atts, bs', |bs| - 1)
  {
    hide Disjoint;
    var l, bs' := LinkAt(atts, bs, |bs|), Remove(bs, k);
    LinksApart(mem, atts, bs, |bs|, 0);
    if l in Frame(atts, bs') && l != atts {
      var j :| 0 <= j < |bs'| && (l == bs'[j] || l == bs'[j] + 1);
      var i := if j < k then j else j + 1;
      assert bs'[j] == bs[i];
      LinksApart(mem, atts, bs, |bs|, i + 1);
    }
  }

  lemma RemovedLinked(m0: seq<Cell>, mem: seq<Cell>, atts: nat, bs: seq<nat>, k: nat)
    requires Apart(m0, atts, bs) && Linked(m0, atts, bs) && k < |bs| && BlockAt(m0, bs[k]) &&
      Removed(m0, mem, atts, bs, k)
    requires SameHeaders(m0, mem, bs)
    ensures Linked(mem, atts, Remove(bs, k))
  {
    hide Disjoint, EndOk, Apart;
    var bs' := Remove(bs, k);
    forall j | 0 <= j <= |bs'|
      ensures LinkOk(mem, atts, bs', j)
    {
      if j == |bs'| {
        RemovedEnd(m0, mem, atts, bs, k);
      } else {
        var i := if j < k then j else j + 1;
        assert LinkOk(m0, atts, bs, i);
        LinksApart(m0, atts, bs, i, k);
        if j == k { ClearSettled(m0, m0[bs[k] + 1], {}); }
      }
    }
  }

  lemma RemovedSteady(m0: seq<Cell>, mem: seq<Cell>, atts: nat, bs: seq<nat>, k: nat)
    requires Apart(m0, atts, bs) && Tidy(m0, atts, bs) && k < |bs| && BlockAt(m0, bs[k]) &&
      Removed(m0, mem, atts, bs, k)
    requires SameHeaders(m0, mem, bs)
    ensures Steady(m0, mem, atts, Remove(bs, k), {LinkAt(atts, bs, k)})
    ensures forall j, x: nat :: 0 <= j < |bs| && IsArg(m0, bs[j], x) && x < |mem| ==> mem[x] == m0[x]
  {
    hide Disjoint, Clear, DerefCell, Tidy, Apart;
    var bs', z := Remove(bs, k), {LinkAt(atts, bs, k)};
    LinksApart(m0, atts, bs, k, k);
    RemoveFrame(atts, bs, k);
    forall j, x: nat | 0 <= j < |bs'| && IsArg(mem, bs'[j], x) && x < |mem|
      ensures Clear(m0, mem[x], z + Frame(atts, bs'))
    {
      var i := if j < k then j else j + 1;
      assert bs'[j] == bs[i] && IsArg(m0, bs[i], x);
      TidyAt(m0, atts, bs, i, x);
      ClearFewer(m0, mem[x], Frame(atts, bs), z + Frame(atts, bs'));
    }
  }

  lemma RemovedValues(m0: seq<Cell>, mem: seq<Cell>, atts: nat, bs: seq<nat>, k: nat, j: nat)
    requires Apart(m0, atts, bs) && Tidy(m0, atts, bs) && k < |bs| && BlockAt(m0, bs[k]) &&
      Removed(m0, mem, atts, bs, k)
    requires SameHeaders(m0, mem, bs) && j < |bs| - 1 && BlockAt(m0, Remove(bs, k)[j]) && BlockAt(mem, Remove(bs, k)[j])
    ensures Values(mem, Remove(bs, k)[j]) == Values(m0, Remove(bs, k)[j])
  {
    hide Disjoint, DerefCell, Apart, Tidy, Removed;
    var b := Remove(bs, k)[j];
    var v := Values(m0, b);
    RemovedSteady(m0, mem, atts, bs, k);
    forall i: nat | i < |v|
      ensures DerefCell(mem, mem[b + 2 + i]) == v[i]
    {
      assert b == bs[if j < k then j else j + 1] && IsArg(mem, b, b + 2 + i) && IsArg(m0, b, b + 2 + i);
      SteadyAt(m0, mem, atts, Remove(bs, k), {LinkAt(atts, bs, k)}, j, b + 2 + i);
    }
    ValuesAre(mem, b, v);
  }

  /** The block's vector is gone from the map, and nothing else has changed. */
  lemma RemovedKeeps(m0: seq<Cell>, mem: seq<Cell>, atts: nat, bs: seq<nat>, k: nat)
    requires Valid(m0, atts, bs) && k < |bs| && BlockAt(m0, bs[k]) && Removed(m0, mem, atts, bs, k)
    ensures Valid(mem, atts, Remove(bs, k))
    ensures Attributes(mem, atts, Remove(bs, k)) == Attributes(m0, atts, bs) - {m0[bs[k]]}
  {
    hide Disjoint, Clear, DerefCell, Tidy, Linked, Removed, Apart, Values;
    var bs' := Remove(bs, k);
    RemovedApart(m0, mem, atts, bs, k);
    RemovedLinked(m0, mem, atts, bs, k);
    RemovedSteady(m0, mem, atts, bs, k);
    SteadyTidy(m0, mem, atts, bs', {LinkAt(atts, bs, k)});
    forall j {:trigger bs'[j]} | 0 <= j < |bs'|
      ensures BlockAt(mem, bs'[j]) && BlockAt(m0, bs'[j]) && Values(mem, bs'[j]) == Values(m0, bs'[j])
    {
      HeadersDiffer(mem, atts, bs', j, j);
      HeadersDiffer(m0, atts, bs, if j < k then j else j + 1, k);
      RemovedValues(m0, mem, atts, bs, k, j);
    }
    AttributesRemoved(m0, mem, atts, bs, k);
  }

  lemma AttributesRemoved(m0: seq<Cell>, mem: seq<Cell>, atts: nat, bs: seq<nat>, k: nat)
    requires Apart(m0, atts, bs) && k < |bs| && Apart(mem, atts, Remove(bs, k)) && SameHeaders(m0, mem, bs) &&
      BlockAt(m0, bs[k])
    requires forall j {:trigger Remove(bs, k)[j]} :: 0 <= j < |bs| - 1 ==>
      && BlockAt(mem, Remove(bs, k)[j]) && BlockAt(m0, Remove(bs, k)[j])
      && Values(mem, Remove(bs, k)[j]) == Values(m0, Remove(bs, k)[j])
    ensures Attributes(mem, atts, Remove(bs, k)) == Attributes(m0, atts, bs) - {m0[bs[k]]}
  {
    hide Values, Disjoint;
    var bs', m := Remove(bs, k), Attributes(m0, atts, bs) - {m0[bs[k]]};
    forall j | 0 <= j < |bs'|
      ensures mem[bs'[j]] in m && m[mem[bs'[j]]] == Values(mem, bs'[j])
    {
      var i := if j < k then j else j + 1;
      HeadersDiffer(m0, atts, bs, i, k);
      assert bs'[j] == bs[i];
    }
    forall f | f in m
      ensures exists j :: 0 <= j < |bs'| && mem[bs'[j]] == f
    {
      var i :| 0 <= i < |bs| && m0[bs[i]] == f;
      assert i != k;
      var j := if i < k then i else i - 1;
      assert bs'[j] == bs[i] && mem[bs'[j]] == f;
    }
    AttributesAre(mem, atts, bs', m);
  }

  // ---------------------------------------------------------------- beside the chain

  /** Cells that are not part of the chain, and that nothing in it leads to. */
  ghost predicate Beside(mem: seq<Cell>, atts: nat, bs: seq<nat>, z: set<nat>) {
    && (forall a: nat :: a in z ==> a !in Frame(atts, bs))
    && (forall a: nat, k :: a in z && 0 <= k < |bs| ==> !IsArg(mem, bs[k], a))
    && (LinkAt(atts, bs, |bs|) < |mem| && mem[LinkAt(atts, bs, |bs|)].Ref? ==> mem[LinkAt(atts, bs, |bs|)].a !in z)
    && forall k, x: nat :: 0 <= k < |bs| && IsArg(mem, bs[k], x) && x < |mem| ==> Clear(mem, mem[x], z)
  }

  lemma BesideCell(m0: seq<Cell>, mem: seq<Cell>, atts: nat, bs: seq<nat>, z: set<nat>, a: nat)
    requires Only(m0, mem, z) && Beside(m0, atts, bs, z) && a < |m0|
    requires a in Frame(atts, bs) || (exists k :: 0 <= k < |bs| && IsArg(m0, bs[k], a))
             || (LinkAt(atts, bs, |bs|) < |m0| && m0[LinkAt(atts, bs, |bs|)] == Ref(a))
    ensures |mem| == |m0| && mem[a] == m0[a]
  {
  }

  lemma BesideLinked(m0: seq<Cell>, mem: seq<Cell>, atts: nat, bs: seq<nat>, z: set<nat>)
    requires Apart(m0, atts, bs) && Linked(m0, atts, bs) && Only(m0, mem, z) && Beside(m0, atts, bs, z) &&
      SameHeaders(m0, mem, bs)
    ensures Linked(mem, atts, bs)
  {
    hide Apart, Beside, Disjoint, EndOk;
    EndTarget(m0, atts, bs);
    forall j | 0 <= j <= |bs|
      ensures LinkOk(mem, atts, bs, j)
    {
      assert LinkOk(m0, atts, bs, j);
      LinksApart(m0, atts, bs, j, j);
      BesideCell(m0, mem, atts, bs, z, LinkAt(atts, bs, j));
      if j == |bs| {
        BesideCell(m0, mem, atts, bs, z, m0[LinkAt(atts, bs, j)].a);
        EndIs(mem, LinkAt(atts, bs, j), atts, bs);
      }
    }
  }

  lemma BesideApart(m0: seq<Cell>, mem: seq<Cell>, atts: nat, bs: seq<nat>, z: set<nat>)
    requires Apart(m0, atts, bs) && Only(m0, mem, z) && Beside(m0, atts, bs, z)
    ensures Apart(mem, atts, bs) && SameHeaders(m0, mem, bs)
  {
    hide Beside;
    forall j | 0 <= j < |bs| && bs[j] < |m0|
      ensures mem[bs[j]] == m0[bs[j]]
    {
      BesideCell(m0, mem, atts, bs, z, bs[j]);
    }
  }

  lemma BesideSlot(m0: seq<Cell>, mem: seq<Cell>, atts: nat, bs: seq<nat>, z: set<nat>, k: nat, x: nat)
    requires Tidy(m0, atts, bs) && Only(m0, mem, z) && Beside(m0, atts, bs, z) && k < |bs| && IsArg(m0, bs[k], x) &&
      x < |m0|
    ensures x < |mem| && Clear(mem, mem[x], Frame(atts, bs)) && DerefCell(mem, mem[x]) == DerefCell(m0, m0[x])
  {
    hide Clear, DerefCell;
    BesideCell(m0, mem, atts, bs, z, x);
    TidyAt(m0, atts, bs, k, x);
    ClearKept(m0, mem, m0[x], z, Frame(atts, bs));
  }

  /** Nothing changes in the chain or the map. */
  lemma BesideKeeps(m0: seq<Cell>, mem: seq<Cell>, atts: nat, bs: seq<nat>, z: set<nat>)
    requires Valid(m0, atts, bs) && Only(m0, mem, z) && Beside(m0, atts, bs, z)
    ensures Valid(mem, atts, bs) && SameHeaders(m0, mem, bs)
    ensures Attributes(mem, atts, bs) == Attributes(m0, atts, bs)
  {
    hide Apart, Linked, Tidy, Beside, Clear, DerefCell, Disjoint, Values;
    BesideApart(m0, mem, atts, bs, z);
    BesideLinked(m0, mem, atts, bs, z);
    forall k, x: nat | 0 <= k < |bs| && IsArg(mem, bs[k], x) && x < |mem|
      ensures Clear(mem, mem[x], Frame(atts, bs))
    {
      HeadersDiffer(m0, atts, bs, k, k);
      BesideSlot(m0, mem, atts, bs, z, k, x);
    }
    TidyIs(mem, atts, bs);
    forall k {:trigger bs[k]} | 0 <= k < |bs|
      ensures BlockAt(mem, bs[k]) && BlockAt(m0, bs[k]) && mem[bs[k]] == m0[bs[k]] &&
        Values(mem, bs[k]) == Values(m0, bs[k])
    {
      HeadersDiffer(m0, atts, bs, k, k);
      BesideValues(m0, mem, atts, bs, z, k);
    }
    AttributesSame(m0, mem, atts, bs);
  }

  lemma BesideValues(m0: seq<Cell>, mem: seq<Cell>, atts: nat, bs: seq<nat>, z: set<nat>, k: nat)
    requires Tidy(m0, atts, bs) && Only(m0, mem, z) && Beside(m0, atts, bs, z) && k < |bs|
    requires BlockAt(m0, bs[k]) && BlockAt(mem, bs[k]) && mem[bs[k]] == m0[bs[k]]
    ensures Values(mem, bs[k]) == Values(m0, bs[k])
  {
    hide Tidy, Beside, DerefCell;
    var b, v := bs[k], Values(m0, bs[k]);
    forall i: nat | i < |v|
      ensures DerefCell(mem, mem[b + 2 + i]) == v[i]
    {
      BesideSlot(m0, mem, atts, bs, z, k, b + 2 + i);
    }
    ValuesAre(mem, b, v);
  }

  lemma AttributesSame(m0: seq<Cell>, mem: seq<Cell>, atts: nat, bs: seq<nat>)
    requires Apart(m0, atts, bs) && Apart(mem, atts, bs)
    requires forall k {:trigger bs[k]} :: 0 <= k < |bs| ==>
      BlockAt(mem, bs[k]) && BlockAt(m0, bs[k]) && mem[bs[k]] == m0[bs[k]] && Values(mem, bs[k]) == Values(m0, bs[k])
    ensures Attributes(mem, atts, bs) == Attributes(m0, atts, bs)
  {
    hide Values, Disjoint;
    AttributesAre(mem, atts, bs, Attributes(m0, atts, bs));
  }

  /** What is private to a new block is beside the chain. */
  lemma PrivateBeside(mem: seq<Cell>, atts: nat, bs: seq<nat>, t: nat)
    requires Valid(mem, atts, bs) && Fresh(mem, atts, bs, t) && BlockAt(mem, t)
    ensures Beside(mem, atts, bs, Private(mem, t))
  {
    hide Apart, Linked, Tidy, Clear;
    FreeInside(mem, t);
    forall a: nat | a in Private(mem, t)
      ensures a !in Frame(atts, bs) && forall k :: 0 <= k < |bs| ==> !IsArg(mem, bs[k], a)
    {
      forall k | 0 <= k < |bs|
        ensures !IsArg(mem, bs[k], a) && a != bs[k] && a != bs[k] + 1
      {
        HeadersDiffer(mem, atts, bs, k, k);
        assert Disjoint(mem, bs[k], t);
      }
    }
  }

  /** The next block of the chain, or its end. */
  lemma EndsOrGoesOn(mem: seq<Cell>, atts: nat, bs: seq<nat>, k: nat)
    requires Apart(mem, atts, bs) && Linked(mem, atts, bs) && k <= |bs|
    ensures
      var l := LinkAt(atts, bs, k);
      && l < |mem|
      && if k < |bs| then mem[l] == Appl(bs[k]) && DerefCell(mem, mem[l]) == mem[l] && BlockAt(mem, bs[k])
         else mem[l].Ref? && DerefCell(mem, mem[l]).Ref?
  {
    if k < |bs| {
      assert LinkOk(mem, atts, bs, k);
      HeadersDiffer(mem, atts, bs, k, k);
    } else {
      EndTarget(mem, atts, bs);
      ClearSettled(mem, mem[LinkAt(atts, bs, k)], {});
    }
  }
}
