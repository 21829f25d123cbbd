/** Boundary tags: the heap between the bottom sentinel and HeapTop as a row of blocks. */
module Tiling {
  import opened FreeList

  /** Bit 31 of a size word. Sizes stay below it: the heap is smaller than 2^31 words. */
  const IN_USE: nat := 0x8000_0000

  /** A block of size n at s covers words s (header) to s + n (trailer). */
  datatype Blk = Blk(size: nat, used: bool)

  type Row = seq<Blk>

  function Word(b: Blk): nat {
    b.size + if b.used then IN_USE else 0
  }

  predicate InUse(w: nat) { w >= IN_USE }

  /** The size word without its flag. */
  function SizeOf(w: nat): nat {
    if w >= IN_USE then w - IN_USE else w
  }

  function Total(row: Row): nat {
    if row == [] then 0 else row[0].size + 1 + Total(row[1..])
  }

  /** From s on the words are those of the blocks of row, header and trailer agreeing. */
  predicate RowAt(mem: seq<nat>, s: nat, row: Row)
    decreases |row|
  {
    row == [] ||
    (&& 3 <= row[0].size < IN_USE && s + row[0].size < |mem|
     && mem[s] == Word(row[0]) && mem[s + row[0].size] == Word(row[0])
     && RowAt(mem, s + row[0].size + 1, row[1..]))
  }

  /** No two free blocks are adjacent and the last block is in use. */
  predicate Tight(row: Row) {
    forall i :: 0 <= i < |row| && !row[i].used ==> i + 1 < |row| && row[i + 1].used
  }

  predicate IsFreeAt(s: nat, row: Row, a: nat)
    decreases |row|
  {
    row != [] && ((a == s && !row[0].used) || IsFreeAt(s + row[0].size + 1, row[1..], a))
  }

  /** Words in use or tags: every word but the links of the free blocks. */
  predicate IsLink(s: nat, row: Row, x: nat)
    decreases |row|
  {
    row != [] && ((!row[0].used && (x == s + 1 || x == s + 2)) || IsLink(s + row[0].size + 1, row[1..], x))
  }

  // ---------------------------------------------------------------- rows

  lemma {:induction false} TotalConcat(a: Row, b: Row)
    ensures Total(a + b) == Total(a) + Total(b)
  {
    if a == [] {
      assert a + b == b;
    } else {
      assert (a + b)[1..] == a[1..] + b;
      TotalConcat(a[1..], b);
    }
  }

  lemma {:induction false} RowConcat(mem: seq<nat>, s: nat, a: Row, b: Row)
    ensures RowAt(mem, s, a + b) <==> RowAt(mem, s, a) && RowAt(mem, s + Total(a), b)
    decreases |a|
  {
    if a == [] {
      assert a + b == b;
    } else {
      assert (a + b)[1..] == a[1..] + b;
      RowConcat(mem, s + a[0].size + 1, a[1..], b);
    }
  }

  lemma {:induction false} FreeConcat(s: nat, a: Row, b: Row, x: nat)
    ensures IsFreeAt(s, a + b, x) <==> IsFreeAt(s, a, x) || IsFreeAt(s + Total(a), b, x)
    decreases |a|
  {
    if a == [] {
      assert a + b == b;
    } else {
      assert (a + b)[1..] == a[1..] + b;
      FreeConcat(s + a[0].size + 1, a[1..], b, x);
    }
  }

  /** The word before the end of a row is the trailer of its last block. */
  lemma {:induction false} LastTrailer(mem: seq<nat>, s: nat, row: Row)
    requires RowAt(mem, s, row) && row != []
    ensures s + Total(row) <= |mem| && 0 < Total(row)
    ensures mem[s + Total(row) - 1] == Word(row[|row| - 1])
    decreases |row|
  {
    if |row| > 1 { LastTrailer(mem, s + row[0].size + 1, row[1..]); }
  }

  lemma {:induction false} RowInside(mem: seq<nat>, s: nat, row: Row)
    requires RowAt(mem, s, row)
    ensures row != [] ==> s + Total(row) <= |mem|
    decreases |row|
  {
    if row != [] { RowInside(mem, s + row[0].size + 1, row[1..]); }
  }

  /** A row only reads tags. */
  lemma {:induction false} RowFrame(mem: seq<nat>, m: seq<nat>, s: nat, row: Row)
    requires RowAt(mem, s, row) && |m| == |mem|
    requires forall x :: s <= x < s + Total(row) && x < |mem| && !IsLink(s, row, x) ==> m[x] == mem[x]
    ensures RowAt(m, s, row)
    decreases |row|
  {
    if row != [] {
      var n := s + row[0].size + 1;
      LinksInside(n, row[1..], s);
      LinksInside(n, row[1..], s + row[0].size);
      forall x | n <= x < n + Total(row[1..]) && x < |mem| && !IsLink(n, row[1..], x)
        ensures m[x] == mem[x]
      {
        assert row[0].size >= 3 && !IsLink(s, row, x);
      }
      RowFrame(mem, m, n, row[1..]);
    }
  }

  lemma {:induction false} LinksInside(s: nat, row: Row, x: nat)
    requires x < s + 1
    ensures !IsLink(s, row, x)
    decreases |row|
  {
    if row != [] { LinksInside(s + row[0].size + 1, row[1..], x); }
  }

  /** A free block lies inside the row, and the header word read as a size is that of the list. */
  lemma {:induction false} FreeInside(mem: seq<nat>, s: nat, row: Row, a: nat)
    requires RowAt(mem, s, row) && IsFreeAt(s, row, a)
    ensures s <= a && a + 3 < s + Total(row) && a < |mem|
    ensures mem[a] < IN_USE && a + mem[a] + 1 <= s + Total(row)
    decreases |row|
  {
    if !(a == s && !row[0].used) {
      FreeInside(mem, s + row[0].size + 1, row[1..], a);
    }
  }

  lemma {:induction false} LinkOwner(s: nat, row: Row, x: nat) returns (a: nat)
    requires IsLink(s, row, x)
    ensures IsFreeAt(s, row, a) && (x == a + 1 || x == a + 2)
    decreases |row|
  {
    if !row[0].used && (x == s + 1 || x == s + 2) {
      a := s;
    } else {
      a := LinkOwner(s + row[0].size + 1, row[1..], x);
    }
  }

  // ---------------------------------------------------------------- a row with a gap

  /** left lies from lo to s, right from e to top; the free list holds exactly their free blocks. What
      the words from s to e hold does not matter: a block there is being freed or allocated. */
  ghost predicate Gap(mem: seq<nat>, free: nat, cs: Chains, lo: nat, left: Row, s: nat, e: nat, right: Row, top: nat)
  {
    && 0 < lo && s == lo + Total(left) && s <= e && top == e + Total(right) && top < |mem| <= IN_USE
    && mem[lo - 1] == IN_USE && mem[top] == IN_USE
    && RowAt(mem, lo, left) && RowAt(mem, e, right)
    && ListOk(mem, free, cs)
    && forall a :: IsNode(cs, a) <==> IsFreeAt(lo, left, a) || IsFreeAt(e, right, a)
  }

  /** The whole heap: no gap, and free blocks kept apart. */
  ghost predicate Tiled(mem: seq<nat>, free: nat, cs: Chains, lo: nat, row: Row, top: nat) {
    Gap(mem, free, cs, lo, row, top, top, [], top) && Tight(row)
  }

  lemma NodeInside(mem: seq<nat>, free: nat, cs: Chains, lo: nat, left: Row, s: nat, e: nat, right: Row, top: nat,
      a: nat)
    requires Gap(mem, free, cs, lo, left, s, e, right, top) && IsNode(cs, a)
    ensures (lo <= a && a + 3 < s) || (e <= a && a + 3 < top)
    ensures mem[a] < IN_USE
    ensures a + mem[a] + 1 <= s || (e <= a && a + mem[a] + 1 <= top)
  {
    if IsFreeAt(lo, left, a) {
      FreeInside(mem, lo, left, a);
    } else {
      FreeInside(mem, e, right, a);
    }
  }

  /** m agrees with mem on sentinels and tags outside the gap. */
  ghost predicate TagsKept(mem: seq<nat>, m: seq<nat>, lo: nat, left: Row, s: nat, e: nat, right: Row, top: nat) {
    && |m| == |mem|
    && forall x: nat ::
         lo <= x + 1 && x <= top && x < |mem| && !(s <= x < e) && !IsLink(lo, left, x) && !IsLink(e, right, x) ==>
           m[x] == mem[x]
  }

  lemma RowsKept(mem: seq<nat>, m: seq<nat>, free: nat, cs: Chains, lo: nat, left: Row, s: nat, e: nat, right: Row,
      top: nat)
    requires Gap(mem, free, cs, lo, left, s, e, right, top)
    requires TagsKept(mem, m, lo, left, s, e, right, top)
    ensures RowAt(m, lo, left) && RowAt(m, e, right) && m[lo - 1] == IN_USE && m[top] == IN_USE
  {
    forall x | lo <= x < lo + Total(left) && x < |mem| && !IsLink(lo, left, x)
      ensures m[x] == mem[x]
    {
      LinksInside(e, right, x);
    }
    forall x | e <= x < e + Total(right) && x < |mem| && !IsLink(e, right, x)
      ensures m[x] == mem[x]
    {
      LinksBefore(mem, lo, left, x);
    }
    RowFrame(mem, m, lo, left);
    RowFrame(mem, m, e, right);
    LinksInside(lo, left, lo - 1);
    LinksInside(e, right, lo - 1);
    LinksBefore(mem, lo, left, top);
    LinksBefore(mem, e, right, top);
  }

  lemma {:induction false} FreeLinks(s: nat, row: Row, a: nat)
    requires IsFreeAt(s, row, a)
    ensures IsLink(s, row, a + 1) && IsLink(s, row, a + 2)
    decreases |row|
  {
    if !(a == s && !row[0].used) { FreeLinks(s + row[0].size + 1, row[1..], a); }
  }

  /** Words that are no links of free blocks are no links of nodes. */
  lemma NotNodeLink(mem: seq<nat>, free: nat, cs: Chains, lo: nat, left: Row, s: nat, e: nat, right: Row, top: nat,
      x: nat)
    requires Gap(mem, free, cs, lo, left, s, e, right, top) && !IsLink(lo, left, x) && !IsLink(e, right, x)
    ensures forall i, j {:trigger cs[i].nodes[j]} :: At(cs, i, j) ==> x != cs[i].nodes[j] + 1 && x != cs[i].nodes[j] + 2
  {
    forall i, j | At(cs, i, j)
      ensures x != cs[i].nodes[j] + 1 && x != cs[i].nodes[j] + 2
    {
      var a := cs[i].nodes[j];
      assert IsNode(cs, a);
      if IsFreeAt(lo, left, a) { FreeLinks(lo, left, a); } else { FreeLinks(e, right, a); }
    }
  }

  lemma UnlinkKeepsTags(mem: seq<nat>, free: nat, cs: Chains, lo: nat, left: Row, s: nat, e: nat, right: Row,
      top: nat, i: nat, j: nat)
    requires Gap(mem, free, cs, lo, left, s, e, right, top) && At(cs, i, j)
    ensures cs[i].nodes[j] + 2 < |mem|
    ensures TagsKept(mem, Unlinked(mem, cs, i, j), lo, left, s, e, right, top)
  {
    assert NodeOk(mem, cs, i, j);
    forall x: nat | lo <= x + 1 && x <= top && x < |mem| && !(s <= x < e) && !IsLink(lo, left, x) &&
        !IsLink(e, right, x)
      ensures Unlinked(mem, cs, i, j)[x] == mem[x]
    {
      NotNodeLink(mem, free, cs, lo, left, s, e, right, top, x);
      if x != 0 { UnlinkedFrame(mem, cs, i, j, x); } else { UnlinkedZero(mem, free, cs, i, j); }
    }
  }

  lemma UnlinkedZero(mem: seq<nat>, free: nat, cs: Chains, i: nat, j: nat)
    requires ListOk(mem, free, cs) && At(cs, i, j) && cs[i].nodes[j] + 2 < |mem|
    ensures Unlinked(mem, cs, i, j)[0] == mem[0]
  {
    assert NodeOk(mem, cs, i, j);
  }

  // ---------------------------------------------------------------- widening the gap

  /** The free block before the gap leaves the list and joins the gap. */
  lemma DropPrev(mem: seq<nat>, free: nat, cs: Chains, lo: nat, left: Row, p: Blk, s: nat, e: nat, right: Row,
      top: nat, i: nat, j: nat)
    requires Gap(mem, free, cs, lo, left + [p], s, e, right, top) && !p.used
    requires At(cs, i, j) && p.size + 1 <= s && cs[i].nodes[j] == s - p.size - 1
    ensures cs[i].nodes[j] + 2 < |mem|
    ensures Gap(Unlinked(mem, cs, i, j), UnlinkedFree(mem, free, cs, i, j), Without(cs, i, j),
                lo, left, s - p.size - 1, e, right, top)
  {
    assert NodeOk(mem, cs, i, j);
    hide ListOk, Unlinked, UnlinkedFree, Without;
    UnlinkKeepsTags(mem, free, cs, lo, left + [p], s, e, right, top, i, j);
    var m := Unlinked(mem, cs, i, j);
    RowsKept(mem, m, free, cs, lo, left + [p], s, e, right, top);
    WithoutKeeps(mem, free, cs, i, j);
    TotalConcat(left, [p]);
    RowConcat(mem, lo, left, [p]);
    RowConcat(m, lo, left, [p]);
    forall a
      ensures IsNode(Without(cs, i, j), a) <==> IsFreeAt(lo, left, a) || IsFreeAt(e, right, a)
    {
      WithoutIsNode(mem, free, cs, i, j, a);
      FreeConcat(lo, left, [p], a);
      if IsFreeAt(lo, left, a) { FreeInside(mem, lo, left, a); }
      if IsFreeAt(e, right, a) { FreeInside(mem, e, right, a); }
    }
  }

  /** The free block after the gap leaves the list and joins the gap. */
  lemma DropNext(mem: seq<nat>, free: nat, cs: Chains, lo: nat, left: Row, s: nat, e: nat, n: Blk, right: Row,
      top: nat, i: nat, j: nat)
    requires Gap(mem, free, cs, lo, left, s, e, [n] + right, top) && !n.used
    requires At(cs, i, j) && cs[i].nodes[j] == e
    ensures cs[i].nodes[j] + 2 < |mem|
    ensures Gap(Unlinked(mem, cs, i, j), UnlinkedFree(mem, free, cs, i, j), Without(cs, i, j),
                lo, left, s, e + n.size + 1, right, top)
  {
    assert NodeOk(mem, cs, i, j);
    hide ListOk, Unlinked, UnlinkedFree, Without;
    var m := Unlinked(mem, cs, i, j);
    UnlinkKeepsTags(mem, free, cs, lo, left, s, e, [n] + right, top, i, j);
    RowsKept(mem, m, free, cs, lo, left, s, e, [n] + right, top);
    WithoutKeeps(mem, free, cs, i, j);
    assert ([n] + right)[1..] == right;
    forall a
      ensures IsNode(Without(cs, i, j), a) <==> IsFreeAt(lo, left, a) || IsFreeAt(e + n.size + 1, right, a)
    {
      WithoutIsNode(mem, free, cs, i, j, a);
      if IsFreeAt(lo, left, a) { FreeInside(mem, lo, left, a); }
      if IsFreeAt(e + n.size + 1, right, a) { FreeInside(mem, e + n.size + 1, right, a); }
    }
  }

  /** A used block next to the gap joins it: nobody else looks at its words. */
  lemma OpenUsed(mem: seq<nat>, free: nat, cs: Chains, lo: nat, left: Row, s: nat, b: Blk, right: Row, top: nat)
    requires Gap(mem, free, cs, lo, left, s, s, [b] + right, top) && b.used
    ensures Gap(mem, free, cs, lo, left, s, s + b.size + 1, right, top)
  {
    assert ([b] + right)[1..] == right;
    forall a
      ensures IsFreeAt(s, [b] + right, a) <==> IsFreeAt(s + b.size + 1, right, a)
    {
    }
  }

  /** A whole row, seen as two. */
  lemma Unseal(mem: seq<nat>, free: nat, cs: Chains, lo: nat, row: Row, left: Row, right: Row, top: nat)
    requires Gap(mem, free, cs, lo, row, top, top, [], top) && row == left + right
    ensures Gap(mem, free, cs, lo, left, lo + Total(left), lo + Total(left), right, top)
  {
    var s := lo + Total(left);
    TotalConcat(left, right);
    RowConcat(mem, lo, left, right);
    forall a
      ensures IsNode(cs, a) <==> IsFreeAt(lo, left, a) || IsFreeAt(s, right, a)
    {
      FreeConcat(lo, left, right, a);
      assert !IsFreeAt(top, [], a);
    }
  }

  lemma Seal(mem: seq<nat>, free: nat, cs: Chains, lo: nat, left: Row, s: nat, right: Row, top: nat)
    requires Gap(mem, free, cs, lo, left, s, s, right, top)
    ensures Gap(mem, free, cs, lo, left + right, top, top, [], top)
  {
    TotalConcat(left, right);
    RowConcat(mem, lo, left, right);
    forall a
      ensures IsNode(cs, a) <==> IsFreeAt(lo, left + right, a) || IsFreeAt(top, [], a)
    {
      FreeConcat(lo, left, right, a);
    }
  }

  // ---------------------------------------------------------------- filling the gap

  /** Words of the gap may be overwritten at will. */
  lemma WriteGap(mem: seq<nat>, m: seq<nat>, free: nat, cs: Chains, lo: nat, left: Row, s: nat, e: nat, right: Row,
      top: nat)
    requires Gap(mem, free, cs, lo, left, s, e, right, top) && |m| == |mem|
    requires forall x :: 0 <= x < |mem| && !(s <= x < e) ==> m[x] == mem[x]
    ensures Gap(m, free, cs, lo, left, s, e, right, top)
  {
    RowsKept(mem, m, free, cs, lo, left, s, e, right, top);
    forall i, j | At(cs, i, j) && cs[i].nodes[j] + 2 < |mem|
      ensures var a := cs[i].nodes[j]; m[a] == mem[a] && m[a + 1] == mem[a + 1] && m[a + 2] == mem[a + 2]
    {
      assert IsNode(cs, cs[i].nodes[j]);
      NodeInside(mem, free, cs, lo, left, s, e, right, top, cs[i].nodes[j]);
    }
    ListFrame(mem, m, free, cs);
  }

  /** A used block with agreeing tags at the start of the gap. */
  lemma FillUsed(mem: seq<nat>, free: nat, cs: Chains, lo: nat, left: Row, s: nat, e: nat, right: Row, top: nat, n: nat)
    requires Gap(mem, free, cs, lo, left, s, e, right, top) && 3 <= n < IN_USE && s + n + 1 <= e
    requires mem[s] == Word(Blk(n, true)) && mem[s + n] == mem[s]
    ensures Gap(mem, free, cs, lo, left + [Blk(n, true)], s + n + 1, e, right, top)
  {
    FillRow(mem, free, cs, lo, left, s, Blk(n, true));
    forall a
      ensures IsFreeAt(lo, left + [Blk(n, true)], a) <==> IsFreeAt(lo, left, a)
    {
      FreeConcat(lo, left, [Blk(n, true)], a);
    }
  }

  lemma FillRow(mem: seq<nat>, free: nat, cs: Chains, lo: nat, left: Row, s: nat, b: Blk)
    requires RowAt(mem, lo, left) && s == lo + Total(left) && 3 <= b.size < IN_USE && s + b.size < |mem|
    requires mem[s] == Word(b) && mem[s + b.size] == mem[s]
    ensures RowAt(mem, lo, left + [b]) && lo + Total(left + [b]) == s + b.size + 1
  {
    assert [b][1..] == [];
    RowConcat(mem, lo, left, [b]);
    TotalConcat(left, [b]);
  }

  lemma LinkedAway(mem: seq<nat>, free: nat, cs: Chains, b: nat, size: nat, x: nat)
    requires ListOk(mem, free, cs) && b + 2 < |mem| && x < |mem| && x != b + 1 && x != b + 2 && x != 0
    requires forall i, j {:trigger cs[i].nodes[j]} :: At(cs, i, j) ==>
      x != cs[i].nodes[j] + 1 && x != cs[i].nodes[j] + 2
    ensures Linked(mem, cs, b, size)[x] == mem[x]
  {
    LinkedFrame(mem, cs, b, size, x);
  }

  /** A free block with agreeing tags at the start of the gap, put on the list. */
  lemma FillFree(mem: seq<nat>, free: nat, cs: Chains, lo: nat, left: Row, s: nat, e: nat, right: Row, top: nat, n: nat)
    requires Gap(mem, free, cs, lo, left, s, e, right, top) && 3 <= n < IN_USE && s + n + 1 <= e
    requires mem[s] == n && mem[s + n] == n
    ensures Gap(Linked(mem, cs, s, n), SetFree(free, LinkTo(cs, FirstFit(cs, n)), s), Insert(cs, s, n),
                lo, left + [Blk(n, false)], s + n + 1, e, right, top)
  {
    hide ListOk, Insert, SetFree, LinkTo, FirstFit;
    var m, cs' := Linked(mem, cs, s, n), Insert(cs, s, n);
    forall i, j | At(cs, i, j)
      ensures Apart(s, cs[i].nodes[j])
    {
      assert IsNode(cs, cs[i].nodes[j]);
      NodeInside(mem, free, cs, lo, left, s, e, right, top, cs[i].nodes[j]);
    }
    InsertKeeps(mem, free, cs, s, n);
    forall x | 0 < x < |mem| && x != s + 1 && x != s + 2 && !IsLink(lo, left, x) && !IsLink(e, right, x)
      ensures m[x] == mem[x]
    {
      NotNodeLink(mem, free, cs, lo, left, s, e, right, top, x);
      LinkedAway(mem, free, cs, s, n, x);
    }
    LinksBefore(mem, lo, left, s);
    LinksBefore(mem, lo, left, s + n);
    LinksInside(e, right, s);
    LinksInside(e, right, s + n);
    LinkedZero(mem, free, cs, s, n);
    RowsKept(mem, m, free, cs, lo, left, s, e, right, top);
    FillRow(m, free, cs, lo, left, s, Blk(n, false));
    forall a
      ensures IsNode(cs', a) <==> IsFreeAt(lo, left + [Blk(n, false)], a) || IsFreeAt(e, right, a)
    {
      InsertIsNode(cs, s, n, a);
      FreeConcat(lo, left, [Blk(n, false)], a);
    }
  }

  lemma LinkedZero(mem: seq<nat>, free: nat, cs: Chains, b: nat, size: nat)
    requires ListOk(mem, free, cs) && b + 2 < |mem|
    ensures Linked(mem, cs, b, size)[0] == mem[0]
  {
    var i := FirstFit(cs, size);
    if i < |cs| { assert At(cs, i, 0); }
  }

  lemma {:induction false} LinksBefore(mem: seq<nat>, s: nat, row: Row, x: nat)
    requires RowAt(mem, s, row) && s + Total(row) <= x
    ensures !IsLink(s, row, x)
    decreases |row|
  {
    if row != [] { LinksBefore(mem, s + row[0].size + 1, row[1..], x); }
  }
}
