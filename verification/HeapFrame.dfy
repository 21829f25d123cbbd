/** What the allocator's writes leave alone: tags and payloads outside the gap. */
module HeapFrame {
  import opened FreeList
  import opened HeapRows
  import opened Tiling

  lemma {:induction false} LinkConcat(s: nat, a: Row, b: Row, x: nat)
    ensures IsLink(s, a + b, x) <==> IsLink(s, a, x) || IsLink(s + Total(a), b, x)
    decreases |a|
  {
    if a == [] {
      assert a + b == b;
    } else {
      assert (a + b)[1..] == a[1..] + b;
      LinkConcat(s + a[0].size + 1, a[1..], b, x);
    }
  }

  /** Where a gap lies. */
  lemma GapFacts(mem: seq<nat>, free: nat, cs: Chains, lo: nat, left: Row, s: nat, e: nat, right: Row, top: nat)
    requires Gap(mem, free, cs, lo, left, s, e, right, top)
    ensures 0 < lo && s == lo + Total(left) && s <= e && top == e + Total(right) && top < |mem| <= IN_USE
    ensures ListOk(mem, free, cs)
  {
  }

  /** The tag before the gap tells whether the block there is in use. */
  lemma PrevTag(mem: seq<nat>, free: nat, cs: Chains, lo: nat, left: Row, s: nat, e: nat, right: Row, top: nat)
    requires Gap(mem, free, cs, lo, left, s, e, right, top)
    ensures 0 < s <= |mem| && mem[s - 1] == if left == [] then IN_USE else Word(left[|left| - 1])
    ensures InUse(mem[s - 1]) <==> PrevFree(left) == []
  {
    if left != [] {
      LastTrailer(mem, lo, left);
      LastSize(mem, lo, left);
    }
  }

  lemma {:induction false} LastSize(mem: seq<nat>, s: nat, row: Row)
    requires RowAt(mem, s, row) && row != []
    ensures 3 <= row[|row| - 1].size < IN_USE
    decreases |row|
  {
    if |row| > 1 { LastSize(mem, s + row[0].size + 1, row[1..]); }
  }

  /** The free block before the gap is a node, of the size its trailer tells. */
  lemma PrevNode(mem: seq<nat>, free: nat, cs: Chains, lo: nat, left: Row, p: Blk, s: nat, e: nat, right: Row, top: nat)
      returns (i: nat, j: nat)
    requires Gap(mem, free, cs, lo, left + [p], s, e, right, top) && !p.used
    ensures p.size + 1 <= s && s <= |mem| && mem[s - 1] == p.size && mem[s - p.size - 1] == p.size
    ensures At(cs, i, j) && cs[i].nodes[j] == s - p.size - 1
    ensures s - p.size - 1 == lo + Total(left) && 3 <= p.size < IN_USE
  {
    LastTrailer(mem, lo, left + [p]);
    RowConcat(mem, lo, left, [p]);
    TotalConcat(left, [p]);
    Single(p);
    FreeConcat(lo, left, [p], s - p.size - 1);
    assert IsNode(cs, s - p.size - 1);
    var k, l :| At(cs, k, l) && cs[k].nodes[l] == s - p.size - 1;
    i, j := k, l;
  }

  lemma NextNode(mem: seq<nat>, free: nat, cs: Chains, lo: nat, left: Row, s: nat, e: nat, n: Blk, right: Row, top: nat)
      returns (i: nat, j: nat)
    requires Gap(mem, free, cs, lo, left, s, e, [n] + right, top) && !n.used
    ensures e < |mem| && mem[e] == n.size && 3 <= n.size < IN_USE
    ensures At(cs, i, j) && cs[i].nodes[j] == e && e + n.size + 1 <= top
  {
    assert IsNode(cs, e);
    var k, l :| At(cs, k, l) && cs[k].nodes[l] == e;
    i, j := k, l;
    assert ([n] + right)[1..] == right;
  }

  /** The words outside a smaller gap lie outside the wider one... */
  lemma WiderLeft(mem: seq<nat>, m: seq<nat>, lo: nat, left: Row, p: Blk, s: nat, e: nat, right: Row, top: nat)
    requires TagsKept(mem, m, lo, left + [p], s, e, right, top)
    requires s == lo + Total(left) + p.size + 1 && 3 <= p.size && s <= e
    ensures TagsKept(mem, m, lo, left, s - p.size - 1, e, right, top)
  {
    assert [p][1..] == [];
    forall x: nat | lo <= x + 1 && x <= top && x < |mem| && !(s - p.size - 1 <= x < e) && !IsLink(lo, left, x) &&
        !IsLink(e, right, x)
      ensures m[x] == mem[x]
    {
      LinkConcat(lo, left, [p], x);
    }
  }

  lemma WiderRight(mem: seq<nat>, m: seq<nat>, lo: nat, left: Row, s: nat, e: nat, n: Blk, right: Row, top: nat)
    requires TagsKept(mem, m, lo, left, s, e, [n] + right, top) && 3 <= n.size && s <= e
    ensures TagsKept(mem, m, lo, left, s, e + n.size + 1, right, top)
  {
    assert ([n] + right)[1..] == right;
  }

  lemma {:induction false} LiveNoLink(mem: seq<nat>, s: nat, row: Row, a: nat, n: nat, x: nat)
    requires RowAt(mem, s, row) && LiveAt(s, row, a, n) && a <= x <= a + n
    ensures !IsLink(s, row, x)
    decreases |row|
  {
    var e := s + row[0].size + 1;
    if a == s && row[0] == Blk(n, true) {
      if IsLink(e, row[1..], x) { var f := LinkOwner(e, row[1..], x); FreeInside(mem, e, row[1..], f); }
    } else {
      LiveNoLink(mem, e, row[1..], a, n, x);
      LiveFrom(e, row[1..], a, n);
    }
  }

  /** The blocks in use on both sides of the gap keep every word. */
  lemma LiveKept(g: seq<nat>, mem: seq<nat>, m: seq<nat>, free: nat, cs: Chains, lo: nat, left: Row, s: nat, e: nat,
      right: Row, top: nat, a: nat, n: nat, x: nat)
    requires Gap(g, free, cs, lo, left, s, e, right, top) && |g| == |m|
    requires TagsKept(mem, m, lo, left, s, e, right, top)
    requires LiveAt(lo, left, a, n) || LiveAt(e, right, a, n)
    requires a <= x <= a + n
    ensures x < |mem| && m[x] == mem[x]
  {
    if LiveAt(lo, left, a, n) {
      LiveFrom(lo, left, a, n);
      LiveNoLink(g, lo, left, a, n, x);
      LinksInside(e, right, x);
    } else {
      LiveFrom(e, right, a, n);
      LiveNoLink(g, e, right, a, n, x);
      LinksBefore(g, lo, left, x);
    }
  }

  /** Linking a block in the gap writes no tag and no payload outside it. */
  lemma LinkKeepsTags(mem: seq<nat>, free: nat, cs: Chains, lo: nat, left: Row, s: nat, e: nat, right: Row, top: nat,
      c: nat, n: nat)
    requires Gap(mem, free, cs, lo, left, s, e, right, top) && s <= c && c + 2 < e
    ensures c + 2 < |mem| && TagsKept(mem, Linked(mem, cs, c, n), lo, left, s, e, right, top)
  {
    forall x: nat | lo <= x + 1 && x <= top && x < |mem| && !(s <= x < e) && !IsLink(lo, left, x) &&
        !IsLink(e, right, x)
      ensures Linked(mem, cs, c, n)[x] == mem[x]
    {
      NotNodeLink(mem, free, cs, lo, left, s, e, right, top, x);
      if x != 0 { LinkedFrame(mem, cs, c, n, x); } else { LinkedZero(mem, free, cs, c, n); }
    }
  }

  /** A block in the gap overlaps no free block. */
  lemma GapClear(mem: seq<nat>, free: nat, cs: Chains, lo: nat, left: Row, s: nat, e: nat, right: Row, top: nat, c: nat)
    requires Gap(mem, free, cs, lo, left, s, e, right, top) && s <= c && c + 2 < e
    ensures Clear(cs, c)
  {
    forall i, j | At(cs, i, j)
      ensures Apart(c, cs[i].nodes[j])
    {
      assert IsNode(cs, cs[i].nodes[j]);
      NodeInside(mem, free, cs, lo, left, s, e, right, top, cs[i].nodes[j]);
    }
  }

  /** A free block with agreeing tags at the end of the gap, put on the list. */
  lemma FillFreeEnd(mem: seq<nat>, free: nat, cs: Chains, lo: nat, left: Row, s: nat, e: nat, right: Row, top: nat,
      c: nat, n: nat)
    requires Gap(mem, free, cs, lo, left, s, e, right, top) && 3 <= n < IN_USE && s <= c && c + n + 1 == e
    requires mem[c] == n && mem[c + n] == n
    ensures Gap(Linked(mem, cs, c, n), SetFree(free, LinkTo(cs, FirstFit(cs, n)), c), Insert(cs, c, n),
                lo, left, s, c, [Blk(n, false)] + right, top)
  {
    var m, cs', right' := Linked(mem, cs, c, n), Insert(cs, c, n), [Blk(n, false)] + right;
    GapClear(mem, free, cs, lo, left, s, e, right, top, c);
    InsertKeeps(mem, free, cs, c, n);
    LinkKeepsTags(mem, free, cs, lo, left, s, e, right, top, c, n);
    RowsKept(mem, m, free, cs, lo, left, s, e, right, top);
    LinkedTags(mem, free, cs, lo, left, s, e, right, top, c, n);
    assert right'[1..] == right;
    forall a
      ensures IsNode(cs', a) <==> IsFreeAt(lo, left, a) || IsFreeAt(c, right', a)
    {
      InsertIsNode(cs, c, n, a);
    }
  }

  /** Linking a block leaves its own tags alone. */
  lemma LinkedTags(mem: seq<nat>, free: nat, cs: Chains, lo: nat, left: Row, s: nat, e: nat, right: Row, top: nat,
      c: nat, n: nat)
    requires Gap(mem, free, cs, lo, left, s, e, right, top) && 3 <= n && s <= c && c + n < e
    ensures Linked(mem, cs, c, n)[c] == mem[c] && Linked(mem, cs, c, n)[c + n] == mem[c + n]
  {
    forall x | x == c || x == c + n
      ensures Linked(mem, cs, c, n)[x] == mem[x]
    {
      LinksBefore(mem, lo, left, x);
      if IsLink(e, right, x) { var f := LinkOwner(e, right, x); FreeInside(mem, e, right, f); }
      NotNodeLink(mem, free, cs, lo, left, s, e, right, top, x);
      LinkedFrame(mem, cs, c, n, x);
    }
  }
}
