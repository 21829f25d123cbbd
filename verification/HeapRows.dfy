/** What freeing and allocating a block do to the row of blocks. */
module HeapRows {
  import opened FreeList
  import opened Tiling

  /** A block in use starts at a and has size n. */
  predicate LiveAt(s: nat, row: Row, a: nat, n: nat)
    decreases |row|
  {
    row != [] && ((a == s && row[0] == Blk(n, true)) || LiveAt(s + row[0].size + 1, row[1..], a, n))
  }

  /** Words taken by blocks in use, tags included. */
  function UsedWords(row: Row): nat {
    if row == [] then 0 else (if row[0].used then row[0].size + 1 else 0) + UsedWords(row[1..])
  }

  function PrevFree(left: Row): Row {
    if left != [] && !left[|left| - 1].used then [left[|left| - 1]] else []
  }

  function NextFree(right: Row): Row {
    if right != [] && !right[0].used then [right[0]] else []
  }

  /** The one free block that b and its free neighbours become. */
  function Merged(p: Row, b: Blk, n: Row): Blk {
    Blk(b.size + Total(p) + Total(n), false)
  }

  /** A free block handed out for a request of n words; what is over stays free if it is worth it. */
  function Taken(b: Blk, n: nat): Row
    requires n <= b.size
  {
    if b.size >= n + 25 then [Blk(n, true), Blk(b.size - n - 1, false)] else [Blk(b.size, true)]
  }

  lemma {:induction false} LiveConcat(s: nat, a: Row, b: Row, x: nat, n: nat)
    ensures LiveAt(s, a + b, x, n) <==> LiveAt(s, a, x, n) || LiveAt(s + Total(a), b, x, n)
    decreases |a|
  {
    if a == [] {
      assert a + b == b;
    } else {
      assert (a + b)[1..] == a[1..] + b;
      LiveConcat(s + a[0].size + 1, a[1..], b, x, n);
    }
  }

  lemma {:induction false} UsedConcat(a: Row, b: Row)
    ensures UsedWords(a + b) == UsedWords(a) + UsedWords(b)
  {
    if a == [] {
      assert a + b == b;
    } else {
      assert (a + b)[1..] == a[1..] + b;
      UsedConcat(a[1..], b);
    }
  }

  /** Three rows in a row. */
  lemma Join(a: Row, b: Row, c: Row)
    ensures Total(a + b + c) == Total(a) + Total(b) + Total(c)
    ensures UsedWords(a + b + c) == UsedWords(a) + UsedWords(b) + UsedWords(c)
  {
    TotalConcat(a, b);
    TotalConcat(a + b, c);
    UsedConcat(a, b);
    UsedConcat(a + b, c);
  }

  lemma LiveJoin(s: nat, a: Row, b: Row, c: Row, x: nat, n: nat)
    ensures LiveAt(s, a + b + c, x, n) <==>
              LiveAt(s, a, x, n) || LiveAt(s + Total(a), b, x, n) || LiveAt(s + Total(a) + Total(b), c, x, n)
  {
    LiveConcat(s, a + b, c, x, n);
    LiveConcat(s, a, b, x, n);
    TotalConcat(a, b);
  }

  lemma Single(b: Blk)
    ensures Total([b]) == b.size + 1 && UsedWords([b]) == if b.used then b.size + 1 else 0
  {
    assert [b][1..] == [];
  }

  lemma {:induction false} LiveFrom(s: nat, row: Row, a: nat, n: nat)
    requires LiveAt(s, row, a, n)
    ensures s <= a && a + n < s + Total(row)
    decreases |row|
  {
    if !(a == s && row[0] == Blk(n, true)) { LiveFrom(s + row[0].size + 1, row[1..], a, n); }
  }

  /** Two live blocks of a row do not overlap. */
  lemma {:induction false} LiveDisjoint(s: nat, row: Row, a: nat, n: nat, b: nat, m: nat)
    requires LiveAt(s, row, a, n) && LiveAt(s, row, b, m) && a < b
    ensures a + n < b
    decreases |row|
  {
    var s' := s + row[0].size + 1;
    if LiveAt(s', row[1..], a, n) { LiveFrom(s', row[1..], a, n); }
    if LiveAt(s', row[1..], b, m) { LiveFrom(s', row[1..], b, m); }
    if !(a == s && row[0] == Blk(n, true)) { LiveDisjoint(s', row[1..], a, n, b, m); }
  }

  /** At most one block, and not in use. */
  predicate Loose(p: Row) {
    p == [] || (|p| == 1 && !p[0].used)
  }

  /** row cut around block b: kept blocks, the free block before b if any, b, the free block after it if any, kept
      blocks. */
  predicate Cut(row: Row, left: Row, p: Row, b: Blk, n: Row, right: Row) {
    && row == left + (p + [b] + n) + right
    && p == PrevFree(left + p) && n == NextFree(n + right)
  }

  /** Block b freed: it swallows free neighbours, and is given back if it was the last. */
  function Freed(left: Row, p: Row, b: Blk, n: Row, right: Row): Row {
    if n + right == [] then left else left + [Merged(p, b, n)] + right
  }

  /** Where a block in use stands in its row. */
  lemma {:induction false} FindLive(s: nat, row: Row, a: nat, m: nat) returns (left: Row, right: Row)
    requires LiveAt(s, row, a, m)
    ensures row == left + [Blk(m, true)] + right && a == s + Total(left)
    decreases |row|
  {
    if a == s && row[0] == Blk(m, true) {
      left, right := [], row[1..];
    } else {
      var l;
      l, right := FindLive(s + row[0].size + 1, row[1..], a, m);
      left := [row[0]] + l;
      assert left[1..] == l;
    }
  }

  /** Where a free block stands in its row. */
  lemma {:induction false} FindFree(s: nat, row: Row, a: nat) returns (left: Row, b: Blk, right: Row)
    requires IsFreeAt(s, row, a)
    ensures row == left + [b] + right && a == s + Total(left) && !b.used
    decreases |row|
  {
    if a == s && !row[0].used {
      left, b, right := [], row[0], row[1..];
    } else {
      var l;
      l, b, right := FindFree(s + row[0].size + 1, row[1..], a);
      left := [row[0]] + l;
      assert left[1..] == l;
    }
  }

  lemma Pieces(left: Row, right: Row) returns (left0: Row, p: Row, n: Row, right0: Row)
    ensures p == PrevFree(left) && n == NextFree(right) && left == left0 + p && right == n + right0
  {
    p, n := PrevFree(left), NextFree(right);
    left0, right0 := left[..|left| - |p|], right[|n|..];
  }

  /** Among the blocks that become one only block b was live. */
  lemma MiddleLive(s: nat, p: Row, b: Blk, n: Row, a: nat, m: nat)
    requires Loose(p) && Loose(n)
    ensures LiveAt(s, p + [b] + n, a, m) <==> a == s + Total(p) && b == Blk(m, true)
    ensures Total(p + [b] + n) == Total(p) + b.size + 1 + Total(n)
    ensures UsedWords(p + [b] + n) == if b.used then b.size + 1 else 0
  {
    LiveJoin(s, p, [b], n, a, m);
    Join(p, [b], n);
    Single(b);
    assert [b][1..] == [];
    assert p != [] ==> p[1..] == [];
    assert n != [] ==> n[1..] == [];
  }

  /** Every block in use can be cut out. */
  lemma CutLive(s: nat, row: Row, a: nat, m: nat) returns (left: Row, p: Row, n: Row, right: Row, l: Row, r: Row)
    requires LiveAt(s, row, a, m)
    ensures Cut(row, left, p, Blk(m, true), n, right) && a == s + Total(left) + Total(p)
    ensures l == left + p && r == n + right && row == l + [Blk(m, true)] + r && Total(l) == Total(left) + Total(p)
    ensures Total(r) == 0 <==> r == []
  {
    l, r := FindLive(s, row, a, m);
    left, p, n, right := Pieces(l, r);
    Regroup(left, p, Blk(m, true), n, right);
    TotalConcat(left, p);
  }

  /** Freeing changes the row in nothing but the block: the other live blocks stay where they are, whole. */
  lemma FreedLive(s: nat, row: Row, left: Row, p: Row, b: Blk, n: Row, right: Row, a: nat, m: nat)
    requires b.used && Cut(row, left, p, b, n, right)
    ensures LiveAt(s, Freed(left, p, b, n, right), a, m) <==>
              LiveAt(s, row, a, m) && a != s + Total(left) + Total(p)
  {
    MergeLive(s, left, p, b, n, right, a, m);
  }

  lemma Regroup(left0: Row, p: Row, b: Blk, n: Row, right0: Row)
    ensures (left0 + p) + [b] + (n + right0) == left0 + (p + [b] + n) + right0
  {
  }

  lemma MergeLive(s: nat, left: Row, p: Row, b: Blk, n: Row, right: Row, a: nat, m: nat)
    requires Loose(p) && Loose(n) && b.used
    ensures LiveAt(s, left + [Merged(p, b, n)] + right, a, m) <==>
              LiveAt(s, left + (p + [b] + n) + right, a, m) && a != s + Total(left) + Total(p)
    ensures right == [] ==>
              (LiveAt(s, left, a, m) <==>
                 LiveAt(s, left + (p + [b] + n) + right, a, m) && a != s + Total(left) + Total(p))
  {
    var at := s + Total(left);
    LiveJoin(s, left, p + [b] + n, right, a, m);
    MiddleLive(at, p, b, n, a, m);
    var e := at + Total(p + [b] + n);
    if LiveAt(s, left, a, m) { LiveFrom(s, left, a, m); }
    if LiveAt(e, right, a, m) { LiveFrom(e, right, a, m); }
    var mid := Merged(p, b, n);
    Single(mid);
    LiveJoin(s, left, [mid], right, a, m);
    assert [mid][1..] == [];
  }

  lemma UsedMerge(left: Row, p: Row, b: Blk, n: Row, right: Row)
    requires Loose(p) && Loose(n) && b.used
    ensures UsedWords(left + (p + [b] + n) + right) == UsedWords(left) + b.size + 1 + UsedWords(right)
    ensures UsedWords(left + [Merged(p, b, n)] + right) == UsedWords(left) + UsedWords(right)
  {
    MiddleLive(0, p, b, n, 0, 0);
    Join(left, p + [b] + n, right);
    var one := Merged(p, b, n);
    Single(one);
    Join(left, [one], right);
  }

  /** The words in use shrink by the block. */
  lemma FreedUsed(row: Row, left: Row, p: Row, b: Blk, n: Row, right: Row)
    requires b.used && Cut(row, left, p, b, n, right)
    ensures UsedWords(Freed(left, p, b, n, right)) + b.size + 1 == UsedWords(row)
  {
    UsedMerge(left, p, b, n, right);
  }

  /** The block before a freed one is in use, for a free one has been swallowed. */
  lemma BeforeFreed(row: Row, left: Row, p: Row, b: Blk, n: Row, right: Row)
    requires b.used && Cut(row, left, p, b, n, right) && Tight(row)
    ensures left != [] ==> left[|left| - 1].used
  {
    if left != [] {
      assert row[|left| - 1] == left[|left| - 1];
      if p == [] {
        assert left + p == left;
      } else {
        assert row[|left|] == p[0];
      }
    }
  }

  /** Freeing keeps free blocks apart and the last block in use. */
  lemma FreedTight(row: Row, left: Row, p: Row, b: Blk, n: Row, right: Row)
    requires b.used && Cut(row, left, p, b, n, right) && Tight(row)
    ensures Tight(Freed(left, p, b, n, right))
  {
    var l, r := |left|, |left| + |p| + 1 + |n|;
    var row' := Freed(left, p, b, n, right);
    forall i | 0 <= i < |row'| && !row'[i].used
      ensures i + 1 < |row'| && row'[i + 1].used
    {
      if i < l {
        assert row'[i] == row[i] && row[i + 1].used;
        BeforeFreed(row, left, p, b, n, right);
      } else if i == l {
        assert n != [] ==> n[0] == row[r - 1];
        assert n == [] ==> right[0] == (n + right)[0];
        assert row'[l + 1] == row[r];
      } else {
        assert row'[i] == row[i - l - 1 + r] && row[i - l + r].used;
      }
    }
  }

  lemma TakenTotal(b: Blk, n: nat)
    requires n <= b.size
    ensures Total(Taken(b, n)) == b.size + 1 && UsedWords(Taken(b, n)) == Taken(b, n)[0].size + 1
    ensures Taken(b, n)[0].used && n <= Taken(b, n)[0].size < n + 25
  {
    var t := Taken(b, n);
    if |t| == 2 {
      assert t[1..] == [t[1]];
      Single(t[1]);
    } else {
      Single(t[0]);
    }
  }

  /** The words in use grow by the block handed out. */
  lemma TakenUsed(left: Row, b: Blk, right: Row, n: nat)
    requires !b.used && n <= b.size
    ensures Total(left + Taken(b, n) + right) == Total(left + [b] + right)
    ensures UsedWords(left + Taken(b, n) + right) == UsedWords(left + [b] + right) + Taken(b, n)[0].size + 1
  {
    Single(b);
    TakenTotal(b, n);
    Join(left, [b], right);
    Join(left, Taken(b, n), right);
  }

  /** Allocating keeps free blocks apart. */
  lemma TakenTight(left: Row, b: Blk, right: Row, n: nat)
    requires !b.used && n <= b.size && Tight(left + [b] + right)
    ensures Tight(left + Taken(b, n) + right)
  {
    var row, k, mid := left + [b] + right, |left|, Taken(b, n);
    var row' := left + mid + right;
    forall i | 0 <= i < |row'| && !row'[i].used
      ensures i + 1 < |row'| && row'[i + 1].used
    {
      if i < k {
        assert row'[i] == row[i] && row[i + 1].used;
      } else if i == k + 1 && |mid| == 2 {
        assert row[k] == b && row'[i + 1] == row[k + 1];
      } else {
        assert row'[k] == mid[0] && k + |mid| <= i;
        assert row'[i] == row[i + 1 - |mid|] && row[i + 2 - |mid|].used;
      }
    }
  }

  /** Allocating from a free block adds one live block, at its start and of n words at least. */
  lemma TakenLive(s: nat, left: Row, b: Blk, right: Row, n: nat, a: nat, m: nat)
    requires !b.used && n <= b.size
    ensures n <= Taken(b, n)[0].size < n + 25
    ensures LiveAt(s, left + Taken(b, n) + right, a, m) <==>
              LiveAt(s, left + [b] + right, a, m) || (a == s + Total(left) && m == Taken(b, n)[0].size)
  {
    var mid := Taken(b, n);
    Single(b);
    TakenTotal(b, n);
    LiveJoin(s, left, mid, right, a, m);
    LiveJoin(s, left, [b], right, a, m);
    assert [b][1..] == [];
    assert |mid| == 2 ==> mid[1..] == [mid[1]] && mid[1..][1..] == [];
    assert |mid| == 1 ==> mid[1..] == [];
  }

  /** What allocating from a free block does to the row. */
  lemma TakenRow(s: nat, row: Row, left: Row, b: Blk, right: Row, n: nat)
    requires row == left + [b] + right && !b.used && n <= b.size && Tight(row)
    ensures
      var row', m := left + Taken(b, n) + right, Taken(b, n)[0].size;
      && n <= m < n + 25 && Taken(b, n)[0].used
      && Tight(row') && UsedWords(row') == UsedWords(row) + m + 1
      && forall a, k :: LiveAt(s, row', a, k) <==> LiveAt(s, row, a, k) || (a == s + Total(left) && k == m)
  {
    TakenTotal(b, n);
    TakenUsed(left, b, right, n);
    TakenTight(left, b, right, n);
    forall a, k
      ensures LiveAt(s, left + Taken(b, n) + right, a, k) <==>
                LiveAt(s, row, a, k) || (a == s + Total(left) && k == Taken(b, n)[0].size)
    {
      TakenLive(s, left, b, right, n, a, k);
    }
  }

  /** A block laid down at the end. */
  lemma GrowRow(s: nat, row: Row, n: nat, a: nat, m: nat)
    requires Tight(row)
    ensures Tight(row + [Blk(n, true)]) && Total(row + [Blk(n, true)]) == Total(row) + n + 1
    ensures UsedWords(row + [Blk(n, true)]) == UsedWords(row) + n + 1
    ensures LiveAt(s, row + [Blk(n, true)], a, m) <==>
              LiveAt(s, row, a, m) || (a == s + Total(row) && m == n)
  {
    Single(Blk(n, true));
    TotalConcat(row, [Blk(n, true)]);
    UsedConcat(row, [Blk(n, true)]);
    LiveConcat(s, row, [Blk(n, true)], a, m);
    assert [Blk(n, true)][1..] == [];
  }
}
