/** The heap allocator, in place: one array of words, the free list threaded through it. */
module Heap {
  import opened FreeList
  import opened Tiling
  import opened HeapRows
  import opened HeapFrame

  /** Words kept free under HeapLim. */
  const MIN_HEAP_GAP: nat := 4096

  /** Doubling align until it reaches extra. */
  function Doubled(align: nat, extra: nat): (r: nat)
    requires 0 < align
    ensures align <= r
    decreases extra - align
  {
    if align < extra then Doubled(2 * align, extra) else align
  }

  /** The words a request of bytes takes, trailer included: rounded up to the alignment, never under three words. */
  function Words(bytes: nat): nat {
    var align := Doubled(8, bytes / 16);
    var size := (bytes + align - 1) / align * align;
    ((if size < 24 then 24 else size) + 8) / 8
  }

  /** Alignments are eights doubled, and overshoot extra less than twice. */
  lemma {:induction false} DoubledBounds(align: nat, extra: nat)
    requires 0 < align && align % 8 == 0
    ensures extra <= Doubled(align, extra) && Doubled(align, extra) % 8 == 0
    ensures Doubled(align, extra) < 2 * extra || Doubled(align, extra) == align
    decreases extra - align
  {
    if align < extra { DoubledBounds(2 * align, extra); }
  }

  /** A block has room for the bytes asked for, and at most an eighth more, or a word, or three words in all. */
  lemma WordsFit(bytes: nat)
    ensures 4 <= Words(bytes) && bytes <= 8 * (Words(bytes) - 1)
    ensures 8 * (Words(bytes) - 1) == 24 || 8 * (Words(bytes) - 1) < bytes + bytes / 8 + 8
  {
    var align := Doubled(8, bytes / 16);
    DoubledBounds(8, bytes / 16);
    var q := (bytes + align - 1) / align;
    Quotient(bytes + align - 1, align);
    EightDivides(q, align);
    RoundedUp(bytes, q * align, align);
  }

  lemma Quotient(n: nat, d: nat)
    requires d > 0
    ensures n / d * d <= n < n / d * d + d
  {
  }

  /** The size in bytes, before the trailer's word is counted. */
  lemma RoundedUp(bytes: nat, size: nat, align: nat)
    requires size % 8 == 0 && bytes <= size < bytes + align && 8 <= align && (align < 2 * (bytes / 16) || align == 8)
    ensures
      var words := ((if size < 24 then 24 else size) + 8) / 8;
      && 4 <= words && bytes <= 8 * (words - 1)
      && (8 * (words - 1) == 24 || 8 * (words - 1) < bytes + bytes / 8 + 8)
  {
  }

  lemma EightDivides(q: nat, align: nat)
    requires align % 8 == 0
    ensures q * align % 8 == 0
  {
    assert q * align == 8 * (q * (align / 8));
  }

  /** What the words of a node tell about its place in the chain. */
  lemma Neighbours(mem: seq<nat>, free: nat, cs: Chains, i: nat, j: nat)
    requires ListOk(mem, free, cs) && At(cs, i, j)
    ensures
      var b, ns := cs[i].nodes[j], cs[i].nodes;
      && 0 < b && b + 2 < |mem|
      && mem[b + 1] == (if j + 1 < |ns| then ns[j + 1] else 0)
      && (j + 1 < |ns| ==> ns[j + 1] != 0 && ns[j + 1] + 2 < |mem|)
      && (j > 0 <==> mem[b + 2] != 0 && mem[b + 2] < |mem| && mem[b] == mem[mem[b + 2]])
      && (mem[b + 2] != 0 ==> mem[b + 2] + 2 < |mem|)
      && (j > 0 ==> mem[b + 2] == ns[j - 1])
      && LinkTo(cs, i) != b + 2 && (j + 1 < |ns| ==> LinkTo(cs, i) != ns[j + 1] + 2)
  {
    assert NodeOk(mem, cs, i, j);
    if j > 0 { assert At(cs, i, j - 1) && NodeOk(mem, cs, i, j - 1); }
    if j + 1 < |cs[i].nodes| { assert At(cs, i, j + 1) && NodeOk(mem, cs, i, j + 1); }
    if i + 1 < |cs| { assert At(cs, i + 1, 0) && NodeOk(mem, cs, i + 1, 0); }
    if 0 < i {
      assert At(cs, i - 1, 0) && Apart(cs[i - 1].nodes[0], cs[i].nodes[j]);
      assert j + 1 < |cs[i].nodes| ==> Apart(cs[i - 1].nodes[0], cs[i].nodes[j + 1]);
    }
  }

  lemma HeadsApart(mem: seq<nat>, free: nat, cs: Chains, k: nat, i: nat)
    requires ListOk(mem, free, cs) && At(cs, k, 0) && At(cs, i, 0) && k != i
    ensures cs[k].nodes[0] != cs[i].nodes[0]
  {
    assert Apart(cs[k].nodes[0], cs[i].nodes[0]);
  }

  lemma HeadsDiffer(mem: seq<nat>, free: nat, cs: Chains, k: nat, i: nat)
    requires ListOk(mem, free, cs) && At(cs, k, 0) && At(cs, i, 0) && cs[k].nodes[0] == cs[i].nodes[0]
    ensures k == i
  {
    if k != i { HeadsApart(mem, free, cs, k, i); }
  }

  lemma {:induction false} FitUnique(cs: Chains, n: nat, i: nat)
    requires i <= |cs| && (forall k :: 0 <= k < i ==> cs[k].size < n) && (i < |cs| ==> n <= cs[i].size)
    ensures FirstFit(cs, n) == i
  {
  }

  ghost predicate NoBlock(mem: seq<nat>, cs: Chains, n: nat) {
    forall a: nat :: IsNode(cs, a) ==> a < |mem| && mem[a] < n
  }

  ghost predicate SmallestBlock(mem: seq<nat>, cs: Chains, n: nat, b: nat) {
    && IsNode(cs, b) && b < |mem| && n <= mem[b]
    && forall a: nat :: IsNode(cs, a) ==> a < |mem| && (n <= mem[a] ==> mem[b] <= mem[a])
  }

  /** The first head of n words or more is a smallest such block; without one no free block is that big. */
  lemma BestFit(mem: seq<nat>, free: nat, cs: Chains, n: nat)
    requires ListOk(mem, free, cs)
    ensures
      var i := FirstFit(cs, n);
      && (free == 0 ==> i == |cs|)
      && (HeadOf(cs, i) == 0 <==> i == |cs|)
      && (i == |cs| ==> NoBlock(mem, cs, n))
      && (i < |cs| ==> At(cs, i, 0) && !NoBlock(mem, cs, n) && SmallestBlock(mem, cs, n, cs[i].nodes[0]))
  {
    var i := FirstFit(cs, n);
    FollowLink(mem, free, cs, 0);
    FollowLink(mem, free, cs, i);
    if i < |cs| { assert At(cs, i, 0) && IsNode(cs, cs[i].nodes[0]) && NodeOk(mem, cs, i, 0); }
    forall a: nat | IsNode(cs, a)
      ensures a < |mem| && (i == |cs| ==> mem[a] < n) && (n <= mem[a] ==> i < |cs| && cs[i].size <= mem[a])
    {
      var k, l :| At(cs, k, l) && cs[k].nodes[l] == a;
      assert NodeOk(mem, cs, k, l);
    }
  }

  /** The first head that is big enough, if any, and where the link to it is. */
  lemma FitHead(mem: seq<nat>, free: nat, cs: Chains, b: nat, n: nat)
    requires ListOk(mem, free, cs) && Clear(cs, b)
    ensures
      var i := FirstFit(cs, n);
      var p := HeadOf(cs, i);
      && (p == 0 <==> i == |cs|) && (i < |cs| ==> p + 2 < |mem| && mem[p] == cs[i].size && Apart(b, p))
      && (LinkTo(cs, i) != 0 ==> LinkTo(cs, i) < |mem| && Apart(b, LinkTo(cs, i) - 2) && LinkTo(cs, i) != p + 2)
  {
    var i := FirstFit(cs, n);
    FollowLink(mem, free, cs, i);
    if i < |cs| { assert At(cs, i, 0) && Apart(b, cs[i].nodes[0]); }
    if 0 < i { assert At(cs, i - 1, 0) && Apart(b, cs[i - 1].nodes[0]); }
    if 0 < i {
      FollowLink(mem, free, cs, i - 1);
      assert i < |cs| ==> Apart(cs[i - 1].nodes[0], cs[i].nodes[0]);
    }
  }

  ghost predicate OpenAt(before: seq<nat>, mem: seq<nat>, free: nat, cs: Chains, lo: nat, left: Row, s: nat, e: nat,
      right: Row, top: nat)
  {
    && Gap(mem, free, cs, lo, left, s, e, right, top)
    && TagsKept(before, mem, lo, left, s, e, right, top)
  }

  lemma OpenFacts(before: seq<nat>, mem: seq<nat>, free: nat, cs: Chains, lo: nat, left: Row, s: nat, e: nat,
      right: Row, top: nat)
    requires OpenAt(before, mem, free, cs, lo, left, s, e, right, top)
    ensures 0 < lo && s == lo + Total(left) && s <= e && top == e + Total(right) && top < |mem| <= IN_USE
    ensures ListOk(mem, free, cs) && |mem| == |before|
    ensures Gap(mem, free, cs, lo, left, s, e, right, top) && TagsKept(before, mem, lo, left, s, e, right, top)
  {
  }

  lemma WriteOpen(before: seq<nat>, mem: seq<nat>, m: seq<nat>, free: nat, cs: Chains, lo: nat, left: Row, s: nat,
      e: nat, right: Row, top: nat)
    requires OpenAt(before, mem, free, cs, lo, left, s, e, right, top) && |m| == |mem|
    requires forall x :: 0 <= x < |mem| && !(s <= x < e) ==> m[x] == mem[x]
    ensures OpenAt(before, m, free, cs, lo, left, s, e, right, top)
  {
    WriteGap(mem, m, free, cs, lo, left, s, e, right, top);
  }

  /** Taking the free block before the gap off the list. */
  lemma PrevStep(before: seq<nat>, mem: seq<nat>, free: nat, cs: Chains, lo: nat, left: Row, p: Blk, s: nat, e: nat,
      right: Row, top: nat) returns (i: nat, j: nat)
    requires OpenAt(before, mem, free, cs, lo, left + [p], s, e, right, top) && !p.used && s < e
    ensures 0 < s <= e <= |mem| && mem[s - 1] == p.size && p.size < s && mem[s - 1 - p.size] == p.size >= 3
    ensures At(cs, i, j) && cs[i].nodes[j] == s - 1 - p.size && cs[i].nodes[j] + 2 < |mem|
    ensures Unlinked(mem, cs, i, j)[s] == mem[s] && Unlinked(mem, cs, i, j)[s - 1 - p.size] == p.size
    ensures OpenAt(before, Unlinked(mem, cs, i, j)[s - 1 - p.size := p.size + mem[s] + 1],
                   UnlinkedFree(mem, free, cs, i, j), Without(cs, i, j), lo, left, s - 1 - p.size, e, right, top)
  {
    hide Gap, TagsKept, ListOk, Unlinked;
    OpenFacts(before, mem, free, cs, lo, left + [p], s, e, right, top);
    i, j := PrevNode(mem, free, cs, lo, left, p, s, e, right, top);
    UnlinkKeepsTags(mem, free, cs, lo, left + [p], s, e, right, top, i, j);
    KeptThen(before, mem, Unlinked(mem, cs, i, j), lo, left + [p], s, e, right, top);
    DropPrev(mem, free, cs, lo, left, p, s, e, right, top, i, j);
    var m := Unlinked(mem, cs, i, j);
    WiderLeft(before, m, lo, left, p, s, e, right, top);
    GapWordKept(mem, free, cs, lo, left + [p], s, e, right, top, i, j, s);
    GapWordKept(mem, free, cs, lo, left + [p], s, e, right, top, i, j, s - 1 - p.size);
    WriteOpen(before, m, m[s - 1 - p.size := p.size + mem[s] + 1], UnlinkedFree(mem, free, cs, i, j), Without(cs, i, j),
              lo, left, s - 1 - p.size, e, right, top);
  }

  /** Taking the free block after the gap off the list. */
  lemma NextStep(before: seq<nat>, mem: seq<nat>, free: nat, cs: Chains, lo: nat, left: Row, s: nat, e: nat, n: Blk,
      right: Row, top: nat) returns (i: nat, j: nat)
    requires OpenAt(before, mem, free, cs, lo, left, s, e, [n] + right, top) && !n.used && s < e
    ensures e < |mem| && mem[e] == n.size
    ensures At(cs, i, j) && cs[i].nodes[j] == e && e + 2 < |mem|
    ensures Unlinked(mem, cs, i, j)[s] == mem[s] && Unlinked(mem, cs, i, j)[e] == n.size
    ensures OpenAt(before, Unlinked(mem, cs, i, j)[s := mem[s] + n.size + 1],
                   UnlinkedFree(mem, free, cs, i, j), Without(cs, i, j), lo, left, s, e + n.size + 1, right, top)
  {
    hide Gap, TagsKept, ListOk, Unlinked;
    OpenFacts(before, mem, free, cs, lo, left, s, e, [n] + right, top);
    i, j := NextNode(mem, free, cs, lo, left, s, e, n, right, top);
    UnlinkKeepsTags(mem, free, cs, lo, left, s, e, [n] + right, top, i, j);
    KeptThen(before, mem, Unlinked(mem, cs, i, j), lo, left, s, e, [n] + right, top);
    DropNext(mem, free, cs, lo, left, s, e, n, right, top, i, j);
    var m := Unlinked(mem, cs, i, j);
    WiderRight(before, m, lo, left, s, e, n, right, top);
    GapWordKept(mem, free, cs, lo, left, s, e, [n] + right, top, i, j, s);
    GapWordKept(mem, free, cs, lo, left, s, e, [n] + right, top, i, j, e);
    WriteOpen(before, m, m[s := mem[s] + n.size + 1], UnlinkedFree(mem, free, cs, i, j), Without(cs, i, j),
              lo, left, s, e + n.size + 1, right, top);
  }

  /** The tag before the gap tells whether there is a free block. */
  lemma PrevPlan(before: seq<nat>, mem: seq<nat>, free: nat, cs: Chains, lo: nat, l: Row, left: Row, p: Row, s: nat,
      e: nat, right: Row, top: nat) returns (i: nat, j: nat)
    requires OpenAt(before, mem, free, cs, lo, l, s, e, right, top) && l == left + p && p == PrevFree(l) && s < e
    ensures 0 < s <= e < |mem| && ListOk(mem, free, cs)
    ensures InUse(mem[s - 1]) ==> Total(p) == 0 && OpenAt(before, mem, free, cs, lo, left, s, e, right, top)
    ensures !InUse(mem[s - 1]) ==>
              var c := s - 1 - mem[s - 1];
              && 0 <= c && Total(p) == s - c && c < |mem| && mem[c] + 1 == s - c
              && At(cs, i, j) && cs[i].nodes[j] == c && c + 2 < |mem|
              && Unlinked(mem, cs, i, j)[s] == mem[s] && Unlinked(mem, cs, i, j)[c] == mem[c]
              && OpenAt(before, Unlinked(mem, cs, i, j)[c := mem[c] + mem[s] + 1],
                        UnlinkedFree(mem, free, cs, i, j), Without(cs, i, j), lo, left, c, e, right, top)
  {
    hide OpenAt, Gap, TagsKept, ListOk;
    OpenFacts(before, mem, free, cs, lo, l, s, e, right, top);
    PrevTag(mem, free, cs, lo, l, s, e, right, top);
    if p == [] {
      assert l == left;
      i, j := 0, 0;
    } else {
      assert p == [p[0]] && l == left + [p[0]];
      Single(p[0]);
      i, j := PrevStep(before, mem, free, cs, lo, left, p[0], s, e, right, top);
    }
  }

  /** The tag after the gap tells whether there is such a block. */
  lemma NextPlan(before: seq<nat>, mem: seq<nat>, free: nat, cs: Chains, lo: nat, left: Row, s: nat, e: nat, r: Row,
      n: Row, right: Row, top: nat) returns (i: nat, j: nat)
    requires OpenAt(before, mem, free, cs, lo, left, s, e, r, top) && r == n + right && n == NextFree(r) && s < e
    ensures e < |mem| && ListOk(mem, free, cs)
    ensures InUse(mem[e]) ==> Total(n) == 0 && OpenAt(before, mem, free, cs, lo, left, s, e, right, top)
    ensures !InUse(mem[e]) ==>
              && At(cs, i, j) && cs[i].nodes[j] == e && e + 2 < |mem| && Total(n) == mem[e] + 1
              && Unlinked(mem, cs, i, j)[s] == mem[s] && Unlinked(mem, cs, i, j)[e] == mem[e]
              && OpenAt(before, Unlinked(mem, cs, i, j)[s := mem[s] + mem[e] + 1],
                        UnlinkedFree(mem, free, cs, i, j), Without(cs, i, j), lo, left, s, e + Total(n), right, top)
  {
    if n == [] {
      assert r == right;
      i, j := 0, 0;
    } else {
      assert n == [n[0]] && r == [n[0]] + right;
      Single(n[0]);
      i, j := NextStep(before, mem, free, cs, lo, left, s, e, n[0], right, top);
    }
  }

  /** The block under HeapTop has nothing after it. */
  lemma TopAfter(before: seq<nat>, mem: seq<nat>, free: nat, cs: Chains, lo: nat, left: Row, s: nat, e: nat, n: Row,
      right: Row, top: nat)
    requires OpenAt(before, mem, free, cs, lo, left, s, e + Total(n), right, top)
    ensures e == top ==> e + Total(n) == top
  {
  }

  /** What FreeBlock finds at b, and the row around it. */
  lemma FreePlan(mem: seq<nat>, free: nat, cs: Chains, lo: nat, row: Row, top: nat, b: nat, m: nat)
      returns (left: Row, p: Row, n: Row, right: Row, l: Row, r: Row)
    requires Tiled(mem, free, cs, lo, row, top) && (LiveAt(lo, row, b, m) || IsFreeAt(lo, row, b))
    ensures b < |mem| && (InUse(mem[b]) <==> !IsFreeAt(lo, row, b))
    ensures InUse(mem[b]) ==>
              && 3 <= m < IN_USE && b + m < |mem| && mem[b] == m + IN_USE && mem[b + m] == mem[b]
              && Cut(row, left, p, Blk(m, true), n, right) && b == lo + Total(left) + Total(p)
              && l == left + p && p == PrevFree(l) && r == n + right && n == NextFree(r) &&
                  (top == b + m + 1 <==> r == [])
              && OpenAt(mem, mem[b := m], free, cs, lo, l, b, b + m + 1, r, top)
  {
    if IsFreeAt(lo, row, b) {
      FreeInside(mem, lo, row, b);
      left, p, n, right, l, r := [], [], [], [], [], [];
    } else {
      left, p, n, right, l, r := CutLive(lo, row, b, m);
      FreeStart(mem, free, cs, lo, row, l, Blk(m, true), r, top);
    }
  }

  /** What freeing does to the row. */
  lemma FreedRow(s: nat, row: Row, left: Row, p: Row, b: Blk, n: Row, right: Row)
    requires Cut(row, left, p, b, n, right) && b.used && Tight(row)
    ensures
      var row' := Freed(left, p, b, n, right);
      && Tight(row') && UsedWords(row') + b.size + 1 == UsedWords(row)
      && forall a, m :: LiveAt(s, row', a, m) <==> LiveAt(s, row, a, m) && a != s + Total(left) + Total(p)
  {
    FreedUsed(row, left, p, b, n, right);
    FreedTight(row, left, p, b, n, right);
    forall a, m
      ensures LiveAt(s, Freed(left, p, b, n, right), a, m) <==> LiveAt(s, row, a, m) && a != s + Total(left) + Total(p)
    {
      FreedLive(s, row, left, p, b, n, right, a, m);
    }
  }

  /** A block of the row, its flag cleared, seen as a gap. */
  lemma FreeStart(mem: seq<nat>, free: nat, cs: Chains, lo: nat, row: Row, left: Row, blk: Blk, right: Row, top: nat)
    requires Tiled(mem, free, cs, lo, row, top) && row == left + [blk] + right
    ensures
      var b := lo + Total(left);
      && 3 <= blk.size < IN_USE && b + blk.size < |mem| && mem[b] == Word(blk) && mem[b + blk.size] == Word(blk)
      && top == b + blk.size + 1 + Total(right) && ListOk(mem, free, cs)
      && (blk.used ==> OpenAt(mem, mem[b := blk.size], free, cs, lo, left, b, b + blk.size + 1, right, top))
  {
    hide Gap, OpenAt, ListOk;
    TiledList(mem, free, cs, lo, row, top);
    var rest := Assoc(left, blk, right);
    Unseal(mem, free, cs, lo, row, left, rest, top);
    BlockAt(mem, free, cs, lo, left, lo + Total(left), blk, rest, right, top);
  }

  lemma TiledList(mem: seq<nat>, free: nat, cs: Chains, lo: nat, row: Row, top: nat)
    requires Tiled(mem, free, cs, lo, row, top)
    ensures ListOk(mem, free, cs)
  {
  }

  lemma Assoc(a: Row, b: Blk, c: Row) returns (rest: Row)
    ensures rest == [b] + c && a + [b] + c == a + rest
  {
    rest := [b] + c;
  }

  lemma BlockAt(mem: seq<nat>, free: nat, cs: Chains, lo: nat, left: Row, b: nat, blk: Blk, rest: Row, right: Row,
      top: nat)
    requires Gap(mem, free, cs, lo, left, b, b, rest, top) && rest == [blk] + right
    ensures 3 <= blk.size < IN_USE && b + blk.size < |mem| && mem[b] == Word(blk) && mem[b + blk.size] == Word(blk)
    ensures top == b + blk.size + 1 + Total(right)
    ensures blk.used ==> OpenAt(mem, mem[b := blk.size], free, cs, lo, left, b, b + blk.size + 1, right, top)
  {
    assert rest[1..] == right;
    if blk.used {
      OpenUsed(mem, free, cs, lo, left, b, blk, right, top);
      WriteGap(mem, mem[b := blk.size], free, cs, lo, left, b, b + blk.size + 1, right, top);
    }
  }

  /** The block under HeapTop, freed: HeapTop comes down to it. */
  lemma GiveBack(before: seq<nat>, mem: seq<nat>, free: nat, cs: Chains, lo: nat, left: Row, s: nat, e: nat,
      right: Row, top: nat)
    requires OpenAt(before, mem, free, cs, lo, left, s, e, right, top) && s < e == top
    ensures s < |mem| && right == [] && Gap(mem[s := IN_USE], free, cs, lo, left, s, s, [], s)
    ensures KeepsLive(before, mem[s := IN_USE], lo, left)
  {
    var m := mem[s := IN_USE];
    WriteOpen(before, mem, m, free, cs, lo, left, s, e, right, top);
    forall a: nat, n: nat, x: nat | LiveAt(lo, left, a, n) && a <= x <= a + n
      ensures x < |before| && m[x] == before[x]
    {
      LiveKept(m, before, m, free, cs, lo, left, s, e, right, top, a, n, x);
    }
  }

  /** The gap, one block with its header written, goes on the free list. */
  lemma PutBack(before: seq<nat>, mem: seq<nat>, free: nat, cs: Chains, lo: nat, left: Row, s: nat, e: nat,
      right: Row, top: nat, n: nat)
    requires OpenAt(before, mem, free, cs, lo, left, s, e, right, top) && 3 <= n && s + n + 1 == e
    requires s < |mem| ==> mem[s] == n
    ensures 0 < s && s + n < |mem| && Clear(cs, s) && ListOk(mem[s + n := n], free, cs)
    ensures
      var m, row := Linked(mem[s + n := n], cs, s, n), left + [Blk(n, false)] + right;
      && Gap(m, SetFree(free, LinkTo(cs, FirstFit(cs, n)), s), Insert(cs, s, n), lo, row, top, top, [], top)
      && KeepsLive(before, m, lo, row)
  {
    hide OpenAt, Gap, TagsKept, ListOk, KeepsLive;
    OpenFacts(before, mem, free, cs, lo, left, s, e, right, top);
    var m1 := mem[s + n := n];
    var free' := SetFree(free, LinkTo(cs, FirstFit(cs, n)), s);
    WriteOpen(before, mem, m1, free, cs, lo, left, s, e, right, top);
    OpenFacts(before, m1, free, cs, lo, left, s, e, right, top);
    GapClear(m1, free, cs, lo, left, s, e, right, top, s);
    FillFree(m1, free, cs, lo, left, s, e, right, top, n);
    Seal(Linked(m1, cs, s, n), free', Insert(cs, s, n), lo, left + [Blk(n, false)], e, right, top);
    PutBackLive(before, m1, free, cs, lo, left, s, e, right, top, n);
  }

  lemma PutBackLive(before: seq<nat>, mem: seq<nat>, free: nat, cs: Chains, lo: nat, left: Row, s: nat, e: nat,
      right: Row, top: nat, n: nat)
    requires OpenAt(before, mem, free, cs, lo, left, s, e, right, top) && 3 <= n && s + n + 1 == e
    ensures s + 2 < |mem| && KeepsLive(before, Linked(mem, cs, s, n), lo, left + [Blk(n, false)] + right)
  {
    hide OpenAt, Gap, TagsKept, Linked;
    OpenFacts(before, mem, free, cs, lo, left, s, e, right, top);
    var row, m := left + [Blk(n, false)] + right, Linked(mem, cs, s, n);
    LinkKeepsTags(mem, free, cs, lo, left, s, e, right, top, s, n);
    KeptThen(before, mem, m, lo, left, s, e, right, top);
    Single(Blk(n, false));
    assert [Blk(n, false)][1..] == [];
    forall a: nat, k: nat, x: nat | LiveAt(lo, row, a, k) && a <= x <= a + k && x < |m| && x < |before|
      ensures m[x] == before[x]
    {
      LiveJoin(lo, left, [Blk(n, false)], right, a, k);
      LiveKept(mem, before, m, free, cs, lo, left, s, e, right, top, a, k, x);
    }
  }

  /** Every word of a block in use is as it was: header, payload and trailer. */
  ghost predicate KeepsLive(before: seq<nat>, mem: seq<nat>, lo: nat, row: Row) {
    forall a: nat, n: nat, x: nat {:trigger LiveAt(lo, row, a, n), mem[x]} ::
      LiveAt(lo, row, a, n) && a <= x <= a + n && x < |mem| && x < |before| ==> mem[x] == before[x]
  }

  /** Unlinking a node writes no header and no word of the gap. */
  lemma GapWordKept(mem: seq<nat>, free: nat, cs: Chains, lo: nat, left: Row, s: nat, e: nat, right: Row, top: nat,
      i: nat, j: nat, x: nat)
    requires Gap(mem, free, cs, lo, left, s, e, right, top) && At(cs, i, j)
    requires s <= x < e || (x < |mem| && IsNode(cs, x))
    ensures cs[i].nodes[j] + 2 < |mem| && x < |mem| && Unlinked(mem, cs, i, j)[x] == mem[x]
  {
    assert NodeOk(mem, cs, i, j);
    if s <= x < e {
      LinksBefore(mem, lo, left, x);
      if IsLink(e, right, x) { var f := LinkOwner(e, right, x); FreeInside(mem, e, right, f); }
      NotNodeLink(mem, free, cs, lo, left, s, e, right, top, x);
    } else {
      HeaderNoLink(cs, x);
      NodeInside(mem, free, cs, lo, left, s, e, right, top, x);
    }
    UnlinkedFrame(mem, cs, i, j, x);
  }

  lemma HeaderNoLink(cs: Chains, a: nat)
    requires AllApart(cs) && IsNode(cs, a)
    ensures forall i, j {:trigger cs[i].nodes[j]} :: At(cs, i, j) ==> a != cs[i].nodes[j] + 1 && a != cs[i].nodes[j] + 2
  {
    var k, l :| At(cs, k, l) && cs[k].nodes[l] == a;
    forall i, j | At(cs, i, j)
      ensures a != cs[i].nodes[j] + 1 && a != cs[i].nodes[j] + 2
    {
      if i != k || j != l { assert Apart(cs[k].nodes[l], cs[i].nodes[j]); }
    }
  }

  /** What cutting a block in two does to the words and the list. */
  lemma SplitFrame(before: seq<nat>, mem: seq<nat>, m: seq<nat>, free: nat, cs: Chains, lo: nat, l: Row, b: nat,
      e: nat, r: Row, top: nat, n: nat, c: nat, k: nat)
    requires OpenAt(before, mem, free, cs, lo, l, b, e, r, top) && |m| == |mem|
    requires 4 <= n && c == b + n + 1 && 24 <= k && c + k + 1 == e
    requires c + k < |m| ==> m[b] == n && m[c] == k && m[c + k] == k
    requires forall x :: 0 <= x < |mem| && !(b <= x < e) ==> m[x] == mem[x]
    ensures e < |m| && 0 < b && ListOk(m, free, cs) && Clear(cs, c)
    ensures
      var m' := Linked(m, cs, c, k);
      && m'[b] == n && TagsKept(before, m', lo, l, b, e, r, top)
      && Gap(m', SetFree(free, LinkTo(cs, FirstFit(cs, k)), c), Insert(cs, c, k), lo, l, b, c, [Blk(k, false)] + r, top)
  {
    hide OpenAt, Gap, TagsKept, ListOk, Linked;
    WriteOpen(before, mem, m, free, cs, lo, l, b, e, r, top);
    OpenFacts(before, m, free, cs, lo, l, b, e, r, top);
    KeptThen(before, m, Linked(m, cs, c, k), lo, l, b, e, r, top);
    GapClear(m, free, cs, lo, l, b, e, r, top, c);
    LinkKeepsTags(m, free, cs, lo, l, b, e, r, top, c, k);
    FillFreeEnd(m, free, cs, lo, l, b, e, r, top, c, k);
    BlockTag(m, free, cs, lo, l, b, e, r, top, c, k, b);
  }

  lemma KeptThen(before: seq<nat>, mem: seq<nat>, m: seq<nat>, lo: nat, left: Row, s: nat, e: nat, right: Row, top: nat)
    requires TagsKept(before, mem, lo, left, s, e, right, top)
    ensures TagsKept(mem, m, lo, left, s, e, right, top) ==> TagsKept(before, m, lo, left, s, e, right, top)
  {
  }

  /** Linking block c writes no other word of the gap. */
  lemma BlockTag(mem: seq<nat>, free: nat, cs: Chains, lo: nat, left: Row, s: nat, e: nat, right: Row, top: nat,
      c: nat, n: nat, x: nat)
    requires Gap(mem, free, cs, lo, left, s, e, right, top) && s <= x < e && c + 2 < |mem| && (x < c || c + 2 < x)
    ensures x < |mem| && Linked(mem, cs, c, n)[x] == mem[x]
  {
    LinksBefore(mem, lo, left, x);
    if IsLink(e, right, x) { var f := LinkOwner(e, right, x); FreeInside(mem, e, right, f); }
    NotNodeLink(mem, free, cs, lo, left, s, e, right, top, x);
    LinkedFrame(mem, cs, c, n, x);
  }

  lemma HandedOut(mem: seq<nat>, free: nat, cs: Chains, lo: nat, l: Row, b: nat, e: nat, r: Row, top: nat, n: nat)
    requires Gap(mem, free, cs, lo, l, b, e, r, top) && b + n + 1 == e && 3 <= n
    ensures e <= top < |mem|
    ensures Gap(mem[b + n := n + IN_USE][b := n + IN_USE], free, cs, lo, l + [Blk(n, true)] + r, top, top, [], top)
  {
    GapFacts(mem, free, cs, lo, l, b, e, r, top);
    var m := mem[b + n := n + IN_USE][b := n + IN_USE];
    WriteGap(mem, m, free, cs, lo, l, b, e, r, top);
    FillUsed(m, free, cs, lo, l, b, e, r, top, n);
    Seal(m, free, cs, lo, l + [Blk(n, true)], e, r, top);
  }

  /** The blocks in use around the free block blk keep every word. */
  lemma TakenLiveKept(before: seq<nat>, g: seq<nat>, m: seq<nat>, free: nat, cs: Chains, lo: nat, l: Row, b: nat,
      e: nat, r: Row, top: nat, blk: Blk)
    requires Gap(g, free, cs, lo, l, b, e, r, top) && |g| == |m| && e == b + blk.size + 1 && !blk.used
    requires TagsKept(before, m, lo, l, b, e, r, top)
    ensures KeepsLive(before, m, lo, l + [blk] + r)
  {
    hide Gap, TagsKept;
    Single(blk);
    assert [blk][1..] == [];
    GapFacts(g, free, cs, lo, l, b, e, r, top);
    forall a: nat, k: nat, x: nat | LiveAt(lo, l + [blk] + r, a, k) && a <= x <= a + k && x < |m| && x < |before|
      ensures m[x] == before[x]
    {
      LiveJoin(lo, l, [blk], r, a, k);
      LiveKept(g, before, m, free, cs, lo, l, b, e, r, top, a, k, x);
    }
  }

  lemma KeepsLiveOutside(before: seq<nat>, mem: seq<nat>, m: seq<nat>, lo: nat, l: Row, blk: Blk, r: Row, b: nat)
    requires KeepsLive(before, mem, lo, l + [blk] + r) && |m| == |mem| && !blk.used && b == lo + Total(l)
    requires forall x :: 0 <= x < |mem| && !(b <= x <= b + blk.size) ==> m[x] == mem[x]
    ensures KeepsLive(before, m, lo, l + [blk] + r)
  {
    Single(blk);
    assert [blk][1..] == [];
    forall a: nat, k: nat, x: nat | LiveAt(lo, l + [blk] + r, a, k) && a <= x <= a + k && x < |m| && x < |before|
      ensures m[x] == before[x]
    {
      LiveJoin(lo, l, [blk], r, a, k);
      if LiveAt(lo, l, a, k) { LiveFrom(lo, l, a, k); } else { LiveFrom(b + blk.size + 1, r, a, k); }
      assert mem[x] == before[x];
    }
  }

  /** A block laid down over HeapTop, with a sentinel after it. */
  lemma Grown(mem: seq<nat>, free: nat, cs: Chains, lo: nat, row: Row, top: nat, n: nat)
    requires Gap(mem, free, cs, lo, row, top, top, [], top) && 3 <= n && top + n + 1 < |mem|
    ensures
      var top', m := top + n + 1, mem[top + n + 1 := IN_USE][top := n + IN_USE][top + n := n + IN_USE];
      Gap(m, free, cs, lo, row + [Blk(n, true)], top', top', [], top') && KeepsLive(mem, m, lo, row)
  {
    hide KeepsLive;
    var top', m := top + n + 1, mem[top + n + 1 := IN_USE][top := n + IN_USE][top + n := n + IN_USE];
    RowFrame(mem, m, lo, row);
    forall i, j | At(cs, i, j) && cs[i].nodes[j] + 2 < |mem|
      ensures var a := cs[i].nodes[j]; m[a] == mem[a] && m[a + 1] == mem[a + 1] && m[a + 2] == mem[a + 2]
    {
      assert IsNode(cs, cs[i].nodes[j]);
      NodeInside(mem, free, cs, lo, row, top, top, [], top, cs[i].nodes[j]);
    }
    ListFrame(mem, m, free, cs);
    forall a
      ensures IsNode(cs, a) <==> IsFreeAt(lo, row, a) || IsFreeAt(top', [], a)
    {
      assert !IsFreeAt(top, [], a);
    }
    FillUsed(m, free, cs, lo, row, top, top', [], top', n);
    GrownKeeps(mem, m, lo, row, top);
  }

  lemma GrownKeeps(mem: seq<nat>, m: seq<nat>, lo: nat, row: Row, top: nat)
    requires |m| == |mem| && top == lo + Total(row) && forall x :: 0 <= x < top && x < |m| ==> m[x] == mem[x]
    ensures KeepsLive(mem, m, lo, row)
  {
    forall a: nat, k: nat, x: nat | LiveAt(lo, row, a, k) && a <= x <= a + k && x < |m| && x < |mem|
      ensures m[x] == mem[x]
    {
      LiveFrom(lo, row, a, k);
    }
  }

  lemma GrownRow(s: nat, row: Row, n: nat)
    requires Tight(row)
    ensures Tight(row + [Blk(n, true)]) && UsedWords(row + [Blk(n, true)]) == UsedWords(row) + n + 1
    ensures forall a, k :: LiveAt(s, row + [Blk(n, true)], a, k) <==>
      LiveAt(s, row, a, k) || (a == s + Total(row) && k == n)
  {
    GrowRow(s, row, n, 0, 0);
    forall a, k
      ensures LiveAt(s, row + [Blk(n, true)], a, k) <==> LiveAt(s, row, a, k) || (a == s + Total(row) && k == n)
    {
      GrowRow(s, row, n, a, k);
    }
  }

  /** The smallest free block of n words or more, as GetBlock leaves it: off the list, its words a gap. */
  lemma TakePlan(mem: seq<nat>, free: nat, cs: Chains, lo: nat, row: Row, top: nat, n: nat)
      returns (l: Row, blk: Blk, r: Row)
    requires Tiled(mem, free, cs, lo, row, top)
    ensures
      var i := FirstFit(cs, n);
      At(cs, i, 0) ==>
        var b := cs[i].nodes[0];
        && b + 2 < |mem| && mem[b] == blk.size && n <= blk.size && !blk.used
        && row == l + [blk] + r && b == lo + Total(l) && Unlinked(mem, cs, i, 0)[b] == mem[b]
        && OpenAt(mem, Unlinked(mem, cs, i, 0), UnlinkedFree(mem, free, cs, i, 0), Without(cs, i, 0),
                  lo, l, b, b + blk.size + 1, r, top)
  {
    var i := FirstFit(cs, n);
    if At(cs, i, 0) {
      var b := cs[i].nodes[0];
      TakeNode(mem, free, cs, lo, row, top, i, b);
      hide Tight;
      l, blk, r := FindFree(lo, row, b);
      var rest := Assoc(l, blk, r);
      TakeStep(mem, free, cs, lo, row, l, blk, rest, r, top, i, b);
    } else {
      l, blk, r := [], Blk(0, false), [];
    }
  }

  lemma TakeNode(mem: seq<nat>, free: nat, cs: Chains, lo: nat, row: Row, top: nat, i: nat, b: nat)
    requires Tiled(mem, free, cs, lo, row, top) && At(cs, i, 0) && b == cs[i].nodes[0]
    ensures IsFreeAt(lo, row, b) && b + 2 < |mem| && mem[b] == cs[i].size
  {
    assert IsNode(cs, b) && NodeOk(mem, cs, i, 0) && !IsFreeAt(top, [], b);
  }

  lemma TakeStep(mem: seq<nat>, free: nat, cs: Chains, lo: nat, row: Row, l: Row, blk: Blk, rest: Row, r: Row,
      top: nat, i: nat, b: nat)
    requires Gap(mem, free, cs, lo, row, top, top, [], top) && row == l + rest && rest == [blk] + r && !blk.used
    requires At(cs, i, 0) && cs[i].nodes[0] == b == lo + Total(l)
    ensures b + 2 < |mem| && mem[b] == blk.size && Unlinked(mem, cs, i, 0)[b] == mem[b]
    ensures OpenAt(mem, Unlinked(mem, cs, i, 0), UnlinkedFree(mem, free, cs, i, 0), Without(cs, i, 0),
                   lo, l, b, b + blk.size + 1, r, top)
  {
    hide Gap, TagsKept, Unlinked;
    Unseal(mem, free, cs, lo, row, l, rest, top);
    BlockAt(mem, free, cs, lo, l, b, blk, rest, r, top);
    assert IsNode(cs, b);
    GapWordKept(mem, free, cs, lo, l, b, b, rest, top, i, 0, b);
    UnlinkKeepsTags(mem, free, cs, lo, l, b, b, rest, top, i, 0);
    DropNext(mem, free, cs, lo, l, b, b, blk, r, top, i, 0);
    WiderRight(mem, Unlinked(mem, cs, i, 0), lo, l, b, b, blk, r, top);
  }

  function Larger(a: int, b: int): int {
    if a < b then b else a
  }

  class Heap {
    const mem: array<nat>
    const lo: nat
    var lim: nat
    var free: nat
    var heapTop: nat
    var heapUsed: int
    var heapMax: int
    var sizeOfOverflow: nat
    var overflowSignal: bool
    ghost var row: Row
    ghost var cs: Chains

    /** From the bottom sentinel to HeapTop the words are tiled by row; HeapUsed counts blocks in use. */
    ghost predicate Valid()
      reads this, mem
    {
      && Tiled(mem[..], free, cs, lo, row, heapTop) && lim <= mem.Length
      && heapUsed == lo - 1 + UsedWords(row) <= heapMax
    }

    /** An empty heap: two sentinels, HeapTop on the second. Word base is the first after the special atoms. */
    constructor (space: array<nat>, base: nat, limit: nat)
      requires base + 1 < space.Length <= IN_USE && limit <= space.Length
      modifies space
      ensures Valid() && mem == space && lo == base + 1 && lim == limit && row == []
      ensures heapTop == base + 1 && heapUsed == heapMax == base && free == 0
    {
      mem, lo, lim := space, base + 1, limit;
      free, heapTop, heapUsed, heapMax := 0, base + 1, base, base;
      sizeOfOverflow, overflowSignal := 0, false;
      row, cs := [], [];
      new;
      mem[base] := IN_USE;
      mem[base + 1] := IN_USE;
    }

    function Deref(q: nat): nat
      reads this, mem
    {
      if q == 0 then free else if q < mem.Length then mem[q] else 0
    }

    method Assign(q: nat, b: nat)
      requires q < mem.Length
      modifies `free, mem
      ensures mem[..] == SetMem(old(mem[..]), q, b) && free == SetFree(old(free), q, b)
    {
      if q == 0 { free := b; } else { mem[q] := b; }
    }

    /** The word that points to head b: the walk by pointers to pointers. */
    method FindLink(b: nat, ghost i: nat) returns (q: nat)
      requires ListOk(mem[..], free, cs) && At(cs, i, 0) && cs[i].nodes[0] == b
      ensures q == LinkTo(cs, i) && q < mem.Length
    {
      q := 0;
      ghost var k := 0;
      FollowLink(mem[..], free, cs, 0);
      while Deref(q) != b
        invariant k <= i && q == LinkTo(cs, k) && Deref(q) == HeadOf(cs, k)
        decreases i - k
      {
        FollowLink(mem[..], free, cs, k);
        FollowLink(mem[..], free, cs, k + 1);
        q := Deref(q) + 2;
        k := k + 1;
      }
      HeadsDiffer(mem[..], free, cs, k, i);
      assert NodeOk(mem[..], cs, i, 0);
      FollowLink(mem[..], free, cs, i);
    }

    method RemoveFromFreeList(b: nat, ghost i: nat, ghost j: nat)
      requires ListOk(mem[..], free, cs) && At(cs, i, j) && cs[i].nodes[j] == b
      modifies `free, `heapUsed, `cs, mem
      ensures b + 2 < mem.Length
      ensures mem[..] == Unlinked(old(mem[..]), old(cs), i, j)
      ensures free == UnlinkedFree(old(mem[..]), old(free), old(cs), i, j)
      ensures cs == Without(old(cs), i, j) && heapUsed == old(heapUsed) + old(mem[b]) + 1
    {
      Neighbours(mem[..], free, cs, i, j);
      var p := mem[b + 2];
      heapUsed := heapUsed + mem[b] + 1;
      if p != 0 && mem[b] == mem[p] {
        var next := mem[b + 1];
        mem[p + 1] := next;
        if next != 0 { mem[next + 2] := p; }
      } else {
        var q := FindLink(b, i);
        if mem[b + 1] != 0 {
          p := mem[b + 1];
          Assign(q, p);
          mem[p + 2] := mem[b + 2];
        } else {
          Assign(q, mem[b + 2]);
        }
      }
      cs := Without(cs, i, j);
    }

    /** The word that points to the first head of n words or more; both walks over the sizes are this loop. */
    method FindFit(n: nat) returns (q: nat)
      requires ListOk(mem[..], free, cs)
      ensures q == LinkTo(cs, FirstFit(cs, n)) && (q < mem.Length || q == 0)
      ensures Deref(q) == HeadOf(cs, FirstFit(cs, n))
    {
      q := 0;
      ghost var i := 0;
      FollowLink(mem[..], free, cs, 0);
      while Deref(q) != 0 && mem[Deref(q)] < n
        invariant i <= |cs| && q == LinkTo(cs, i) && Deref(q) == HeadOf(cs, i)
        invariant forall k :: 0 <= k < i ==> cs[k].size < n
        invariant Deref(q) != 0 ==> i < |cs| && Deref(q) < mem.Length && mem[Deref(q)] == cs[i].size
        invariant Deref(q) == 0 ==> i == |cs|
        decreases |cs| - i
      {
        FollowLink(mem[..], free, cs, i);
        FollowLink(mem[..], free, cs, i + 1);
        q := Deref(q) + 2;
        i := i + 1;
      }
      FitUnique(cs, n, i);
      FollowLink(mem[..], free, cs, i);
    }

    /** Points block b at what comes after it: p in its own chain, or nothing there and p as the next size. */
    method PutBefore(b: nat, p: nat, size: nat)
      requires b + 2 < mem.Length && (p == 0 || p + 2 < mem.Length)
      modifies mem
      ensures
        var was := old(mem[..]);
        mem[..] == if p != 0 && was[p] == size then was[b + 1 := p][b + 2 := was[b + 1 := p][p + 2]][p + 2 := b]
                   else was[b + 1 := 0][b + 2 := p]
    {
      if p != 0 && mem[p] == size {
        mem[b + 1] := p;
        mem[b + 2] := mem[p + 2];
        mem[p + 2] := b;
      } else {
        mem[b + 1] := 0;
        mem[b + 2] := p;
      }
    }

    method AddToFreeList(b: nat)
      requires b + 2 < mem.Length && b + mem[b] < mem.Length && 0 < b && 3 <= mem[b]
      requires ListOk(mem[..][b + mem[b] := mem[b]], free, cs) && Clear(cs, b)
      modifies `free, `heapUsed, `cs, mem
      ensures b + 2 < mem.Length
      ensures mem[..] == Linked(old(mem[..])[b + old(mem[b]) := old(mem[b])], old(cs), b, old(mem[b]))
      ensures free == SetFree(old(free), LinkTo(old(cs), FirstFit(old(cs), old(mem[b]))), b)
      ensures cs == Insert(old(cs), b, old(mem[b])) && heapUsed == old(heapUsed) - (old(mem[b]) + 1)
    {
      hide ListOk, Clear, Insert;
      var size := mem[b];
      mem[b + size] := size;
      heapUsed := heapUsed - (size + 1);
      var q := FindFit(size);
      var p := Deref(q);
      FitHead(mem[..], free, cs, b, size);
      PutBefore(b, p, size);
      Assign(q, b);
      cs := Insert(cs, b, size);
    }

    /** A smallest free block of n words or more, off the list; 0 when there is none. */
    method GetBlock(n: nat) returns (b: nat)
      requires ListOk(mem[..], free, cs)
      modifies `free, `heapUsed, `heapMax, `cs, mem
      ensures b == 0 <==> NoBlock(old(mem[..]), old(cs), n)
      ensures b == 0 ==>
                && mem[..] == old(mem[..]) && free == old(free) && heapUsed == old(heapUsed)
                && heapMax == old(heapMax) && cs == old(cs)
      ensures b != 0 ==> SmallestBlock(old(mem[..]), old(cs), n, b)
      ensures b != 0 ==>
                var i := FirstFit(old(cs), n);
                && At(old(cs), i, 0) && old(cs)[i].nodes[0] == b && b + 2 < mem.Length
                && mem[..] == Unlinked(old(mem[..]), old(cs), i, 0)
                && free == UnlinkedFree(old(mem[..]), old(free), old(cs), i, 0)
                && cs == Without(old(cs), i, 0)
                && heapUsed == old(heapUsed) + old(mem[..])[b] + 1
                && heapMax == Larger(old(heapMax), heapUsed)
    {
      BestFit(mem[..], free, cs, n);
      if free == 0 { return 0; }
      var p := FindFit(n);
      b := Deref(p);
      if b == 0 || mem[b] < n { return 0; }
      ghost var i := FirstFit(cs, n);
      heapUsed := heapUsed + mem[b] + 1;
      if heapUsed > heapMax { heapMax := heapUsed; }
      DetachHead(b, p, i);
    }

    /** Takes head b out of the list; p is the word that points to it. */
    method DetachHead(b: nat, p: nat, ghost i: nat)
      requires ListOk(mem[..], free, cs) && At(cs, i, 0) && cs[i].nodes[0] == b && p == LinkTo(cs, i)
      modifies `free, `cs, mem
      ensures b + 2 < mem.Length
      ensures mem[..] == Unlinked(old(mem[..]), old(cs), i, 0)
      ensures free == UnlinkedFree(old(mem[..]), old(free), old(cs), i, 0)
      ensures cs == Without(old(cs), i, 0)
    {
      Neighbours(mem[..], free, cs, i, 0);
      FollowLink(mem[..], free, cs, i);
      var r := mem[b + 1];
      if r == 0 {
        Assign(p, mem[b + 2]);
      } else {
        mem[r + 2] := mem[b + 2];
        Assign(p, r);
      }
      cs := Without(cs, i, 0);
    }

    /** The words outside [s, e) are tiled by left and right, and their tags and payloads are those of before. */
    ghost predicate Open(before: seq<nat>, left: Row, s: nat, e: nat, right: Row)
      reads this, mem
    {
      OpenAt(before, mem[..], free, cs, lo, left, s, e, right, heapTop)
    }

    /** Joins the free block before b, if there is one, to b. */
    method MergePrevious(b: nat, ghost before: seq<nat>, ghost l: Row, ghost left: Row, ghost p: Row, ghost e: nat,
        ghost right: Row)
        returns (c: nat)
      requires Open(before, l, b, e, right) && l == left + p && p == PrevFree(l) && b + 2 < e
      modifies `free, `heapUsed, `cs, mem
      ensures c + 2 < e < mem.Length && c + Total(p) == b && mem[c] == old(mem[..])[b] + Total(p)
      ensures Open(before, left, c, e, right)
      ensures heapUsed == old(heapUsed) + Total(p)
    {
      hide OpenAt, ListOk, Unlinked, UnlinkedFree, Without;
      c := b;
      ghost var i, j := PrevPlan(before, mem[..], free, cs, lo, l, left, p, b, e, right, heapTop);
      if !InUse(mem[b - 1]) {
        c := b - 1 - mem[b - 1];
        RemoveFromFreeList(c, i, j);
        mem[c] := mem[c] + mem[b] + 1;
      }
    }

    /** Joins the free block after b, if there is one, to b. */
    method MergeNext(b: nat, ghost before: seq<nat>, ghost left: Row, ghost e: nat, ghost r: Row, ghost n: Row,
        ghost right: Row)
        returns (sp: nat)
      requires Open(before, left, b, e, r) && r == n + right && n == NextFree(r)
      requires b + 2 < e < mem.Length && b + mem[b] + 1 == e
      modifies `free, `heapUsed, `cs, mem
      ensures sp == e && b < mem.Length && mem[b] == old(mem[..])[b] + Total(n)
      ensures Open(before, left, b, e + Total(n), right)
      ensures heapUsed == old(heapUsed) + Total(n)
    {
      hide OpenAt, ListOk, Unlinked, UnlinkedFree, Without;
      sp := b + mem[b] + 1;
      ghost var i, j := NextPlan(before, mem[..], free, cs, lo, left, b, e, r, n, right, heapTop);
      if !InUse(mem[sp]) {
        RemoveFromFreeList(sp, i, j);
        mem[b] := mem[b] + mem[sp] + 1;
      }
    }

    /** The gap [c, e), headed by its size, is given back to the top or put on the free list. */
    method Release(c: nat, sp: nat, ghost before: seq<nat>, ghost left: Row, ghost e: nat, ghost right: Row)
      requires Open(before, left, c, e, right) && c < mem.Length && 3 <= mem[c] && c + mem[c] + 1 == e
      requires sp == heapTop ==> e == heapTop
      modifies `free, `heapTop, `heapUsed, `row, `cs, mem
      ensures row == if sp == old(heapTop) then left else left + [Blk(old(mem[..])[c], false)] + right
      ensures heapTop == if sp == old(heapTop) then c else old(heapTop)
      ensures heapUsed == old(heapUsed) - (old(mem[..])[c] + 1)
      ensures Gap(mem[..], free, cs, lo, row, heapTop, heapTop, [], heapTop) && KeepsLive(before, mem[..], lo, row)
    {
      hide OpenAt, Gap, TagsKept, KeepsLive, Linked, ListOk;
      OpenFacts(before, mem[..], free, cs, lo, left, c, e, right, heapTop);
      if sp == heapTop {
        GiveBack(before, mem[..], free, cs, lo, left, c, e, right, heapTop);
        heapUsed := heapUsed - (mem[c] + 1);
        heapTop := c;
        mem[heapTop] := IN_USE;
        row := left;
      } else {
        PutBack(before, mem[..], free, cs, lo, left, c, e, right, heapTop, mem[c]);
        row := left + [Blk(mem[c], false)] + right;
        AddToFreeList(c);
      }
    }

    /** Gives block b back: joined to its free neighbours it goes on the free list, or back to the top. A block
        that is not in use is refused. */
    method FreeBlock(b: nat, ghost m: nat)
      requires Valid() && (LiveAt(lo, row, b, m) || IsFreeAt(lo, row, b))
      modifies `free, `heapTop, `heapUsed, `row, `cs, mem
      ensures Valid() && KeepsLive(old(mem[..]), mem[..], lo, row)
      ensures old(IsFreeAt(lo, row, b)) ==> row == old(row) && mem[..] == old(mem[..]) && free == old(free)
                                            && heapUsed == old(heapUsed) && heapTop == old(heapTop)
      ensures !old(IsFreeAt(lo, row, b)) ==> heapUsed == old(heapUsed) - (m + 1)
      ensures forall a, k :: LiveAt(lo, row, a, k) <==>
        old(LiveAt(lo, row, a, k)) && (a != b || old(IsFreeAt(lo, row, b)))
      ensures if b + m + 1 == old(heapTop) && !old(IsFreeAt(lo, row, b)) then heapTop <= b else heapTop == old(heapTop)
    {
      ghost var before, row0, inUse := mem[..], row, !IsFreeAt(lo, row, b);
      ghost var left, p, n, right, l, r := FreePlan(before, free, cs, lo, row, heapTop, b, m);
      var size := SizeOf(mem[b]);
      var sp := b + size;
      if !InUse(mem[b]) || mem[sp] != mem[b] { return; }
      mem[b] := mem[b] - IN_USE;
      Coalesce(b, before, l, left, p, b + m + 1, n, right, r);
      FreedRow(lo, row0, left, p, Blk(m, true), n, right);
    }

    /** Joins the block [b, e), its flag cleared, with its free neighbours and releases it. */
    method Coalesce(b: nat, ghost before: seq<nat>, ghost l: Row, ghost left: Row, ghost p: Row, ghost e: nat,
        ghost n: Row, ghost right: Row, ghost r: Row)
      requires Open(before, l, b, e, r) && l == left + p && p == PrevFree(l) && r == n + right && n == NextFree(r)
      requires b + 3 < e && b < mem.Length && b + mem[b] + 1 == e && (e == heapTop <==> r == [])
      modifies `free, `heapTop, `heapUsed, `row, `cs, mem
      ensures row == Freed(left, p, Blk(old(mem[..])[b], true), n, right)
      ensures heapTop == if e == old(heapTop) then b - Total(p) else old(heapTop)
      ensures heapUsed == old(heapUsed) - (old(mem[..])[b] + 1)
      ensures Gap(mem[..], free, cs, lo, row, heapTop, heapTop, [], heapTop) && KeepsLive(before, mem[..], lo, row)
    {
      hide OpenAt, Gap, KeepsLive;
      var c := MergePrevious(b, before, l, left, p, e, r);
      var sp := MergeNext(c, before, left, e, r, n, right);
      TopAfter(before, mem[..], free, cs, lo, left, c, e, n, right, heapTop);
      Release(c, sp, before, left, e + Total(n), right);
    }

    /** Cuts a block of n words off the front of the block [b, e); the rest goes on the free list. */
    method Split(b: nat, n: nat, ghost before: seq<nat>, ghost l: Row, ghost e: nat, ghost r: Row)
      requires Open(before, l, b, e, r) && b < mem.Length && b + mem[b] + 1 == e && 4 <= n && n + 25 <= mem[b]
      modifies `free, `heapUsed, `cs, mem
      ensures b < mem.Length && mem[b] == n && heapUsed == old(heapUsed) - (old(mem[..])[b] - n)
      ensures Gap(mem[..], free, cs, lo, l, b, b + n + 1, [Blk(old(mem[..])[b] - n - 1, false)] + r, heapTop)
      ensures TagsKept(before, mem[..], lo, l, b, e, r, heapTop)
    {
      hide OpenAt, Gap, TagsKept, ListOk, Clear, Linked, Insert;
      var c := b + n + 1;
      var rest: nat := mem[b] - n - 1;
      ghost var was := mem[..];
      OpenFacts(before, was, free, cs, lo, l, b, e, r, heapTop);
      SplitFrame(before, was, was[c := rest][b := n][c + rest := rest], free, cs, lo, l, b, e, r, heapTop, n, c, rest);
      mem[c] := rest;
      mem[b] := n;
      AddToFreeList(c);
    }

    /** Tags block [b, e) as in use. */
    method HandOut(b: nat, ghost l: Row, ghost e: nat, ghost r: Row)
      requires Gap(mem[..], free, cs, lo, l, b, e, r, heapTop) && b < mem.Length && b + mem[b] + 1 == e && 3 <= mem[b]
      modifies `row, mem
      ensures row == l + [Blk(old(mem[..])[b], true)] + r
      ensures Gap(mem[..], free, cs, lo, row, heapTop, heapTop, [], heapTop)
      ensures mem[b] == old(mem[..])[b] + IN_USE
      ensures forall x :: 0 <= x < mem.Length && x != b && x != e - 1 ==> mem[x] == old(mem[..])[x]
    {
      hide Gap;
      HandedOut(mem[..], free, cs, lo, l, b, e, r, heapTop, mem[b]);
      var sp := b + mem[b];
      row := l + [Blk(mem[b], true)] + r;
      mem[sp] := mem[b] + IN_USE;
      mem[b] := mem[b] + IN_USE;
    }

    /** Allocates n words from the free block blk at b, no longer on the list. */
    method Take(b: nat, n: nat, ghost before: seq<nat>, ghost l: Row, ghost blk: Blk, ghost r: Row)
      requires Open(before, l, b, b + blk.size + 1, r) && b < mem.Length && mem[b] == blk.size && 4 <= n <= blk.size
      requires !blk.used
      modifies `free, `heapUsed, `row, `cs, mem
      ensures row == l + Taken(blk, n) + r && b < mem.Length && mem[b] == Taken(blk, n)[0].size + IN_USE
      ensures Gap(mem[..], free, cs, lo, row, heapTop, heapTop, [], heapTop)
      ensures KeepsLive(before, mem[..], lo, l + [blk] + r)
      ensures heapUsed == old(heapUsed) - (blk.size - Taken(blk, n)[0].size)
    {
      hide OpenAt, Gap, TagsKept, KeepsLive;
      ghost var e, was := b + blk.size + 1, mem[..];
      ghost var free0, cs0 := free, cs;
      OpenFacts(before, was, free, cs, lo, l, b, e, r, heapTop);
      ghost var e', r' := e, r;
      if mem[b] >= n + 25 {
        Split(b, n, before, l, e, r);
        e', r' := b + n + 1, [Blk(blk.size - n - 1, false)] + r;
        assert l + [Blk(n, true)] + r' == l + Taken(blk, n) + r;
      }
      TakenLiveKept(before, was, mem[..], free0, cs0, lo, l, b, e, r, heapTop, blk);
      ghost var mid := mem[..];
      HandOut(b, l, e', r');
      KeepsLiveOutside(before, mid, mem[..], lo, l, blk, r, b);
    }

    method Round(bytes: nat) returns (n: nat)
      ensures n == Words(bytes)
    {
      var extra := bytes / 16;
      var align := 8;
      while align < extra
        invariant 0 < align && Doubled(align, extra) == Doubled(8, extra)
      {
        align := 2 * align;
      }
      var size := (bytes + align - 1) / align * align;
      if size < 24 { size := 24; }
      n := (size + 8) / 8;
    }

    /** Allocates bytes on the heap, at p; 0 when there is no room and the caller must make some. */
    method AllocHeap(bytes: nat) returns (p: nat)
      requires Valid()
      modifies this, mem
      ensures Valid() && lim == old(lim)
      ensures p == 0 <==> NoBlock(old(mem[..]), old(cs), Words(bytes)) && lim <= old(heapTop) + Words(bytes) + 1
      ensures p == 0 ==>
        && mem[..] == old(mem[..]) && row == old(row) && free == old(free) && heapTop == old(heapTop)
        && heapUsed == old(heapUsed) && heapMax == old(heapMax) && overflowSignal == old(overflowSignal)
        && sizeOfOverflow == (if old(heapTop) <= lim && Words(bytes) > old(sizeOfOverflow) then 8 * Words(bytes) + 8
                              else old(sizeOfOverflow))
      ensures p != 0 ==>
        var m := heapUsed - old(heapUsed) - 1;
        && Words(bytes) <= m < Words(bytes) + 25
        && (forall a, k :: LiveAt(lo, row, a, k) <==> old(LiveAt(lo, row, a, k)) || (a == p - 1 && k == m))
        && KeepsLive(old(mem[..]), mem[..], lo, old(row))
        && sizeOfOverflow == old(sizeOfOverflow)
      ensures p != 0 && NoBlock(old(mem[..]), old(cs), Words(bytes)) ==>
        && p == old(heapTop) + 1 && heapTop == old(heapTop) + Words(bytes) + 1
        && heapUsed == old(heapUsed) + Words(bytes) + 1
        && heapMax == Larger(old(heapMax), heapUsed)
        && overflowSignal == (old(overflowSignal) || heapTop + MIN_HEAP_GAP > lim)
      ensures !NoBlock(old(mem[..]), old(cs), Words(bytes)) ==>
        && p != 0 && SmallestBlock(old(mem[..]), old(cs), Words(bytes), p - 1) && p <= mem.Length
        && heapUsed == old(heapUsed) + 1 + (if old(mem[..])[p - 1] >= Words(bytes) + 25 then Words(bytes)
                                            else old(mem[..])[p - 1])
        && heapMax == Larger(old(heapMax), old(heapUsed) + old(mem[..])[p - 1] + 1)
        && heapTop == old(heapTop) && overflowSignal == old(overflowSignal)
    {
      hide OpenAt, Gap, TagsKept, KeepsLive, NoBlock, SmallestBlock, Tight;
      var n := Round(bytes);
      WordsFit(bytes);
      ghost var before, row0 := mem[..], row;
      GapFacts(before, free, cs, lo, row, heapTop, heapTop, [], heapTop);
      ghost var l, blk, r := TakePlan(before, free, cs, lo, row, heapTop, n);
      var b := GetBlock(n);
      if b != 0 {
        Take(b, n, before, l, blk, r);
        TakenRow(lo, row0, l, blk, r, n);
        return b + 1;
      }
      p := Extend(n);
    }

    /** Takes n words and a sentinel off the top, unless they are not there; asks for more room when little is left. */
    method Raise(n: nat) returns (ok: bool)
      modifies `heapTop, `heapUsed, `sizeOfOverflow, `overflowSignal
      ensures ok <==> old(heapTop) + n + 1 < lim
      ensures ok ==> heapTop == old(heapTop) + n + 1 && heapUsed == old(heapUsed) + n + 1
      ensures ok ==> sizeOfOverflow == old(sizeOfOverflow)
      ensures ok ==> overflowSignal == (old(overflowSignal) || heapTop + MIN_HEAP_GAP > lim)
      ensures !ok ==> heapTop == old(heapTop) && heapUsed == old(heapUsed) && overflowSignal == old(overflowSignal)
      ensures !ok ==>
                sizeOfOverflow ==
                  if heapTop <= lim && n > old(sizeOfOverflow) then 8 * n + 8 else old(sizeOfOverflow)
    {
      heapTop := heapTop + (n + 1);
      heapUsed := heapUsed + (n + 1);
      if heapTop + MIN_HEAP_GAP > lim {
        heapTop := heapTop - (n + 1);
        heapUsed := heapUsed - (n + 1);
        if heapTop > lim { return false; }
        if heapTop + n + 1 < lim {
          heapTop := heapTop + (n + 1);
          heapUsed := heapUsed + (n + 1);
          overflowSignal := true;
        } else {
          if n > sizeOfOverflow { sizeOfOverflow := 8 * n + 8; }
          return false;
        }
      }
      ok := true;
    }

    /** Lays a block of n words down at HeapTop, unless that comes too close to HeapLim. */
    method Extend(n: nat) returns (p: nat)
      requires Valid() && 4 <= n
      modifies `row, `heapTop, `heapUsed, `heapMax, `sizeOfOverflow, `overflowSignal, mem
      ensures Valid()
      ensures p == 0 <==> lim <= old(heapTop) + n + 1
      ensures p == 0 ==>
        && mem[..] == old(mem[..]) && row == old(row) && heapTop == old(heapTop) && heapUsed == old(heapUsed)
        && heapMax == old(heapMax) && overflowSignal == old(overflowSignal)
        && sizeOfOverflow == if old(heapTop) <= lim && n > old(sizeOfOverflow) then 8 * n + 8 else old(sizeOfOverflow)
      ensures p != 0 ==>
        && p == old(heapTop) + 1 && heapTop == old(heapTop) + n + 1 && heapUsed == old(heapUsed) + n + 1
        && row == old(row) + [Blk(n, true)] && KeepsLive(old(mem[..]), mem[..], lo, old(row))
        && (forall a, k :: LiveAt(lo, row, a, k) <==> old(LiveAt(lo, row, a, k)) || (a == p - 1 && k == n))
        && overflowSignal == (old(overflowSignal) || heapTop + MIN_HEAP_GAP > lim)
        && heapMax == Larger(old(heapMax), heapUsed) && sizeOfOverflow == old(sizeOfOverflow)
    {
      hide Gap, KeepsLive, Tight;
      ghost var before := mem[..];
      GapFacts(before, free, cs, lo, row, heapTop, heapTop, [], heapTop);
      var b := heapTop;
      var ok := Raise(n);
      if !ok { return 0; }
      GrownRow(lo, row, n);
      Grown(before, free, cs, lo, row, b, n);
      mem[heapTop] := IN_USE;
      if heapUsed > heapMax { heapMax := heapUsed; }
      mem[b] := n + IN_USE;
      mem[b + n] := mem[b];
      row := row + [Blk(n, true)];
      p := b + 1;
    }
  }
}
