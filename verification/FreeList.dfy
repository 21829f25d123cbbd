/** The free list of the heap allocator: heads of strictly increasing size, linked by b_next_size, each
    heading a doubly linked chain of blocks of one size (b_next forwards, b_next_size backwards). */
module FreeList {

  /** The nodes of one size, in chain order. */
  datatype Chain = Chain(size: nat, nodes: seq<nat>)

  type Chains = seq<Chain>

  function HeadOf(cs: Chains, i: nat): nat {
    if i < |cs| && cs[i].nodes != [] then cs[i].nodes[0] else 0
  }

  predicate At(cs: Chains, i: int, j: int) {
    0 <= i < |cs| && 0 <= j < |cs[i].nodes|
  }

  ghost predicate IsNode(cs: Chains, a: nat) {
    exists i, j :: At(cs, i, j) && cs[i].nodes[j] == a
  }

  /** Words a, a + 1 and a + 2 are b_size, b_next and b_next_size. */
  predicate NodeOk(mem: seq<nat>, cs: Chains, i: int, j: int)
    requires At(cs, i, j)
  {
    var a, ns := cs[i].nodes[j], cs[i].nodes;
    && 0 < a && a + 2 < |mem|
    && mem[a] == cs[i].size
    && mem[a + 1] == (if j + 1 < |ns| then ns[j + 1] else 0)
    && mem[a + 2] == (if j == 0 then HeadOf(cs, i + 1) else ns[j - 1])
  }

  predicate Apart(a: nat, b: nat) {
    a + 3 <= b || b + 3 <= a
  }

  ghost predicate AllApart(cs: Chains) {
    forall i, j, k, l {:trigger Apart(cs[i].nodes[j], cs[k].nodes[l])} ::
      At(cs, i, j) && At(cs, k, l) && (i != k || j != l) ==> Apart(cs[i].nodes[j], cs[k].nodes[l])
  }

  /** Block b overlaps no node. */
  ghost predicate Clear(cs: Chains, b: nat) {
    forall i, j {:trigger Apart(b, cs[i].nodes[j])} :: At(cs, i, j) ==> Apart(b, cs[i].nodes[j])
  }

  ghost predicate ListOk(mem: seq<nat>, free: nat, cs: Chains) {
    && free == HeadOf(cs, 0)
    && Ascending(cs)
    && (forall i, j {:trigger NodeOk(mem, cs, i, j)} :: At(cs, i, j) ==> NodeOk(mem, cs, i, j))
    && AllApart(cs)
  }

  // ---------------------------------------------------------------- what the operations do to the chains

  /** The first chain of size at least n. */
  function FirstFit(cs: Chains, n: nat): (i: nat)
    ensures i <= |cs|
    ensures forall k :: 0 <= k < i ==> cs[k].size < n
    ensures i < |cs| ==> n <= cs[i].size
  {
    if cs == [] || n <= cs[0].size then 0 else 1 + FirstFit(cs[1..], n)
  }

  /** b becomes the head of the chain of its size. */
  function Insert(cs: Chains, b: nat, size: nat): Chains {
    var i := FirstFit(cs, size);
    if i < |cs| && cs[i].size == size then cs[i := Chain(size, [b] + cs[i].nodes)]
    else cs[..i] + [Chain(size, [b])] + cs[i..]
  }

  function Without(cs: Chains, i: nat, j: nat): Chains
    requires At(cs, i, j)
  {
    if |cs[i].nodes| == 1 then cs[..i] + cs[i + 1..]
    else cs[i := Chain(cs[i].size, cs[i].nodes[..j] + cs[i].nodes[j + 1..])]
  }

  // ---------------------------------------------------------------- linking and unlinking

  /** The word that points to the head of chain i; 0 stands for the variable FreeBlocks. */
  function LinkTo(cs: Chains, i: nat): nat
    requires i <= |cs|
  {
    if i == 0 || cs[i - 1].nodes == [] then 0 else cs[i - 1].nodes[0] + 2
  }

  function Follow(mem: seq<nat>, free: nat, q: nat): nat {
    if q == 0 then free else if q < |mem| then mem[q] else 0
  }

  lemma FollowLink(mem: seq<nat>, free: nat, cs: Chains, i: nat)
    requires ListOk(mem, free, cs) && i <= |cs|
    ensures Follow(mem, free, LinkTo(cs, i)) == HeadOf(cs, i)
    ensures LinkTo(cs, i) < |mem| || LinkTo(cs, i) == 0
    ensures i < |cs| ==> HeadOf(cs, i) != 0 && HeadOf(cs, i) + 2 < |mem| && mem[HeadOf(cs, i)] == cs[i].size
    ensures i < |cs| ==> LinkTo(cs, i + 1) == HeadOf(cs, i) + 2
  {
    if 0 < i { assert At(cs, i - 1, 0) && NodeOk(mem, cs, i - 1, 0); }
    if i < |cs| { assert At(cs, i, 0) && NodeOk(mem, cs, i, 0); }
  }

  /** The store and FreeBlocks after *q = b. */
  function SetMem(mem: seq<nat>, q: nat, b: nat): (r: seq<nat>)
    ensures |r| == |mem|
  {
    if 0 < q < |mem| then mem[q := b] else mem
  }

  function SetFree(free: nat, q: nat, b: nat): nat {
    if q == 0 then b else free
  }

  function Linked(mem: seq<nat>, cs: Chains, b: nat, size: nat): (r: seq<nat>)
    requires b + 2 < |mem|
    ensures |r| == |mem|
  {
    var i := FirstFit(cs, size);
    var p := HeadOf(cs, i);
    if i < |cs| && cs[i].size == size && p + 2 < |mem| then
      SetMem(mem[b + 1 := p][b + 2 := mem[p + 2]][p + 2 := b], LinkTo(cs, i), b)
    else
      SetMem(mem[b + 1 := 0][b + 2 := p], LinkTo(cs, i), b)
  }

  /** Where the nodes of cs' = Insert(cs, b, size) come from. */
  ghost predicate Inserted(cs: Chains, cs': Chains, b: nat, size: nat) {
    var i := FirstFit(cs, size);
    if i < |cs| && cs[i].size == size then
      |cs'| == |cs| && forall k :: 0 <= k < |cs| ==>
        cs'[k] == if k == i then Chain(size, [b] + cs[i].nodes) else cs[k]
    else
      |cs'| == |cs| + 1 && forall k {:trigger cs'[k]} :: 0 <= k < |cs'| ==>
        cs'[k] == if k < i then cs[k] else if k == i then Chain(size, [b]) else cs[k - 1]
  }

  lemma InsertNodes(cs: Chains, b: nat, size: nat)
    ensures Inserted(cs, Insert(cs, b, size), b, size)
  {
  }

  lemma InsertIsNode(cs: Chains, b: nat, size: nat, a: nat)
    ensures IsNode(Insert(cs, b, size), a) <==> a == b || IsNode(cs, a)
  {
    var i, cs' := FirstFit(cs, size), Insert(cs, b, size);
    InsertNodes(cs, b, size);
    var eq := i < |cs| && cs[i].size == size;
    assert At(cs', i, 0) && cs'[i].nodes[0] == b;
    if IsNode(cs, a) {
      var k, l :| At(cs, k, l) && cs[k].nodes[l] == a;
      if eq {
        var l' := if k == i then l + 1 else l;
        assert At(cs', k, l') && cs'[k].nodes[l'] == a;
      } else {
        var k' := if k < i then k else k + 1;
        assert At(cs', k', l) && cs'[k'].nodes[l] == a;
      }
    }
    if IsNode(cs', a) && a != b {
      var k, l :| At(cs', k, l) && cs'[k].nodes[l] == a;
      if eq {
        var l' := if k == i then l - 1 else l;
        assert At(cs, k, l') && cs[k].nodes[l'] == a;
      } else {
        var k' := if k < i then k else k - 1;
        assert At(cs, k', l) && cs[k'].nodes[l] == a;
      }
    }
  }

  /** Insertion changes one word of an old node at most: the link that now leads to b. */
  predicate InsertedWord(mem: seq<nat>, m: seq<nat>, cs: Chains, b: nat, size: nat, k: int, l: int)
    requires At(cs, k, l) && |m| == |mem|
  {
    var i, a := FirstFit(cs, size), cs[k].nodes[l];
    var eq := i < |cs| && cs[i].size == size;
    && a + 2 < |mem| && m[a] == mem[a] && m[a + 1] == mem[a + 1]
    && m[a + 2] == if l == 0 && (k == i - 1 || (eq && k == i)) then b else mem[a + 2]
  }

  /** Facts about where the words of node (k, l), of b and of the two heads lie. */
  lemma InsertGeometry(mem: seq<nat>, free: nat, cs: Chains, b: nat, size: nat, k: int, l: int)
    requires ListOk(mem, free, cs) && At(cs, k, l) && Clear(cs, b)
    ensures
      var i, a := FirstFit(cs, size), cs[k].nodes[l];
      && 0 < a && a + 2 < |mem| && Apart(b, a)
      && (0 < i ==> var q := HeadOf(cs, i - 1);
            LinkTo(cs, i) == q + 2 && 0 < q && q + 2 < |mem| && Apart(b, q)
            && (if k == i - 1 && l == 0 then a == q else Apart(a, q)))
      && (i < |cs| ==> var p := HeadOf(cs, i);
            0 < p && p + 2 < |mem| && Apart(b, p) && (if k == i && l == 0 then a == p else Apart(a, p)))
      && (0 < i < |cs| ==> Apart(HeadOf(cs, i - 1), HeadOf(cs, i)))
  {
    var i, a := FirstFit(cs, size), cs[k].nodes[l];
    assert NodeOk(mem, cs, k, l) && Apart(b, a);
    if 0 < i {
      assert At(cs, i - 1, 0) && NodeOk(mem, cs, i - 1, 0) && Apart(b, cs[i - 1].nodes[0]);
      assert k != i - 1 || l != 0 ==> Apart(a, cs[i - 1].nodes[0]);
    }
    if i < |cs| {
      assert At(cs, i, 0) && NodeOk(mem, cs, i, 0) && Apart(b, cs[i].nodes[0]);
      assert k != i || l != 0 ==> Apart(a, cs[i].nodes[0]);
    }
    if 0 < i < |cs| { assert Apart(cs[i - 1].nodes[0], cs[i].nodes[0]); }
  }

  lemma LinkedWords(mem: seq<nat>, cs: Chains, b: nat, size: nat, k: int, l: int)
    requires 0 < b && b + 2 < |mem| && At(cs, k, l)
    requires
      var i, a := FirstFit(cs, size), cs[k].nodes[l];
      && 0 < a && a + 2 < |mem| && Apart(b, a)
      && (0 < i ==> var q := HeadOf(cs, i - 1);
            LinkTo(cs, i) == q + 2 && 0 < q && q + 2 < |mem| && Apart(b, q)
            && (if k == i - 1 && l == 0 then a == q else Apart(a, q)))
      && (i < |cs| ==> var p := HeadOf(cs, i);
            0 < p && p + 2 < |mem| && Apart(b, p) && (if k == i && l == 0 then a == p else Apart(a, p)))
      && (0 < i < |cs| ==> Apart(HeadOf(cs, i - 1), HeadOf(cs, i)))
    ensures InsertedWord(mem, Linked(mem, cs, b, size), cs, b, size, k, l)
  {
  }

  lemma LinkedNew(mem: seq<nat>, free: nat, cs: Chains, b: nat, size: nat)
    requires ListOk(mem, free, cs) && 0 < b && b + 2 < |mem|
    requires Clear(cs, b)
    ensures
      var i, m := FirstFit(cs, size), Linked(mem, cs, b, size);
      var eq := i < |cs| && cs[i].size == size;
      && m[b] == mem[b]
      && m[b + 1] == (if eq then HeadOf(cs, i) else 0)
      && m[b + 2] == (if eq then HeadOf(cs, i + 1) else HeadOf(cs, i))
  {
    var i := FirstFit(cs, size);
    if 0 < i { assert At(cs, i - 1, 0) && Apart(b, cs[i - 1].nodes[0]); }
    if i < |cs| { assert At(cs, i, 0) && NodeOk(mem, cs, i, 0) && Apart(b, cs[i].nodes[0]); }
  }

  lemma InsertApart(mem: seq<nat>, free: nat, cs: Chains, b: nat, size: nat)
    requires ListOk(mem, free, cs)
    requires Clear(cs, b)
    ensures AllApart(Insert(cs, b, size))
  {
    var i, cs' := FirstFit(cs, size), Insert(cs, b, size);
    var eq := i < |cs| && cs[i].size == size;
    InsertNodes(cs, b, size);
    forall k, l, k', l' | At(cs', k, l) && At(cs', k', l') && (k != k' || l != l')
      ensures Apart(cs'[k].nodes[l], cs'[k'].nodes[l'])
    {
      var k0, l0 := if eq || k < i then k else k - 1, if eq && k == i then l - 1 else l;
      var k1, l1 := if eq || k' < i then k' else k' - 1, if eq && k' == i then l' - 1 else l';
      if k == i && l == 0 {
        assert At(cs, k1, l1) && Apart(b, cs[k1].nodes[l1]);
      } else if k' == i && l' == 0 {
        assert At(cs, k0, l0) && Apart(b, cs[k0].nodes[l0]);
      } else {
        assert At(cs, k0, l0) && At(cs, k1, l1) && Apart(cs[k0].nodes[l0], cs[k1].nodes[l1]);
      }
    }
  }

  lemma InsertHeads(cs: Chains, b: nat, size: nat, k: nat)
    ensures
      var i := FirstFit(cs, size);
      var eq := i < |cs| && cs[i].size == size;
      HeadOf(Insert(cs, b, size), k) ==
        if k == i then b else if eq || k < i then HeadOf(cs, k) else HeadOf(cs, k - 1)
  {
    InsertNodes(cs, b, size);
    InsertedHeads(cs, Insert(cs, b, size), b, size, k);
  }

  lemma InsertedHeads(cs: Chains, cs': Chains, b: nat, size: nat, k: nat)
    requires Inserted(cs, cs', b, size)
    ensures
      var i := FirstFit(cs, size);
      var eq := i < |cs| && cs[i].size == size;
      HeadOf(cs', k) == if k == i then b else if eq || k < i then HeadOf(cs, k) else HeadOf(cs, k - 1)
  {
    assert k < |cs'| ==> cs'[k] == cs'[k];
  }

  /** Word for word, what insertion does to the old nodes and to b. */
  ghost predicate InsertedWords(mem: seq<nat>, m: seq<nat>, cs: Chains, b: nat, size: nat) {
    var i := FirstFit(cs, size);
    var eq := i < |cs| && cs[i].size == size;
    && |m| == |mem| && b + 2 < |m| && m[b] == mem[b]
    && m[b + 1] == (if eq then HeadOf(cs, i) else 0)
    && m[b + 2] == (if eq then HeadOf(cs, i + 1) else HeadOf(cs, i))
    && forall k, l {:trigger NodeOk(mem, cs, k, l)} {:trigger InsertedWord(mem, m, cs, b, size, k, l)} ::
         At(cs, k, l) ==> InsertedWord(mem, m, cs, b, size, k, l)
  }

  lemma InsertNodeOk(mem: seq<nat>, m: seq<nat>, cs: Chains, b: nat, size: nat, k: int, l: int)
    requires InsertedWords(mem, m, cs, b, size) && 0 < b && mem[b] == size
    requires forall i, j {:trigger NodeOk(mem, cs, i, j)} :: At(cs, i, j) ==> NodeOk(mem, cs, i, j)
    requires At(Insert(cs, b, size), k, l)
    ensures NodeOk(m, Insert(cs, b, size), k, l)
  {
    var i, cs' := FirstFit(cs, size), Insert(cs, b, size);
    var eq := i < |cs| && cs[i].size == size;
    InsertNodes(cs, b, size);
    InsertHeads(cs, b, size, k + 1);
    if !(k == i && l == 0) {
      var k0, l0 := if eq || k < i then k else k - 1, if eq && k == i then l - 1 else l;
      assert At(cs, k0, l0) && NodeOk(mem, cs, k0, l0);
    }
  }

  /** AddToFreeList keeps the list in shape. */
  lemma InsertKeeps(mem: seq<nat>, free: nat, cs: Chains, b: nat, size: nat)
    requires ListOk(mem, free, cs) && 0 < b && b + 2 < |mem| && mem[b] == size
    requires Clear(cs, b)
    ensures ListOk(Linked(mem, cs, b, size), SetFree(free, LinkTo(cs, FirstFit(cs, size)), b), Insert(cs, b, size))
  {
    var m := Linked(mem, cs, b, size);
    assert InsertedWords(mem, m, cs, b, size) by {
      LinkedNew(mem, free, cs, b, size);
      forall k, l | At(cs, k, l)
        ensures InsertedWord(mem, m, cs, b, size, k, l)
      {
        InsertGeometry(mem, free, cs, b, size, k, l);
        LinkedWords(mem, cs, b, size, k, l);
      }
    }
    InsertShape(mem, m, free, cs, b, size);
  }

  lemma InsertShape(mem: seq<nat>, m: seq<nat>, free: nat, cs: Chains, b: nat, size: nat)
    requires ListOk(mem, free, cs) && 0 < b && b + 2 < |mem| && mem[b] == size && Clear(cs, b)
    requires InsertedWords(mem, m, cs, b, size)
    ensures ListOk(m, SetFree(free, LinkTo(cs, FirstFit(cs, size)), b), Insert(cs, b, size))
  {
    var i, cs' := FirstFit(cs, size), Insert(cs, b, size);
    forall k, l | At(cs', k, l)
      ensures NodeOk(m, cs', k, l)
    {
      InsertNodeOk(mem, m, cs, b, size, k, l);
    }
    InsertApart(mem, free, cs, b, size);
    InsertSizes(cs, b, size);
    InsertHeads(cs, b, size, 0);
    if 0 < i { assert cs[0].nodes != []; }
  }

  ghost predicate Ascending(cs: Chains) {
    && (forall i :: 0 <= i < |cs| ==> cs[i].nodes != [])
    && (forall i, j :: 0 <= i < j < |cs| ==> cs[i].size < cs[j].size)
  }

  lemma InsertSizes(cs: Chains, b: nat, size: nat)
    requires Ascending(cs)
    ensures Ascending(Insert(cs, b, size))
  {
    InsertNodes(cs, b, size);
  }

  /** Taking node j of chain i out of the list. */
  function Unlinked(mem: seq<nat>, cs: Chains, i: nat, j: nat): (r: seq<nat>)
    requires At(cs, i, j) && cs[i].nodes[j] + 2 < |mem|
    ensures |r| == |mem|
  {
    var b, ns := cs[i].nodes[j], cs[i].nodes;
    var next := if j + 1 < |ns| then ns[j + 1] else 0;
    if j > 0 then
      var m := if ns[j - 1] + 1 < |mem| then mem[ns[j - 1] + 1 := next] else mem;
      if next != 0 && next + 2 < |mem| then m[next + 2 := ns[j - 1]] else m
    else if next != 0 && next + 2 < |mem| then
      SetMem(mem, LinkTo(cs, i), next)[next + 2 := mem[b + 2]]
    else SetMem(mem, LinkTo(cs, i), mem[b + 2])
  }

  function UnlinkedFree(mem: seq<nat>, free: nat, cs: Chains, i: nat, j: nat): nat
    requires At(cs, i, j) && cs[i].nodes[j] + 2 < |mem|
  {
    if j > 0 then free
    else if |cs[i].nodes| > 1 then SetFree(free, LinkTo(cs, i), cs[i].nodes[1])
    else SetFree(free, LinkTo(cs, i), mem[cs[i].nodes[j] + 2])
  }

  lemma WithoutNodes(cs: Chains, i: nat, j: nat)
    requires At(cs, i, j)
    ensures
      var cs', ns := Without(cs, i, j), cs[i].nodes;
      if |ns| == 1 then
        |cs'| == |cs| - 1 && forall k :: 0 <= k < |cs'| ==> cs'[k] == if k < i then cs[k] else cs[k + 1]
      else
        |cs'| == |cs| && forall k :: 0 <= k < |cs| ==>
          if k != i then cs'[k] == cs[k]
          else cs'[k].size == cs[k].size && |cs'[k].nodes| == |ns| - 1 &&
               forall l :: 0 <= l < |ns| - 1 ==> cs'[k].nodes[l] == if l < j then ns[l] else ns[l + 1]
  {
  }

  /** Where node (k, l) of the shortened list was. */
  function WasRow(cs: Chains, i: nat, k: int): int
    requires i < |cs|
  {
    if |cs[i].nodes| > 1 || k < i then k else k + 1
  }

  function WasCol(cs: Chains, i: nat, j: nat, k: int, l: int): int
    requires i < |cs|
  {
    if |cs[i].nodes| > 1 && k == i && j <= l then l + 1 else l
  }

  lemma WasThere(cs: Chains, i: nat, j: nat, k: int, l: int)
    requires At(cs, i, j) && At(Without(cs, i, j), k, l)
    ensures
      var k0, l0 := WasRow(cs, i, k), WasCol(cs, i, j, k, l);
      At(cs, k0, l0) && (k0 != i || l0 != j) && Without(cs, i, j)[k].nodes[l] == cs[k0].nodes[l0]
  {
    WithoutNodes(cs, i, j);
  }

  lemma WithoutIsNode(mem: seq<nat>, free: nat, cs: Chains, i: nat, j: nat, a: nat)
    requires ListOk(mem, free, cs) && At(cs, i, j)
    ensures IsNode(Without(cs, i, j), a) <==> a != cs[i].nodes[j] && IsNode(cs, a)
  {
    var cs' := Without(cs, i, j);
    WithoutNodes(cs, i, j);
    if IsNode(cs', a) {
      var k, l :| At(cs', k, l) && cs'[k].nodes[l] == a;
      WasThere(cs, i, j, k, l);
      assert Apart(cs[WasRow(cs, i, k)].nodes[WasCol(cs, i, j, k, l)], cs[i].nodes[j]);
    }
    if IsNode(cs, a) && a != cs[i].nodes[j] {
      var k, l :| At(cs, k, l) && cs[k].nodes[l] == a;
      var k' := if |cs[i].nodes| > 1 || k < i then k else k - 1;
      var l' := if k == i && j < l then l - 1 else l;
      assert At(cs', k', l') && cs'[k'].nodes[l'] == a;
    }
  }

  /** Removal changes the links of the neighbours only. */
  predicate RemovedWord(mem: seq<nat>, m: seq<nat>, cs: Chains, i: nat, j: nat, k: int, l: int)
    requires At(cs, i, j) && At(cs, k, l) && |m| == |mem| && cs[i].nodes[j] + 2 < |mem|
  {
    var a, ns := cs[k].nodes[l], cs[i].nodes;
    && a + 2 < |mem| && m[a] == mem[a]
    && m[a + 1] == (if k == i && l == j - 1 then (if j + 1 < |ns| then ns[j + 1] else 0) else mem[a + 1])
    && m[a + 2] ==
         if k == i && l == j + 1 then (if j == 0 then mem[ns[j] + 2] else ns[j - 1])
         else if k == i - 1 && l == 0 && j == 0 then (if |ns| > 1 then ns[1] else mem[ns[j] + 2])
         else mem[a + 2]
  }

  lemma UnlinkedWords(mem: seq<nat>, free: nat, cs: Chains, i: nat, j: nat, k: int, l: int)
    requires ListOk(mem, free, cs) && At(cs, i, j) && At(cs, k, l) && (k != i || l != j)
    ensures cs[i].nodes[j] + 2 < |mem| && RemovedWord(mem, Unlinked(mem, cs, i, j), cs, i, j, k, l)
  {
    assert NodeOk(mem, cs, i, j) && NodeOk(mem, cs, k, l);
    var ns, a := cs[i].nodes, cs[k].nodes[l];
    if 0 < i {
      assert At(cs, i - 1, 0) && NodeOk(mem, cs, i - 1, 0);
      assert k != i - 1 || l != 0 ==> Apart(a, cs[i - 1].nodes[0]);
    }
    if 0 < j {
      assert At(cs, i, j - 1) && NodeOk(mem, cs, i, j - 1);
      assert k != i || l != j - 1 ==> Apart(a, cs[i].nodes[j - 1]);
    }
    if j + 1 < |ns| {
      assert At(cs, i, j + 1) && NodeOk(mem, cs, i, j + 1);
      assert k != i || l != j + 1 ==> Apart(a, cs[i].nodes[j + 1]);
      if 0 < j { assert Apart(cs[i].nodes[j - 1], cs[i].nodes[j + 1]); }
      if 0 < i { assert Apart(cs[i - 1].nodes[0], cs[i].nodes[j + 1]); }
    }
  }

  /** Word for word, what taking node (i, j) out does to the others. */
  ghost predicate RemovedWords(mem: seq<nat>, m: seq<nat>, cs: Chains, i: nat, j: nat)
    requires At(cs, i, j)
  {
    && |m| == |mem| && cs[i].nodes[j] + 2 < |mem|
    && forall k, l {:trigger NodeOk(mem, cs, k, l)} {:trigger RemovedWord(mem, m, cs, i, j, k, l)} ::
         At(cs, k, l) && (k != i || l != j) ==> RemovedWord(mem, m, cs, i, j, k, l)
  }

  lemma WithoutNodeOk(mem: seq<nat>, m: seq<nat>, cs: Chains, i: nat, j: nat, k: int, l: int)
    requires At(cs, i, j) && RemovedWords(mem, m, cs, i, j) && At(Without(cs, i, j), k, l)
    requires forall k, l {:trigger NodeOk(mem, cs, k, l)} :: At(cs, k, l) ==> NodeOk(mem, cs, k, l)
    ensures NodeOk(m, Without(cs, i, j), k, l)
  {
    var k0, l0 := WasRow(cs, i, k), WasCol(cs, i, j, k, l);
    WasThere(cs, i, j, k, l);
    assert NodeOk(mem, cs, i, j) && NodeOk(mem, cs, k0, l0) && RemovedWord(mem, m, cs, i, j, k0, l0);
    if k0 == i {
      WithoutSameChain(mem, m, cs, i, j, l);
    } else {
      WithoutOtherChain(mem, m, cs, i, j, k, l);
    }
  }

  lemma WithoutSameChain(mem: seq<nat>, m: seq<nat>, cs: Chains, i: nat, j: nat, l: int)
    requires At(cs, i, j) && |cs[i].nodes| > 1 && At(Without(cs, i, j), i, l)
    requires |m| == |mem| && NodeOk(mem, cs, i, j)
    requires
      var l0 := if j <= l then l + 1 else l;
      NodeOk(mem, cs, i, l0) && RemovedWord(mem, m, cs, i, j, i, l0)
    ensures NodeOk(m, Without(cs, i, j), i, l)
  {
    var cs', ns := Without(cs, i, j), cs[i].nodes;
    assert cs'[i].nodes == ns[..j] + ns[j + 1..] && cs'[i].size == cs[i].size;
    assert HeadOf(cs', i + 1) == HeadOf(cs, i + 1);
  }

  lemma WithoutOtherChain(mem: seq<nat>, m: seq<nat>, cs: Chains, i: nat, j: nat, k: int, l: int)
    requires At(cs, i, j) && At(Without(cs, i, j), k, l) && WasRow(cs, i, k) != i && At(cs, WasRow(cs, i, k), l)
    requires |m| == |mem| && NodeOk(mem, cs, i, j)
    requires NodeOk(mem, cs, WasRow(cs, i, k), l) && RemovedWord(mem, m, cs, i, j, WasRow(cs, i, k), l)
    ensures NodeOk(m, Without(cs, i, j), k, l)
  {
    WithoutNodes(cs, i, j);
    assert Without(cs, i, j)[k] == cs[WasRow(cs, i, k)];
    WithoutHeads(cs, i, j, k + 1);
  }

  lemma WithoutHeads(cs: Chains, i: nat, j: nat, k: nat)
    requires At(cs, i, j)
    ensures
      HeadOf(Without(cs, i, j), k) ==
        if k == i && j == 0 && |cs[i].nodes| > 1 then cs[i].nodes[1]
        else if |cs[i].nodes| > 1 || k < i then HeadOf(cs, k) else HeadOf(cs, k + 1)
  {
    WithoutNodes(cs, i, j);
  }

  lemma WithoutApart(cs: Chains, i: nat, j: nat)
    requires AllApart(cs) && At(cs, i, j)
    ensures AllApart(Without(cs, i, j))
  {
    var cs' := Without(cs, i, j);
    forall k, l, k', l' | At(cs', k, l) && At(cs', k', l') && (k != k' || l != l')
      ensures Apart(cs'[k].nodes[l], cs'[k'].nodes[l'])
    {
      WasThere(cs, i, j, k, l);
      WasThere(cs, i, j, k', l');
      assert Apart(cs[WasRow(cs, i, k)].nodes[WasCol(cs, i, j, k, l)],
                   cs[WasRow(cs, i, k')].nodes[WasCol(cs, i, j, k', l')]);
    }
  }

  /** RemoveFromFreeList and GetBlock keep the list in shape. */
  lemma WithoutKeeps(mem: seq<nat>, free: nat, cs: Chains, i: nat, j: nat)
    requires ListOk(mem, free, cs) && At(cs, i, j)
    ensures cs[i].nodes[j] + 2 < |mem|
    ensures ListOk(Unlinked(mem, cs, i, j), UnlinkedFree(mem, free, cs, i, j), Without(cs, i, j))
  {
    var cs' := Without(cs, i, j);
    assert NodeOk(mem, cs, i, j);
    var m := Unlinked(mem, cs, i, j);
    assert RemovedWords(mem, m, cs, i, j) by {
      forall k, l | At(cs, k, l) && (k != i || l != j)
        ensures RemovedWord(mem, m, cs, i, j, k, l)
      {
        UnlinkedWords(mem, free, cs, i, j, k, l);
      }
    }
    WithoutShape(mem, m, free, cs, i, j);
  }

  lemma WithoutShape(mem: seq<nat>, m: seq<nat>, free: nat, cs: Chains, i: nat, j: nat)
    requires ListOk(mem, free, cs) && At(cs, i, j) && RemovedWords(mem, m, cs, i, j)
    ensures ListOk(m, UnlinkedFree(mem, free, cs, i, j), Without(cs, i, j))
  {
    var cs' := Without(cs, i, j);
    assert NodeOk(mem, cs, i, j);
    forall k, l | At(cs', k, l)
      ensures NodeOk(m, cs', k, l)
    {
      WithoutNodeOk(mem, m, cs, i, j, k, l);
    }
    WithoutApart(cs, i, j);
    WithoutNodes(cs, i, j);
    if i == 0 { assert |cs| > 1 ==> cs[1].nodes != []; } else { assert cs[0].nodes != []; }
  }

  // ---------------------------------------------------------------- frames

  /** Only link words of nodes, and of b itself, are written. */
  lemma LinkedFrame(mem: seq<nat>, cs: Chains, b: nat, size: nat, x: nat)
    requires b + 2 < |mem| && x < |mem| && x != b + 1 && x != b + 2 && x != 0 && Ascending(cs)
    requires forall i, j {:trigger cs[i].nodes[j]} :: At(cs, i, j) ==>
      x != cs[i].nodes[j] + 1 && x != cs[i].nodes[j] + 2
    ensures Linked(mem, cs, b, size)[x] == mem[x]
  {
    var i := FirstFit(cs, size);
    if 0 < i && cs[i - 1].nodes != [] { assert At(cs, i - 1, 0); }
    if i < |cs| && cs[i].nodes != [] { assert At(cs, i, 0); }
  }

  lemma UnlinkedFrame(mem: seq<nat>, cs: Chains, i: nat, j: nat, x: nat)
    requires At(cs, i, j) && cs[i].nodes[j] + 2 < |mem| && x < |mem| && x != 0
    requires forall i, j {:trigger cs[i].nodes[j]} :: At(cs, i, j) ==>
      x != cs[i].nodes[j] + 1 && x != cs[i].nodes[j] + 2
    ensures Unlinked(mem, cs, i, j)[x] == mem[x]
  {
    if 0 < i && cs[i - 1].nodes != [] { assert At(cs, i - 1, 0); }
    if 0 < j { assert At(cs, i, j - 1); }
    if j + 1 < |cs[i].nodes| { assert At(cs, i, j + 1); }
  }

  /** The list only reads three words of each node. */
  lemma ListFrame(mem: seq<nat>, m: seq<nat>, free: nat, cs: Chains)
    requires ListOk(mem, free, cs) && |m| == |mem|
    requires forall i, j {:trigger cs[i].nodes[j]} :: At(cs, i, j) && cs[i].nodes[j] + 2 < |mem| ==>
               var a := cs[i].nodes[j];
               m[a] == mem[a] && m[a + 1] == mem[a + 1] && m[a + 2] == mem[a + 2]
    ensures ListOk(m, free, cs)
  {
    forall i, j | At(cs, i, j)
      ensures NodeOk(m, cs, i, j)
    {
      assert NodeOk(mem, cs, i, j);
    }
  }
}
