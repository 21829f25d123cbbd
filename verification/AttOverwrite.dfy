/** Overwriting attribute values in place: exactly when the map is as it should be. */
module AttOverwrite {
  import opened Prelude
  import opened Cells
  import opened Terms
  import opened AttMap

  /** The first cell of s that dereferencing c comes to, if there is one. */
  function Hit(mem: seq<Cell>, c: Cell, s: set<nat>, left: set<nat>): Option<nat>
    decreases left
  {
    if !c.Ref? || c.a >= |mem| then None
    else if c.a in s then Some(c.a)
    else if mem[c.a] != c && c.a in left then Hit(mem, mem[c.a], s, left - {c.a})
    else None
  }

  function FirstIn(mem: seq<Cell>, c: Cell, s: set<nat>): Option<nat> {
    Hit(mem, c, s, Addresses(|mem|))
  }

  lemma {:induction false} HitNone(mem: seq<Cell>, c: Cell, s: set<nat>, z: set<nat>, left: set<nat>)
    requires Avoids(mem, c, z, left) && Hit(mem, c, s, left) == None
    ensures Avoids(mem, c, s, left)
    decreases left
  {
    if c.Ref? && mem[c.a] != c { HitNone(mem, mem[c.a], s, z, left - {c.a}); }
  }

  /** When the cells of s have changed, c reads as the first of them that it comes to. */
  lemma {:induction false} HitSome(mem: seq<Cell>, mem': seq<Cell>, c: Cell, s: set<nat>, left: set<nat>)
    requires Only(mem, mem', s) && Hit(mem, c, s, left).Some?
    ensures var x := Hit(mem, c, s, left).value; x in s && x < |mem'|
    ensures
      var x := Hit(mem, c, s, left).value;
      x in left && Settled(mem', mem'[x], {}) ==> Deref(mem', c, left) == mem'[x]
    decreases left
  {
    if c.a !in s { HitSome(mem, mem', mem[c.a], s, left - {c.a}); }
  }

  lemma FirstNone(mem: seq<Cell>, mem': seq<Cell>, c: Cell, s: set<nat>, z: set<nat>)
    requires Only(mem, mem', s) && Clear(mem, c, z) && FirstIn(mem, c, s) == None
    ensures DerefCell(mem', c) == DerefCell(mem, c) && Settled(mem', DerefCell(mem, c), s)
  {
    HitNone(mem, c, s, z, Addresses(|mem|));
    ClearKept(mem, mem', c, s, s);
    ClearSettles(mem', c, s);
  }

  lemma FirstSome(mem: seq<Cell>, mem': seq<Cell>, c: Cell, s: set<nat>)
    requires Only(mem, mem', s) && FirstIn(mem, c, s).Some?
    ensures var x := FirstIn(mem, c, s).value; x in s && x < |mem'|
    ensures var x := FirstIn(mem, c, s).value; Settled(mem', mem'[x], {}) ==> DerefCell(mem', c) == mem'[x]
  {
    HitSome(mem, mem', c, s, Addresses(|mem|));
  }

  // ---------------------------------------------------------------- the map, value by value

  /** The value of place i of block b: the new one, or the old one where the new block leaves it. */
  function Want(mem: seq<Cell>, b: nat, t: nat, i: nat): Cell
    requires BlockAt(mem, b) && BlockAt(mem, t) && mem[b] == mem[t] && i < mem[b].arity - 1
  {
    Merged(mem, b, t)[i]
  }

  /** Every place reads as it should: those of block k as in v, the others as before. */
  ghost predicate Right(m0: seq<Cell>, mem: seq<Cell>, bs: seq<nat>, k: nat, v: seq<Cell>) {
    |mem| == |m0| &&
    forall j, x: nat {:trigger IsArg(m0, bs[j], x)} ::
        0 <= j < |bs| && IsArg(m0, bs[j], x) && x < |m0| && (j == k ==> x - bs[j] - 2 < |v|) ==>
      DerefCell(mem, mem[x]) == if j == k then v[x - bs[j] - 2] else DerefCell(m0, m0[x])
  }

  lemma RightValues(m0: seq<Cell>, mem: seq<Cell>, bs: seq<nat>, k: nat, v: seq<Cell>, j: nat)
    requires j < |bs| && k < |bs| && BlockAt(m0, bs[j]) && BlockAt(mem, bs[j]) && mem[bs[j]] == m0[bs[j]] &&
      |mem| == |m0|
    requires BlockAt(m0, bs[k]) && |v| == m0[bs[k]].arity - 1
    ensures Right(m0, mem, bs, k, v) ==> Values(mem, bs[j]) == if j == k then v else Values(m0, bs[j])
    ensures (Values(mem, bs[j]) == if j == k then v else Values(m0, bs[j])) ==>
      forall x: nat :: IsArg(m0, bs[j], x) && x < |m0| ==>
        DerefCell(mem, mem[x]) == if j == k then v[x - bs[j] - 2] else DerefCell(m0, m0[x])
  {
    hide DerefCell;
    var b, u := bs[j], if j == k then v else Values(m0, bs[j]);
    if Right(m0, mem, bs, k, v) {
      forall i: nat | i < |u|
        ensures DerefCell(mem, mem[b + 2 + i]) == u[i]
      {
        assert IsArg(m0, b, b + 2 + i);
        if j != k { assert u[i] == Values(m0, b)[i]; }
      }
      ValuesAre(mem, b, u);
    }
    if Values(mem, b) == u {
      forall x: nat | IsArg(m0, b, x) && x < |m0|
        ensures DerefCell(mem, mem[x]) == if j == k then v[x - b - 2] else DerefCell(m0, m0[x])
      {
        assert DerefCell(mem, mem[x]) == Values(mem, b)[x - b - 2];
        if j != k { assert Values(m0, b)[x - b - 2] == DerefCell(m0, m0[x]); }
      }
    }
  }

  /** With the chain as it was, the map is the old one with one new vector exactly when every place reads right. */
  lemma AttributesIff(m0: seq<Cell>, mem: seq<Cell>, atts: nat, bs: seq<nat>, k: nat, v: seq<Cell>)
    requires Apart(m0, atts, bs) && Apart(mem, atts, bs) && SameHeaders(m0, mem, bs) && k < |bs|
    requires BlockAt(m0, bs[k]) && |v| == m0[bs[k]].arity - 1
    ensures Attributes(mem, atts, bs) == Attributes(m0, atts, bs)[m0[bs[k]] := v] <==> Right(m0, mem, bs, k, v)
  {
    hide Values, Disjoint, DerefCell;
    var m := Attributes(m0, atts, bs)[m0[bs[k]] := v];
    if Right(m0, mem, bs, k, v) {
      forall j {:trigger bs[j]} | 0 <= j < |bs|
        ensures BlockAt(mem, bs[j]) && BlockAt(m0, bs[j])
        ensures mem[bs[j]] == m0[bs[j]] && Values(mem, bs[j]) == if j == k then v else Values(m0, bs[j])
      {
        HeadersDiffer(m0, atts, bs, j, k);
        HeadersDiffer(mem, atts, bs, j, k);
        RightValues(m0, mem, bs, k, v, j);
      }
      AttributesReplaced(m0, mem, atts, bs, bs, k, v);
    }
    if Attributes(mem, atts, bs) == m {
      forall j, x: nat | 0 <= j < |bs| && IsArg(m0, bs[j], x) && x < |m0|
        ensures (j == k ==> x - bs[j] - 2 < |v|) && DerefCell(mem, mem[x]) == if j == k then v[x - bs[j] - 2]
          else DerefCell(m0, m0[x])
      {
        HeadersDiffer(m0, atts, bs, j, k);
        HeadersDiffer(mem, atts, bs, j, k);
        OneVector(m0, mem, atts, bs, k, v, j);
        RightValues(m0, mem, bs, k, v, j);
      }
    }
  }

  lemma Vector(mem: seq<Cell>, atts: nat, bs: seq<nat>, j: nat)
    requires Apart(mem, atts, bs) && j < |bs| && BlockAt(mem, bs[j])
    ensures mem[bs[j]] in Attributes(mem, atts, bs) && Attributes(mem, atts, bs)[mem[bs[j]]] == Values(mem, bs[j])
  {
  }

  lemma OneVector(m0: seq<Cell>, mem: seq<Cell>, atts: nat, bs: seq<nat>, k: nat, v: seq<Cell>, j: nat)
    requires Apart(m0, atts, bs) && Apart(mem, atts, bs) && SameHeaders(m0, mem, bs) && k < |bs| && j < |bs|
    requires BlockAt(m0, bs[k]) && BlockAt(m0, bs[j]) && BlockAt(mem, bs[j])
    requires Attributes(mem, atts, bs) == Attributes(m0, atts, bs)[m0[bs[k]] := v]
    ensures mem[bs[j]] == m0[bs[j]] && Values(mem, bs[j]) == if j == k then v else Values(m0, bs[j])
  {
    hide Values, Apart, Attributes;
    HeadersDiffer(m0, atts, bs, j, k);
    Vector(mem, atts, bs, j);
    Vector(m0, atts, bs, j);
  }

  // ---------------------------------------------------------------- one value

  /** The value at y does not come to place x, or what is stored there is its value anyway. */
  predicate Stays(mem: seq<Cell>, x: nat, v: Cell, y: nat) {
    y < |mem| && y != x && FirstIn(mem, mem[y], {x}).Some? ==> v == DerefCell(mem, mem[y])
  }

  ghost predicate PutAgrees(mem: seq<Cell>, bs: seq<nat>, x: nat, v: Cell) {
    forall j, y: nat {:trigger IsArg(mem, bs[j], y)} :: 0 <= j < |bs| && IsArg(mem, bs[j], y) ==> Stays(mem, x, v, y)
  }

  lemma PutPlace(m0: seq<Cell>, atts: nat, bs: seq<nat>, k: nat, x: nat, v: Cell, j: nat, y: nat)
    requires Valid(m0, atts, bs) && k < |bs| && IsArg(m0, bs[k], x) && x < |m0| && j < |bs| && IsArg(m0, bs[j], y) &&
      y < |m0|
    requires Settled(m0, v, Frame(atts, bs))
    ensures
      DerefCell(m0[x := v], m0[x := v][y]) ==
        if y == x || FirstIn(m0, m0[y], {x}).Some? then v else DerefCell(m0, m0[y])
    ensures y == x ==> j == k
  {
    ArgOutside(m0, atts, bs, k, x);
    var mem := m0[x := v];
    ClearSettled(mem, v, {});
    if y != x {
      TidyAt(m0, atts, bs, j, y);
      if FirstIn(m0, m0[y], {x}).Some? { FirstSome(m0, mem, m0[y], {x}); }
          else { FirstNone(m0, mem, m0[y], {x}, Frame(atts, bs)); }
    }
  }

  lemma PutRight(m0: seq<Cell>, atts: nat, bs: seq<nat>, k: nat, x: nat, v: Cell)
    requires Valid(m0, atts, bs) && k < |bs| && BlockAt(m0, bs[k]) && IsArg(m0, bs[k], x) && x < |m0|
    requires Settled(m0, v, Frame(atts, bs))
    ensures Right(m0, m0[x := v], bs, k, Values(m0, bs[k])[x - bs[k] - 2 := v]) <==> PutAgrees(m0, bs, x, v)
  {
    hide Valid, Settled, DerefCell, FirstIn;
    var mem, w := m0[x := v], Values(m0, bs[k])[x - bs[k] - 2 := v];
    forall j, y: nat | 0 <= j < |bs| && IsArg(m0, bs[j], y) && y < |m0|
      ensures DerefCell(mem, mem[y]) == if y == x || FirstIn(m0, m0[y], {x}).Some? then v else DerefCell(m0, m0[y])
      ensures y == x ==> j == k
    {
      PutPlace(m0, atts, bs, k, x, v, j, y);
    }
    forall y: nat | IsArg(m0, bs[k], y)
      ensures y - bs[k] - 2 < |w| && w[y - bs[k] - 2] == if y == x then v else DerefCell(m0, m0[y])
    {
      assert Values(m0, bs[k])[y - bs[k] - 2] == DerefCell(m0, m0[y]);
    }
  }

  /** Storing a value gives the map with that value exactly when no other value comes to its place. */
  lemma PutIff(m0: seq<Cell>, atts: nat, bs: seq<nat>, k: nat, x: nat, v: Cell)
    requires Valid(m0, atts, bs) && k < |bs| && BlockAt(m0, bs[k]) && IsArg(m0, bs[k], x) && x < |m0|
    requires Settled(m0, v, Frame(atts, bs))
    ensures Valid(m0[x := v], atts, bs)
    ensures
      var wanted := Attributes(m0, atts, bs)[m0[bs[k]] := Values(m0, bs[k])[x - bs[k] - 2 := v]];
      Attributes(m0[x := v], atts, bs) == wanted <==> PutAgrees(m0, bs, x, v)
  {
    hide Apart, Linked, Tidy, Settled, Right, PutAgrees, Values, Attributes;
    StoreKeeps(m0, atts, bs, k, x, v);
    StoreApart(m0, atts, bs, k, x, v);
    AttributesIff(m0, m0[x := v], atts, bs, k, Values(m0, bs[k])[x - bs[k] - 2 := v]);
    PutRight(m0, atts, bs, k, x, v);
  }

  // ---------------------------------------------------------------- a whole block, place by place

  /** What the loop in place makes of the store in its first i rounds. */
  function InPlaceTo(mem: seq<Cell>, b: nat, t: nat, i: nat): (r: seq<Cell>)
    requires BlockAt(mem, b) && BlockAt(mem, t) && mem[b] == mem[t] && i < mem[t].arity
    ensures |r| == |mem|
  {
    if i == 0 then mem
    else
      var m := InPlaceTo(mem, b, t, i - 1);
      var n := DerefCell(m, m[t + 1 + i]);
      if n == FREE then m else m[b + 1 + i := n]
  }

  ghost predicate Blocks(mem: seq<Cell>, b: nat, t: nat) {
    && BlockAt(mem, b) && BlockAt(mem, t) && mem[b] == mem[t] && Disjoint(mem, b, t)
    && forall x: nat {:trigger IsArg(mem, t, x)} :: IsArg(mem, t, x) && x < |mem| ==> Clear(mem, mem[x], {})
  }

  /** Round i stores something: the new value is not free, or comes to a place stored to before. */
  predicate Writes(mem: seq<Cell>, b: nat, t: nat, i: nat, done: set<nat>)
    requires BlockAt(mem, t) && i < mem[t].arity - 1
  {
    FirstIn(mem, mem[t + 2 + i], done).Some? || DerefCell(mem, mem[t + 2 + i]) != FREE
  }

  /** The places stored to in the first i rounds, as long as all goes well. */
  function Written(mem: seq<Cell>, b: nat, t: nat, i: nat): (s: set<nat>)
    requires BlockAt(mem, b) && BlockAt(mem, t) && mem[b] == mem[t] && i < mem[t].arity
    ensures forall x :: x in s ==> b + 2 <= x < b + 2 + i
  {
    if i == 0 then {}
    else
      var s := Written(mem, b, t, i - 1);
      if Writes(mem, b, t, i - 1, s) then s + {b + 1 + i} else s
  }

  /** The new value of round i does not come to a place stored to before, unless that place got the value wanted here;
      and no place stored to before got the variable that is here now, unless that is wanted here. */
  predicate RoundOk(mem: seq<Cell>, b: nat, t: nat, i: nat)
    requires BlockAt(mem, b) && BlockAt(mem, t) && mem[b] == mem[t] && i < mem[b].arity - 1
  {
    var done := Written(mem, b, t, i);
    Writes(mem, b, t, i, done) ==>
      && (FirstIn(mem, mem[t + 2 + i], done).Some? ==>
          HasWanted(mem, b, t, FirstIn(mem, mem[t + 2 + i], done).value, Want(mem, b, t, i)))
      && (forall j: nat {:trigger Want(mem, b, t, j)} ::
          j < i && b + 2 + j in done && Want(mem, b, t, j) == Ref(b + 2 + i) ==>
            Want(mem, b, t, i) == Want(mem, b, t, j))
  }

  /** Place x of block b is to get v. */
  predicate HasWanted(mem: seq<Cell>, b: nat, t: nat, x: nat, v: Cell)
    requires BlockAt(mem, b) && BlockAt(mem, t) && mem[b] == mem[t]
  {
    b + 2 <= x <= b + mem[b].arity ==> Want(mem, b, t, x - b - 2) == v
  }

  /** A value that is not stored to does not come to a place that is, unless that place gets the same value. */
  predicate KeptOk(mem: seq<Cell>, b: nat, t: nat, y: nat)
    requires BlockAt(mem, b) && BlockAt(mem, t) && mem[b] == mem[t]
  {
    var done := Written(mem, b, t, mem[b].arity - 1);
    y < |mem| && y !in done && FirstIn(mem, mem[y], done).Some? ==>
      HasWanted(mem, b, t, FirstIn(mem, mem[y], done).value, DerefCell(mem, mem[y]))
  }

  /** When the loop in place gives what is wanted; all is read off the store as it is before. */
  ghost predicate Agrees(mem: seq<Cell>, bs: seq<nat>, b: nat, t: nat)
    requires BlockAt(mem, b) && BlockAt(mem, t) && mem[b] == mem[t]
  {
    && (forall i: nat {:trigger RoundOk(mem, b, t, i)} :: i < mem[b].arity - 1 ==> RoundOk(mem, b, t, i))
    && (forall j, y: nat {:trigger IsArg(mem, bs[j], y)} :: 0 <= j < |bs| && IsArg(mem, bs[j], y) ==>
        KeptOk(mem, b, t, y))
  }

  /** After i good rounds: what was stored is what was wanted, and reads so. */
  ghost predicate Faithful(m0: seq<Cell>, m: seq<Cell>, b: nat, t: nat, i: nat)
    requires BlockAt(m0, b) && BlockAt(m0, t) && m0[b] == m0[t] && i < m0[b].arity
  {
    && Only(m0, m, Written(m0, b, t, i))
    && forall j: nat {:trigger Want(m0, b, t, j)} :: j < i && b + 2 + j in Written(m0, b, t, i) ==>
         b + 2 + j < |m| && m[b + 2 + j] == Want(m0, b, t, j) && Want(m0, b, t, j) != FREE &&
             Settled(m, Want(m0, b, t, j), {})
  }

  lemma FaithfulStart(m0: seq<Cell>, b: nat, t: nat)
    requires BlockAt(m0, b) && BlockAt(m0, t) && m0[b] == m0[t]
    ensures Faithful(m0, m0, b, t, 0)
  {
  }

  lemma StoredIs(m0: seq<Cell>, m: seq<Cell>, b: nat, t: nat, i: nat, j: nat)
    requires BlockAt(m0, b) && BlockAt(m0, t) && m0[b] == m0[t] && i < m0[b].arity && Faithful(m0, m, b, t, i)
    requires j < i && b + 2 + j in Written(m0, b, t, i)
    ensures |m| == |m0| && m[b + 2 + j] == Want(m0, b, t, j) && Want(m0, b, t, j) != FREE &&
      Settled(m, Want(m0, b, t, j), {})
  {
  }

  /** What round i reads. */
  lemma RoundReads(m0: seq<Cell>, m: seq<Cell>, b: nat, t: nat, i: nat)
    requires Blocks(m0, b, t) && i < m0[b].arity - 1 && Faithful(m0, m, b, t, i)
    ensures |m| == |m0|
    ensures
      var y, done := t + 2 + i, Written(m0, b, t, i);
      var n, hit := DerefCell(m, m[y]), FirstIn(m0, m0[y], done);
      && Settled(m, n, {})
      && (hit == None ==> n == DerefCell(m0, m0[y]))
      && (hit.Some? ==> b + 2 <= hit.value < b + 2 + i && hit.value in done
                        && n == Want(m0, b, t, hit.value - b - 2) && n == m[hit.value] && n != FREE)
  {
    hide DerefCell, Clear, FirstIn;
    var y, done := t + 2 + i, Written(m0, b, t, i);
    assert IsArg(m0, t, y) && y !in done;
    var hit := FirstIn(m0, m0[y], done);
    if hit.Some? {
      FirstSome(m0, m, m0[y], done);
      StoredIs(m0, m, b, t, i, hit.value - b - 2);
    } else {
      FirstNone(m0, m, m0[y], done, {});
    }
  }

  lemma StoreSettled(m: seq<Cell>, x: nat, n: Cell, c: Cell)
    requires x < |m| && Settled(m, c, {}) && (c == Ref(x) ==> n == c)
    ensures Settled(m[x := n], c, {})
  {
  }

  lemma FaithfulMore(m0: seq<Cell>, m: seq<Cell>, b: nat, t: nat, i: nat)
    requires BlockAt(m0, b) && BlockAt(m0, t) && m0[b] == m0[t] && i < m0[b].arity - 1 && Faithful(m0, m, b, t, i) &&
      |m| == |m0|
    requires Writes(m0, b, t, i, Written(m0, b, t, i)) && RoundOk(m0, b, t, i)
    requires Settled(m, Want(m0, b, t, i), {}) && Want(m0, b, t, i) != FREE
    ensures Faithful(m0, m[b + 2 + i := Want(m0, b, t, i)], b, t, i + 1)
  {
    hide DerefCell, FirstIn, Want, Settled, HasWanted, Writes;
    var x, n, done := b + 2 + i, Want(m0, b, t, i), Written(m0, b, t, i);
    var m' := m[x := n];
    assert Written(m0, b, t, i + 1) == done + {x};
    forall j: nat {:trigger Want(m0, b, t, j)} | j < i + 1 && b + 2 + j in Written(m0, b, t, i + 1)
      ensures b + 2 + j < |m'| && m'[b + 2 + j] == Want(m0, b, t, j) && Want(m0, b, t, j) != FREE &&
        Settled(m', Want(m0, b, t, j), {})
    {
      if j < i { StoredIs(m0, m, b, t, i, j); }
      StoreSettled(m, x, n, Want(m0, b, t, j));
    }
  }

  lemma GoodRound(m0: seq<Cell>, m: seq<Cell>, b: nat, t: nat, i: nat)
    requires Blocks(m0, b, t) && i < m0[b].arity - 1 && Faithful(m0, m, b, t, i) && RoundOk(m0, b, t, i)
    ensures |m| == |m0|
    ensures
      var n := DerefCell(m, m[t + 2 + i]);
      && (n == FREE <==> !Writes(m0, b, t, i, Written(m0, b, t, i)))
      && (n != FREE ==> n == Want(m0, b, t, i))
      && Faithful(m0, if n == FREE then m else m[b + 2 + i := n], b, t, i + 1)
  {
    hide DerefCell, Clear, FirstIn, Want, Faithful, Settled;
    RoundReads(m0, m, b, t, i);
    WantIs(m0, b, t, i);
    var n := DerefCell(m, m[t + 2 + i]);
    if n == FREE {
      FaithfulSame(m0, m, b, t, i);
    } else {
      FaithfulMore(m0, m, b, t, i);
    }
  }

  lemma FaithfulSame(m0: seq<Cell>, m: seq<Cell>, b: nat, t: nat, i: nat)
    requires BlockAt(m0, b) && BlockAt(m0, t) && m0[b] == m0[t] && i < m0[b].arity - 1 && Faithful(m0, m, b, t, i)
    requires !Writes(m0, b, t, i, Written(m0, b, t, i))
    ensures Faithful(m0, m, b, t, i + 1)
  {
    hide DerefCell, FirstIn, Want, Settled, Writes;
    assert Written(m0, b, t, i + 1) == Written(m0, b, t, i);
  }

  lemma WantIs(m0: seq<Cell>, b: nat, t: nat, i: nat)
    requires BlockAt(m0, b) && BlockAt(m0, t) && m0[b] == m0[t] && i < m0[b].arity - 1
    ensures Want(m0, b, t, i) ==
      if DerefCell(m0, m0[t + 2 + i]) == FREE then DerefCell(m0, m0[b + 2 + i]) else DerefCell(m0, m0[t + 2 + i])
  {
  }

  /** Later rounds leave a place alone. */
  lemma {:induction false} LaterRounds(m0: seq<Cell>, b: nat, t: nat, i: nat, n: nat, x: nat)
    requires BlockAt(m0, b) && BlockAt(m0, t) && m0[b] == m0[t] && i <= n < m0[t].arity && x < |m0| &&
      !(b + 2 + i <= x < b + 2 + n)
    ensures InPlaceTo(m0, b, t, n)[x] == InPlaceTo(m0, b, t, i)[x]
  {
    hide DerefCell;
    if i < n { LaterRounds(m0, b, t, i, n - 1, x); }
  }

  lemma {:induction false} GoodRounds(m0: seq<Cell>, b: nat, t: nat, i: nat)
    requires Blocks(m0, b, t) && i < m0[b].arity && forall j: nat :: j < i ==> RoundOk(m0, b, t, j)
    ensures Faithful(m0, InPlaceTo(m0, b, t, i), b, t, i)
  {
    hide DerefCell, RoundOk, Faithful, Writes;
    if i == 0 {
      FaithfulStart(m0, b, t);
    } else {
      GoodRounds(m0, b, t, i - 1);
      GoodRound(m0, InPlaceTo(m0, b, t, i - 1), b, t, i - 1);
    }
  }

  /** The first bad round shows: two places come to hold the same, or a variable is gone. */
  lemma BadRound(m0: seq<Cell>, b: nat, t: nat, i: nat)
    requires Blocks(m0, b, t) && i < m0[b].arity - 1 && !RoundOk(m0, b, t, i)
    requires forall j: nat :: j < i ==> RoundOk(m0, b, t, j)
    requires
      var f := InPlaceTo(m0, b, t, m0[b].arity - 1);
      forall x: nat {:trigger IsArg(m0, b, x)} :: IsArg(m0, b, x) && x < |f| ==> Clear(f, f[x], {})
    ensures
      var f := InPlaceTo(m0, b, t, m0[b].arity - 1);
      exists j: nat {:trigger Want(m0, b, t, j)} :: j <= i && DerefCell(f, f[b + 2 + j]) != Want(m0, b, t, j)
  {
    hide DerefCell, Clear, FirstIn, Faithful, Merged, Settled;
    var f, m, done := InPlaceTo(m0, b, t, m0[b].arity - 1), InPlaceTo(m0, b, t, i), Written(m0, b, t, i);
    GoodRounds(m0, b, t, i);
    RoundReads(m0, m, b, t, i);
    WantIs(m0, b, t, i);
    var y := t + 2 + i;
    var n, hit := DerefCell(m, m[y]), FirstIn(m0, m0[y], done);
    assert n != FREE;
    LaterRounds(m0, b, t, i + 1, m0[b].arity - 1, b + 2 + i);
    assert f[b + 2 + i] == n;
    if hit.Some? && Want(m0, b, t, hit.value - b - 2) != Want(m0, b, t, i) {
      var j := hit.value - b - 2;
      LaterRounds(m0, b, t, i, m0[b].arity - 1, b + 2 + j);
      assert f[b + 2 + j] == f[b + 2 + i];
    } else {
      var j: nat :| j < i && b + 2 + j in done && Want(m0, b, t, j) == Ref(b + 2 + i) &&
          Want(m0, b, t, i) != Want(m0, b, t, j);
      LaterRounds(m0, b, t, i, m0[b].arity - 1, b + 2 + j);
      StoredIs(m0, m, b, t, i, j);
      assert f[b + 2 + j] == Ref(b + 2 + i);
      assert IsArg(m0, b, b + 2 + j);
      ClearSettles(f, f[b + 2 + j], {});
      NotSettled(f, b + 2 + i);
    }
  }

  lemma NotSettled(mem: seq<Cell>, x: nat)
    requires x < |mem| && mem[x] != Ref(x)
    ensures !Settled(mem, Ref(x), {})
  {
  }

  // ---------------------------------------------------------------- the chain and the map

  /** What every round in place keeps: only values of the block change, and the new ones stay apart from the chain. */
  ghost predicate InPlaceFrame(m0: seq<Cell>, mem: seq<Cell>, atts: nat, bs: seq<nat>, k: nat, t: nat)
    requires k < |bs|
  {
    && ArgsOnly(m0, mem, bs[k]) && Blocks(m0, bs[k], t) && Apart(m0, atts, bs)
    && forall x: nat {:trigger IsArg(m0, t, x)} :: IsArg(m0, t, x) && x < |mem| ==> Clear(mem, mem[x], Frame(atts, bs))
  }

  lemma InPlaceStart(mem: seq<Cell>, atts: nat, bs: seq<nat>, k: nat, t: nat)
    requires Valid(mem, atts, bs) && k < |bs| && BlockAt(mem, bs[k]) && Fresh(mem, atts, bs, t) && BlockAt(mem, t) &&
      mem[bs[k]] == mem[t]
    ensures InPlaceFrame(mem, mem, atts, bs, k, t)
  {
    hide Linked, Tidy, Clear, Apart;
    forall x: nat {:trigger IsArg(mem, t, x)} | IsArg(mem, t, x) && x < |mem|
      ensures Clear(mem, mem[x], {})
    {
      ClearFewer(mem, mem[x], Frame(atts, bs), {});
    }
  }

  /** One round: the chain stays valid. */
  lemma InPlaceNext(m0: seq<Cell>, mem: seq<Cell>, atts: nat, bs: seq<nat>, k: nat, t: nat, i: nat)
    requires Valid(mem, atts, bs) && k < |bs| && InPlaceFrame(m0, mem, atts, bs, k, t) && i < m0[t].arity - 1
    ensures t + 2 + i < |mem| && bs[k] + 2 + i < |mem|
    ensures
      var n, x := DerefCell(mem, mem[t + 2 + i]), bs[k] + 2 + i;
      var q := if n == FREE then mem else mem[x := n];
      Valid(q, atts, bs) && InPlaceFrame(m0, q, atts, bs, k, t)
  {
    hide Valid, Clear, DerefCell;
    var y, x := t + 2 + i, bs[k] + 2 + i;
    var n := DerefCell(mem, mem[y]);
    assert IsArg(m0, t, y);
    ClearSettles(mem, mem[y], Frame(atts, bs));
    assert !IsArg(m0, bs[k], bs[k]);
    if n != FREE {
      StoreKeeps(mem, atts, bs, k, x, n);
      forall z: nat {:trigger IsArg(m0, t, z)} | IsArg(m0, t, z) && z < |mem|
        ensures Clear(mem[x := n], mem[x := n][z], Frame(atts, bs))
      {
        ClearStore(mem, mem[z], Frame(atts, bs), x, n);
      }
    }
  }

  lemma {:induction false} InPlaceValid(m0: seq<Cell>, atts: nat, bs: seq<nat>, k: nat, t: nat, i: nat)
    requires Valid(m0, atts, bs) && k < |bs| && InPlaceFrame(m0, m0, atts, bs, k, t) && i < m0[t].arity
    ensures Valid(InPlaceTo(m0, bs[k], t, i), atts, bs) && InPlaceFrame(m0, InPlaceTo(m0, bs[k], t, i), atts, bs, k, t)
  {
    if i > 0 {
      InPlaceValid(m0, atts, bs, k, t, i - 1);
      InPlaceStep(m0, atts, bs, k, t, i);
    }
  }

  lemma InPlaceStep(m0: seq<Cell>, atts: nat, bs: seq<nat>, k: nat, t: nat, i: nat)
    requires k < |bs| && InPlaceFrame(m0, m0, atts, bs, k, t) && 0 < i < m0[t].arity
    requires Valid(InPlaceTo(m0, bs[k], t, i - 1), atts, bs) &&
      InPlaceFrame(m0, InPlaceTo(m0, bs[k], t, i - 1), atts, bs, k, t)
    ensures Valid(InPlaceTo(m0, bs[k], t, i), atts, bs) && InPlaceFrame(m0, InPlaceTo(m0, bs[k], t, i), atts, bs, k, t)
  {
    hide Valid, DerefCell;
    InPlaceNext(m0, InPlaceTo(m0, bs[k], t, i - 1), atts, bs, k, t, i - 1);
  }

  lemma {:induction false} WrittenIff(mem: seq<Cell>, b: nat, t: nat, n: nat, j: nat)
    requires BlockAt(mem, b) && BlockAt(mem, t) && mem[b] == mem[t] && j < n < mem[t].arity
    ensures b + 2 + j in Written(mem, b, t, n) <==> Writes(mem, b, t, j, Written(mem, b, t, j))
  {
    if j < n - 1 { WrittenIff(mem, b, t, n - 1, j); }
  }

  /** After only good rounds, a place reads as wanted, or, if not stored to, as what it comes to. */
  lemma GoodPlace(m0: seq<Cell>, f: seq<Cell>, b: nat, t: nat, y: nat)
    requires BlockAt(m0, b) && BlockAt(m0, t) && m0[b] == m0[t] && Faithful(m0, f, b, t, m0[b].arity - 1)
    requires y < |m0| && Clear(m0, m0[y], {})
    ensures |f| == |m0|
    ensures
      var done := Written(m0, b, t, m0[b].arity - 1);
      if y in done then DerefCell(f, f[y]) == Want(m0, b, t, y - b - 2)
      else DerefCell(f, f[y]) == DerefCell(m0, m0[y]) <==> KeptOk(m0, b, t, y)
  {
    hide DerefCell, FirstIn, Want, Clear, Writes;
    var n, done := m0[b].arity - 1, Written(m0, b, t, m0[b].arity - 1);
    if y in done {
      StoredIs(m0, f, b, t, n, y - b - 2);
      ClearSettled(f, f[y], {});
    } else {
      var hit := FirstIn(m0, m0[y], done);
      if hit.Some? {
        FirstSome(m0, f, m0[y], done);
        StoredIs(m0, f, b, t, n, hit.value - b - 2);
      } else {
        FirstNone(m0, f, m0[y], done, {});
      }
    }
  }

  /** A place of the block not stored to was to keep its value. */
  lemma NotWritten(m0: seq<Cell>, b: nat, t: nat, y: nat)
    requires BlockAt(m0, b) && BlockAt(m0, t) && m0[b] == m0[t] && IsArg(m0, b, y) &&
      y !in Written(m0, b, t, m0[b].arity - 1)
    ensures Want(m0, b, t, y - b - 2) == DerefCell(m0, m0[y])
  {
    hide DerefCell, FirstIn;
    WrittenIff(m0, b, t, m0[b].arity - 1, y - b - 2);
    WantIs(m0, b, t, y - b - 2);
  }

  lemma WrittenInside(m0: seq<Cell>, atts: nat, bs: seq<nat>, k: nat, t: nat, j: nat, y: nat)
    requires Apart(m0, atts, bs) && k < |bs| && j < |bs| && BlockAt(m0, bs[k]) && BlockAt(m0, t) &&
      m0[bs[k]] == m0[t] && IsArg(m0, bs[j], y)
    ensures y in Written(m0, bs[k], t, m0[t].arity - 1) ==> j == k
    ensures y < |m0|
  {
    ArgOutside(m0, atts, bs, j, y);
    assert y in Written(m0, bs[k], t, m0[t].arity - 1) ==> IsArg(m0, bs[k], y);
  }

  lemma {:induction false} FirstBad(m0: seq<Cell>, b: nat, t: nat, n: nat) returns (i: nat)
    requires BlockAt(m0, b) && BlockAt(m0, t) && m0[b] == m0[t] && n < m0[b].arity
    ensures i <= n && (forall j: nat {:trigger RoundOk(m0, b, t, j)} :: j < i ==> RoundOk(m0, b, t, j)) &&
      (i < n ==> !RoundOk(m0, b, t, i))
  {
    hide RoundOk;
    if n == 0 { return 0; }
    i := FirstBad(m0, b, t, n - 1);
    if i == n - 1 && RoundOk(m0, b, t, i) { i := n; }
  }

  lemma InPlaceRight(m0: seq<Cell>, atts: nat, bs: seq<nat>, k: nat, t: nat)
    requires Valid(m0, atts, bs) && k < |bs| && InPlaceFrame(m0, m0, atts, bs, k, t)
    ensures
      var f := InPlaceTo(m0, bs[k], t, m0[t].arity - 1);
      Right(m0, f, bs, k, Merged(m0, bs[k], t)) <==> Agrees(m0, bs, bs[k], t)
  {
    hide Linked, Tidy, DerefCell, Clear, RoundOk, KeptOk, Merged, Apart, Written;
    var b, n := bs[k], m0[t].arity - 1;
    var f, v := InPlaceTo(m0, b, t, n), Merged(m0, bs[k], t);
    var i := FirstBad(m0, b, t, n);
    if i < n {
      WrongAfterBad(m0, atts, bs, k, t, i);
    } else {
      GoodRounds(m0, b, t, n);
      forall j, y: nat {:trigger IsArg(m0, bs[j], y)} | 0 <= j < |bs| && IsArg(m0, bs[j], y)
        ensures y < |m0| && (j == k ==> y - bs[j] - 2 < |v|)
        ensures DerefCell(f, f[y]) == (if j == k then v[y - bs[j] - 2] else DerefCell(m0, m0[y])) <==>
          KeptOk(m0, b, t, y)
      {
        RightPlace(m0, f, atts, bs, k, t, j, y);
      }
    }
  }

  lemma WrongAfterBad(m0: seq<Cell>, atts: nat, bs: seq<nat>, k: nat, t: nat, i: nat)
    requires Valid(m0, atts, bs) && k < |bs| && InPlaceFrame(m0, m0, atts, bs, k, t) && i < m0[t].arity - 1
    requires !RoundOk(m0, bs[k], t, i) && forall j: nat :: j < i ==> RoundOk(m0, bs[k], t, j)
    ensures !Right(m0, InPlaceTo(m0, bs[k], t, m0[t].arity - 1), bs, k, Merged(m0, bs[k], t))
  {
    hide Linked, DerefCell, Clear, RoundOk, Merged, Apart, Written, Tidy;
    var b, n := bs[k], m0[t].arity - 1;
    var f := InPlaceTo(m0, b, t, n);
    InPlaceValid(m0, atts, bs, k, t, n);
    ArgsClear(m0, f, atts, bs, k);
    BadRound(m0, b, t, i);
    var j: nat :| j <= i && DerefCell(f, f[b + 2 + j]) != Want(m0, b, t, j);
    assert IsArg(m0, bs[k], b + 2 + j) && b + 2 + j - bs[k] - 2 == j;
  }

  lemma ArgsClear(m0: seq<Cell>, f: seq<Cell>, atts: nat, bs: seq<nat>, k: nat)
    requires Tidy(f, atts, bs) && k < |bs| && |f| == |m0| && ArgsOnly(m0, f, bs[k])
    ensures forall x: nat {:trigger IsArg(m0, bs[k], x)} :: IsArg(m0, bs[k], x) && x < |f| ==> Clear(f, f[x], {})
  {
    hide Clear;
    assert !IsArg(m0, bs[k], bs[k]);
    forall x: nat {:trigger IsArg(m0, bs[k], x)} | IsArg(m0, bs[k], x) && x < |f|
      ensures Clear(f, f[x], {})
    {
      assert IsArg(f, bs[k], x);
      TidyAt(f, atts, bs, k, x);
      ClearFewer(f, f[x], Frame(atts, bs), {});
    }
  }

  lemma RightPlace(m0: seq<Cell>, f: seq<Cell>, atts: nat, bs: seq<nat>, k: nat, t: nat, j: nat, y: nat)
    requires Valid(m0, atts, bs) && k < |bs| && BlockAt(m0, bs[k]) && BlockAt(m0, t) && m0[bs[k]] == m0[t]
    requires Faithful(m0, f, bs[k], t, m0[t].arity - 1) && j < |bs| && IsArg(m0, bs[j], y)
    ensures y < |m0| == |f| && (j == k ==> y - bs[j] - 2 < |Merged(m0, bs[k], t)|)
    ensures DerefCell(f, f[y]) == (if j == k then Merged(m0, bs[k], t)[y - bs[j] - 2] else DerefCell(m0, m0[y])) <==>
      KeptOk(m0, bs[k], t, y)
  {
    hide DerefCell, Clear, Apart, Linked, Tidy, Written, Faithful;
    WrittenInside(m0, atts, bs, k, t, j, y);
    TidyAt(m0, atts, bs, j, y);
    ClearFewer(m0, m0[y], Frame(atts, bs), {});
    GoodPlace(m0, f, bs[k], t, y);
    if j == k && y !in Written(m0, bs[k], t, m0[t].arity - 1) { NotWritten(m0, bs[k], t, y); }
  }

  /** The loop in place gives the map with the merged values exactly when Agrees holds of the store before it. */
  lemma InPlaceIff(m0: seq<Cell>, atts: nat, bs: seq<nat>, k: nat, t: nat)
    requires Valid(m0, atts, bs) && k < |bs| && BlockAt(m0, bs[k]) && Fresh(m0, atts, bs, t) && BlockAt(m0, t) &&
      m0[bs[k]] == m0[t]
    ensures Valid(InPlaceTo(m0, bs[k], t, m0[t].arity - 1), atts, bs)
    ensures
      var f := InPlaceTo(m0, bs[k], t, m0[t].arity - 1);
      Attributes(f, atts, bs) == Attributes(m0, atts, bs)[m0[t] := Merged(m0, bs[k], t)] <==> Agrees(m0, bs, bs[k], t)
  {
    hide Apart, Linked, Tidy, DerefCell, Right, Agrees, Merged, Attributes, Fresh, Blocks;
    InPlaceStart(m0, atts, bs, k, t);
    InPlaceValid(m0, atts, bs, k, t, m0[t].arity - 1);
    var f := InPlaceTo(m0, bs[k], t, m0[t].arity - 1);
    HeadersKept(m0, f, atts, bs, k);
    AttributesIff(m0, f, atts, bs, k, Merged(m0, bs[k], t));
    InPlaceRight(m0, atts, bs, k, t);
  }

  lemma HeadersKept(m0: seq<Cell>, f: seq<Cell>, atts: nat, bs: seq<nat>, k: nat)
    requires Apart(m0, atts, bs) && k < |bs| && ArgsOnly(m0, f, bs[k])
    ensures SameHeaders(m0, f, bs)
  {
    hide Disjoint;
    forall j | 0 <= j < |bs|
      ensures bs[j] < |m0| && f[bs[j]] == m0[bs[j]]
    {
      HeaderNotArg(m0, atts, bs, k, j);
    }
  }

  lemma HeaderNotArg(mem: seq<Cell>, atts: nat, bs: seq<nat>, k: nat, j: nat)
    requires Apart(mem, atts, bs) && k < |bs| && j < |bs|
    ensures !IsArg(mem, bs[k], bs[j])
  {
    if j < k { assert Disjoint(mem, bs[j], bs[k]); } else if k < j { assert Disjoint(mem, bs[k], bs[j]); }
  }
}
