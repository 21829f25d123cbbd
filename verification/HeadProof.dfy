/** Compiled head unification is unification: proofs. */
module HeadProof {
  import opened Cells
  import opened Terms
  import opened HeadUnify

  /** Only words not yet written are written, only unbound variables are bound. */
  ghost predicate Grows(st: State, holes: set<nat>, st': State, holes': set<nat>) {
    && st.hr <= st'.hr && st.asp == st'.asp && |st.mem| == |st'.mem| && |st.x| == |st'.x|
    && forall a: nat :: Live(st, a) ==>
         && (a !in holes ==> a !in holes')
         && (Slot(st, holes, a) ==> Slot(st', holes', a))
         && (a !in holes && st.mem[a].Fun? ==> st'.mem[a] == st.mem[a])
  }

  lemma GrowsCell(st: State, holes: set<nat>, st': State, holes': set<nat>, c: Cell, v: Val)
    requires Grows(st, holes, st', holes') && CellOk(st, holes, c)
    ensures CellOk(st', holes', c) && CellVal(v, st'.mem, c) == CellVal(v, st.mem, c)
  {
    if IsCompound(st.mem, c) {
      var k := ShapeOf(st.mem, c);
      assert c.Appl? ==> Live(st, c.p);
      forall a | Base(k, c.p) <= a < Base(k, c.p) + Arity(k)
        ensures Slot(st', holes', a)
      {
        assert Slot(st, holes, a);
      }
    }
  }

  lemma GrowsTrans(s1: State, h1: set<nat>, s2: State, h2: set<nat>, s3: State, h3: set<nat>)
    requires Grows(s1, h1, s2, h2) && Grows(s2, h2, s3, h3)
    ensures Grows(s1, h1, s3, h3)
  {
    forall a: nat | Live(s1, a)
      ensures && (a !in h1 ==> a !in h3) && (Slot(s1, h1, a) ==> Slot(s3, h3, a))
              && (a !in h1 && s1.mem[a].Fun? ==> s3.mem[a] == s1.mem[a])
    {
      assert Live(s2, a);
    }
  }

  /** A model only depends on the words in use. */
  lemma ModelAgree(st: State, holes: set<nat>, r: Rank, v: Val, w: Val)
    requires Good(st, holes, r) && Model(st, holes, v)
    requires forall a: nat :: Live(st, a) ==> v(a) == w(a)
    ensures Model(st, holes, w)
  {
    forall a: nat | Live(st, a) && a !in holes
      ensures Sat(w, st.mem, a)
    {
      assert Sat(v, st.mem, a);
      if !st.mem[a].Fun? {
        CellAgree(st, holes, st.mem[a], v, w);
      }
    }
  }

  lemma CellAgree(st: State, holes: set<nat>, c: Cell, v: Val, w: Val)
    requires CellOk(st, holes, c)
    requires forall a: nat :: Live(st, a) ==> v(a) == w(a)
    ensures CellVal(v, st.mem, c) == CellVal(w, st.mem, c)
  {
    if IsCompound(st.mem, c) {
      var k := ShapeOf(st.mem, c);
      forall a | Base(k, c.p) <= a < Base(k, c.p) + Arity(k)
        ensures v(a) == w(a)
      {
        assert Slot(st, holes, a);
      }
      ArgsAgree(v, w, Base(k, c.p), Arity(k));
    }
  }

  lemma ArgsAgree(v: Val, w: Val, base: nat, n: nat)
    requires forall a: nat :: base <= a < base + n ==> v(a) == w(a)
    ensures Args(v, base, n) == Args(w, base, n)
  {
  }

  // ---------------------------------------------------------------- dereferencing

  /** In a well-formed store dereferencing ends at an unbound variable or a nonvariable of the same value. */
  lemma {:induction false} DerefEnds(st: State, r: Rank, c: Cell, left: set<nat>)
    requires Good(st, {}, r) && CellOk(st, {}, c)
    requires c.Ref? ==> forall b: nat :: b < |st.mem| && r(b) <= r(c.a) ==> b in left
    ensures
      var d := Deref(st.mem, c, left);
      CellOk(st, {}, d) && (d.Ref? ==> Unbound(st.mem, d))
    decreases left
  {
    if c.Ref? && st.mem[c.a] != c {
      assert Live(st, c.a);
      DerefEnds(st, r, st.mem[c.a], left - {c.a});
    }
  }

  lemma {:induction false} DerefValue(st: State, r: Rank, c: Cell, left: set<nat>, v: Val)
    requires Good(st, {}, r) && CellOk(st, {}, c) && Model(st, {}, v)
    ensures CellVal(v, st.mem, Deref(st.mem, c, left)) == CellVal(v, st.mem, c)
    decreases left
  {
    if c.Ref? && c.a in left && st.mem[c.a] != c {
      assert Live(st, c.a) && Sat(v, st.mem, c.a);
      DerefValue(st, r, st.mem[c.a], left - {c.a}, v);
    }
  }

  // ---------------------------------------------------------------- writing one word

  /** Word a may be given the contents c. */
  ghost predicate MayAssign(st: State, holes: set<nat>, r: Rank, a: nat, c: Cell) {
    && Live(st, a) && (a in holes || st.mem[a] == Ref(a))
    && (c == Ref(a) || (CellOk(st, holes, c) && Below(st.mem, c, r, r(a))))
  }

  function Assigned(st: State, a: nat, c: Cell): State
    requires a < |st.mem|
  {
    st.(mem := st.mem[a := c])
  }

  lemma AssignKeeps(st: State, holes: set<nat>, r: Rank, a: nat, c: Cell)
    requires Good(st, holes, r) && MayAssign(st, holes, r, a, c)
    ensures Grows(st, holes, Assigned(st, a, c), holes - {a})
    ensures Good(Assigned(st, a, c), holes - {a}, r)
  {
    var n, h := Assigned(st, a, c), holes - {a};
    assert !c.Fun?;
    assert Grows(st, holes, n, h);
    forall b: nat | Live(n, b) && b !in h && !n.mem[b].Fun?
      ensures CellOk(n, h, n.mem[b]) && (n.mem[b] == Ref(b) || Below(n.mem, n.mem[b], r, r(b)))
    {
      var d := n.mem[b];
      if b == a {
        if c != Ref(a) { GrowsCell(st, holes, n, h, c, x => Leaf(0)); }
      } else {
        assert Live(st, b) && b !in holes;
        GrowsCell(st, holes, n, h, d, x => Leaf(0));
      }
    }
  }

  lemma AssignModels(st: State, holes: set<nat>, r: Rank, a: nat, c: Cell, v: Val)
    requires Good(st, holes, r) && MayAssign(st, holes, r, a, c)
    ensures Model(Assigned(st, a, c), holes - {a}, v) <==>
              Model(st, holes, v) && (c == Ref(a) || v(a) == CellVal(v, st.mem, c))
  {
    var n, h := Assigned(st, a, c), holes - {a};
    AssignKeeps(st, holes, r, a, c);
    if c != Ref(a) { GrowsCell(st, holes, n, h, c, v); }
    forall b: nat | Live(st, b) && b !in holes && b != a
      ensures Sat(v, n.mem, b) <==> Sat(v, st.mem, b)
    {
      if !st.mem[b].Fun? { GrowsCell(st, holes, n, h, st.mem[b], v); }
    }
    if Model(n, h, v) {
      forall b: nat | Live(st, b) && b !in holes
        ensures Sat(v, st.mem, b)
      {
        assert Live(n, b) && Sat(v, n.mem, b);
      }
      assert Sat(v, n.mem, a);
    }
    if Model(st, holes, v) && (c == Ref(a) || v(a) == CellVal(v, st.mem, c)) {
      forall b: nat | Live(n, b) && b !in h
        ensures Sat(v, n.mem, b)
      {
        if b != a { assert Sat(v, st.mem, b); }
      }
    }
  }

  // ---------------------------------------------------------------- building a compound

  function Range(base: nat, n: nat): (r: set<nat>)
    ensures forall a: nat :: a in r <==> base <= a < base + n
  {
    Addresses(base + n) - Addresses(base)
  }

  /** The holes left when words s to s + n - 1 have been written. */
  function After(holes: set<nat>, s: nat, n: nat): set<nat> {
    holes - Range(s, n)
  }

  function Opened(st: State, holes: set<nat>, k: Shape): set<nat> {
    holes + Range(Base(k, st.hr), Arity(k))
  }

  function Shift(r: Rank, base: nat, n: nat): Rank {
    (a: nat) => if base <= a < base + n then 0 else r(a) + 1
  }

  function Alloc(st: State, k: Shape): State
    requires st.hr < |st.mem|
  {
    st.(mem := Header(st.mem, k, st.hr), hr := st.hr + Words(k), s := Base(k, st.hr), mode := Write)
  }

  lemma AllocKeeps(st: State, holes: set<nat>, r: Rank, k: Shape)
    requires Good(st, holes, r) && st.hr + Words(k) < st.asp
    ensures Grows(st, holes, Alloc(st, k), Opened(st, holes, k))
    ensures Good(Alloc(st, k), Opened(st, holes, k), Shift(r, Base(k, st.hr), Arity(k)))
  {
    var n, h, q := Alloc(st, k), Opened(st, holes, k), Shift(r, Base(k, st.hr), Arity(k));
    assert Grows(st, holes, n, h);
    forall b: nat | Live(n, b) && b !in h && !n.mem[b].Fun?
      ensures CellOk(n, h, n.mem[b]) && (n.mem[b] == Ref(b) || Below(n.mem, n.mem[b], q, q(b)))
    {
      assert Live(st, b) && b !in holes;
      GrowsCell(st, holes, n, h, st.mem[b], x => Leaf(0));
    }
  }

  lemma AllocModels(st: State, holes: set<nat>, r: Rank, k: Shape, v: Val)
    requires Good(st, holes, r) && st.hr + Words(k) < st.asp
    ensures Model(Alloc(st, k), Opened(st, holes, k), v) <==> Model(st, holes, v)
  {
    var n, h := Alloc(st, k), Opened(st, holes, k);
    AllocKeeps(st, holes, r, k);
    forall b: nat | Live(st, b) && b !in holes
      ensures Live(n, b) && b !in h && (Sat(v, n.mem, b) <==> Sat(v, st.mem, b))
    {
      if !st.mem[b].Fun? { GrowsCell(st, holes, n, h, st.mem[b], v); }
    }
    if Model(n, h, v) {
      forall b: nat | Live(st, b) && b !in holes
        ensures Sat(v, st.mem, b)
      {
        assert Sat(v, n.mem, b);
      }
    }
    if Model(st, holes, v) {
      forall b: nat | Live(n, b) && b !in h
        ensures Sat(v, n.mem, b)
      {
        if Live(st, b) { assert Sat(v, st.mem, b); }
      }
    }
  }

  /** The holes and ranks after Build(st, k, a). */
  function BuiltHoles(st: State, holes: set<nat>, k: Shape, a: nat): set<nat> {
    Opened(st, holes, k) - {a}
  }

  lemma BuildIs(st: State, holes: set<nat>, r: Rank, k: Shape, a: nat)
    requires Good(st, holes, r) && st.hr + Words(k) < st.asp
    requires Live(st, a) && (a in holes || st.mem[a] == Ref(a))
    ensures Build(st, k, a) == Ok(Assigned(Alloc(st, k), a, Ptr(k, st.hr)))
    ensures MayAssign(Alloc(st, k), Opened(st, holes, k), Shift(r, Base(k, st.hr), Arity(k)), a, Ptr(k, st.hr))
  {
    var n, h, q := Alloc(st, k), Opened(st, holes, k), Shift(r, Base(k, st.hr), Arity(k));
    assert a != st.hr;
    assert Header(st.mem[a := Ptr(k, st.hr)], k, st.hr) == n.mem[a := Ptr(k, st.hr)];
    assert CellOk(n, h, Ptr(k, st.hr));
    assert Below(n.mem, Ptr(k, st.hr), q, q(a));
  }

  lemma BuildKeeps(st: State, holes: set<nat>, r: Rank, k: Shape, a: nat) returns (r': Rank)
    requires Good(st, holes, r) && st.hr + Words(k) < st.asp
    requires Live(st, a) && (a in holes || st.mem[a] == Ref(a))
    ensures
      var o, h := Build(st, k, a), BuiltHoles(st, holes, k, a);
      && o.Ok? && Grows(st, holes, o.st, h) && Good(o.st, h, r')
      && o.st.s == Base(k, st.hr) && o.st.mode == Write && o.st.hr == st.hr + Words(k)
      && o.st.x == st.x && o.st.sp == st.sp
  {
    var n, h := Alloc(st, k), Opened(st, holes, k);
    r' := Shift(r, Base(k, st.hr), Arity(k));
    AllocKeeps(st, holes, r, k);
    BuildIs(st, holes, r, k, a);
    AssignKeeps(n, h, r', a, Ptr(k, st.hr));
    GrowsTrans(st, holes, n, h, Assigned(n, a, Ptr(k, st.hr)), h - {a});
  }

  lemma BuildModels(st: State, holes: set<nat>, r: Rank, k: Shape, a: nat, v: Val)
    requires Good(st, holes, r) && st.hr + Words(k) < st.asp
    requires Live(st, a) && (a in holes || st.mem[a] == Ref(a))
    ensures Build(st, k, a).Ok?
    ensures Model(Build(st, k, a).st, BuiltHoles(st, holes, k, a), v) <==>
              Model(st, holes, v) && v(a) == Node(k, Args(v, Base(k, st.hr), Arity(k)))
  {
    var n, h, q := Alloc(st, k), Opened(st, holes, k), Shift(r, Base(k, st.hr), Arity(k));
    AllocKeeps(st, holes, r, k);
    AllocModels(st, holes, r, k, v);
    BuildIs(st, holes, r, k, a);
    AssignModels(n, h, q, a, Ptr(k, st.hr), v);
    assert CellVal(v, n.mem, Ptr(k, st.hr)) == Node(k, Args(v, Base(k, st.hr), Arity(k)));
  }

  /** Give the words of a new block the subterms of the value they are to stand for. */
  function Extend(v: Val, base: nat, ts: seq<Tree>): Val {
    (a: nat) => if base <= a < base + |ts| then ts[a - base] else v(a)
  }

  lemma BuildComplete(st: State, holes: set<nat>, r: Rank, k: Shape, a: nat, v: Val)
    requires Good(st, holes, r) && st.hr + Words(k) < st.asp
    requires Live(st, a) && (a in holes || st.mem[a] == Ref(a))
    requires Model(st, holes, v) && v(a).Node? && v(a).k == k && |v(a).args| == Arity(k)
    ensures Build(st, k, a).Ok?
    ensures
      var w := Extend(v, Base(k, st.hr), v(a).args);
      && Model(Build(st, k, a).st, BuiltHoles(st, holes, k, a), w)
      && (forall b: nat :: Live(st, b) ==> w(b) == v(b))
      && Args(w, Base(k, st.hr), Arity(k)) == v(a).args
  {
    var w := Extend(v, Base(k, st.hr), v(a).args);
    ModelAgree(st, holes, r, v, w);
    assert Args(w, Base(k, st.hr), Arity(k)) == v(a).args;
    BuildModels(st, holes, r, k, a, w);
  }

  // ---------------------------------------------------------------- entering a compound argument

  /** SREG stands before n words ready to be read or written. */
  ghost predicate Placed(st: State, holes: set<nat>, n: nat) {
    forall a: nat :: st.s <= a < st.s + n ==>
      Slot(st, holes, a) && (st.mode == Write ==> a in holes)
  }

  function EnterHoles(st: State, k: Shape, d: Cell): set<nat> {
    if d.Ref? then BuiltHoles(st, {}, k, d.a) else {}
  }

  lemma EnterKeeps(st: State, r: Rank, k: Shape, c: Cell) returns (r': Rank)
    requires Good(st, {}, r) && CellOk(st, {}, c) && st.hr + Words(k) < st.asp
    ensures
      var d := DerefCell(st.mem, c);
      var o, h := Enter(st, k, d), EnterHoles(st, k, d);
      && o != Crashed
      && (o.Ok? ==>
           && Grows(st, {}, o.st, h) && Good(o.st, h, r') && Placed(o.st, h, Arity(k))
           && After(h, o.st.s, Arity(k)) == {}
           && o.st.x == st.x && o.st.sp == st.sp && o.st.hr <= st.hr + Words(k))
  {
    DerefEnds(st, r, c, Addresses(|st.mem|));
    var d := DerefCell(st.mem, c);
    r' := r;
    if d.Ref? {
      r' := BuildKeeps(st, {}, r, k, d.a);
      PlacedInBlock(st, k, d.a);
    } else if Is(st.mem, k, d) {
      ReadPlaced(st, r, k, d);
    }
  }

  lemma PlacedInBlock(st: State, k: Shape, a: nat)
    requires st.hr + Words(k) < st.asp <= |st.mem| && Live(st, a)
    ensures
      var o, h := Build(st, k, a), BuiltHoles(st, {}, k, a);
      o.Ok? && Placed(o.st, h, Arity(k)) && After(h, o.st.s, Arity(k)) == {}
  {
  }

  lemma ReadPlaced(st: State, r: Rank, k: Shape, d: Cell)
    requires Good(st, {}, r) && CellOk(st, {}, d) && Is(st.mem, k, d)
    ensures
      var n := st.(s := Base(k, d.p), mode := Read);
      Grows(st, {}, n, {}) && Good(n, {}, r) && Placed(n, {}, Arity(k)) && After({}, n.s, Arity(k)) == {}
  {
    var n := st.(s := Base(k, d.p), mode := Read);
    forall a: nat | Live(n, a) && !n.mem[a].Fun?
      ensures CellOk(n, {}, n.mem[a]) && (n.mem[a] == Ref(a) || Below(n.mem, n.mem[a], r, r(a)))
    {
      assert Live(st, a);
      GrowsCell(st, {}, n, {}, st.mem[a], x => Leaf(0));
    }
    forall a: nat | n.s <= a < n.s + Arity(k)
      ensures Slot(n, {}, a)
    {
      assert Slot(st, {}, a);
    }
  }

  lemma EnterSound(st: State, r: Rank, k: Shape, c: Cell, v: Val)
    requires Good(st, {}, r) && CellOk(st, {}, c) && st.hr + Words(k) < st.asp
    requires
      var d := DerefCell(st.mem, c);
      var o := Enter(st, k, d);
      o.Ok? && Model(o.st, EnterHoles(st, k, d), v)
    ensures Model(st, {}, v)
    ensures CellVal(v, st.mem, c) == Node(k, Args(v, Enter(st, k, DerefCell(st.mem, c)).st.s, Arity(k)))
  {
    DerefEnds(st, r, c, Addresses(|st.mem|));
    var d := DerefCell(st.mem, c);
    if d.Ref? {
      BuildModels(st, {}, r, k, d.a, v);
    }
    assert Model(st, {}, v);
    DerefValue(st, r, c, Addresses(|st.mem|), v);
  }

  lemma EnterComplete(st: State, r: Rank, k: Shape, c: Cell, v: Val) returns (w: Val)
    requires Good(st, {}, r) && CellOk(st, {}, c) && st.hr + Words(k) < st.asp
    requires Model(st, {}, v)
    requires
      var t := CellVal(v, st.mem, c);
      t.Node? && t.k == k && |t.args| == Arity(k)
    ensures
      var d := DerefCell(st.mem, c);
      var o := Enter(st, k, d);
      && o.Ok? && Model(o.st, EnterHoles(st, k, d), w)
      && (forall b: nat :: Live(st, b) ==> w(b) == v(b))
      && Args(w, o.st.s, Arity(k)) == CellVal(v, st.mem, c).args
  {
    DerefEnds(st, r, c, Addresses(|st.mem|));
    DerefValue(st, r, c, Addresses(|st.mem|), v);
    var d := DerefCell(st.mem, c);
    w := v;
    if d.Ref? {
      BuildComplete(st, {}, r, k, d.a, v);
      w := Extend(v, Base(k, st.hr), v(d.a).args);
    }
  }

  function CompoundHoles(st: State, holes: set<nat>, k: Shape): set<nat>
    requires st.s < |st.mem|
  {
    if st.mode == Write then BuiltHoles(st, holes, k, st.s)
    else EnterHoles(st, k, DerefCell(st.mem, st.mem[st.s]))
  }

  ghost predicate Ready(st: State, holes: set<nat>, r: Rank, n: nat, need: nat) {
    Good(st, holes, r) && Placed(st, holes, n) && st.hr + need < st.asp
  }

  lemma ReadyWord(st: State, holes: set<nat>, r: Rank, n: nat, need: nat)
    requires Ready(st, holes, r, n, need) && n > 0
    ensures Slot(st, holes, st.s) && st.s < |st.mem|
    ensures if st.mode == Write then st.s in holes else holes == {} && CellOk(st, {}, st.mem[st.s])
    ensures Ready(st, holes, r, 1, need) && InBlock(st, 1)
  {
    assert Slot(st, holes, st.s);
  }

  lemma CompoundKeeps(st: State, holes: set<nat>, r: Rank, k: Shape, need: nat) returns (r': Rank)
    requires Ready(st, holes, r, 1, Words(k) + need)
    ensures st.s < |st.mem|
    ensures
      var o, h := Compound(st, k), CompoundHoles(st, holes, k);
      && o != Crashed && (o.Failed? ==> st.mode == Read)
      && (o.Ok? ==>
           && Grows(st, holes, o.st, h) && Ready(o.st, h, r', Arity(k), need)
           && After(h, o.st.s, Arity(k)) == After(holes, st.s, 1)
           && (st.mode == Write ==> o.st.mode == Write)
           && o.st.x == st.x && o.st.sp == st.sp && o.st.hr <= st.hr + Words(k))
  {
    ReadyWord(st, holes, r, 1, Words(k) + need);
    if st.mode == Write {
      r' := BuildKeeps(st, holes, r, k, st.s);
      assert After(CompoundHoles(st, holes, k), Base(k, st.hr), Arity(k)) == After(holes, st.s, 1);
    } else {
      r' := EnterKeeps(st, r, k, st.mem[st.s]);
      assert After(holes, st.s, 1) == {};
    }
  }

  lemma CompoundSound(st: State, holes: set<nat>, r: Rank, k: Shape, need: nat, v: Val)
    requires Ready(st, holes, r, 1, Words(k) + need) && st.s < |st.mem|
    requires Compound(st, k).Ok? && Model(Compound(st, k).st, CompoundHoles(st, holes, k), v)
    ensures Model(st, holes, v) && v(st.s) == Node(k, Args(v, Compound(st, k).st.s, Arity(k)))
  {
    ReadyWord(st, holes, r, 1, Words(k) + need);
    if st.mode == Write {
      BuildModels(st, holes, r, k, st.s, v);
    } else {
      EnterSound(st, r, k, st.mem[st.s], v);
      assert Live(st, st.s) && Sat(v, st.mem, st.s);
    }
  }

  lemma CompoundComplete(st: State, holes: set<nat>, r: Rank, k: Shape, need: nat, v: Val) returns (w: Val)
    requires Ready(st, holes, r, 1, Words(k) + need) && st.s < |st.mem|
    requires Model(st, holes, v) && v(st.s).Node? && v(st.s).k == k && |v(st.s).args| == Arity(k)
    ensures
      var o := Compound(st, k);
      && o.Ok? && Model(o.st, CompoundHoles(st, holes, k), w)
      && (forall b: nat :: Live(st, b) ==> w(b) == v(b))
      && Args(w, o.st.s, Arity(k)) == v(st.s).args
  {
    ReadyWord(st, holes, r, 1, Words(k) + need);
    if st.mode == Write {
      BuildComplete(st, holes, r, k, st.s, v);
      w := Extend(v, Base(k, st.hr), v(st.s).args);
    } else {
      assert Live(st, st.s) && Sat(v, st.mem, st.s);
      w := EnterComplete(st, r, k, st.mem[st.s], v);
    }
  }

  // ---------------------------------------------------------------- simple arguments

  ghost predicate RegsOk(st: State, holes: set<nat>, xs: set<nat>) {
    forall x :: x in xs ==> x < |st.x| && CellOk(st, holes, st.x[x])
  }

  predicate SameElsewhere(st: State, st': State, xs: set<nat>) {
    |st.x| == |st'.x| && forall x :: 0 <= x < |st.x| && x !in xs ==> st'.x[x] == st.x[x]
  }

  function RegVal(st: State, v: Val): nat -> Tree {
    (x: nat) => if x < |st.x| then CellVal(v, st.mem, st.x[x]) else Leaf(0)
  }

  lemma MeetKeeps(st: State, r: Rank, d: Cell, c: nat)
    requires Good(st, {}, r) && CellOk(st, {}, d) && (d.Ref? ==> Unbound(st.mem, d))
    ensures
      var o := MeetAtom(st, d, c);
      && o != Crashed
      && (o.Ok? ==> Grows(st, {}, o.st, {}) && Good(o.st, {}, r)
                    && o.st == st.(mem := o.st.mem))
  {
    if d.Ref? {
      AssignKeeps(st, {}, r, d.a, Con(c));
      assert {} - {d.a} == {};
    }
  }

  lemma MeetModels(st: State, r: Rank, d: Cell, c: nat, v: Val)
    requires Good(st, {}, r) && CellOk(st, {}, d) && (d.Ref? ==> Unbound(st.mem, d))
    ensures
      var o := MeetAtom(st, d, c);
      if o.Ok? then Model(o.st, {}, v) <==> Model(st, {}, v) && CellVal(v, st.mem, d) == Leaf(c)
      else CellVal(v, st.mem, d) != Leaf(c)
  {
    if d.Ref? {
      AssignModels(st, {}, r, d.a, Con(c), v);
      assert {} - {d.a} == {};
    }
  }

  lemma SimpleKeeps(st: State, holes: set<nat>, r: Rank, p: Pat)
    requires Ready(st, holes, r, 1, 0) && !p.PNode? && (p.PVar? ==> p.x < |st.x|)
    ensures
      var o, h := Simple(st, p), After(holes, st.s, 1);
      && o != Crashed && (o.Failed? ==> st.mode == Read)
      && (o.Ok? ==>
           && o.st == st.(mem := o.st.mem, x := o.st.x)
           && Grows(st, holes, o.st, h) && Good(o.st, h, r)
           && SameElsewhere(st, o.st, Regs(p)) && RegsOk(o.st, h, Regs(p)))
  {
    ReadyWord(st, holes, r, 1, 0);
    if st.mode == Read {
      assert After(holes, st.s, 1) == {};
      DerefEnds(st, r, st.mem[st.s], Addresses(|st.mem|));
      if p.PAtom? {
        MeetKeeps(st, r, DerefCell(st.mem, st.mem[st.s]), p.c);
      } else if p.PVar? {
        Moved(st, st.(x := st.x[p.x := st.mem[st.s]]), {}, r);
        GrowsCell(st, {}, st.(x := st.x[p.x := st.mem[st.s]]), {}, st.mem[st.s], x => Leaf(0));
      } else {
        Moved(st, st, {}, r);
      }
    } else {
      var c := if p.PAtom? then Con(p.c) else Ref(st.s);
      assert After(holes, st.s, 1) == holes - {st.s};
      AssignKeeps(st, holes, r, st.s, c);
      var n := Assigned(st, st.s, c);
      if p.PVar? {
        Moved(n, n.(x := st.x[p.x := c]), holes - {st.s}, r);
        GrowsTrans(st, holes, n, holes - {st.s}, n.(x := st.x[p.x := c]), holes - {st.s});
      }
    }
  }

  lemma SimpleModels(st: State, holes: set<nat>, r: Rank, p: Pat, v: Val)
    requires Ready(st, holes, r, 1, 0) && !p.PNode? && (p.PVar? ==> p.x < |st.x|)
    ensures
      var o, h := Simple(st, p), After(holes, st.s, 1);
      if o.Ok? then
        && (Model(o.st, h, v) <==> Model(st, holes, v) && Match(p, v(st.s)))
        && (Model(o.st, h, v) ==> Holds(p, v(st.s), RegVal(o.st, v)))
      else Model(st, holes, v) ==> !Match(p, v(st.s))
  {
    SimpleKeeps(st, holes, r, p);
    ReadyWord(st, holes, r, 1, 0);
    if st.mode == Read {
      assert After(holes, st.s, 1) == {};
      assert Live(st, st.s) && (Model(st, {}, v) ==> Sat(v, st.mem, st.s));
      DerefEnds(st, r, st.mem[st.s], Addresses(|st.mem|));
      if p.PAtom? {
        if Model(st, {}, v) { DerefValue(st, r, st.mem[st.s], Addresses(|st.mem|), v); }
        MeetModels(st, r, DerefCell(st.mem, st.mem[st.s]), p.c, v);
      } else if p.PVar? {
        MovedModel(st, st.(x := st.x[p.x := st.mem[st.s]]), {}, v);
      }
    } else {
      var c := if p.PAtom? then Con(p.c) else Ref(st.s);
      assert After(holes, st.s, 1) == holes - {st.s};
      AssignModels(st, holes, r, st.s, c, v);
      if p.PVar? {
        var n := Assigned(st, st.s, c);
        MovedModel(n, n.(x := st.x[p.x := c]), holes - {st.s}, v);
      }
    }
  }

  // ---------------------------------------------------------------- only the heap matters to terms

  predicate SameHeap(st: State, st': State) {
    st.mem == st'.mem && st.hr == st'.hr && st.asp == st'.asp
  }

  lemma Moved(st: State, st': State, holes: set<nat>, r: Rank)
    requires Good(st, holes, r) && SameHeap(st, st') && |st.x| == |st'.x|
    requires st'.mode == Read ==> holes == {}
    ensures Good(st', holes, r) && Grows(st, holes, st', holes) && Grows(st', holes, st, holes)
  {
    assert Grows(st, holes, st', holes);
    forall a: nat | Live(st', a) && a !in holes && !st'.mem[a].Fun?
      ensures CellOk(st', holes, st'.mem[a])
              && (st'.mem[a] == Ref(a) || Below(st'.mem, st'.mem[a], r, r(a)))
    {
      assert Live(st, a);
      GrowsCell(st, holes, st', holes, st.mem[a], x => Leaf(0));
    }
  }

  lemma MovedModel(st: State, st': State, holes: set<nat>, v: Val)
    requires SameHeap(st, st')
    ensures Model(st, holes, v) <==> Model(st', holes, v)
  {
    if Model(st, holes, v) {
      assert forall a: nat :: Live(st', a) ==> Live(st, a);
    }
    if Model(st', holes, v) {
      assert forall a: nat :: Live(st, a) ==> Live(st', a);
    }
  }

  // ---------------------------------------------------------------- running the code of arguments

  lemma {:induction false} ExecConcat(a: seq<Instr>, b: seq<Instr>, st: State)
    ensures Exec(a + b, st) == if Exec(a, st).Ok? then Exec(b, Exec(a, st).st) else Exec(a, st)
  {
    if a == [] {
      assert a + b == b;
    } else {
      assert (a + b)[1..] == a[1..] + b;
      if Step(a[0], st).Ok? { ExecConcat(a[1..], b, Step(a[0], st).st); }
    }
  }

  /** What running the code of n arguments leaves behind. */
  ghost predicate Done(st: State, holes: set<nat>, n: nat, xs: set<nat>, need: nat, o: Outcome, r': Rank) {
    && o != Crashed && (o.Failed? ==> st.mode == Read)
    && (o.Ok? ==>
         var h := After(holes, st.s, n);
         && Grows(st, holes, o.st, h) && Good(o.st, h, r')
         && o.st.sp == st.sp && o.st.hr <= st.hr + need && (st.mode == Write ==> o.st.mode == Write)
         && SameElsewhere(st, o.st, xs) && RegsOk(o.st, h, xs))
  }

  ghost predicate CanRun(st: State, holes: set<nat>, r: Rank, n: nat, need: nat, xs: set<nat>) {
    Ready(st, holes, r, n, need) && forall x :: x in xs ==> x < |st.x|
  }

  /** The state just after unify_list or unify_struct saved mode and SREG, for a nested argument. */
  function Saved(st: State): State {
    st.(sp := [Frame(st.mode, st.s + 1)] + st.sp)
  }

  lemma SavedReady(st: State, holes: set<nat>, r: Rank, need: nat)
    requires Ready(st, holes, r, 1, need)
    ensures Ready(Saved(st), holes, r, 1, need)
  {
    Moved(st, Saved(st), holes, r);
    forall a: nat | st.s <= a < st.s + 1
      ensures Slot(Saved(st), holes, a)
    {
      assert Slot(st, holes, a);
    }
  }

  lemma ExecOne(i: Instr, st: State)
    ensures Exec([i], st) == Step(i, st)
  {
    assert [i][1..] == [];
  }

  lemma ExecCons(i: Instr, code: seq<Instr>, st: State)
    ensures Exec([i] + code, st) == if Step(i, st).Ok? then Exec(code, Step(i, st).st) else Step(i, st)
  {
    assert ([i] + code)[1..] == code;
  }

  function SimpleInstr(p: Pat, last: bool): Instr
    requires !p.PNode?
  {
    match p
    case PAtom(c) => if last then ULastAtom(c) else UAtom(c)
    case PVoid => if last then ULastVoid else UVoid
    case PVar(x) => if last then ULastVar(x) else UVar(x)
  }

  lemma SimpleCode(p: Pat, last: bool, st: State)
    requires !p.PNode? && InBlock(st, 1)
    ensures Exec(CompileArg(p, last), st) == if last then Simple(st, p) else Next(Simple(st, p))
  {
    ExecOne(SimpleInstr(p, last), st);
  }

  /** The state with which the code of a compound argument starts, and what its code leaves before pop. */
  function Before(st: State, last: bool): State {
    if last then st else Saved(st)
  }

  lemma NodeCode(p: Pat, last: bool, st: State)
    requires p.PNode? && Compound(Before(st, last), p.k) != Crashed && InBlock(st, 1)
    ensures
      var c := Compound(Before(st, last), p.k);
      Exec(CompileArg(p, last), st) ==
        if !c.Ok? then c
        else
          var o := Exec(CompileArgs(p.args), c.st);
          if last || !o.Ok? then o else Step(Pop(1), o.st)
  {
    var body := CompileArgs(p.args);
    if last {
      ExecCons(ULast(p.k), body, st);
    } else {
      assert [Unify(p.k)] + body + [Pop(1)] == [Unify(p.k)] + (body + [Pop(1)]);
      ExecCons(Unify(p.k), body + [Pop(1)], st);
      var c := Compound(Saved(st), p.k);
      if c.Ok? {
        ExecConcat(body, [Pop(1)], c.st);
        if Exec(body, c.st).Ok? { ExecOne(Pop(1), Exec(body, c.st).st); }
      }
    }
  }

  lemma BeforeReady(st: State, holes: set<nat>, r: Rank, n: nat, last: bool)
    requires Ready(st, holes, r, 1, n)
    ensures Ready(Before(st, last), holes, r, 1, n)
    ensures Grows(st, holes, Before(st, last), holes)
  {
    Moved(st, Before(st, last), holes, r);
    SavedReady(st, holes, r, n);
  }

  /** SREG one further, all else as it is. */
  lemma NextKeeps(st: State, holes: set<nat>, o: State, h: set<nat>, r: Rank, xs: set<nat>)
    requires Grows(st, holes, o, h) && Good(o, h, r) && SameElsewhere(st, o, xs) && RegsOk(o, h, xs)
    ensures
      var n := o.(s := o.s + 1);
      Grows(st, holes, n, h) && Good(n, h, r) && SameElsewhere(st, n, xs) && RegsOk(n, h, xs)
  {
    hide Good, After;
    var n := o.(s := o.s + 1);
    GoodMode(o, h, r);
    Moved(o, n, h, r);
    forall x | x in xs
      ensures CellOk(n, h, n.x[x])
    {
      GrowsCell(o, h, n, h, o.x[x], x => Leaf(0));
    }
  }

  lemma GoodMode(st: State, holes: set<nat>, r: Rank)
    requires Good(st, holes, r)
    ensures st.mode == Read ==> holes == {}
  {
  }

  lemma SimpleRun(st: State, holes: set<nat>, r: Rank, p: Pat, last: bool)
    requires CanRun(st, holes, r, 1, 0, Regs(p)) && !p.PNode?
    ensures Done(st, holes, 1, Regs(p), 0, Exec(CompileArg(p, last), st), r)
    ensures
      var o := Exec(CompileArg(p, last), st);
      o.Ok? && !last ==> o.st.s == st.s + 1 && o.st.mode == st.mode
  {
    hide Exec, CompileArg, Simple, Grows, Good, SameElsewhere, RegsOk, After, Regs, InBlock;
    VarRegs(p);
    ReadyWord(st, holes, r, 1, 0);
    SimpleKeeps(st, holes, r, p);
    SimpleCode(p, last, st);
    var o, h := Simple(st, p), After(holes, st.s, 1);
    if o.Ok? && !last { NextKeeps(st, holes, o.st, h, r, Regs(p)); }
  }

  lemma VarRegs(p: Pat)
    ensures p.PVar? ==> p.x in Regs(p)
  {
  }

  lemma {:induction false} ArgRun(st: State, holes: set<nat>, r: Rank, p: Pat, last: bool) returns (r': Rank)
    requires CanRun(st, holes, r, 1, Need(p), Regs(p)) && Linear(p)
    ensures Done(st, holes, 1, Regs(p), Need(p), Exec(CompileArg(p, last), st), r')
    ensures
      var o := Exec(CompileArg(p, last), st);
      o.Ok? && !last ==> o.st.s == st.s + 1 && o.st.mode == st.mode
    decreases p, 1
  {
    if !p.PNode? {
      r' := r;
      SimpleRun(st, holes, r, p, last);
    } else {
      var b, k, args := Before(st, last), p.k, p.args;
      ReadyWord(st, holes, r, 1, Need(p));
      BeforeReady(st, holes, r, Need(p), last);
      r' := CompoundKeeps(b, holes, r, k, NeedAll(args));
      NodeCode(p, last, st);
      var c := Compound(b, k);
      if c.Ok? {
        var h1 := CompoundHoles(b, holes, k);
        r' := ArgsRun(c.st, h1, r', args);
        var o := Exec(CompileArgs(args), c.st);
        DoneOutside(b, holes, c.st, h1, |args|, RegsAll(args), NeedAll(args), o, r');
        if !last && o.Ok? { DonePop(st, holes, RegsAll(args), Need(p), o, r, r'); }
      }
    }
  }

  /** The arguments of a compound, seen from the word that leads to it. */
  lemma DoneOutside(b: State, holes: set<nat>, c: State, h: set<nat>, n: nat, xs: set<nat>, need: nat, o: Outcome,
      r': Rank)
    requires Grows(b, holes, c, h) && After(h, c.s, n) == After(holes, b.s, 1)
    requires c.sp == b.sp && c.x == b.x && (b.mode == Write ==> c.mode == Write)
    requires Done(c, h, n, xs, need, o, r') && (o.Failed? ==> b.mode == Read)
    ensures Done(b, holes, 1, xs, (c.hr - b.hr) + need, o, r')
  {
    if o.Ok? {
      GrowsTrans(b, holes, c, h, o.st, After(holes, b.s, 1));
    }
  }

  /** pop gives back the mode and SREG saved before the compound. */
  lemma DonePop(st: State, holes: set<nat>, xs: set<nat>, need: nat, o: Outcome, r: Rank, r': Rank)
    requires Good(st, holes, r) && Grows(st, holes, Saved(st), holes)
    requires Done(Saved(st), holes, 1, xs, need, o, r') && o.Ok?
    ensures Done(st, holes, 1, xs, need, Step(Pop(1), o.st), r')
    ensures
      var n := Step(Pop(1), o.st);
      n.Ok? && n.st.s == st.s + 1 && n.st.mode == st.mode
  {
    var h := After(holes, st.s, 1);
    assert o.st.sp[1..] == st.sp;
    var n := Step(Pop(1), o.st).st;
    Moved(o.st, n, h, r');
    GrowsTrans(st, holes, Saved(st), holes, o.st, h);
    GrowsTrans(st, holes, o.st, h, n, h);
    forall x | x in xs
      ensures CellOk(n, h, n.x[x])
    {
      GrowsCell(o.st, h, n, h, o.st.x[x], x => Leaf(0));
    }
  }

  lemma {:induction false} ArgsRun(st: State, holes: set<nat>, r: Rank, ps: seq<Pat>) returns (r': Rank)
    requires CanRun(st, holes, r, |ps|, NeedAll(ps), RegsAll(ps)) && LinearAll(ps) && ps != []
    ensures Done(st, holes, |ps|, RegsAll(ps), NeedAll(ps), Exec(CompileArgs(ps), st), r')
    decreases ps, 0
  {
    hide Exec;
    FirstReady(st, holes, r, ps);
    r' := ArgRun(st, holes, r, ps[0], |ps| == 1);
    ArgsCode(st, ps);
    var o := Exec(CompileArg(ps[0], |ps| == 1), st);
    if o.Ok? && |ps| > 1 {
      NextReady(st, holes, ps, o.st, r');
      var r1 := r';
      r' := ArgsRun(o.st, After(holes, st.s, 1), r', ps[1..]);
      DoneThen(st, holes, ps, o, Exec(CompileArgs(ps[1..]), o.st), r1, r');
    } else {
      DoneFirst(st, holes, ps, o, r');
    }
  }

  lemma ArgsCode(st: State, ps: seq<Pat>)
    requires ps != []
    ensures
      var o := Exec(CompileArg(ps[0], |ps| == 1), st);
      Exec(CompileArgs(ps), st) == if o.Ok? && |ps| > 1 then Exec(CompileArgs(ps[1..]), o.st) else o
  {
    ExecConcat(CompileArg(ps[0], |ps| == 1), CompileArgs(ps[1..]), st);
  }

  lemma DoneFirst(st: State, holes: set<nat>, ps: seq<Pat>, o: Outcome, r: Rank)
    requires ps != [] && (o.Ok? ==> |ps| == 1)
    requires Done(st, holes, 1, Regs(ps[0]), Need(ps[0]), o, r)
    ensures Done(st, holes, |ps|, RegsAll(ps), NeedAll(ps), o, r)
  {
    assert |ps| == 1 ==> ps[1..] == [];
    assert |ps| == 1 ==> RegsAll(ps) == Regs(ps[0]) && NeedAll(ps) == Need(ps[0]);
  }

  lemma FirstReady(st: State, holes: set<nat>, r: Rank, ps: seq<Pat>)
    requires CanRun(st, holes, r, |ps|, NeedAll(ps), RegsAll(ps)) && ps != []
    ensures CanRun(st, holes, r, 1, Need(ps[0]), Regs(ps[0]))
    ensures |ps| == 1 ==> RegsAll(ps) == Regs(ps[0]) && NeedAll(ps) == Need(ps[0])
  {
    ReadyWord(st, holes, r, |ps|, NeedAll(ps));
    assert Regs(ps[0]) <= RegsAll(ps);
  }

  lemma NextReady(st: State, holes: set<nat>, ps: seq<Pat>, n: State, r: Rank)
    requires Placed(st, holes, |ps|) && |ps| > 1 && st.hr + NeedAll(ps) < st.asp
    requires forall x :: x in RegsAll(ps) ==> x < |st.x|
    requires
      var h := After(holes, st.s, 1);
      Grows(st, holes, n, h) && Good(n, h, r) && n.s == st.s + 1 && n.mode == st.mode && n.hr <= st.hr + Need(ps[0])
    ensures CanRun(n, After(holes, st.s, 1), r, |ps| - 1, NeedAll(ps[1..]), RegsAll(ps[1..]))
  {
    assert RegsAll(ps[1..]) <= RegsAll(ps);
    forall a: nat | n.s <= a < n.s + (|ps| - 1)
      ensures Slot(n, After(holes, st.s, 1), a) && (n.mode == Write ==> a in After(holes, st.s, 1))
    {
      assert Slot(st, holes, a);
    }
  }

  lemma DoneThen(st: State, holes: set<nat>, ps: seq<Pat>, n: Outcome, o: Outcome, r1: Rank, r': Rank)
    requires |ps| > 1 && LinearAll(ps)
    requires n.Ok? && Done(st, holes, 1, Regs(ps[0]), Need(ps[0]), n, r1)
    requires n.st.s == st.s + 1 && n.st.mode == st.mode
    requires Done(n.st, After(holes, st.s, 1), |ps| - 1, RegsAll(ps[1..]), NeedAll(ps[1..]), o, r')
    ensures Done(st, holes, |ps|, RegsAll(ps), NeedAll(ps), o, r')
  {
    var h := After(holes, st.s, 1);
    if o.Ok? {
      var h' := After(h, n.st.s, |ps| - 1);
      assert h' == After(holes, st.s, |ps|);
      GrowsTrans(st, holes, n.st, h, o.st, h');
      forall x | x in RegsAll(ps)
        ensures x < |o.st.x| && CellOk(o.st, h', o.st.x[x])
      {
        if x in Regs(ps[0]) {
          GrowsCell(n.st, h, o.st, h', n.st.x[x], x => Leaf(0));
        }
      }
    }
  }

  // ---------------------------------------------------------------- soundness: what has been unified matches

  lemma {:induction false} HoldsAgree(p: Pat, t: Tree, e: nat -> Tree, f: nat -> Tree)
    requires Holds(p, t, e) && forall x :: x in Regs(p) ==> e(x) == f(x)
    ensures Holds(p, t, f)
    decreases p, 1
  {
    if p.PNode? { HoldAllAgree(p.args, t.args, e, f); }
    if p.PVar? { assert p.x in Regs(p); }
  }

  lemma {:induction false} HoldAllAgree(ps: seq<Pat>, ts: seq<Tree>, e: nat -> Tree, f: nat -> Tree)
    requires HoldAll(ps, ts, e) && forall x :: x in RegsAll(ps) ==> e(x) == f(x)
    ensures HoldAll(ps, ts, f)
    decreases ps, 0
  {
    if ps != [] {
      HoldsAgree(ps[0], ts[0], e, f);
      HoldAllAgree(ps[1..], ts[1..], e, f);
    }
  }

  lemma RegsAgree(st: State, h: set<nat>, st': State, h': set<nat>, xs: set<nat>, ys: set<nat>, v: Val)
    requires Grows(st, h, st', h') && RegsOk(st, h, xs) && SameElsewhere(st, st', ys) && xs !! ys
    ensures forall x :: x in xs ==> RegVal(st, v)(x) == RegVal(st', v)(x)
  {
    forall x | x in xs
      ensures RegVal(st, v)(x) == RegVal(st', v)(x)
    {
      GrowsCell(st, h, st', h', st.x[x], v);
    }
  }

  lemma SimpleSound(st: State, holes: set<nat>, r: Rank, p: Pat, last: bool, v: Val)
    requires CanRun(st, holes, r, 1, 0, Regs(p)) && !p.PNode?
    requires Exec(CompileArg(p, last), st).Ok?
    requires Model(Exec(CompileArg(p, last), st).st, After(holes, st.s, 1), v)
    ensures Model(st, holes, v) && Match(p, v(st.s))
    ensures Holds(p, v(st.s), RegVal(Exec(CompileArg(p, last), st).st, v))
  {
    assert p.PVar? ==> p.x in Regs(p);
    SimpleModels(st, holes, r, p, v);
    SimpleCode(p, last, st);
    MovedModel(Simple(st, p).st, Exec(CompileArg(p, last), st).st, After(holes, st.s, 1), v);
  }

  /** How the code of several arguments splits into that of the first and that of the rest. */
  lemma FirstRun(st: State, holes: set<nat>, r: Rank, ps: seq<Pat>) returns (r1: Rank)
    requires CanRun(st, holes, r, |ps|, NeedAll(ps), RegsAll(ps)) && LinearAll(ps) && ps != []
    ensures CanRun(st, holes, r, 1, Need(ps[0]), Regs(ps[0]))
    ensures
      var o := Exec(CompileArg(ps[0], |ps| == 1), st);
      Exec(CompileArgs(ps), st) == if o.Ok? then Exec(CompileArgs(ps[1..]), o.st) else o
    ensures
      var o, h := Exec(CompileArg(ps[0], |ps| == 1), st), After(holes, st.s, 1);
      o.Ok? ==>
        && CanRun(o.st, h, r1, |ps| - 1, NeedAll(ps[1..]), RegsAll(ps[1..]))
        && Grows(st, holes, o.st, h) && RegsOk(o.st, h, Regs(ps[0]))
        && After(h, o.st.s, |ps| - 1) == After(holes, st.s, |ps|)
        && (|ps| > 1 ==> o.st.s == st.s + 1)
  {
    var p, rest, last := ps[0], ps[1..], |ps| == 1;
    FirstReady(st, holes, r, ps);
    r1 := ArgRun(st, holes, r, p, last);
    ExecConcat(CompileArg(p, last), CompileArgs(rest), st);
    var o := Exec(CompileArg(p, last), st);
    if !last && o.Ok? {
      NextReady(st, holes, ps, o.st, r1);
    }
  }

  lemma ArgsTail(v: Val, s: nat, s': nat, n: nat)
    requires n > 0 && (n > 1 ==> s' == s + 1)
    ensures Args(v, s, n)[0] == v(s) && Args(v, s, n)[1..] == Args(v, s', n - 1)
  {
  }

  /** How the code of a compound argument leads to that of its own arguments... */
  lemma InnerRun(st: State, holes: set<nat>, r: Rank, p: Pat, last: bool) returns (r1: Rank)
    requires CanRun(st, holes, r, 1, Need(p), Regs(p)) && Linear(p) && p.PNode?
    ensures
      var b := Before(st, last);
      && Ready(b, holes, r, 1, Need(p)) && SameHeap(st, b) && b.s == st.s < |b.mem| && InBlock(st, 1)
      && var o, h := Compound(b, p.k), CompoundHoles(b, holes, p.k);
         && o != Crashed
         && (o.Ok? ==>
              && CanRun(o.st, h, r1, |p.args|, NeedAll(p.args), RegsAll(p.args))
              && After(h, o.st.s, |p.args|) == After(holes, st.s, 1)
              && Grows(b, holes, o.st, h) && o.st.sp == b.sp)
  {
    ReadyWord(st, holes, r, 1, Need(p));
    BeforeReady(st, holes, r, Need(p), last);
    r1 := CompoundKeeps(Before(st, last), holes, r, p.k, NeedAll(p.args));
  }

  /** ... and back: pop changes neither heap nor registers. */
  lemma InnerBack(st: State, h: set<nat>, r1: Rank, p: Pat, last: bool)
    requires p.PNode? && Linear(p) && Compound(Before(st, last), p.k).Ok? && InBlock(st, 1)
    requires
      var c := Compound(Before(st, last), p.k).st;
      CanRun(c, h, r1, |p.args|, NeedAll(p.args), RegsAll(p.args)) && c.sp == Before(st, last).sp
    ensures
      var i, e := Exec(CompileArgs(p.args), Compound(Before(st, last), p.k).st), Exec(CompileArg(p, last), st);
      if i.Ok? then e.Ok? && SameHeap(i.st, e.st) && i.st.x == e.st.x else e == i
  {
    var c := Compound(Before(st, last), p.k).st;
    NodeCode(p, last, st);
    ArgsKeepStack(c, h, r1, p.args);
    var i := Exec(CompileArgs(p.args), c);
    if i.Ok? && !last {
      assert i.st.sp[0] == Frame(st.mode, st.s + 1);
    }
  }

  lemma ArgsKeepStack(c: State, h: set<nat>, r: Rank, ps: seq<Pat>)
    requires CanRun(c, h, r, |ps|, NeedAll(ps), RegsAll(ps)) && LinearAll(ps) && ps != []
    ensures Exec(CompileArgs(ps), c).Ok? ==> Exec(CompileArgs(ps), c).st.sp == c.sp
  {
    var r2 := ArgsRun(c, h, r, ps);
  }

  lemma {:induction false} ArgSound(st: State, holes: set<nat>, r: Rank, p: Pat, last: bool, v: Val)
    requires CanRun(st, holes, r, 1, Need(p), Regs(p)) && Linear(p)
    requires Exec(CompileArg(p, last), st).Ok?
    requires Model(Exec(CompileArg(p, last), st).st, After(holes, st.s, 1), v)
    ensures Model(st, holes, v) && Match(p, v(st.s))
    ensures Holds(p, v(st.s), RegVal(Exec(CompileArg(p, last), st).st, v))
    decreases p, 1
  {
    if !p.PNode? {
      SimpleSound(st, holes, r, p, last, v);
    } else {
      var r1 := InnerRun(st, holes, r, p, last);
      NodeCode(p, last, st);
      var b, e := Before(st, last), Exec(CompileArg(p, last), st).st;
      var c := Compound(b, p.k).st;
      var i := Exec(CompileArgs(p.args), c).st;
      InnerBack(st, CompoundHoles(b, holes, p.k), r1, p, last);
      MovedModel(i, e, After(holes, st.s, 1), v);
      ArgsSound(c, CompoundHoles(b, holes, p.k), r1, p.args, v);
      CompoundSound(b, holes, r, p.k, NeedAll(p.args), v);
      MovedModel(b, st, holes, v);
      HoldAllAgree(p.args, v(st.s).args, RegVal(i, v), RegVal(e, v));
    }
  }

  lemma {:induction false} ArgsSound(st: State, holes: set<nat>, r: Rank, ps: seq<Pat>, v: Val)
    requires CanRun(st, holes, r, |ps|, NeedAll(ps), RegsAll(ps)) && LinearAll(ps)
    requires Exec(CompileArgs(ps), st).Ok?
    requires Model(Exec(CompileArgs(ps), st).st, After(holes, st.s, |ps|), v)
    ensures Model(st, holes, v) && MatchAll(ps, Args(v, st.s, |ps|))
    ensures HoldAll(ps, Args(v, st.s, |ps|), RegVal(Exec(CompileArgs(ps), st).st, v))
    decreases ps, 0
  {
    if ps == [] {
      assert After(holes, st.s, 0) == holes;
    } else {
      var r1 := FirstRun(st, holes, r, ps);
      var o := Exec(CompileArg(ps[0], |ps| == 1), st).st;
      ArgsTail(v, st.s, o.s, |ps|);
      ArgsSound(o, After(holes, st.s, 1), r1, ps[1..], v);
      ArgSound(st, holes, r, ps[0], |ps| == 1, v);
      HeadHolds(st, holes, r1, ps, v);
    }
  }

  /** The registers of the first argument keep their values while the rest is unified. */
  lemma HeadHolds(st: State, holes: set<nat>, r1: Rank, ps: seq<Pat>, v: Val)
    requires ps != [] && LinearAll(ps) && Exec(CompileArg(ps[0], |ps| == 1), st).Ok?
    requires
      var o, h := Exec(CompileArg(ps[0], |ps| == 1), st).st, After(holes, st.s, 1);
      && CanRun(o, h, r1, |ps| - 1, NeedAll(ps[1..]), RegsAll(ps[1..]))
      && RegsOk(o, h, Regs(ps[0])) && Exec(CompileArgs(ps[1..]), o).Ok?
      && Holds(ps[0], v(st.s), RegVal(o, v))
    ensures
      var o := Exec(CompileArg(ps[0], |ps| == 1), st).st;
      Holds(ps[0], v(st.s), RegVal(Exec(CompileArgs(ps[1..]), o).st, v))
  {
    var o, h := Exec(CompileArg(ps[0], |ps| == 1), st).st, After(holes, st.s, 1);
    var rest := ps[1..];
    if rest != [] {
      var r2 := ArgsRun(o, h, r1, rest);
      var e := Exec(CompileArgs(rest), o).st;
      RegsAgree(o, h, e, After(h, o.s, |rest|), Regs(ps[0]), RegsAll(rest), v);
      HoldsAgree(ps[0], v(st.s), RegVal(o, v), RegVal(e, v));
    }
  }

  // ---------------------------------------------------------------- completeness: whatever matches is unified

  lemma {:induction false} MatchLength(ps: seq<Pat>, ts: seq<Tree>)
    requires MatchAll(ps, ts)
    ensures |ps| == |ts|
  {
  }

  lemma SimpleComplete(st: State, holes: set<nat>, r: Rank, p: Pat, last: bool, v: Val)
    requires CanRun(st, holes, r, 1, 0, Regs(p)) && !p.PNode?
    requires Model(st, holes, v) && Match(p, v(st.s))
    ensures Exec(CompileArg(p, last), st).Ok?
    ensures Model(Exec(CompileArg(p, last), st).st, After(holes, st.s, 1), v)
  {
    assert p.PVar? ==> p.x in Regs(p);
    ReadyWord(st, holes, r, 1, 0);
    SimpleKeeps(st, holes, r, p);
    SimpleModels(st, holes, r, p, v);
    SimpleCode(p, last, st);
    MovedModel(Simple(st, p).st, Exec(CompileArg(p, last), st).st, After(holes, st.s, 1), v);
  }

  lemma {:induction false} ArgComplete(st: State, holes: set<nat>, r: Rank, p: Pat, last: bool, v: Val)
    returns (w: Val)
    requires CanRun(st, holes, r, 1, Need(p), Regs(p)) && Linear(p)
    requires Model(st, holes, v) && Match(p, v(st.s))
    ensures Exec(CompileArg(p, last), st).Ok?
    ensures Model(Exec(CompileArg(p, last), st).st, After(holes, st.s, 1), w)
    ensures forall a: nat :: Live(st, a) ==> w(a) == v(a)
    decreases p, 1
  {
    if !p.PNode? {
      w := v;
      SimpleComplete(st, holes, r, p, last, v);
    } else {
      var r1 := InnerRun(st, holes, r, p, last);
      var b := Before(st, last);
      MovedModel(st, b, holes, v);
      var u := CompoundComplete(b, holes, r, p.k, NeedAll(p.args), v);
      var c, h := Compound(b, p.k).st, CompoundHoles(b, holes, p.k);
      w := ArgsComplete(c, h, r1, p.args, u);
      InnerBack(st, h, r1, p, last);
      MovedModel(Exec(CompileArgs(p.args), c).st, Exec(CompileArg(p, last), st).st, After(holes, st.s, 1), w);
      assert forall a: nat :: Live(st, a) ==> Live(b, a) && Live(c, a);
    }
  }

  lemma {:induction false} ArgsComplete(st: State, holes: set<nat>, r: Rank, ps: seq<Pat>, v: Val)
    returns (w: Val)
    requires CanRun(st, holes, r, |ps|, NeedAll(ps), RegsAll(ps)) && LinearAll(ps)
    requires Model(st, holes, v) && MatchAll(ps, Args(v, st.s, |ps|))
    ensures Exec(CompileArgs(ps), st).Ok?
    ensures Model(Exec(CompileArgs(ps), st).st, After(holes, st.s, |ps|), w)
    ensures forall a: nat :: Live(st, a) ==> w(a) == v(a)
    decreases ps, 0
  {
    if ps == [] {
      w := v;
      assert After(holes, st.s, 0) == holes;
    } else {
      var r1 := FirstRun(st, holes, r, ps);
      var u := ArgComplete(st, holes, r, ps[0], |ps| == 1, v);
      var o := Exec(CompileArg(ps[0], |ps| == 1), st).st;
      RestMatches(st, holes, r, ps, o.s, v, u);
      w := ArgsComplete(o, After(holes, st.s, 1), r1, ps[1..], u);
      forall a: nat | Live(st, a)
        ensures w(a) == v(a)
      {
        assert Live(o, a) && u(a) == v(a);
      }
    }
  }

  lemma RestMatches(st: State, holes: set<nat>, r: Rank, ps: seq<Pat>, s': nat, v: Val, u: Val)
    requires Placed(st, holes, |ps|) && ps != [] && (|ps| > 1 ==> s' == st.s + 1)
    requires MatchAll(ps, Args(v, st.s, |ps|)) && forall a: nat :: Live(st, a) ==> u(a) == v(a)
    ensures MatchAll(ps[1..], Args(u, s', |ps| - 1))
  {
    ArgsTail(v, st.s, s', |ps|);
    forall a: nat | s' <= a < s' + (|ps| - 1)
      ensures u(a) == v(a)
    {
      assert Slot(st, holes, a);
    }
    ArgsAgree(v, u, s', |ps| - 1);
  }

  // ---------------------------------------------------------------- head arguments

  /** Argument register x may be unified with p: nothing is half written and there is room. */
  ghost predicate HeadReady(st: State, r: Rank, p: Pat, x: nat) {
    && Good(st, {}, r) && Linear(p) && st.hr + Need(p) < st.asp
    && x < |st.x| && CellOk(st, {}, st.x[x])
    && forall y :: y in Regs(p) ==> y < |st.x|
  }

  function Entered(st: State, p: Pat, x: nat): Outcome
    requires p.PNode? && x < |st.x|
  {
    Enter(st, p.k, DerefCell(st.mem, st.x[x]))
  }

  function EnteredHoles(st: State, p: Pat, x: nat): set<nat>
    requires p.PNode? && x < |st.x|
  {
    EnterHoles(st, p.k, DerefCell(st.mem, st.x[x]))
  }

  lemma EnteredRuns(st: State, r: Rank, p: Pat, x: nat) returns (r1: Rank)
    requires HeadReady(st, r, p, x) && p.PNode?
    ensures Entered(st, p, x) != Crashed
    ensures
      var o, h := Entered(st, p, x), EnteredHoles(st, p, x);
      o.Ok? ==>
        && CanRun(o.st, h, r1, |p.args|, NeedAll(p.args), RegsAll(p.args))
        && After(h, o.st.s, |p.args|) == {} && Grows(st, {}, o.st, h)
        && o.st.x == st.x && o.st.sp == st.sp
    ensures
      var o := Entered(st, p, x);
      Exec(CompileHead(p, x), st) == if o.Ok? then Exec(CompileArgs(p.args), o.st) else o
  {
    EnteredCode(st, p, x);
    assert Regs(p) == RegsAll(p.args);
    r1 := EnterKeeps(st, r, p.k, st.x[x]);
  }

  lemma EnteredCode(st: State, p: Pat, x: nat)
    requires p.PNode? && x < |st.x|
    ensures
      var o := Entered(st, p, x);
      Exec(CompileHead(p, x), st) == if o.Ok? then Exec(CompileArgs(p.args), o.st) else o
  {
    ExecCons(Get(p.k, x), CompileArgs(p.args), st);
  }

  /** A head argument never crashes the emulator; if it is unified the store stays well formed, the mode
      stack is back where it was, and only the pattern's variables changed among the registers. */
  lemma HeadKeeps(st: State, r: Rank, p: Pat, x: nat) returns (r': Rank)
    requires HeadReady(st, r, p, x)
    ensures
      var o := Exec(CompileHead(p, x), st);
      && o != Crashed
      && (o.Ok? ==>
           && Good(o.st, {}, r') && Grows(st, {}, o.st, {}) && o.st.sp == st.sp
           && SameElsewhere(st, o.st, Regs(p)) && RegsOk(o.st, {}, Regs(p)))
  {
    r' := r;
    match p
    case PNode(k, args) =>
      var r1 := EnteredRuns(st, r, p, x);
      var o, h := Entered(st, p, x), EnteredHoles(st, p, x);
      if o.Ok? {
        r' := ArgsRun(o.st, h, r1, args);
        var e := Exec(CompileArgs(args), o.st);
        if e.Ok? { GrowsTrans(st, {}, o.st, h, e.st, {}); }
      }
    case PAtom(c) =>
      ExecOne(GetAtom(c, x), st);
      DerefEnds(st, r, st.x[x], Addresses(|st.mem|));
      MeetKeeps(st, r, DerefCell(st.mem, st.x[x]), c);
    case PVar(to) =>
      ExecOne(GetVar(x, to), st);
      assert to in Regs(p);
      var n := st.(x := st.x[to := st.x[x]]);
      Moved(st, n, {}, r);
      GrowsCell(st, {}, n, {}, st.x[x], y => Leaf(0));
    case PVoid =>
      Moved(st, st, {}, r);
  }

  /** In every reading of the store after success, the argument is an instance of the pattern and the
      registers hold the subterms its variables stand for; and it is a reading of the store before. */
  lemma HeadSound(st: State, r: Rank, p: Pat, x: nat, v: Val)
    requires HeadReady(st, r, p, x)
    requires Exec(CompileHead(p, x), st).Ok? && Model(Exec(CompileHead(p, x), st).st, {}, v)
    ensures Model(st, {}, v) && Match(p, RegVal(st, v)(x))
    ensures Holds(p, RegVal(st, v)(x), RegVal(Exec(CompileHead(p, x), st).st, v))
  {
    match p
    case PNode(k, args) =>
      var r1 := EnteredRuns(st, r, p, x);
      var o, h := Entered(st, p, x).st, EnteredHoles(st, p, x);
      ArgsSound(o, h, r1, args, v);
      EnterSound(st, r, k, st.x[x], v);
    case PAtom(c) =>
      ExecOne(GetAtom(c, x), st);
      DerefEnds(st, r, st.x[x], Addresses(|st.mem|));
      MeetModels(st, r, DerefCell(st.mem, st.x[x]), c, v);
      DerefValue(st, r, st.x[x], Addresses(|st.mem|), v);
    case PVar(to) =>
      ExecOne(GetVar(x, to), st);
      MovedModel(st, st.(x := st.x[to := st.x[x]]), {}, v);
    case PVoid =>
  }

  /** Every reading in which the argument is an instance of the pattern survives: the unifier is most general. */
  lemma HeadComplete(st: State, r: Rank, p: Pat, x: nat, v: Val) returns (w: Val)
    requires HeadReady(st, r, p, x) && Model(st, {}, v) && Match(p, RegVal(st, v)(x))
    ensures Exec(CompileHead(p, x), st).Ok?
    ensures Model(Exec(CompileHead(p, x), st).st, {}, w)
    ensures forall a: nat :: Live(st, a) ==> w(a) == v(a)
  {
    w := v;
    match p
    case PNode(k, args) =>
      var r1 := EnteredRuns(st, r, p, x);
      MatchLength(args, RegVal(st, v)(x).args);
      var u := EnterComplete(st, r, k, st.x[x], v);
      var o := Entered(st, p, x).st;
      w := ArgsComplete(o, EnteredHoles(st, p, x), r1, args, u);
      assert forall a: nat :: Live(st, a) ==> Live(o, a);
    case PAtom(c) =>
      ExecOne(GetAtom(c, x), st);
      DerefEnds(st, r, st.x[x], Addresses(|st.mem|));
      MeetKeeps(st, r, DerefCell(st.mem, st.x[x]), c);
      DerefValue(st, r, st.x[x], Addresses(|st.mem|), v);
      MeetModels(st, r, DerefCell(st.mem, st.x[x]), c, v);
    case PVar(to) =>
      ExecOne(GetVar(x, to), st);
      assert to in Regs(p);
      MovedModel(st, st.(x := st.x[to := st.x[x]]), {}, v);
    case PVoid =>
  }

  /** The term that word a stands for, unbound variables read as an arbitrary atom. */
  function Value(st: State, ghost r: Rank, a: nat): Tree
    requires Good(st, {}, r)
    decreases r(a)
  {
    if !Live(st, a) || st.mem[a].Fun? || st.mem[a] == Ref(a) then Leaf(0)
    else
      var c := st.mem[a];
      assert CellOk(st, {}, c) && Below(st.mem, c, r, r(a));
      if c.Ref? then Value(st, r, c.a)
      else if c.Con? then Leaf(c.c)
      else
        var k := ShapeOf(st.mem, c);
        Node(k, seq(Arity(k), i requires 0 <= i < Arity(k) => Value(st, r, Base(k, c.p) + i)))
  }

  /** A well-formed store without cycles has a reading. */
  lemma HasModel(st: State, r: Rank) returns (v: Val)
    requires Good(st, {}, r)
    ensures Model(st, {}, v)
  {
    v := (a: nat) => Value(st, r, a);
    forall a: nat | Live(st, a)
      ensures Sat(v, st.mem, a)
    {
      var c := st.mem[a];
      if !c.Fun? && c != Ref(a) {
        assert CellOk(st, {}, c) && Below(st.mem, c, r, r(a));
        if IsCompound(st.mem, c) {
          var k := ShapeOf(st.mem, c);
          assert Args(v, Base(k, c.p), Arity(k)) == v(a).args;
        }
      }
    }
  }

  /** The code of a head argument succeeds exactly when the argument unifies with the pattern. */
  lemma HeadUnifiesIff(st: State, r: Rank, p: Pat, x: nat)
    requires HeadReady(st, r, p, x)
    ensures Exec(CompileHead(p, x), st).Ok? <==>
              exists v: Val :: Model(st, {}, v) && Match(p, RegVal(st, v)(x))
  {
    if Exec(CompileHead(p, x), st).Ok? {
      var r' := HeadKeeps(st, r, p, x);
      var v := HasModel(Exec(CompileHead(p, x), st).st, r');
      HeadSound(st, r, p, x, v);
    }
    if v: Val :| Model(st, {}, v) && Match(p, RegVal(st, v)(x)) {
      var w := HeadComplete(st, r, p, x, v);
    }
  }
}
