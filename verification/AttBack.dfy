/** Which attribute operations a failure takes back: all of them, but for what they write into a new block that is older
    than the choice point, and for a link that is trailed as if it had been unbound. */
module AttBack {
  import opened Prelude
  import opened Cells
  import opened Terms
  import opened AttMap
  import opened AttOverwrite
  import opened Backtrack
  import opened AttTrail
  import opened AttEngine

  /** A variable's chain and a new block, on the global stack of a machine with choice points. */
  ghost predicate OnHeap(m: Machine, atts: nat, bs: seq<nat>) {
    && Shaped(m) && Valid(m.mem, atts, bs) && atts < m.hr
    && forall k {:trigger bs[k]} :: 0 <= k < |bs| ==> bs[k] + ArityAt(m.mem, bs[k]) < m.hr
  }

  ghost predicate NewOnHeap(m: Machine, atts: nat, bs: seq<nat>, t: nat) {
    OnHeap(m, atts, bs) && Fresh(m.mem, atts, bs, t) && BlockAt(m.mem, t) && t + m.mem[t].arity < m.hr
  }

  lemma ChoiceSound(m: Machine, i: nat)
    requires Shaped(m) && i < |m.cps|
    ensures Sound(m, m.cps[i]) && m.cps[i].h <= Top(m).h && m.hr <= m.cps[i].top
  {
    assert ChoiceOk(m, m.cps[i]);
    if i < |m.cps| - 1 { assert Nested(m.cps[i], m.cps[|m.cps| - 1]); }
  }

  ghost predicate AllSafe(m: Machine, c: Choice, ws: seq<Write>)
    requires InStore(|m.mem|, ws)
  {
    forall i {:trigger ws[i]} :: 0 <= i < |ws| ==> Safe(m, c, ws[i])
  }

  lemma SafeMore(m: Machine, c: Choice, ws: seq<Write>, w: Write)
    requires InStore(|m.mem|, ws) && w.at < |m.mem|
    ensures InStore(|m.mem|, ws + [w]) && (AllSafe(m, c, ws + [w]) <==> AllSafe(m, c, ws) && Safe(m, c, w))
  {
    hide Safe;
    var v := ws + [w];
    assert v[|ws|] == w;
    assert forall i :: 0 <= i < |ws| ==> v[i] == ws[i];
  }

  /** All stores are to places of block b in the order of the places. */
  ghost predicate Rising(ws: seq<Write>, lo: nat, hi: nat) {
    && (forall i :: 0 <= i < |ws| ==> lo <= ws[i].at < hi)
    && forall i, j :: 0 <= i < j < |ws| ==> ws[i].at < ws[j].at
  }

  // ---------------------------------------------------------------- in place

  lemma {:induction false} InPlaceSafe(m: Machine, c: Choice, b: nat, t: nat, n: nat)
    requires BlockAt(m.mem, b) && BlockAt(m.mem, t) && m.mem[b] == m.mem[t] && n < m.mem[t].arity
    requires c.h <= b + 2 && b + m.mem[t].arity < c.top
    ensures AllSafe(m, c, InPlaceWrites(m.mem, b, t, n)) && Rising(InPlaceWrites(m.mem, b, t, n), b + 2, b + 2 + n)
  {
    hide DerefCell;
    if n > 0 {
      InPlaceSafe(m, c, b, t, n - 1);
      InPlaceWritesNext(m.mem, b, t, n - 1);
      var f := InPlaceTo(m.mem, b, t, n - 1);
      SafeMore(m, c, InPlaceWrites(m.mem, b, t, n - 1), Plain(b + 1 + n, DerefCell(f, f[t + 1 + n])));
    }
  }

  // ---------------------------------------------------------------- by a copy

  /** What the copy writes at place x of the new block. */
  function Filling(mem: seq<Cell>, b: nat, t: nat, x: nat): Cell {
    if x == t + 1 && b + 1 < |mem| then mem[b + 1] else NewFor(mem, t, b, x)
  }

  /** Writing v at x without a trail entry does no harm to c. */
  ghost predicate Harmless(m: Machine, c: Choice, x: nat, v: Cell)
    requires x < |m.mem|
  {
    Existed(c, x) && !Touched(m.trail, c.tr, x) ==> v == m.mem[x]
  }

  /** The place, if the copy writes it. */
  ghost predicate HarmlessAt(m: Machine, c: Choice, b: nat, t: nat, i: nat)
    requires BlockAt(m.mem, t) && i < m.mem[t].arity - 1
  {
    t + 2 + i in FreeArgs(m.mem, t) ==> Harmless(m, c, t + 2 + i, Filling(m.mem, b, t, t + 2 + i))
  }

  ghost predicate FillHarmless(m: Machine, c: Choice, b: nat, t: nat, n: nat)
    requires BlockAt(m.mem, t) && n < m.mem[t].arity
  {
    && Harmless(m, c, t + 1, Filling(m.mem, b, t, t + 1))
    && forall i: nat {:trigger HarmlessAt(m, c, b, t, i)} :: i < n ==> HarmlessAt(m, c, b, t, i)
  }

  lemma FillHarmlessMore(m: Machine, c: Choice, b: nat, t: nat, i: nat)
    requires BlockAt(m.mem, t) && i < m.mem[t].arity - 1
    ensures FillHarmless(m, c, b, t, i + 1) <==> FillHarmless(m, c, b, t, i) && HarmlessAt(m, c, b, t, i)
    ensures FillHarmless(m, c, b, t, 0) <==> Harmless(m, c, t + 1, Filling(m.mem, b, t, t + 1))
  {
    hide HarmlessAt, Harmless;
  }

  lemma PlainHarmless(m: Machine, c: Choice, x: nat, v: Cell)
    requires x < |m.mem|
    ensures Safe(m, c, Plain(x, v)) <==> Harmless(m, c, x, v)
  {
  }

  lemma FillStep(mem: seq<Cell>, b: nat, t: nat, i: nat)
    requires BlockAt(mem, b) && BlockAt(mem, t) && mem[b] == mem[t] && i < mem[t].arity - 1
    ensures
      var ws, x := FillWrites(mem, b, t, i), t + 2 + i;
      FillWrites(mem, b, t, i + 1) == if x in FreeArgs(mem, t) then ws + [Plain(x, Filling(mem, b, t, x))] else ws
    ensures FillWrites(mem, b, t, 0) == [] + [Plain(t + 1, Filling(mem, b, t, t + 1))]
  {
    hide DerefCell, FreeArgs;
    FillWritesNext(mem, b, t, i);
    NewForIs(mem, t, b, i);
    FreeIff(mem, t, t + 2 + i);
  }

  lemma FillFirst(mem: seq<Cell>, b: nat, t: nat)
    requires BlockAt(mem, b) && BlockAt(mem, t) && mem[b] == mem[t]
    ensures FillWrites(mem, b, t, 0) == [] + [Plain(t + 1, Filling(mem, b, t, t + 1))]
  {
    FillWritesNext(mem, b, t, 0);
  }

  lemma {:induction false} FillSafe(m: Machine, c: Choice, b: nat, t: nat, n: nat)
    requires BlockAt(m.mem, b) && BlockAt(m.mem, t) && m.mem[b] == m.mem[t] && n < m.mem[t].arity
    ensures AllSafe(m, c, FillWrites(m.mem, b, t, n)) <==> FillHarmless(m, c, b, t, n)
  {
    hide Safe, FillHarmless, Filling, FillWrites, FreeArgs;
    if n == 0 {
      FillFirst(m.mem, b, t);
      SafeMore(m, c, [], Plain(t + 1, Filling(m.mem, b, t, t + 1)));
      PlainHarmless(m, c, t + 1, Filling(m.mem, b, t, t + 1));
      NoneHarmful(m, c, b, t);
    } else {
      var i := n - 1;
      FillSafe(m, c, b, t, i);
      FillStep(m.mem, b, t, i);
      FillHarmlessMore(m, c, b, t, i);
      PlainHarmless(m, c, t + 2 + i, Filling(m.mem, b, t, t + 2 + i));
      SafeMore(m, c, FillWrites(m.mem, b, t, i), Plain(t + 2 + i, Filling(m.mem, b, t, t + 2 + i)));
    }
  }

  lemma NoneHarmful(m: Machine, c: Choice, b: nat, t: nat)
    requires BlockAt(m.mem, t)
    ensures FillHarmless(m, c, b, t, 0) <==> Harmless(m, c, t + 1, Filling(m.mem, b, t, t + 1))
  {
    hide Harmless;
  }

  lemma {:induction false} FillRises(mem: seq<Cell>, b: nat, t: nat, n: nat)
    requires BlockAt(mem, b) && BlockAt(mem, t) && mem[b] == mem[t] && n < mem[t].arity
    ensures Rising(FillWrites(mem, b, t, n), t + 1, t + 2 + n)
  {
    hide DerefCell, FreeArgs;
    if n == 0 { FillFirst(mem, b, t); } else { FillRises(mem, b, t, n - 1); FillStep(mem, b, t, n - 1); }
  }

  // ---------------------------------------------------------------- ReplaceAtts

  lemma RisingDistinct(ws: seq<Write>, lo: nat, hi: nat, w: Write)
    requires Rising(ws, lo, hi) && !(lo <= w.at < hi)
    ensures AttTrail.Distinct(ws) && AttTrail.Distinct(ws + [w])
  {
  }

  lemma LinkSafe(m: Machine, atts: nat, bs: seq<nat>, k: nat, i: nat, v: Cell)
    requires OnHeap(m, atts, bs) && k <= |bs| && i < |m.cps|
    ensures LinkAt(atts, bs, k) < m.hr && LinkAt(atts, bs, k) < |m.mem| &&
      Safe(m, m.cps[i], Multi(LinkAt(atts, bs, k), v))
  {
    ChoiceSound(m, i);
    if k > 0 { BlockIn(m.mem, atts, bs, k - 1); }
  }

  /** A failure takes ReplaceAtts back when it works in place, and when it makes a copy exactly if what it writes into
      the new block is in cells newer than the choice point, or trailed since, or there already. */
  lemma ReplaceTakenBack(m: Machine, atts: nat, bs: seq<nat>, k: nat, t: nat, i: nat)
    requires NewOnHeap(m, atts, bs, t) && k < |bs| && BlockAt(m.mem, bs[k]) && m.mem[bs[k]] == m.mem[t] && i < |m.cps|
    ensures
      var inPlace, c := bs[k] + 1 > Top(m).h, m.cps[i];
      var ws := ReplaceWrites(m.mem, atts, bs, k, t, inPlace);
      && AttTrail.InStore(|m.mem|, ws) && Sound(m, c) && Sound(PutAll(m, ws), c)
      && (SameBack(m, PutAll(m, ws), c) <==> inPlace || FillHarmless(m, c, bs[k], t, m.mem[t].arity - 1))
  {
    hide Apart, Linked, Tidy, Fresh, Shaped, FillHarmless, Safe, FillWrites, InPlaceWrites;
    ChoiceSound(m, i);
    var inPlace, c, n := bs[k] + 1 > Top(m).h, m.cps[i], m.mem[t].arity - 1;
    var ws := ReplaceWrites(m.mem, atts, bs, k, t, inPlace);
    if inPlace {
      assert bs[k] + ArityAt(m.mem, bs[k]) < m.hr;
      InPlaceSafe(m, c, bs[k], t, n);
      RisingDistinct(ws, bs[k] + 2, bs[k] + 2 + n, Plain(0, VOID));
    } else {
      var link := Multi(LinkAt(atts, bs, k), Appl(t));
      FillSafe(m, c, bs[k], t, n);
      FillRises(m.mem, bs[k], t, n);
      LinkNotIn(m.mem, atts, bs, t, k);
      RisingDistinct(FillWrites(m.mem, bs[k], t, n), t + 1, t + 2 + n, link);
      LinkSafe(m, atts, bs, k, i, Appl(t));
      SafeMore(m, c, FillWrites(m.mem, bs[k], t, n), link);
    }
    TakenBackIff(m, c, ws);
  }

  /** A new block older than the choice point, its link not trailed since: what the copy does is not taken back. */
  lemma OldBlockStays(m: Machine, atts: nat, bs: seq<nat>, k: nat, t: nat, i: nat)
    requires NewOnHeap(m, atts, bs, t) && k < |bs| && BlockAt(m.mem, bs[k]) && m.mem[bs[k]] == m.mem[t] && i < |m.cps|
    requires bs[k] + 1 <= Top(m).h && t + 1 < m.cps[i].h && !Touched(m.trail, m.cps[i].tr, t + 1)
    ensures
      var ws := ReplaceWrites(m.mem, atts, bs, k, t, false);
      && AttTrail.InStore(|m.mem|, ws) && Sound(m, m.cps[i]) && Sound(PutAll(m, ws), m.cps[i])
      && !SameBack(m, PutAll(m, ws), m.cps[i])
  {
    hide Touched;
    ReplaceTakenBack(m, atts, bs, k, t, i);
    NotItself(m.mem, atts, bs, k, t);
  }

  /** What follows a block is not the new block's own variable. */
  lemma NotItself(mem: seq<Cell>, atts: nat, bs: seq<nat>, k: nat, t: nat)
    requires Valid(mem, atts, bs) && Fresh(mem, atts, bs, t) && k < |bs| && BlockAt(mem, bs[k])
    ensures mem[bs[k] + 1] != Ref(t + 1) && mem[t + 1] == Ref(t + 1)
  {
    hide Apart, Tidy;
    assert LinkOk(mem, atts, bs, k + 1);
  }

  /** A variable with one attribute, and a block for it, both older than the choice point. */
  const OLD := Machine([Appl(1), Fun(7, 2), Ref(2), Con(5), Fun(7, 2), Ref(5), FREE, Con(0), Con(0)], 7, 8, [],
      [Choice(7, 8, 8, 0)])

  lemma OldBlockCounterexample()
    ensures NewOnHeap(OLD, 0, [1], 4) && BlockAt(OLD.mem, 1) && OLD.mem[1] == OLD.mem[4]
    ensures
      var ws := ReplaceWrites(OLD.mem, 0, [1], 0, 4, false);
      && AttTrail.InStore(9, ws) && Sound(OLD, OLD.cps[0]) && Sound(PutAll(OLD, ws), OLD.cps[0])
      && !SameBack(OLD, PutAll(OLD, ws), OLD.cps[0])
  {
    var mem := OLD.mem;
    assert BlockAt(mem, 1) && BlockAt(mem, 4);
    assert LinkOk(mem, 0, [1], 0) && LinkOk(mem, 0, [1], 1);
    assert forall x: nat :: IsArg(mem, 4, x) ==> x == 6;
    assert forall x: nat :: IsArg(mem, [1][0], x) ==> x == 3;
    assert NewOnHeap(OLD, 0, [1], 4);
    OldBlockStays(OLD, 0, [1], 0, 4, 0);
  }

  // ---------------------------------------------------------------- the others

  lemma {:induction false} VoidSafe(m: Machine, c: Choice, t: nat, n: nat)
    requires BlockAt(m.mem, t) && n < m.mem[t].arity
    ensures AllSafe(m, c, VoidWrites(m.mem, t, n)) <==> VoidHarmless(m, c, t, n)
    ensures Rising(VoidWrites(m.mem, t, n), t + 2, t + 2 + n)
  {
    hide DerefCell, FreeArgs, Safe, Harmless, VoidWrites;
    if n == 0 {
      NoVoids(m.mem, t);
    } else {
      var i := n - 1;
      VoidSafe(m, c, t, i);
      VoidWritesNext(m.mem, t, i);
      FreeIff(m.mem, t, t + 2 + i);
      PlainHarmless(m, c, t + 2 + i, VOID);
      SafeMore(m, c, VoidWrites(m.mem, t, i), Plain(t + 2 + i, VOID));
      VoidHarmlessMore(m, c, t, i);
    }
  }

  /** The place, if AddNewModule writes it. */
  ghost predicate VoidHarmlessAt(m: Machine, c: Choice, t: nat, i: nat)
    requires BlockAt(m.mem, t) && i < m.mem[t].arity - 1
  {
    t + 2 + i in FreeArgs(m.mem, t) ==> Harmless(m, c, t + 2 + i, VOID)
  }

  ghost predicate VoidHarmless(m: Machine, c: Choice, t: nat, n: nat)
    requires BlockAt(m.mem, t) && n < m.mem[t].arity
  {
    forall i: nat {:trigger VoidHarmlessAt(m, c, t, i)} :: i < n ==> VoidHarmlessAt(m, c, t, i)
  }

  lemma VoidHarmlessMore(m: Machine, c: Choice, t: nat, i: nat)
    requires BlockAt(m.mem, t) && i < m.mem[t].arity - 1
    ensures VoidHarmless(m, c, t, i + 1) <==> VoidHarmless(m, c, t, i) && VoidHarmlessAt(m, c, t, i)
    ensures VoidHarmless(m, c, t, 0)
  {
    hide VoidHarmlessAt;
  }

  /** The link to a new block is taken back, unless it is older than the choice point, was not trailed since, and either
      the record was taken for a new one or the end of the chain is not in its own cell: Bind_Global trails a link as if
      it had been unbound there. */
  ghost predicate LinkBack(m: Machine, c: Choice, atts: nat, bs: seq<nat>, t: nat, isNew: bool)
    requires LinkAt(atts, bs, |bs|) < |m.mem|
  {
    var l := LinkAt(atts, bs, |bs|);
    Existed(c, l) && !Touched(m.trail, c.tr, l) ==>
      if isNew then m.mem[l] == Appl(t) else l == atts || m.mem[l] == Ref(l)
  }

  lemma AddLinkSafe(m: Machine, atts: nat, bs: seq<nat>, t: nat, isNew: bool, i: nat)
    requires OnHeap(m, atts, bs) && i < |m.cps|
    ensures LinkAt(atts, bs, |bs|) < |m.mem| && AddLink(atts, bs, t, isNew).at == LinkAt(atts, bs, |bs|)
    ensures Safe(m, m.cps[i], AddLink(atts, bs, t, isNew)) <==> LinkBack(m, m.cps[i], atts, bs, t, isNew)
  {
    hide Touched, Apart, Linked, Tidy;
    LinkSafe(m, atts, bs, |bs|, i, Appl(t));
    ChoiceSound(m, i);
  }

  /** A failure takes AddNewModule back exactly if the places it voids in the new block are newer, or trailed, or void
      already, and its link is. */
  lemma AddTakenBack(m: Machine, atts: nat, bs: seq<nat>, t: nat, isNew: bool, added: bool, i: nat)
    requires NewOnHeap(m, atts, bs, t) && i < |m.cps|
    ensures
      var c, ws := m.cps[i], AddWrites(m.mem, atts, bs, t, isNew, added);
      && AttTrail.InStore(|m.mem|, ws) && Sound(m, c) && Sound(PutAll(m, ws), c) && LinkAt(atts, bs, |bs|) < |m.mem|
      && (SameBack(m, PutAll(m, ws), c) <==>
            VoidHarmless(m, c, t, m.mem[t].arity - 1) && (added ==> LinkBack(m, c, atts, bs, t, isNew)))
  {
    hide Apart, Linked, Tidy, Fresh, Shaped, VoidHarmless, LinkBack, Safe, VoidWrites;
    ChoiceSound(m, i);
    var c, n := m.cps[i], m.mem[t].arity - 1;
    var voids, link := VoidWrites(m.mem, t, n), AddLink(atts, bs, t, isNew);
    VoidSafe(m, c, t, n);
    AddLinkSafe(m, atts, bs, t, isNew, i);
    LinkNotIn(m.mem, atts, bs, t, |bs|);
    RisingDistinct(voids, t + 2, t + 2 + n, link);
    SafeMore(m, c, voids, link);
    assert voids + [] == voids;
    TakenBackIff(m, c, AddWrites(m.mem, atts, bs, t, isNew, added));
  }

  /** A variable with one attribute, the end of its chain kept in word 4 as a copy leaves it, and a new block. */
  const KEPT := Machine([Appl(1), Fun(7, 2), Ref(4), Con(5), Ref(4), Fun(9, 2), Ref(6), Con(3), Con(0), Con(0)], 8, 9,
      [], [Choice(8, 9, 9, 0)])

  lemma KeptFresh()
    ensures Fresh(KEPT.mem, 0, [1], 5) && BlockAt(KEPT.mem, 5)
  {
    hide DerefCell;
    var mem := KEPT.mem;
    assert BlockAt(mem, 1) && BlockAt(mem, 5);
    assert forall x: nat :: IsArg(mem, 5, x) ==> x == 7;
    assert forall x: nat :: IsArg(mem, [1][0], x) ==> x == 3;
  }

  lemma KeptValid()
    ensures Valid(KEPT.mem, 0, [1])
  {
    var mem := KEPT.mem;
    assert BlockAt(mem, 1);
    assert LinkOk(mem, 0, [1], 0) && LinkOk(mem, 0, [1], 1);
    assert forall x: nat :: IsArg(mem, [1][0], x) ==> x == 3;
  }

  lemma KeptShaped()
    ensures Shaped(KEPT) && KEPT.hr == 8 && |KEPT.mem| == 10 && ArityAt(KEPT.mem, 1) == 2 && KEPT.mem[5] == Fun(9, 2)
    ensures Existed(KEPT.cps[0], 2) && !Touched(KEPT.trail, 0, 2) && KEPT.cps[0].tr == 0 && KEPT.mem[2] == Ref(4)
  {
  }

  /** The link of the chain comes back as a variable of its own, not as the one it led to. */
  lemma LinkCounterexample()
    ensures NewOnHeap(KEPT, 0, [1], 5)
    ensures
      var ws := AddWrites(KEPT.mem, 0, [1], 5, false, true);
      && AttTrail.InStore(10, ws) && Sound(KEPT, KEPT.cps[0]) && Sound(PutAll(KEPT, ws), KEPT.cps[0])
      && !SameBack(KEPT, PutAll(KEPT, ws), KEPT.cps[0])
  {
    hide Valid, Fresh, Shaped, AddWrites, SameBack, Sound, VoidHarmless, Existed, Touched, ArityAt;
    KeptFresh();
    KeptValid();
    KeptShaped();
    AddTakenBack(KEPT, 0, [1], 5, false, true, 0);
  }

  /** A failure always takes DelAtts back: where it does not trail, the cell has been trailed before. */
  lemma DelTakenBack(m: Machine, snaps: seq<seq<Cell>>, atts: nat, bs: seq<nat>, k: nat, i: nat)
    requires Inv(m, snaps) && OnHeap(m, atts, bs) && k < |bs| && BlockAt(m.mem, bs[k]) && i < |m.cps|
    ensures
      var ws := [DelWrite(m.mem, atts, bs, k, Top(m).h)];
      AttTrail.InStore(|m.mem|, ws) && Sound(m, m.cps[i]) && Sound(PutAll(m, ws), m.cps[i]) &&
          SameBack(m, PutAll(m, ws), m.cps[i])
  {
    hide Apart, Tidy, Shaped, Touched;
    var c, w := m.cps[i], DelWrite(m.mem, atts, bs, k, Top(m).h);
    ChoiceSound(m, i);
    LinkSafe(m, atts, bs, k, i, w.v);
    if w.Plain? {
      assert LinkOk(m.mem, atts, bs, 0);
      assert Restorable(m, c, snaps[i]);
      if Existed(c, atts) { OldCellPointingUpIsTrailed(m, c, snaps[i], atts); }
    }
    OneTakenBack(m, c, w);
  }

  lemma OneTakenBack(m: Machine, c: Choice, w: Write)
    requires Sound(m, c) && w.at < |m.mem| && Safe(m, c, w)
    ensures AttTrail.InStore(|m.mem|, [w]) && Sound(PutAll(m, [w]), c) && SameBack(m, PutAll(m, [w]), c)
  {
    TakenBackIff(m, c, [w]);
  }

  /** A failure always takes PutAtt back. */
  lemma PutTakenBack(m: Machine, atts: nat, bs: seq<nat>, k: nat, x: nat, v: Cell, i: nat)
    requires OnHeap(m, atts, bs) && k < |bs| && IsArg(m.mem, bs[k], x) && i < |m.cps|
    ensures
      var ws := [Multi(x, v)];
      AttTrail.InStore(|m.mem|, ws) && Sound(m, m.cps[i]) && Sound(PutAll(m, ws), m.cps[i]) &&
          SameBack(m, PutAll(m, ws), m.cps[i])
  {
    hide Apart, Tidy, Linked, Touched;
    ChoiceSound(m, i);
    OneTakenBack(m, m.cps[i], Multi(x, v));
  }
}
