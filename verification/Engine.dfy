/** The emulator's own form of the backtracking machine: memory updated in place, and a trail of bare
    cells in which a variable takes one cell, a multi-assignment three and a clause reference one. */
module Engine {
  import opened Cells
  import opened Backtrack
  import T = Terms

  function Raw(e: Entry): seq<Cell> {
    match e
    case VarEntry(a) => [Ref(a)]
    case MultiEntry(a, was) => [Appl(a), was, Appl(a)]
    case RefEntry(r) => [Pair(r)]
  }

  function Flatten(tr: seq<Entry>): seq<Cell> {
    if tr == [] then [] else Flatten(tr[..|tr| - 1]) + Raw(tr[|tr| - 1])
  }

  lemma FlattenPush(tr: seq<Entry>, e: Entry)
    ensures Flatten(tr + [e]) == Flatten(tr) + Raw(e)
  {
    assert (tr + [e])[..|tr|] == tr;
  }

  lemma {:induction false} FlattenPrefix(tr: seq<Entry>, k: nat)
    requires k <= |tr|
    ensures Flatten(tr[..k]) <= Flatten(tr)
    ensures |Flatten(tr[..k])| == |Flatten(tr)| ==> k == |tr|
  {
    if k < |tr| {
      FlattenPrefix(tr[..|tr| - 1], k);
      assert tr[..|tr| - 1][..k] == tr[..k];
    } else {
      assert tr[..k] == tr;
    }
  }

  datatype ChoicePoint = ChoicePoint(cp_h: nat, addr: nat, top: nat, cp_tr: nat)

  class Emulator {
    const mem: array<Cell>
    var hr: nat
    var asp: nat
    var trail: seq<Cell>
    var b: seq<ChoicePoint>
    ghost var log: seq<Entry>
    ghost var cps: seq<Choice>
    ghost var snaps: seq<seq<Cell>>

    /** The abstract machine these registers and words stand for. */
    ghost function View(): Machine
      reads this, mem
    {
      Machine(mem[..], hr, asp, log, cps)
    }

    /** The registers agree with the abstract choice points, positions in the raw trail included. */
    ghost predicate Tied()
      reads `trail, `log, `cps, `b
    {
      && trail == Flatten(log)
      && |cps| == |b|
      && forall i :: 0 <= i < |b| ==> Same(b[i], cps[i], log)
    }

    ghost predicate Valid()
      reads this, mem
    {
      Tied() && Inv(View(), snaps)
    }

    constructor (size: nat)
      requires size > 0
      ensures Valid() && fresh(mem)
      ensures mem.Length == size && hr == 0 && asp == size && trail == [] && b == []
    {
      mem := new Cell[size](_ => Con(0));
      hr, asp, trail, b, log, cps, snaps := 0, size, [], [], [], [], [];
      new;
      assert forall a :: 0 <= a < size ==> mem[..][a] == Con(0);
    }

    /** OUTSIDE(HB, a, B): the cell is older than the current choice point. */
    predicate MustTrail(a: nat)
      reads this
    {
      b != [] && (a < b[|b| - 1].cp_h || b[|b| - 1].addr < a)
    }

    method DoTrail(ghost e: Entry, cells: seq<Cell>)
      requires Tied() && cells == Raw(e)
      modifies this`trail, this`log
      ensures Tied() && log == old(log) + [e] && trail == old(trail) + cells
    {
      FlattenPush(log, e);
      trail := trail + cells;
      log := log + [e];
      assert forall i :: 0 <= i < |b| ==> Same(b[i], cps[i], old(log)) ==> log[..cps[i].tr] == old(log)[..cps[i].tr];
    }

    /** Conditional binding of an unbound variable. */
    method Bind(a: nat, v: Cell)
      requires Valid() && Legal(View(), Op.Bind(a, v))
      modifies this`trail, this`log, mem
      ensures Valid() && View() == Step(old(View()), Op.Bind(a, v))
      ensures mem[..] == old(mem[..])[a := v]
      ensures trail == if b != [] && (a < b[|b| - 1].cp_h || b[|b| - 1].addr < a) then old(trail) + [Ref(a)]
                       else old(trail)
      ensures T.DerefCell(old(mem[..]), v) != Ref(a) ==> T.DerefCell(mem[..], Ref(a)) == T.DerefCell(old(mem[..]), v)
      ensures T.DerefCell(old(mem[..]), v) != Ref(a) ==>
        forall c :: T.DerefCell(old(mem[..]), c) != Ref(a) ==> T.DerefCell(mem[..], c) == T.DerefCell(old(mem[..]), c)
    {
      hide Recoverable, Restorable, Framed, Undo, Flatten, T.DerefCell;
      ghost var m := View();
      mem[a] := v;
      if MustTrail(a) {
        DoTrail(VarEntry(a), [Ref(a)]);
      }
      assert mem[..] == m.mem[a := v];
      StepKeepsInv(m, Op.Bind(a, v), snaps);
      BindMeans(m.mem, a, v);
    }

    /** MaBind: the old value is trailed between two tagged addresses. */
    method MaBind(a: nat, v: Cell)
      requires Valid() && Legal(View(), Op.MultiBind(a, v))
      modifies this`trail, this`log, mem
      ensures Valid() && View() == Step(old(View()), Op.MultiBind(a, v))
      ensures mem[..] == old(mem[..])[a := v]
      ensures trail == if b != [] && (a < b[|b| - 1].cp_h || b[|b| - 1].addr < a)
                       then old(trail) + [Appl(a), old(mem[..])[a], Appl(a)] else old(trail)
    {
      hide Recoverable, Restorable, Framed, Undo;
      ghost var m := View();
      if MustTrail(a) {
        DoTrail(MultiEntry(a, mem[a]), [Appl(a), mem[a], Appl(a)]);
      }
      mem[a] := v;
      assert mem[..] == m.mem[a := v];
      StepKeepsInv(m, Op.MultiBind(a, v), snaps);
    }

    /** Cells from address at on. */
    method Write(at: nat, cells: seq<Cell>)
      requires at + |cells| <= mem.Length
      modifies mem
      ensures mem[..] == Overwrite(old(mem[..]), at, cells)
      ensures mem[at..at + |cells|] == cells && mem[..at] == old(mem[..])[..at]
      ensures mem[at + |cells|..] == old(mem[..])[at + |cells|..]
    {
      forall i | 0 <= i < |cells| {
        mem[at + i] := cells[i];
      }
    }

    /** The choice point frame goes below the local stack. */
    method Push(frame: seq<Cell>)
      requires Valid() && Legal(View(), PushChoice(frame))
      modifies this, mem
      ensures Valid() && View() == Step(old(View()), PushChoice(frame))
      ensures snaps == old(snaps) + [mem[..]]
      ensures asp + |frame| == old(asp) && hr == old(hr) && trail == old(trail)
      ensures mem[asp..old(asp)] == frame && mem[..asp] == old(mem[..])[..asp]
      ensures mem[old(asp)..] == old(mem[..])[old(asp)..]
      ensures b == old(b) + [ChoicePoint(hr, asp, asp, |trail|)]
    {
      hide Recoverable, Restorable, Undo, Flatten, TrailOk;
      ghost var m := View();
      var base := asp - |frame|;
      Write(base, frame);
      b := b + [ChoicePoint(hr, base, base, |trail|)];
      asp := base;
      assert log[..|log|] == log;
      StepKeepsInv(m, PushChoice(frame), snaps);
      cps := cps + [Choice(hr, base, base, |log|)];
      snaps := snaps + [mem[..]];
    }

    /** p_dif's pseudo choice point: B and HB both at HR, so that every binding is trailed. */
    method Probe()
      requires Valid()
      modifies this`b, this`cps, this`snaps
      ensures Valid() && View() == Step(old(View()), PushProbe)
      ensures b == old(b) + [ChoicePoint(hr, hr, asp, |trail|)]
      ensures snaps == old(snaps) + [mem[..]]
    {
      ghost var m := View();
      b := b + [ChoicePoint(hr, hr, asp, |trail|)];
      assert log[..|log|] == log;
      StepKeepsInv(m, PushProbe, snaps);
      cps := cps + [Choice(hr, hr, asp, |log|)];
      snaps := snaps + [mem[..]];
    }

    /** The fail loop and the cut of the trail that ends it. */
    method FailLoop()
      requires Tied() && b != [] && TrailOk(log, mem.Length)
      requires forall i, j :: 0 <= i < j < |cps| ==> Nested(cps[i], cps[j])
      modifies this`trail, this`log, mem
      ensures Tied() && cps[|b| - 1].tr <= |old(log)| && log == old(log)[..cps[|b| - 1].tr]
      ensures mem[..] == Undo(old(mem[..]), old(log), cps[|b| - 1].tr)
    {
      ghost var t := cps[|b| - 1].tr;
      assert Same(b[|b| - 1], cps[|b| - 1], log);
      UndoWalk(mem, trail, b[|b| - 1].cp_tr, log, t);
      FlattenPrefix(log, t);
      MarksSurvive(cps, b, log);
      trail := trail[..b[|b| - 1].cp_tr];
      log := log[..t];
    }

    /** New cells on top of the global stack. */
    method Extend(cells: seq<Cell>)
      requires Valid() && Legal(View(), Grow(cells))
      modifies this`hr, mem
      ensures Valid() && View() == Step(old(View()), Grow(cells))
      ensures hr == old(hr) + |cells| && mem[old(hr)..hr] == cells
      ensures mem[..old(hr)] == old(mem[..])[..old(hr)] && mem[hr..] == old(mem[..])[hr..]
    {
      hide Recoverable, Restorable, Undo, Flatten, TrailOk;
      ghost var m := View();
      Write(hr, cells);
      hr := hr + |cells|;
      StepKeepsInv(m, Grow(cells), snaps);
    }

    /** The branch of ReplaceAtts and DelAtts that stores over a block newer than HB and does not trail. */
    method StoreAtts(atts: nat, t: Cell)
      requires Valid() && Legal(View(), AttStore(atts, t))
      modifies mem
      ensures Valid() && View() == Step(old(View()), AttStore(atts, t))
      ensures mem[..] == old(mem[..])[atts := t]
    {
      ghost var m := View();
      mem[atts] := t;
      assert mem[..] == m.mem[atts := t];
      StepKeepsInv(m, AttStore(atts, t), snaps);
    }

    /** The stacks and the trail are where cp found them, and the words that were there then have the values of snap. */
    ghost predicate Back(cp: ChoicePoint, was: seq<Cell>, snap: seq<Cell>)
      reads this, mem
    {
      && hr == cp.cp_h && asp == cp.top
      && cp.cp_tr <= |was| && trail == was[..cp.cp_tr]
      && |snap| == mem.Length && forall x :: 0 <= x < mem.Length && (x < hr || asp <= x) ==> mem[x] == snap[x]
    }

    /** p_dif's undo loop and the trail it leaves. */
    method DifLoop()
      requires Tied() && b != [] && TrailOk(log, mem.Length)
      requires forall i, j :: 0 <= i < j < |cps| ==> Nested(cps[i], cps[j])
      requires forall k :: cps[|b| - 1].tr <= k < |log| ==> !log[k].RefEntry?
      modifies this`trail, this`log, mem
      ensures Tied() && cps[|b| - 1].tr <= |old(log)| && log == old(log)[..cps[|b| - 1].tr]
      ensures mem[..] == Undo(old(mem[..]), old(log), cps[|b| - 1].tr)
    {
      ghost var t := cps[|b| - 1].tr;
      assert Same(b[|b| - 1], cps[|b| - 1], log);
      DifUndo(mem, trail, b[|b| - 1].cp_tr, log, t);
      FlattenPrefix(log, t);
      MarksSurvive(cps, b, log);
      trail := trail[..b[|b| - 1].cp_tr];
      log := log[..t];
    }

    /** p_dif after the unifier: undo its bindings, then restore HR and HB... */
    method UndoDif()
      requires Valid() && b != []
      requires forall k :: Top(View()).tr <= k < |log| ==> !log[k].RefEntry?
      modifies this`trail, this`log, this`hr, this`asp, mem
      ensures Valid() && View() == Step(old(View()), FailRetry)
      ensures Back(b[|b| - 1], old(trail), old(snaps)[|b| - 1])
    {
      hide Recoverable, Restorable, Shaped, Framed, Undo, Flatten, TrailOk;
      ghost var m := View();
      assert Same(b[|b| - 1], cps[|b| - 1], log);
      Marked(m, snaps, b[|b| - 1], trail, log);
      FailedKeeps(m, snaps);
      DifLoop();
      hr := b[|b| - 1].cp_h;
      asp := b[|b| - 1].top;
      assert View() == Failed(m);
    }

    /** ... and B. */
    method EndDif()
      requires Valid() && b != []
      requires forall k :: Top(View()).tr <= k < |log| ==> !log[k].RefEntry?
      modifies this, mem
      ensures Valid() && View() == Step(old(View()), FailTrust)
      ensures b == old(b)[..|old(b)| - 1] && snaps == old(snaps)[..|b|]
      ensures Back(old(b)[|b|], old(trail), old(snaps)[|b|])
    {
      hide Recoverable, Restorable, Shaped, Framed, Undo, Flatten, Same;
      InvFacts(View(), snaps);
      UndoDif();
      InvFacts(View(), snaps);
      DropTopKeeps(View(), snaps);
      b := b[..|b| - 1];
      cps := cps[..|b|];
      snaps := snaps[..|b|];
    }

    /** or_else (and every retry): the stacks go back, the choice point stays. */
    method OrElse()
      requires Valid() && b != []
      modifies this`trail, this`log, this`hr, this`asp, mem
      ensures Valid() && View() == Step(old(View()), FailRetry)
      ensures Back(b[|b| - 1], old(trail), old(snaps)[|b| - 1])
    {
      hide Recoverable, Restorable, Shaped, Framed, Undo, Flatten, TrailOk;
      ghost var m := View();
      assert Same(b[|b| - 1], cps[|b| - 1], log);
      Marked(m, snaps, b[|b| - 1], trail, log);
      FailedKeeps(m, snaps);
      FailLoop();
      hr := b[|b| - 1].cp_h;
      asp := b[|b| - 1].top;
      assert View() == Failed(m);
    }

    /** or_last (and every trust): the choice point goes as well. */
    method OrLast()
      requires Valid() && b != []
      modifies this, mem
      ensures Valid() && View() == Step(old(View()), FailTrust)
      ensures b == old(b)[..|old(b)| - 1] && snaps == old(snaps)[..|b|]
      ensures Back(old(b)[|b|], old(trail), old(snaps)[|b|])
    {
      hide Recoverable, Restorable, Shaped, Framed, Undo, Flatten, Same;
      InvFacts(View(), snaps);
      OrElse();
      InvFacts(View(), snaps);
      DropTopKeeps(View(), snaps);
      b := b[..|b| - 1];
      cps := cps[..|b|];
      snaps := snaps[..|b|];
    }
  }

  lemma InvFacts(m: Machine, snaps: seq<seq<Cell>>)
    requires Inv(m, snaps)
    ensures Framed(m) && |snaps| == |m.cps|
  {
  }

  lemma BindMeans(mem: seq<Cell>, a: nat, v: Cell)
    requires a < |mem| && mem[a] == Ref(a)
    ensures T.DerefCell(mem, v) != Ref(a) ==> T.DerefCell(mem[a := v], Ref(a)) == T.DerefCell(mem, v)
    ensures T.DerefCell(mem, v) != Ref(a) ==>
      forall c :: T.DerefCell(mem, c) != Ref(a) ==> T.DerefCell(mem[a := v], c) == T.DerefCell(mem, c)
  {
    if T.DerefCell(mem, v) != Ref(a) {
      T.BindingMeans(mem, a, v, Ref(a));
      forall c
        ensures T.DerefCell(mem, c) != Ref(a) ==> T.DerefCell(mem[a := v], c) == T.DerefCell(mem, c)
      {
        T.BindingMeans(mem, a, v, c);
      }
    }
  }

  /** What failing to the top choice point brings back. */
  lemma Marked(m: Machine, snaps: seq<seq<Cell>>, cp: ChoicePoint, raw: seq<Cell>, log: seq<Entry>)
    requires Inv(m, snaps) && m.cps != [] && m.trail == log && raw == Flatten(log) && Same(cp, Top(m), log)
    ensures Framed(m) && TrailOk(log, |m.mem|) && forall i, j :: 0 <= i < j < |m.cps| ==> Nested(m.cps[i], m.cps[j])
    ensures |snaps| == |m.cps|
    ensures
      var snap := snaps[|m.cps| - 1];
      && cp.cp_tr <= |raw| && Flatten(log[..Top(m).tr]) == raw[..cp.cp_tr] && |snap| == |m.mem|
      && forall x :: 0 <= x < |m.mem| && (x < cp.cp_h || cp.top <= x) ==> Failed(m).mem[x] == snap[x]
  {
    assert Restorable(m, m.cps[|m.cps| - 1], snaps[|m.cps| - 1]);
    FlattenPrefix(log, Top(m).tr);
    forall x | 0 <= x < |m.mem| && (x < cp.cp_h || cp.top <= x)
      ensures Failed(m).mem[x] == snaps[|m.cps| - 1][x]
    {
      assert Existed(Top(m), x);
    }
  }

  /** Walk the raw trail from its top down to stop, writing cells back: a tagged application pointer
      says that the next word is the old value, a pair pointer that no cell is concerned. */
  method UndoWalk(mem: array<Cell>, trail: seq<Cell>, stop: nat, ghost log: seq<Entry>, ghost base: nat)
    requires trail == Flatten(log) && base <= |log| && stop == |Flatten(log[..base])|
    requires TrailOk(log, mem.Length)
    modifies mem
    ensures mem[..] == Undo(old(mem[..]), log, base)
  {
    hide Undo, Remains, TrailOk, Flatten;
    var pt0 := |trail|;
    ghost var k, was := |log|, mem[..];
    assert log[..k] == log;
    RemainsAll(mem[..], log, base);
    while pt0 != stop
      invariant base <= k <= |log| && pt0 == |Flatten(log[..k])|
      invariant Remains(was, log, base, mem[..], k)
      decreases k
    {
      TailStep(log, base, k);
      RemainsStep(was, log, base, mem[..], k);
      var d1 := trail[pt0 - 1];
      if d1.Ref? {
        mem[d1.a] := Ref(d1.a);
        pt0 := pt0 - 1;
      } else if d1.Pair? {
        pt0 := pt0 - 1;
      } else {
        mem[d1.p] := trail[pt0 - 2];
        pt0 := pt0 - 3;
      }
      k := k - 1;
    }
    TailStep(log, base, k);
    RemainsNone(was, log, base, mem[..]);
  }

  /** p_dif's own undo loop, which knows variables and multi-assignments only. */
  method DifUndo(mem: array<Cell>, trail: seq<Cell>, pt0: nat, ghost log: seq<Entry>, ghost base: nat)
    requires trail == Flatten(log) && base <= |log| && pt0 == |Flatten(log[..base])|
    requires TrailOk(log, mem.Length)
    requires forall k :: base <= k < |log| ==> !log[k].RefEntry?
    modifies mem
    ensures mem[..] == Undo(old(mem[..]), log, base)
  {
    hide Undo, Remains, TrailOk, Flatten;
    var tr := |trail|;
    ghost var k, was := |log|, mem[..];
    assert log[..k] == log;
    RemainsAll(mem[..], log, base);
    while tr != pt0
      invariant base <= k <= |log| && tr == |Flatten(log[..k])|
      invariant Remains(was, log, base, mem[..], k)
      decreases k
    {
      TailStep(log, base, k);
      RemainsStep(was, log, base, mem[..], k);
      assert !log[k - 1].RefEntry?;
      var d1 := trail[tr - 1];
      if d1.Ref? {
        mem[d1.a] := Ref(d1.a);
        tr := tr - 1;
      } else {
        mem[d1.p] := trail[tr - 2];
        tr := tr - 3;
      }
      k := k - 1;
    }
    TailStep(log, base, k);
    RemainsNone(was, log, base, mem[..]);
  }

  /** Undoing the first k entries over mem still leads where undoing the whole log over was leads. */
  ghost predicate Remains(was: seq<Cell>, log: seq<Entry>, base: nat, mem: seq<Cell>, k: nat) {
    && |mem| == |was| && TrailOk(log, |was|) && base <= k <= |log|
    && TrailOk(log[..k], |was|)
    && Undo(was, log, base) == Undo(mem, log[..k], base)
  }

  lemma RemainsAll(was: seq<Cell>, log: seq<Entry>, base: nat)
    requires base <= |log| && TrailOk(log, |was|)
    ensures Remains(was, log, base, was, |log|)
  {
    assert log[..|log|] == log;
  }

  lemma RemainsNone(was: seq<Cell>, log: seq<Entry>, base: nat, mem: seq<Cell>)
    requires Remains(was, log, base, mem, base)
    ensures base <= |log| && TrailOk(log, |was|) && mem == Undo(was, log, base)
  {
  }

  lemma RemainsStep(was: seq<Cell>, log: seq<Entry>, base: nat, mem: seq<Cell>, k: nat)
    requires Remains(was, log, base, mem, k) && base < k
    ensures InRange(log[k - 1], |mem|)
    ensures Remains(was, log, base, Reset(mem, log[k - 1]), k - 1)
  {
    assert log[..k][..k - 1] == log[..k - 1];
    assert InRange(log[..k][k - 1], |mem|);
  }

  ghost predicate Same(cp: ChoicePoint, c: Choice, log: seq<Entry>) {
    && cp.cp_h == c.h && cp.addr == c.addr && cp.top == c.top
    && c.tr <= |log| && cp.cp_tr == |Flatten(log[..c.tr])|
  }

  /** The raw words from bot to top are those of entry e. */
  ghost predicate RawTop(raw: seq<Cell>, top: nat, bot: nat, e: Entry) {
    && bot < top <= |raw|
    && match e
       case VarEntry(a) => bot == top - 1 && raw[top - 1] == Ref(a)
       case RefEntry(r) => bot == top - 1 && raw[top - 1] == Pair(r)
       case MultiEntry(a, was) => bot == top - 3 && raw[top - 1] == Appl(a) && raw[top - 2] == was
  }

  /** The last entry of the part of the trail still to be undone, as raw cells. */
  lemma TailStep(log: seq<Entry>, base: nat, k: nat)
    requires base <= k <= |log|
    ensures Flatten(log[..base]) <= Flatten(log[..k]) <= Flatten(log)
    ensures |Flatten(log[..k])| == |Flatten(log[..base])| ==> k == base
    ensures 0 < k ==> Flatten(log[..k - 1]) <= Flatten(log[..k])
    ensures 0 < k ==> RawTop(Flatten(log), |Flatten(log[..k])|, |Flatten(log[..k - 1])|, log[k - 1])
  {
    FlattenPrefix(log, k);
    FlattenPrefix(log[..k], base);
    assert log[..k][..base] == log[..base];
    if 0 < k {
      assert log[..k][..k - 1] == log[..k - 1];
      FlattenPrefix(log, k);
      assert Flatten(log[..k]) == Flatten(log[..k - 1]) + Raw(log[k - 1]);
    }
  }

  /** Cutting the trail back to the top choice point keeps the marks of all of them. */
  lemma MarksSurvive(cps: seq<Choice>, b: seq<ChoicePoint>, log: seq<Entry>)
    requires |b| == |cps| > 0
    requires forall i, j :: 0 <= i < j < |cps| ==> Nested(cps[i], cps[j])
    requires forall i :: 0 <= i < |b| ==> Same(b[i], cps[i], log)
    ensures
      var t := cps[|cps| - 1].tr;
      t <= |log| && forall i :: 0 <= i < |b| ==> Same(b[i], cps[i], log[..t])
  {
    var j := |b| - 1;
    assert Same(b[j], cps[j], log);
    forall i | 0 <= i < |b|
      ensures Same(b[i], cps[i], log[..cps[j].tr])
    {
      assert Same(b[i], cps[i], log);
      assert i < j ==> Nested(cps[i], cps[j]);
      assert log[..cps[j].tr][..cps[i].tr] == log[..cps[i].tr];
    }
  }
}
