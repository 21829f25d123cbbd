/** Choice points, the trail and the fail loop.

    The global stack grows upwards from 0 to hr, the local stack downwards from the end of memory to
    asp. A choice point remembers where both stood, so the cells that existed when it was pushed are
    those below h or at and above top. */
module Backtrack {
  import opened Cells

  /** One logical trail entry; RefEntry stands for a clause or index reference, which no cell records. */
  datatype Entry = VarEntry(at: nat) | MultiEntry(at: nat, was: Cell) | RefEntry(ref: nat)

  datatype Choice = Choice(h: nat, addr: nat, top: nat, tr: nat)

  datatype Machine = Machine(mem: seq<Cell>, hr: nat, asp: nat, trail: seq<Entry>, cps: seq<Choice>)

  datatype Op =
    | Bind(at: nat, v: Cell)
    | MultiBind(at: nat, v: Cell)
    | Store(at: nat, v: Cell)
    | AttStore(at: nat, v: Cell)
    | NoteRef(ref: nat)
    | Grow(cells: seq<Cell>)
    | Alloc(cells: seq<Cell>)
    | Dealloc(n: nat)
    | PushChoice(frame: seq<Cell>)
    | PushProbe
    | FailRetry
    | FailTrust

  predicate InRange(e: Entry, n: nat) {
    e.RefEntry? || e.at < n
  }

  predicate TrailOk(tr: seq<Entry>, n: nat) {
    forall k :: 0 <= k < |tr| ==> InRange(tr[k], n)
  }

  function Reset(mem: seq<Cell>, e: Entry): (r: seq<Cell>)
    requires InRange(e, |mem|)
    ensures |r| == |mem|
  {
    match e
    case VarEntry(a) => mem[a := Ref(a)]
    case MultiEntry(a, was) => mem[a := was]
    case RefEntry(_) => mem
  }

  /** The store after the trail is undone down to base entries. */
  function Undo(mem: seq<Cell>, tr: seq<Entry>, base: nat): (r: seq<Cell>)
    requires base <= |tr| && TrailOk(tr, |mem|)
    ensures |r| == |mem|
    decreases |tr|
  {
    if |tr| == base then mem
    else Undo(Reset(mem, tr[|tr| - 1]), tr[..|tr| - 1], base)
  }

  ghost predicate Touched(tr: seq<Entry>, base: nat, x: nat) {
    exists k :: base <= k < |tr| && !tr[k].RefEntry? && tr[k].at == x
  }

  // ---------------------------------------------------------------- the trail as an undo log

  /** A cell named by the trail gets the same value back whatever it holds now; another keeps its own. */
  lemma {:induction false} UndoPointwise(m1: seq<Cell>, m2: seq<Cell>, tr: seq<Entry>, base: nat, x: nat)
    requires |m1| == |m2| && x < |m1| && base <= |tr| && TrailOk(tr, |m1|)
    requires m1[x] == m2[x] || Touched(tr, base, x)
    ensures Undo(m1, tr, base)[x] == Undo(m2, tr, base)[x]
    decreases |tr|
  {
    if |tr| > base {
      var e, rest := tr[|tr| - 1], tr[..|tr| - 1];
      var r1, r2 := Reset(m1, e), Reset(m2, e);
      if r1[x] != r2[x] {
        var k :| base <= k < |tr| && !tr[k].RefEntry? && tr[k].at == x;
        assert rest[k] == tr[k];
        assert Touched(rest, base, x);
      }
      UndoPointwise(r1, r2, rest, base, x);
    }
  }

  lemma {:induction false} UndoUntouched(mem: seq<Cell>, tr: seq<Entry>, base: nat, x: nat)
    requires x < |mem| && base <= |tr| && TrailOk(tr, |mem|)
    requires !Touched(tr, base, x)
    ensures Undo(mem, tr, base)[x] == mem[x]
    decreases |tr|
  {
    if |tr| > base {
      var e, rest := tr[|tr| - 1], tr[..|tr| - 1];
      assert forall k :: base <= k < |rest| ==> rest[k] == tr[k];
      assert !Touched(rest, base, x);
      UndoUntouched(Reset(mem, e), rest, base, x);
    }
  }

  lemma {:induction false} UndoSplit(mem: seq<Cell>, tr: seq<Entry>, mid: nat, base: nat)
    requires base <= mid <= |tr| && TrailOk(tr, |mem|)
    ensures Undo(mem, tr, base) == Undo(Undo(mem, tr, mid), tr[..mid], base)
    decreases |tr|
  {
    if |tr| > mid {
      var rest := tr[..|tr| - 1];
      UndoSplit(Reset(mem, tr[|tr| - 1]), rest, mid, base);
      assert rest[..mid] == tr[..mid];
    } else {
      assert tr[..mid] == tr;
    }
  }

  lemma UndoPush(mem: seq<Cell>, tr: seq<Entry>, e: Entry, base: nat)
    requires base <= |tr| && TrailOk(tr, |mem|) && InRange(e, |mem|)
    ensures TrailOk(tr + [e], |mem|)
    ensures Undo(mem, tr + [e], base) == Undo(Reset(mem, e), tr, base)
  {
    assert (tr + [e])[..|tr|] == tr;
  }

  /** Storing without trailing is harmless for the undo exactly when the trail already names the cell
      or the value stored is the one the undo would leave there. */
  lemma UntrailedStoreSafeIff(mem: seq<Cell>, tr: seq<Entry>, base: nat, x: nat, v: Cell)
    requires x < |mem| && base <= |tr| && TrailOk(tr, |mem|)
    ensures Undo(mem[x := v], tr, base) == Undo(mem, tr, base) <==> Touched(tr, base, x) || v == mem[x]
  {
    if Touched(tr, base, x) || v == mem[x] {
      forall y | 0 <= y < |mem|
        ensures Undo(mem[x := v], tr, base)[y] == Undo(mem, tr, base)[y]
      {
        UndoPointwise(mem[x := v], mem, tr, base, y);
      }
    } else {
      UndoUntouched(mem, tr, base, x);
      UndoUntouched(mem[x := v], tr, base, x);
    }
  }

  // ---------------------------------------------------------------- the machine

  function Top(m: Machine): Choice
    requires m.cps != []
  {
    m.cps[|m.cps| - 1]
  }

  predicate Live(m: Machine, a: nat) {
    a < |m.mem| && (a < m.hr || m.asp <= a)
  }

  /** A cell a Prolog term may live in: the word where B itself starts is not one. */
  predicate IsCell(m: Machine, a: nat) {
    Live(m, a) && (m.cps != [] && Top(m).addr == Top(m).top ==> a != Top(m).addr)
  }

  /** The test of TRAIL and MATRAIL: the cell is older than the current choice point. */
  predicate Outside(m: Machine, a: nat) {
    m.cps != [] && (a < Top(m).h || Top(m).addr < a)
  }

  predicate Existed(c: Choice, a: nat) {
    a < c.h || c.top <= a
  }

  function Logged(m: Machine, a: nat, e: Entry): seq<Entry> {
    if Outside(m, a) then m.trail + [e] else m.trail
  }

  function Overwrite(mem: seq<Cell>, at: nat, cells: seq<Cell>): (r: seq<Cell>)
    requires at + |cells| <= |mem|
    ensures |r| == |mem|
    ensures forall a :: 0 <= a < |mem| ==>
      r[a] == if at <= a < at + |cells| then cells[a - at] else mem[a]
  {
    mem[..at] + cells + mem[at + |cells|..]
  }

  /** The stacks, the trail and the choice points fit together. */
  predicate Framed(m: Machine) {
    && m.hr < m.asp <= |m.mem|
    && TrailOk(m.trail, |m.mem|)
    && (forall i :: 0 <= i < |m.cps| ==> ChoiceOk(m, m.cps[i]))
    && (forall i, j :: 0 <= i < j < |m.cps| ==> Nested(m.cps[i], m.cps[j]))
  }

  /** And every cell holds a term. */
  predicate Shaped(m: Machine) {
    && Framed(m)
    && forall a :: 0 <= a < |m.mem| && Live(m, a) ==> PointsBelow(m.mem[a], m.hr)
  }

  predicate ChoiceOk(m: Machine, c: Choice) {
    && c.h <= m.hr && m.asp <= c.top <= |m.mem|
    && c.h <= c.addr <= c.top && c.h < c.top
    && c.tr <= |m.trail|
    && (c.addr == c.top || c.addr == c.h)
  }

  predicate Nested(c: Choice, d: Choice) {
    c.h <= d.h && d.top <= c.top && c.tr <= d.tr
  }

  predicate Legal(m: Machine, op: Op)
  {
    match op
    case Bind(a, v) => IsCell(m, a) && m.mem[a] == Ref(a) && PointsBelow(v, m.hr)
    case MultiBind(a, v) => IsCell(m, a) && PointsBelow(v, m.hr)
    case Store(a, v) => IsCell(m, a) && !Outside(m, a) && PointsBelow(v, m.hr)
    case AttStore(a, v) =>
      && IsCell(m, a) && m.cps != [] && m.mem[a].Appl? && Top(m).h <= m.mem[a].p
      && PointsBelow(v, m.hr)
    case NoteRef(_) => true
    case Grow(cells) =>
      && m.hr + |cells| < m.asp
      && forall k :: 0 <= k < |cells| ==> PointsBelow(cells[k], m.hr + |cells|)
    case Alloc(cells) =>
      && m.hr + |cells| < m.asp
      && forall k :: 0 <= k < |cells| ==> PointsBelow(cells[k], m.hr)
    case Dealloc(n) => m.asp + n <= if m.cps == [] then |m.mem| else Top(m).top
    case PushChoice(frame) =>
      && |frame| > 0 && m.hr + |frame| < m.asp
      && forall k :: 0 <= k < |frame| ==> PointsBelow(frame[k], m.hr)
    case PushProbe => true
    case FailRetry => m.cps != []
    case FailTrust => m.cps != []
  }

  /** What the fail loop and the retry instruction leave: store undone, stacks cut back. */
  function Failed(m: Machine): Machine
    requires Framed(m) && m.cps != []
  {
    m.(mem := Undo(m.mem, m.trail, Top(m).tr), trail := m.trail[..Top(m).tr], hr := Top(m).h, asp := Top(m).top)
  }

  function Step(m: Machine, op: Op): Machine
    requires Shaped(m) && Legal(m, op)
  {
    match op
    case Bind(a, v) => m.(mem := m.mem[a := v], trail := Logged(m, a, VarEntry(a)))
    case MultiBind(a, v) => m.(mem := m.mem[a := v], trail := Logged(m, a, MultiEntry(a, m.mem[a])))
    case Store(a, v) => m.(mem := m.mem[a := v])
    case AttStore(a, v) => m.(mem := m.mem[a := v])
    case NoteRef(r) => m.(trail := m.trail + [RefEntry(r)])
    case Grow(cells) => m.(mem := Overwrite(m.mem, m.hr, cells), hr := m.hr + |cells|)
    case Alloc(cells) => m.(mem := Overwrite(m.mem, m.asp - |cells|, cells), asp := m.asp - |cells|)
    case Dealloc(n) => m.(asp := m.asp + n)
    case PushChoice(frame) =>
      var b := m.asp - |frame|;
      m.(mem := Overwrite(m.mem, b, frame), asp := b,
         cps := m.cps + [Choice(m.hr, b, b, |m.trail|)])
    case PushProbe => m.(cps := m.cps + [Choice(m.hr, m.hr, m.asp, |m.trail|)])
    case FailRetry => Failed(m)
    case FailTrust => Failed(m).(cps := m.cps[..|m.cps| - 1])
  }

  /** Every word after a step that is no failure, and the trail: the value stored, the cells put on a stack, or what was
      there. */
  lemma StepStores(m: Machine, op: Op)
    requires Shaped(m) && Legal(m, op) && !op.FailRetry? && !op.FailTrust?
    ensures
      var n := Step(m, op);
      && |n.mem| == |m.mem|
      && (forall x :: 0 <= x < |m.mem| ==>
            n.mem[x] == if (op.Bind? || op.MultiBind? || op.Store? || op.AttStore?) && x == op.at then op.v
                        else if op.Grow? && m.hr <= x < n.hr then op.cells[x - m.hr]
                        else if op.Alloc? && n.asp <= x < m.asp then op.cells[x - n.asp]
                        else if op.PushChoice? && n.asp <= x < m.asp then op.frame[x - n.asp]
                        else m.mem[x])
      && n.trail == m.trail + (if op.Bind? && Outside(m, op.at) then [VarEntry(op.at)]
                               else if op.MultiBind? && Outside(m, op.at) then [MultiEntry(op.at, m.mem[op.at])]
                               else if op.NoteRef? then [RefEntry(op.ref)] else [])
      && n.hr == m.hr + (if op.Grow? then |op.cells| else 0)
      && n.asp == (if op.Dealloc? then m.asp + op.n else if op.Alloc? then m.asp - |op.cells|
                   else if op.PushChoice? then m.asp - |op.frame| else m.asp)
  {
  }

  // ---------------------------------------------------------------- what every step keeps

  /** Undoing to a choice point gives back the store it was pushed over. */
  ghost predicate Restorable(m: Machine, c: Choice, snap: seq<Cell>)
  {
    && |snap| == |m.mem| && TrailOk(m.trail, |m.mem|) && c.tr <= |m.trail|
    && forall a :: 0 <= a < |m.mem| && Existed(c, a) ==>
         Undo(m.mem, m.trail, c.tr)[a] == snap[a] && PointsBelow(snap[a], c.h)
  }

  /** What failing relies on: snaps[i] is the store as it was when choice point i was pushed. */
  ghost predicate Recoverable(m: Machine, snaps: seq<seq<Cell>>) {
    && Framed(m)
    && |snaps| == |m.cps|
    && forall i :: 0 <= i < |m.cps| ==> Restorable(m, m.cps[i], snaps[i])
  }

  /** The invariant of every run. */
  ghost predicate Inv(m: Machine, snaps: seq<seq<Cell>>) {
    Shaped(m) && Recoverable(m, snaps)
  }

  ghost function NextSnaps(m: Machine, op: Op, snaps: seq<seq<Cell>>): seq<seq<Cell>>
    requires Shaped(m) && Legal(m, op) && |snaps| == |m.cps|
  {
    match op
    case PushChoice(_) => snaps + [Step(m, op).mem]
    case PushProbe => snaps + [m.mem]
    case FailTrust => snaps[..|snaps| - 1]
    case _ => snaps
  }

  /** The heart of the untrailed attribute stores: a cell that existed when a choice point was pushed
      and now points above its h has been trailed since. */
  lemma OldCellPointingUpIsTrailed(m: Machine, c: Choice, snap: seq<Cell>, x: nat)
    requires Restorable(m, c, snap) && x < |m.mem| && Existed(c, x)
    requires !PointsBelow(m.mem[x], c.h)
    ensures Touched(m.trail, c.tr, x)
  {
    if !Touched(m.trail, c.tr, x) {
      UndoUntouched(m.mem, m.trail, c.tr, x);
    }
  }

  /** Writes that trail the cell, or hit cells newer than the choice point, keep it restorable. */
  lemma UntrailedKeeps(m: Machine, c: Choice, snap: seq<Cell>, mem': seq<Cell>)
    requires Restorable(m, c, snap) && |mem'| == |m.mem|
    requires forall a :: 0 <= a < |m.mem| && Existed(c, a) ==> mem'[a] == m.mem[a] || Touched(m.trail, c.tr, a)
    ensures Restorable(m.(mem := mem'), c, snap)
  {
    forall a | 0 <= a < |m.mem| && Existed(c, a)
      ensures Undo(mem', m.trail, c.tr)[a] == snap[a]
    {
      UndoPointwise(mem', m.mem, m.trail, c.tr, a);
    }
  }

  lemma LoggedKeeps(m: Machine, c: Choice, snap: seq<Cell>, a: nat, v: Cell, e: Entry)
    requires Restorable(m, c, snap) && a < |m.mem| && !e.RefEntry? && e.at == a
    requires Reset(m.mem[a := v], e) == m.mem
    requires Outside(m, a) || !Existed(c, a)
    ensures Restorable(m.(mem := m.mem[a := v], trail := Logged(m, a, e)), c, snap)
  {
    if Outside(m, a) {
      UndoPush(m.mem[a := v], m.trail, e, c.tr);
    } else {
      UntrailedKeeps(m, c, snap, m.mem[a := v]);
    }
  }

  lemma InsideIsNew(m: Machine, a: nat, i: nat)
    requires Shaped(m) && IsCell(m, a) && !Outside(m, a) && i < |m.cps|
    ensures !Existed(m.cps[i], a)
  {
    var j := |m.cps| - 1;
    assert ChoiceOk(m, m.cps[j]);
    assert i < j ==> Nested(m.cps[i], m.cps[j]);
  }

  /** Cells not yet written do no harm: failing cuts them off. */
  lemma FailedKeeps(m: Machine, snaps: seq<seq<Cell>>)
    requires Recoverable(m, snaps) && m.cps != []
    ensures Inv(Failed(m), snaps)
  {
    var t, n, k := Top(m), Failed(m), |m.cps| - 1;
    assert Restorable(m, m.cps[k], snaps[k]);
    forall i | 0 <= i < |m.cps|
      ensures Restorable(n, m.cps[i], snaps[i]) && ChoiceOk(n, m.cps[i])
    {
      assert Restorable(m, m.cps[i], snaps[i]);
      assert i < k ==> Nested(m.cps[i], m.cps[k]);
      UndoSplit(m.mem, m.trail, t.tr, m.cps[i].tr);
    }
    forall a | 0 <= a < |n.mem| && Live(n, a)
      ensures PointsBelow(n.mem[a], n.hr)
    {
      assert Existed(t, a);
    }
  }

  lemma StoreKeepsShape(m: Machine, a: nat, v: Cell, tr: seq<Entry>)
    requires Shaped(m) && a < |m.mem| && PointsBelow(v, m.hr)
    requires TrailOk(tr, |m.mem|) && |tr| >= |m.trail|
    ensures Shaped(m.(mem := m.mem[a := v], trail := tr))
  {
    var n := m.(mem := m.mem[a := v], trail := tr);
    assert forall i :: 0 <= i < |m.cps| ==> ChoiceOk(m, m.cps[i]) ==> ChoiceOk(n, m.cps[i]);
  }

  lemma BindKeeps(m: Machine, op: Op, snaps: seq<seq<Cell>>)
    requires Inv(m, snaps) && Legal(m, op) && (op.Bind? || op.MultiBind?)
    ensures Inv(Step(m, op), snaps)
  {
    var n, a := Step(m, op), op.at;
    var e := if op.Bind? then VarEntry(a) else MultiEntry(a, m.mem[a]);
    assert Reset(m.mem[a := op.v], e) == m.mem;
    StoreKeepsShape(m, a, op.v, n.trail);
    forall i | 0 <= i < |m.cps|
      ensures Restorable(n, m.cps[i], snaps[i])
    {
      if !Outside(m, a) { InsideIsNew(m, a, i); }
      assert Restorable(m, m.cps[i], snaps[i]);
      LoggedKeeps(m, m.cps[i], snaps[i], a, op.v, e);
    }
  }

  lemma UntrailedStoreKeeps(m: Machine, op: Op, snaps: seq<seq<Cell>>)
    requires Inv(m, snaps) && Legal(m, op) && (op.Store? || op.AttStore?)
    ensures Inv(Step(m, op), snaps)
  {
    var n, a, j := Step(m, op), op.at, |m.cps| - 1;
    StoreKeepsShape(m, a, op.v, m.trail);
    forall i | 0 <= i < |m.cps|
      ensures Restorable(n, m.cps[i], snaps[i])
    {
      assert Restorable(m, m.cps[i], snaps[i]);
      assert i < j ==> Nested(m.cps[i], m.cps[j]);
      if op.Store? {
        InsideIsNew(m, a, i);
      } else if Existed(m.cps[i], a) {
        OldCellPointingUpIsTrailed(m, m.cps[i], snaps[i], a);
      }
      UntrailedKeeps(m, m.cps[i], snaps[i], n.mem);
    }
  }

  lemma FreshKeeps(m: Machine, op: Op, snaps: seq<seq<Cell>>)
    requires Inv(m, snaps) && Legal(m, op) && (op.Grow? || op.Alloc? || op.PushChoice? || op.PushProbe?)
    ensures Inv(Step(m, op), NextSnaps(m, op, snaps))
  {
    var n, snaps' := Step(m, op), NextSnaps(m, op, snaps);
    forall a | 0 <= a < |n.mem| && Live(n, a)
      ensures PointsBelow(n.mem[a], n.hr)
    {
      assert Live(m, a) ==> PointsBelow(m.mem[a], m.hr);
    }
    forall i | 0 <= i < |m.cps|
      ensures Restorable(n, m.cps[i], snaps[i]) && ChoiceOk(n, m.cps[i])
    {
      assert Restorable(m, m.cps[i], snaps[i]) && ChoiceOk(m, m.cps[i]);
      UntrailedKeeps(m, m.cps[i], snaps[i], n.mem);
    }
    if op.PushChoice? || op.PushProbe? {
      var c := n.cps[|m.cps|];
      assert snaps'[|m.cps|] == n.mem;
      assert Restorable(n, c, n.mem);
      assert ChoiceOk(n, c);
    }
  }

  /** Every step keeps the invariant. */
  lemma StepKeepsInv(m: Machine, op: Op, snaps: seq<seq<Cell>>)
    requires Inv(m, snaps) && Legal(m, op)
    ensures Inv(Step(m, op), NextSnaps(m, op, snaps))
  {
    match op
    case Bind(_, _) => BindKeeps(m, op, snaps);
    case MultiBind(_, _) => BindKeeps(m, op, snaps);
    case Store(_, _) => UntrailedStoreKeeps(m, op, snaps);
    case AttStore(_, _) => UntrailedStoreKeeps(m, op, snaps);
    case NoteRef(r) => NoteRefKeeps(m, r, snaps);
    case Grow(_) => FreshKeeps(m, op, snaps);
    case Alloc(_) => FreshKeeps(m, op, snaps);
    case Dealloc(n) => DeallocKeeps(m, n, snaps);
    case PushChoice(_) => FreshKeeps(m, op, snaps);
    case PushProbe => FreshKeeps(m, op, snaps);
    case FailRetry => FailedKeeps(m, snaps);
    case FailTrust =>
      FailedKeeps(m, snaps);
      DropTopKeeps(Failed(m), snaps);
  }

  lemma NoteRefKeeps(m: Machine, r: nat, snaps: seq<seq<Cell>>)
    requires Inv(m, snaps)
    ensures Inv(Step(m, NoteRef(r)), snaps)
  {
    var n := Step(m, NoteRef(r));
    forall i | 0 <= i < |m.cps|
      ensures Restorable(n, m.cps[i], snaps[i]) && ChoiceOk(n, m.cps[i])
    {
      assert Restorable(m, m.cps[i], snaps[i]) && ChoiceOk(m, m.cps[i]);
      UndoPush(m.mem, m.trail, RefEntry(r), m.cps[i].tr);
    }
  }

  lemma DeallocKeeps(m: Machine, k: nat, snaps: seq<seq<Cell>>)
    requires Inv(m, snaps) && Legal(m, Dealloc(k))
    ensures Inv(Step(m, Dealloc(k)), snaps)
  {
    var n, j := Step(m, Dealloc(k)), |m.cps| - 1;
    forall i | 0 <= i < |m.cps|
      ensures Restorable(n, m.cps[i], snaps[i]) && ChoiceOk(n, m.cps[i])
    {
      assert Restorable(m, m.cps[i], snaps[i]) && ChoiceOk(m, m.cps[i]);
      assert i < j ==> Nested(m.cps[i], m.cps[j]);
    }
    assert forall a :: 0 <= a < |n.mem| && Live(n, a) ==> Live(m, a);
  }

  lemma DropTopKeeps(m: Machine, snaps: seq<seq<Cell>>)
    requires Inv(m, snaps) && m.cps != []
    ensures Inv(m.(cps := m.cps[..|m.cps| - 1]), snaps[..|snaps| - 1])
  {
    var n := m.(cps := m.cps[..|m.cps| - 1]);
    forall i | 0 <= i < |n.cps|
      ensures Restorable(n, n.cps[i], snaps[i]) && ChoiceOk(n, n.cps[i])
    {
      assert Restorable(m, m.cps[i], snaps[i]) && ChoiceOk(m, m.cps[i]);
    }
  }

  // ---------------------------------------------------------------- whole runs

  /** Every step of the run is legal and the lowest depth choice points stay. */
  predicate LegalRun(m: Machine, ops: seq<Op>, depth: nat)
    decreases |ops|
  {
    && Shaped(m) && depth <= |m.cps|
    && (ops != [] ==>
          && Legal(m, ops[0])
          && LegalRun(Step(m, ops[0]), ops[1..], depth))
  }

  function Run(m: Machine, ops: seq<Op>, depth: nat): (r: Machine)
    requires LegalRun(m, ops, depth)
    ensures Shaped(r) && depth <= |r.cps|
    decreases |ops|
  {
    if ops == [] then m else Run(Step(m, ops[0]), ops[1..], depth)
  }

  lemma {:induction false} RunKeepsInv(m: Machine, ops: seq<Op>, depth: nat, snaps: seq<seq<Cell>>)
    returns (snaps': seq<seq<Cell>>)
    requires Inv(m, snaps) && LegalRun(m, ops, depth)
    ensures Inv(Run(m, ops, depth), snaps')
    ensures snaps'[..depth] == snaps[..depth]
    ensures Run(m, ops, depth).cps[..depth] == m.cps[..depth]
    decreases |ops|
  {
    if ops == [] {
      snaps' := snaps;
    } else {
      StepKeepsInv(m, ops[0], snaps);
      var next, sn := Step(m, ops[0]), NextSnaps(m, ops[0], snaps);
      assert next.cps[..depth] == m.cps[..depth] && sn[..depth] == snaps[..depth];
      snaps' := RunKeepsInv(next, ops[1..], depth, sn);
    }
  }

  /** Failing to a choice point, after any run that leaves it in place, gives back exactly the store
      it was pushed over, the trail and both stacks. */
  lemma FailureRestores(m: Machine, push: Op, ops: seq<Op>, snaps: seq<seq<Cell>>)
    requires Inv(m, snaps) && (push.PushChoice? || push.PushProbe?) && Legal(m, push)
    requires LegalRun(Step(m, push), ops, |m.cps| + 1)
    requires |Run(Step(m, push), ops, |m.cps| + 1).cps| == |m.cps| + 1
    ensures
      var pushed := Step(m, push);
      var back := Failed(Run(pushed, ops, |m.cps| + 1));
      && (forall a :: 0 <= a < |m.mem| && Live(pushed, a) ==> |back.mem| == |m.mem| && back.mem[a] == pushed.mem[a])
      && back.trail == m.trail && back.hr == m.hr && back.asp == pushed.asp && back.cps == pushed.cps
  {
    var pushed, d := Step(m, push), |m.cps| + 1;
    StepKeepsInv(m, push, snaps);
    var snaps1 := NextSnaps(m, push, snaps);
    var last := Run(pushed, ops, d);
    var snaps' := RunKeepsInv(pushed, ops, d, snaps1);
    assert last.cps == last.cps[..d] == pushed.cps[..d] == pushed.cps;
    assert snaps'[|m.cps|] == snaps'[..d][|m.cps|] == snaps1[..d][|m.cps|] == pushed.mem;
    assert Restorable(last, last.cps[|m.cps|], snaps'[|m.cps|]);
    FailedKeeps(last, snaps');
    TrailPrefix(pushed, ops, d);
    assert last.trail[..|m.trail|] == pushed.trail[..|m.trail|] == m.trail;
  }

  /** No run touches the trail below its lowest choice point that stays. */
  lemma {:induction false} TrailPrefix(m: Machine, ops: seq<Op>, depth: nat)
    requires LegalRun(m, ops, depth) && 0 < depth
    ensures
      var t := m.cps[depth - 1].tr;
      var n := Run(m, ops, depth);
      Shaped(n) && t <= |n.trail| && t <= |m.trail| && n.trail[..t] == m.trail[..t]
    decreases |ops|
  {
    var t := m.cps[depth - 1].tr;
    assert ChoiceOk(m, m.cps[depth - 1]);
    if ops != [] {
      var next := Step(m, ops[0]);
      assert next.cps[depth - 1] == m.cps[depth - 1];
      assert depth < |m.cps| ==> Nested(m.cps[depth - 1], Top(m));
      assert t <= |next.trail| && next.trail[..t] == m.trail[..t];
      TrailPrefix(next, ops[1..], depth);
    }
  }
}
