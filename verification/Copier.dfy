/** The iterative term copier: an explicit stack of words to go on from, and [] left in the words being
    visited so that a cyclic term ends. */
module Copier {
  import opened Cells
  import opened Terms

  /** TermNil. */
  const NIL: Cell := Con(0)

  // ---------------------------------------------------------------- what a copy should be

  datatype Term = Var(a: nat) | Atom(c: nat) | Blob(p: nat) | Cmp(k: Shape, args: seq<Term>)

  /** The store with the words being visited overwritten. */
  function Damaged(m: seq<Cell>, busy: set<nat>): (r: seq<Cell>)
    ensures |r| == |m|
    ensures forall x :: 0 <= x < |m| ==> r[x] == if x in busy then NIL else m[x]
  {
    seq(|m|, (x: nat) requires x < |m| => if x in busy then NIL else m[x])
  }

  /** What word a stands for while the words of busy are being visited. */
  function Target(m: seq<Cell>, busy: set<nat>, a: nat): Cell {
    if a < |m| then DerefCell(Damaged(m, busy), Damaged(m, busy)[a]) else NIL
  }

  /** A compound is entered once on every path: met again inside itself it reads []. */
  predicate Enters(m: seq<Cell>, slots: set<nat>, busy: set<nat>, a: nat) {
    a in slots && a !in busy && IsCompound(m, Target(m, busy, a))
  }

  function TermAt(m: seq<Cell>, slots: set<nat>, busy: set<nat>, a: nat): Term
    decreases slots - busy, 0
  {
    var d := Target(m, busy, a);
    if Enters(m, slots, busy, a) then
      var k := ShapeOf(m, d);
      Cmp(k, TermsAt(m, slots, busy + {a}, Base(k, d.p), Arity(k)))
    else if d.Ref? then Var(d.a)
    else if d.Con? then Atom(d.c)
    else if d.Fun? then Atom(d.name)
    else Blob(d.p)
  }

  function TermsAt(m: seq<Cell>, slots: set<nat>, busy: set<nat>, a: nat, n: nat): (r: seq<Term>)
    ensures |r| == n
    decreases slots - busy, n + 1
  {
    if n == 0 then [] else [TermAt(m, slots, busy, a)] + TermsAt(m, slots, busy, a + 1, n - 1)
  }

  /** Words a copy of t takes. */
  function Space(t: Term): nat {
    if t.Cmp? then Words(t.k) + SpaceAll(t.args) else 0
  }

  function SpaceAll(ts: seq<Term>): nat {
    if ts == [] then 0 else Space(ts[0]) + SpaceAll(ts[1..])
  }

  /** Cell c is the term t, with no reference in between, all its blocks within [lo, hi). */
  predicate Reads(m: seq<Cell>, lo: nat, hi: nat, c: Cell, t: Term)
    decreases t, 0
  {
    match t
    case Var(a) => c == Ref(a)
    case Atom(x) => c == Con(x)
    case Blob(p) => c == Appl(p)
    case Cmp(k, args) =>
      && (if k.Dot? then c.Pair? else c.Appl? && c.p < |m| && m[c.p] == Fun(k.name, k.arity))
      && lo <= c.p && c.p + Words(k) <= hi <= |m| && |args| == Arity(k)
      && ReadsAll(m, lo, hi, Base(k, c.p), args)
  }

  predicate ReadsAll(m: seq<Cell>, lo: nat, hi: nat, a: nat, ts: seq<Term>)
    decreases ts, 1
  {
    ts == [] || (a < |m| && Reads(m, lo, hi, m[a], ts[0]) && ReadsAll(m, lo, hi, a + 1, ts[1..]))
  }

  type Rank = nat -> nat

  /** The words in slots hold terms made of words in slots, off the free words [lo, hi); by rank r their reference
      chains end. */
  ghost predicate Closed(m: seq<Cell>, slots: set<nat>, r: Rank, lo: nat, hi: nat) {
    forall a :: a in slots ==> WordOk(m, slots, r, lo, hi, a)
  }

  ghost predicate WordOk(m: seq<Cell>, slots: set<nat>, r: Rank, lo: nat, hi: nat, a: nat) {
    && a < |m| && (a < lo || hi <= a)
    && CellOk(m, slots, lo, hi, m[a]) && (m[a].Ref? ==> m[a].a == a || r(m[a].a) < r(a))
  }

  predicate CellOk(m: seq<Cell>, slots: set<nat>, lo: nat, hi: nat, c: Cell) {
    && !c.Fun?
    && (c.Ref? ==> c.a in slots)
    && (c.Appl? ==> c.p < |m| && (c.p < lo || hi <= c.p) && c.p !in slots)
    && (IsCompound(m, c) ==>
          var k := ShapeOf(m, c);
          forall x :: Base(k, c.p) <= x < Base(k, c.p) + Arity(k) ==> x in slots)
  }

  // ---------------------------------------------------------------- the loop's state

  /** Words pt + 1 to end are still to be copied, to ptn and on. */
  datatype Task = Task(pt: int, end: int, ptn: nat)

  /** A task to go on with, and the contents of the word that it was left at. */
  datatype Saved = Saved(pt: nat, end: int, ptn: nat, cell: Cell)

  function Rest(t: Task): int { t.end - t.pt }

  function Frame(f: Saved): Task { Task(f.pt, f.end, f.ptn) }

  /** The words being visited. */
  function Busy(stack: seq<Saved>): set<nat> {
    if stack == [] then {} else Busy(stack[..|stack| - 1]) + {stack[|stack| - 1].pt}
  }

  /** What a new word is for: to hold c, or the copy of word src made while busy was being visited. */
  datatype Job = Head(c: Cell) | Word(src: nat, busy: set<nat>)

  function Jobs(src: nat, busy: set<nat>, n: nat): (r: seq<Job>)
    ensures |r| == n && forall j :: 0 <= j < n ==> r[j] == Word(src + j, busy)
  {
    seq(n, (j: nat) requires j < n => Word(src + j, busy))
  }

  function NewJobs(k: Shape, at: nat, busy: set<nat>): seq<Job> {
    (if k.Dot? then [] else [Head(Fun(k.name, k.arity))]) + Jobs(Base(k, at), busy, Arity(k))
  }

  /** The job of new word x. */
  function JobAt(plan: seq<Job>, h0: nat, x: nat): Job {
    if h0 <= x < h0 + |plan| then plan[x - h0] else Head(NIL)
  }

  ghost predicate TaskOk(slots: set<nat>, plan: seq<Job>, h0: nat, t: Task, busy: set<nat>, lim: nat) {
    && -1 <= t.pt <= t.end && h0 <= t.ptn && t.ptn + Rest(t) <= lim <= h0 + |plan|
    && (forall a: nat {:trigger a in slots} :: t.pt < a <= t.end ==> a in slots)
    && (forall x: nat {:trigger JobAt(plan, h0, x)} :: t.ptn <= x < t.ptn + Rest(t) ==>
          JobAt(plan, h0, x) == Word(t.pt + 1 + (x - t.ptn), busy))
  }

  /** Every saved task can be gone on with; the words it is to write lie below those of the task above it. */
  ghost predicate StackOk(m0: seq<Cell>, slots: set<nat>, plan: seq<Job>, h0: nat, stack: seq<Saved>, lim: nat) {
    stack == [] ||
    (var f, below := stack[|stack| - 1], stack[..|stack| - 1];
     && f.pt in slots && f.pt < |m0| && f.pt !in Busy(below) && f.cell == m0[f.pt]
     && TaskOk(slots, plan, h0, Frame(f), Busy(below), lim)
     && StackOk(m0, slots, plan, h0, below, f.ptn))
  }

  predicate InTask(t: Task, x: nat) { t.ptn <= x < t.ptn + Rest(t) }

  predicate Pending(stack: seq<Saved>, x: nat) {
    stack != [] && (InTask(Frame(stack[|stack| - 1]), x) || Pending(stack[..|stack| - 1], x))
  }

  /** New word x is what its job asks for. */
  ghost predicate Copied(m0: seq<Cell>, m: seq<Cell>, slots: set<nat>, h0: nat, plan: seq<Job>, x: nat)
    requires x < |m| && h0 + |plan| <= |m|
  {
    match JobAt(plan, h0, x)
    case Head(c) => m[x] == c
    case Word(a, busy) =>
      var d := Target(m0, busy, a);
      if Enters(m0, slots, busy, a) then
        var k := ShapeOf(m0, d);
        && (if k.Dot? then m[x].Pair? else m[x].Appl?)
        && h0 < m[x].p && m[x].p + Words(k) <= h0 + |plan|
        && (k.Struct? ==> JobAt(plan, h0, m[x].p) == Head(Fun(k.name, k.arity)))
        && forall y: nat {:trigger JobAt(plan, h0, y)} :: Base(k, m[x].p) <= y < Base(k, m[x].p) + Arity(k) ==>
             JobAt(plan, h0, y) == Word(Base(k, d.p) + (y - Base(k, m[x].p)), busy + {a})
      else !IsCompound(m0, d) && !d.Fun? && m[x] == d
  }

  function StackSpace(m0: seq<Cell>, slots: set<nat>, stack: seq<Saved>): nat {
    if stack == [] then 0
    else
      var f, below := stack[|stack| - 1], stack[..|stack| - 1];
      TaskSpace(m0, slots, Busy(below), Frame(f)) + StackSpace(m0, slots, below)
  }

  function TaskSpace(m0: seq<Cell>, slots: set<nat>, busy: set<nat>, t: Task): nat {
    if -1 <= t.pt <= t.end then SpaceAll(TermsAt(m0, slots, busy, t.pt + 1, Rest(t))) else 0
  }

  /** m0 is the store at the start; [h0, h0 + |plan|) the new words so far, of [h0, top) in the end. */
  ghost predicate Inv(m0: seq<Cell>, m: seq<Cell>, slots: set<nat>, h0: nat, top: nat, plan: seq<Job>, t: Task,
      stack: seq<Saved>)
  {
    && |m| == |m0| && top <= |m|
    && h0 + |plan| + TaskSpace(m0, slots, Busy(stack), t) + StackSpace(m0, slots, stack) == top
    && TaskOk(slots, plan, h0, t, Busy(stack), h0 + |plan|)
    && StackOk(m0, slots, plan, h0, stack, t.ptn)
    && SourceOk(m0, m, h0, top, Busy(stack))
    && NewOk(m0, m, slots, h0, plan, t, stack)
  }

  /** Outside the new words only the words being visited have changed. */
  ghost predicate SourceOk(m0: seq<Cell>, m: seq<Cell>, h0: nat, top: nat, busy: set<nat>) {
    |m| == |m0| && forall a: nat :: a < |m| && (a < h0 || top <= a) ==> m[a] == if a in busy then NIL else m0[a]
  }

  ghost predicate NewOk(m0: seq<Cell>, m: seq<Cell>, slots: set<nat>, h0: nat, plan: seq<Job>, t: Task,
      stack: seq<Saved>) {
    && h0 + |plan| <= |m|
    && forall x: nat {:trigger Copied(m0, m, slots, h0, plan, x)} {:trigger Pending(stack, x)} ::
         h0 <= x < h0 + |plan| && !InTask(t, x) && !Pending(stack, x) ==> Copied(m0, m, slots, h0, plan, x)
  }

  // ---------------------------------------------------------------- dereferencing in the damaged store

  /** What a reference chain from a word of slots meets is the same in the two stores. */
  lemma {:induction false} DerefSame(m0: seq<Cell>, m: seq<Cell>, slots: set<nat>, r: Rank, lo: nat, hi: nat,
      busy: set<nat>, c: Cell, left: set<nat>)
    requires Closed(m0, slots, r, lo, hi) && SourceOk(m0, m, lo, hi, busy) && CellOk(m0, slots, lo, hi, c)
    ensures Deref(m, c, left) == Deref(Damaged(m0, busy), c, left)
    ensures CellOk(m0, slots, lo, hi, Deref(m, c, left))
    decreases left
  {
    if c.Ref? && c.a in left && m[c.a] != c {
      assert WordOk(m0, slots, r, lo, hi, c.a);
      DerefSame(m0, m, slots, r, lo, hi, busy, m[c.a], left - {c.a});
    } else if c.Ref? {
      assert WordOk(m0, slots, r, lo, hi, c.a);
    }
  }

  lemma TargetIs(m0: seq<Cell>, m: seq<Cell>, slots: set<nat>, r: Rank, lo: nat, hi: nat, busy: set<nat>, a: nat)
    requires Closed(m0, slots, r, lo, hi) && SourceOk(m0, m, lo, hi, busy) && busy <= slots && a in slots
    ensures a < |m|
    ensures
      var d := DerefCell(m, m[a]);
      && d == Target(m0, busy, a) && CellOk(m0, slots, lo, hi, d)
      && (IsCompound(m, d) <==> IsCompound(m0, d)) && (IsCompound(m, d) ==> ShapeOf(m, d) == ShapeOf(m0, d))
      && (Enters(m0, slots, busy, a) <==> IsCompound(m, d))
  {
    assert WordOk(m0, slots, r, lo, hi, a);
    DerefSame(m0, m, slots, r, lo, hi, busy, m[a], Addresses(|m|));
    if a in busy { assert m[a] == NIL; }
  }

  // ---------------------------------------------------------------- one round of the loop

  lemma {:induction false} BusyInSlots(m0: seq<Cell>, slots: set<nat>, plan: seq<Job>, h0: nat, stack: seq<Saved>,
      lim: nat)
    requires StackOk(m0, slots, plan, h0, stack, lim)
    ensures Busy(stack) <= slots
  {
    if stack != [] {
      BusyInSlots(m0, slots, plan, h0, stack[..|stack| - 1], stack[|stack| - 1].ptn);
    }
  }

  lemma {:induction false} PendingBelow(m0: seq<Cell>, slots: set<nat>, plan: seq<Job>, h0: nat, stack: seq<Saved>,
      lim: nat, x: nat)
    requires StackOk(m0, slots, plan, h0, stack, lim) && Pending(stack, x)
    ensures h0 <= x < lim && x < h0 + |plan| && JobAt(plan, h0, x).Word?
  {
    var f := stack[|stack| - 1];
    if !InTask(Frame(f), x) {
      PendingBelow(m0, slots, plan, h0, stack[..|stack| - 1], f.ptn, x);
    }
  }

  /** The next word of the task. */
  lemma NextWord(m0: seq<Cell>, m: seq<Cell>, slots: set<nat>, r: Rank, h0: nat, top: nat, plan: seq<Job>, t: Task,
      stack: seq<Saved>)
    requires Closed(m0, slots, r, h0, top) && Inv(m0, m, slots, h0, top, plan, t, stack) && 0 < Rest(t)
    ensures 0 <= t.pt + 1 < |m| && t.pt + 1 in slots && h0 <= t.ptn < h0 + |plan| <= top <= |m| &&
      !(h0 <= t.pt + 1 < top)
    ensures JobAt(plan, h0, t.ptn) == Word(t.pt + 1, Busy(stack)) && !Pending(stack, t.ptn) && Busy(stack) <= slots
    ensures TaskSpace(m0, slots, Busy(stack), t) ==
              Space(TermAt(m0, slots, Busy(stack), t.pt + 1)) + TaskSpace(m0, slots, Busy(stack),
                  Task(t.pt + 1, t.end, t.ptn + 1))
    ensures
      var d := DerefCell(m, m[t.pt + 1]);
      && d == Target(m0, Busy(stack), t.pt + 1) && CellOk(m0, slots, h0, top, d)
      && (IsCompound(m, d) <==> IsCompound(m0, d)) && (IsCompound(m, d) ==> ShapeOf(m, d) == ShapeOf(m0, d))
      && (Enters(m0, slots, Busy(stack), t.pt + 1) <==> IsCompound(m, d))
  {
    BusyInSlots(m0, slots, plan, h0, stack, t.ptn);
    TargetIs(m0, m, slots, r, h0, top, Busy(stack), t.pt + 1);
    assert WordOk(m0, slots, r, h0, top, t.pt + 1);
    assert JobAt(plan, h0, t.ptn) == Word(t.pt + 1, Busy(stack));
    if Pending(stack, t.ptn) { PendingBelow(m0, slots, plan, h0, stack, t.ptn, t.ptn); }
    assert TermsAt(m0, slots, Busy(stack), t.pt + 1, Rest(t)) ==
           [TermAt(m0, slots, Busy(stack), t.pt + 1)] + TermsAt(m0, slots, Busy(stack), t.pt + 2, Rest(t) - 1);
  }

  /** A variable, an atom or an extension term is copied as it is. */
  lemma AtomicStep(m0: seq<Cell>, m: seq<Cell>, slots: set<nat>, r: Rank, h0: nat, top: nat, plan: seq<Job>, t: Task,
      stack: seq<Saved>)
    requires Closed(m0, slots, r, h0, top) && Inv(m0, m, slots, h0, top, plan, t, stack) && 0 < Rest(t)
    requires 0 <= t.pt + 1 < |m| && !IsCompound(m, DerefCell(m, m[t.pt + 1]))
    ensures t.ptn < |m|
    ensures Inv(m0, m[t.ptn := DerefCell(m, m[t.pt + 1])], slots, h0, top, plan, Task(t.pt + 1, t.end, t.ptn + 1),
      stack)
  {
    hide Closed, StackOk, CellOk, DerefCell, IsCompound, StackSpace, Pending, Busy;
    NextWord(m0, m, slots, r, h0, top, plan, t, stack);
    var d, t' := DerefCell(m, m[t.pt + 1]), Task(t.pt + 1, t.end, t.ptn + 1);
    var m' := m[t.ptn := d];
    forall x: nat | h0 <= x < h0 + |plan| && !InTask(t', x) && !Pending(stack, x)
      ensures Copied(m0, m', slots, h0, plan, x)
    {
      if x != t.ptn { assert Copied(m0, m, slots, h0, plan, x); }
    }
    StackLower(m0, slots, plan, h0, stack, t.ptn, t.ptn + 1);
  }

  lemma StackLower(m0: seq<Cell>, slots: set<nat>, plan: seq<Job>, h0: nat, stack: seq<Saved>, lim: nat, lim': nat)
    requires StackOk(m0, slots, plan, h0, stack, lim) && lim <= lim' <= h0 + |plan|
    ensures StackOk(m0, slots, plan, h0, stack, lim')
  {
    if stack != [] {
      var f, below := stack[|stack| - 1], stack[..|stack| - 1];
      assert TaskOk(slots, plan, h0, Frame(f), Busy(below), lim');
    }
  }

  /** A finished compound: the word it was entered from gets its contents back. */
  lemma PopStep(m0: seq<Cell>, m: seq<Cell>, slots: set<nat>, r: Rank, h0: nat, top: nat, plan: seq<Job>, t: Task,
      stack: seq<Saved>, below: seq<Saved>, f: Saved)
    requires Closed(m0, slots, r, h0, top) && Inv(m0, m, slots, h0, top, plan, t, stack) && Rest(t) == 0
    requires stack == below + [f]
    ensures f.pt < |m| && Inv(m0, m[f.pt := f.cell], slots, h0, top, plan, Frame(f), below)
  {
    assert stack[|stack| - 1] == f && stack[..|stack| - 1] == below;
    assert WordOk(m0, slots, r, h0, top, f.pt);
    var m' := m[f.pt := f.cell];
    forall x: nat | h0 <= x < h0 + |plan| && !InTask(Frame(f), x) && !Pending(below, x)
      ensures Copied(m0, m', slots, h0, plan, x)
    {
      assert Copied(m0, m, slots, h0, plan, x);
    }
    assert TaskOk(slots, plan, h0, Frame(f), Busy(below), h0 + |plan|);
    BusyLess(stack, below, f);
  }

  lemma BusyLess(stack: seq<Saved>, below: seq<Saved>, f: Saved)
    requires stack == below + [f]
    ensures Busy(stack) == Busy(below) + {f.pt}
  {
    assert stack[|stack| - 1] == f && stack[..|stack| - 1] == below;
  }

  /** The store after a pointer to a new block, its functor, and the [] left in the word entered. */
  function Entered(m: seq<Cell>, k: Shape, ptn: nat, hr: nat, a: nat): (r: seq<Cell>)
    requires ptn < |m| && hr + Words(k) <= |m| && a < |m|
    ensures |r| == |m|
  {
    var m1 := m[ptn := Ptr(k, hr)][a := NIL];
    if k.Dot? then m1 else m1[hr := Fun(k.name, k.arity)]
  }

  /** plan' is plan with the jobs of a new block for a compound of shape k at address at. */
  ghost predicate Planned(plan: seq<Job>, plan': seq<Job>, h0: nat, k: Shape, at: nat, busy: set<nat>) {
    var hr := h0 + |plan|;
    && |plan'| == |plan| + Words(k)
    && (forall x: nat {:trigger JobAt(plan', h0, x)} {:trigger JobAt(plan, h0, x)} :: x < hr ==>
          JobAt(plan', h0, x) == JobAt(plan, h0, x))
    && (forall y: nat {:trigger JobAt(plan', h0, y)} :: Base(k, hr) <= y < hr + Words(k) ==>
          JobAt(plan', h0, y) == Word(Base(k, at) + (y - Base(k, hr)), busy))
    && (k.Struct? ==> JobAt(plan', h0, hr) == Head(Fun(k.name, k.arity)))
  }

  lemma NewJobsPlanned(plan: seq<Job>, h0: nat, k: Shape, at: nat, busy: set<nat>)
    ensures Planned(plan, plan + NewJobs(k, at, busy), h0, k, at, busy)
  {
    var js, plan' := NewJobs(k, at, busy), plan + NewJobs(k, at, busy);
    forall y: nat | Base(k, h0 + |plan|) <= y < h0 + |plan| + Words(k)
      ensures JobAt(plan', h0, y) == Word(Base(k, at) + (y - Base(k, h0 + |plan|)), busy)
    {
      assert plan'[y - h0] == js[y - h0 - |plan|];
    }
  }

  lemma {:induction false} StackPlanned(m0: seq<Cell>, slots: set<nat>, plan: seq<Job>, plan': seq<Job>, h0: nat,
      stack: seq<Saved>, lim: nat, k: Shape, at: nat, busy: set<nat>)
    requires StackOk(m0, slots, plan, h0, stack, lim) && Planned(plan, plan', h0, k, at, busy)
    ensures StackOk(m0, slots, plan', h0, stack, lim)
  {
    if stack != [] {
      var f, below := stack[|stack| - 1], stack[..|stack| - 1];
      StackPlanned(m0, slots, plan, plan', h0, below, f.ptn, k, at, busy);
      assert TaskOk(slots, plan', h0, Frame(f), Busy(below), lim);
    }
  }

  /** The copies already made stand; the word with the new pointer is one of them. */
  lemma CompoundNew(m0: seq<Cell>, m: seq<Cell>, slots: set<nat>, h0: nat, plan: seq<Job>, plan': seq<Job>, t: Task,
      stack: seq<Saved>, k: Shape, a: nat, d: Cell, x: nat)
    requires h0 + |plan'| <= |m| && h0 <= t.ptn < h0 + |plan| && a < |m| && !(h0 <= a < h0 + |plan'|)
    requires (d.Pair? || d.Appl?) && Planned(plan, plan', h0, k, d.p, Busy(stack) + {a})
    requires JobAt(plan, h0, t.ptn) == Word(a, Busy(stack))
    requires Enters(m0, slots, Busy(stack), a) && d == Target(m0, Busy(stack), a) && ShapeOf(m0, d) == k
    requires h0 <= x < h0 + |plan|
    requires x != t.ptn ==> Copied(m0, m, slots, h0, plan, x)
    ensures Copied(m0, Entered(m, k, t.ptn, h0 + |plan|, a), slots, h0, plan', x)
  {
    var m' := Entered(m, k, t.ptn, h0 + |plan|, a);
    if x == t.ptn {
      assert m'[x] == Ptr(k, h0 + |plan|);
    } else {
      assert m'[x] == m[x];
    }
  }

  /** Going into a compound: a block is laid out for it and its words become the task. */
  lemma CompoundStep(m0: seq<Cell>, m: seq<Cell>, slots: set<nat>, r: Rank, h0: nat, top: nat, plan: seq<Job>,
      t: Task, stack: seq<Saved>, k: Shape, a: nat, d: Cell)
    requires Closed(m0, slots, r, h0, top) && Inv(m0, m, slots, h0, top, plan, t, stack) && 0 < Rest(t)
    requires a == t.pt + 1 < |m| && d == DerefCell(m, m[a]) && Is(m, k, d)
    ensures t.ptn < |m| && h0 + |plan| + Words(k) <= top <= |m|
    ensures Inv(m0, Entered(m, k, t.ptn, h0 + |plan|, a), slots, h0, top, plan + NewJobs(k, d.p, Busy(stack) + {a}),
                Task(Base(k, d.p) - 1, Base(k, d.p) - 1 + Arity(k), Base(k, h0 + |plan|)),
                stack + [Saved(a, t.end, t.ptn + 1, m[a])])
  {
    hide Closed, StackOk, NewOk, SourceOk, TaskOk, Planned, CellOk, JobAt, Busy, Pending, Target, TermAt, StackSpace;
    NextWord(m0, m, slots, r, h0, top, plan, t, stack);
    CompoundSpace(m0, slots, Busy(stack), a, k, d);
    var f, plan' := Saved(a, t.end, t.ptn + 1, m[a]), plan + NewJobs(k, d.p, Busy(stack) + {a});
    NewJobsPlanned(plan, h0, k, d.p, Busy(stack) + {a});
    StackPlanned(m0, slots, plan, plan', h0, stack, t.ptn, k, d.p, Busy(stack) + {a});
    CompoundInv(m0, m, slots, h0, top, plan, plan', t, stack, stack + [f], f, k, a, d);
  }

  lemma CompoundInv(m0: seq<Cell>, m: seq<Cell>, slots: set<nat>, h0: nat, top: nat, plan: seq<Job>, plan': seq<Job>,
      t: Task, stack: seq<Saved>, stack': seq<Saved>, f: Saved, k: Shape, a: nat, d: Cell)
    requires Inv(m0, m, slots, h0, top, plan, t, stack) && 0 < Rest(t) && stack' == stack + [f]
    requires |plan'| == |plan| + Words(k)
    requires a == t.pt + 1 < |m| && a in slots && !(h0 <= a < top) && f == Saved(a, t.end, t.ptn + 1, m[a])
    requires h0 <= t.ptn < h0 + |plan| && h0 + |plan'| <= top && !Pending(stack, t.ptn)
    requires (d.Pair? || d.Appl?) && Planned(plan, plan', h0, k, d.p, Busy(stack) + {a})
    requires JobAt(plan, h0, t.ptn) == Word(a, Busy(stack)) && CellOk(m0, slots, h0, top, d)
    requires Enters(m0, slots, Busy(stack), a) && d == Target(m0, Busy(stack), a) && ShapeOf(m0, d) == k
    requires StackOk(m0, slots, plan', h0, stack, t.ptn)
    requires
      h0 + |plan'| + SpaceAll(TermsAt(m0, slots, Busy(stack) + {a}, Base(k, d.p), Arity(k)))
        + TaskSpace(m0, slots, Busy(stack), Frame(f)) + StackSpace(m0, slots, stack) == top
    ensures Inv(m0, Entered(m, k, t.ptn, h0 + |plan|, a), slots, h0, top, plan',
                Task(Base(k, d.p) - 1, Base(k, d.p) - 1 + Arity(k), Base(k, h0 + |plan|)), stack')
  {
    hide NewOk, SourceOk, StackOk, TaskOk, TaskSpace, StackSpace, Planned, CellOk, TermsAt, Target, Enters, Busy,
        Entered,
      JobAt, Pending;
    var t' := Task(Base(k, d.p) - 1, Base(k, d.p) - 1 + Arity(k), Base(k, h0 + |plan|));
    BusyLess(stack', stack, f);
    CompoundTasks(m0, m, slots, h0, top, plan, plan', t, stack, stack', f, k, a, d);
    CompoundSource(m0, m, h0, top, t.ptn, h0 + |plan|, k, a, Busy(stack));
    CompoundNewOk(m0, m, slots, h0, plan, plan', t, stack, stack', f, k, a, d);
    PushSpace(m0, slots, stack, stack', f, t', Base(k, d.p), Arity(k), Busy(stack) + {a});
  }

  lemma PushSpace(m0: seq<Cell>, slots: set<nat>, stack: seq<Saved>, stack': seq<Saved>, f: Saved, t: Task, a: nat,
      n: nat, busy: set<nat>)
    requires stack' == stack + [f] && t.pt == a - 1 && t.end == a - 1 + n
    ensures StackSpace(m0, slots, stack') == TaskSpace(m0, slots, Busy(stack), Frame(f)) + StackSpace(m0, slots, stack)
    ensures TaskSpace(m0, slots, busy, t) == SpaceAll(TermsAt(m0, slots, busy, a, n))
  {
    assert stack'[|stack'| - 1] == f && stack'[..|stack'| - 1] == stack;
  }

  lemma CompoundTasks(m0: seq<Cell>, m: seq<Cell>, slots: set<nat>, h0: nat, top: nat, plan: seq<Job>,
      plan': seq<Job>, t: Task, stack: seq<Saved>, stack': seq<Saved>, f: Saved, k: Shape, a: nat, d: Cell)
    requires TaskOk(slots, plan, h0, t, Busy(stack), h0 + |plan|) && 0 < Rest(t) && stack' == stack + [f]
    requires a == t.pt + 1 < |m| && a in slots && !(h0 <= a < top) && f == Saved(a, t.end, t.ptn + 1, m[a])
    requires SourceOk(m0, m, h0, top, Busy(stack))
    requires Enters(m0, slots, Busy(stack), a) && d == Target(m0, Busy(stack), a) && ShapeOf(m0, d) == k
    requires CellOk(m0, slots, h0, top, d) && Planned(plan, plan', h0, k, d.p, Busy(stack) + {a})
    requires StackOk(m0, slots, plan', h0, stack, t.ptn)
    ensures TaskOk(slots, plan', h0, Task(Base(k, d.p) - 1, Base(k, d.p) - 1 + Arity(k), Base(k, h0 + |plan|)),
                   Busy(stack) + {a}, h0 + |plan'|)
    ensures StackOk(m0, slots, plan', h0, stack', Base(k, h0 + |plan|))
  {
    assert stack'[|stack'| - 1] == f && stack'[..|stack'| - 1] == stack;
    StackLower(m0, slots, plan', h0, stack, t.ptn, t.ptn + 1);
    assert TaskOk(slots, plan', h0, Frame(f), Busy(stack), Base(k, h0 + |plan|));
  }

  lemma CompoundSource(m0: seq<Cell>, m: seq<Cell>, h0: nat, top: nat, ptn: nat, hr: nat, k: Shape, a: nat,
      busy: set<nat>)
    requires SourceOk(m0, m, h0, top, busy) && h0 <= ptn < hr && hr + Words(k) <= top <= |m| && a < |m| &&
      !(h0 <= a < top)
    ensures SourceOk(m0, Entered(m, k, ptn, hr, a), h0, top, busy + {a})
  {
  }

  lemma CompoundNewOk(m0: seq<Cell>, m: seq<Cell>, slots: set<nat>, h0: nat, plan: seq<Job>, plan': seq<Job>,
      t: Task, stack: seq<Saved>, stack': seq<Saved>, f: Saved, k: Shape, a: nat, d: Cell)
    requires NewOk(m0, m, slots, h0, plan, t, stack) && 0 < Rest(t) && stack' == stack + [f]
    requires a == t.pt + 1 < |m| && !(h0 <= a < h0 + |plan'|) && f == Saved(a, t.end, t.ptn + 1, m[a])
    requires h0 <= t.ptn < h0 + |plan| && h0 + |plan'| <= |m|
    requires (d.Pair? || d.Appl?) && Planned(plan, plan', h0, k, d.p, Busy(stack) + {a})
    requires JobAt(plan, h0, t.ptn) == Word(a, Busy(stack))
    requires Enters(m0, slots, Busy(stack), a) && d == Target(m0, Busy(stack), a) && ShapeOf(m0, d) == k
    ensures NewOk(m0, Entered(m, k, t.ptn, h0 + |plan|, a), slots, h0, plan',
                  Task(Base(k, d.p) - 1, Base(k, d.p) - 1 + Arity(k), Base(k, h0 + |plan|)), stack')
  {
    hide Copied, Enters, Target, Busy, Entered, TermsAt;
    var t' := Task(Base(k, d.p) - 1, Base(k, d.p) - 1 + Arity(k), Base(k, h0 + |plan|));
    assert stack'[|stack'| - 1] == f && stack'[..|stack'| - 1] == stack;
    forall x: nat | h0 <= x < h0 + |plan'| && !InTask(t', x) && !Pending(stack', x)
      ensures Copied(m0, Entered(m, k, t.ptn, h0 + |plan|, a), slots, h0, plan', x)
    {
      if x < h0 + |plan| {
        assert x != t.ptn ==> !InTask(t, x) && !Pending(stack, x);
        CompoundNew(m0, m, slots, h0, plan, plan', t, stack, k, a, d, x);
      } else {
        HeadCopied(m0, m, slots, h0, plan, plan', t.ptn, k, a, d, Busy(stack) + {a}, x);
      }
    }
  }

  lemma HeadCopied(m0: seq<Cell>, m: seq<Cell>, slots: set<nat>, h0: nat, plan: seq<Job>, plan': seq<Job>, ptn: nat,
      k: Shape, a: nat, d: Cell, busy: set<nat>, x: nat)
    requires (d.Pair? || d.Appl?) && Planned(plan, plan', h0, k, d.p, busy) && k.Struct? && x == h0 + |plan|
    requires h0 <= ptn < x && h0 + |plan'| <= |m| && a < |m|
    ensures Copied(m0, Entered(m, k, ptn, x, a), slots, h0, plan', x)
  {
  }

  /** What a compound takes is its block and what its arguments take. */
  lemma CompoundSpace(m0: seq<Cell>, slots: set<nat>, busy: set<nat>, a: nat, k: Shape, d: Cell)
    requires Enters(m0, slots, busy, a) && d == Target(m0, busy, a) && ShapeOf(m0, d) == k
    ensures Space(TermAt(m0, slots, busy, a)) == Words(k) + SpaceAll(TermsAt(m0, slots, busy + {a}, Base(k, d.p),
      Arity(k)))
  {
  }

  // ---------------------------------------------------------------- when the loop ends

  ghost predicate AllCopied(m0: seq<Cell>, m: seq<Cell>, slots: set<nat>, h0: nat, plan: seq<Job>) {
    && h0 + |plan| <= |m|
    && forall x: nat {:trigger Copied(m0, m, slots, h0, plan, x)} :: h0 <= x < h0 + |plan| ==>
        Copied(m0, m, slots, h0, plan, x)
  }

  /** A new word is the term of the word it was copied from. */
  lemma {:induction false} CopiedReads(m0: seq<Cell>, m: seq<Cell>, slots: set<nat>, h0: nat, plan: seq<Job>, x: nat,
      a: nat, busy: set<nat>)
    requires AllCopied(m0, m, slots, h0, plan) && JobAt(plan, h0, x) == Word(a, busy)
    ensures x < |m| && Reads(m, h0 + 1, h0 + |plan|, m[x], TermAt(m0, slots, busy, a))
    decreases slots - busy, 0
  {
    assert Copied(m0, m, slots, h0, plan, x);
    if Enters(m0, slots, busy, a) {
      var d := Target(m0, busy, a);
      var k := ShapeOf(m0, d);
      if k.Struct? { assert Copied(m0, m, slots, h0, plan, m[x].p); }
      CopiedReadsAll(m0, m, slots, h0, plan, Base(k, m[x].p), Base(k, d.p), Arity(k), busy + {a});
    }
  }

  lemma {:induction false} CopiedReadsAll(m0: seq<Cell>, m: seq<Cell>, slots: set<nat>, h0: nat, plan: seq<Job>,
      x: nat, a: nat, n: nat, busy: set<nat>)
    requires AllCopied(m0, m, slots, h0, plan)
    requires forall y: nat {:trigger JobAt(plan, h0, y)} :: x <= y < x + n ==>
      JobAt(plan, h0, y) == Word(a + (y - x), busy)
    ensures ReadsAll(m, h0 + 1, h0 + |plan|, x, TermsAt(m0, slots, busy, a, n))
    decreases slots - busy, n + 1
  {
    if n > 0 {
      assert JobAt(plan, h0, x) == Word(a, busy);
      CopiedReads(m0, m, slots, h0, plan, x, a, busy);
      CopiedReadsAll(m0, m, slots, h0, plan, x + 1, a + 1, n - 1, busy);
    }
  }

  /** Words outside [lo, hi) do not matter to a copy. */
  lemma {:induction false} ReadsFrame(m: seq<Cell>, m': seq<Cell>, lo: nat, hi: nat, lo': nat, hi': nat, c: Cell,
      t: Term)
    requires Reads(m, lo, hi, c, t) && |m'| == |m| && lo' <= lo && hi <= hi' <= |m| && forall x ::
      lo <= x < hi && x < |m| ==> m'[x] == m[x]
    ensures Reads(m', lo', hi', c, t)
    decreases t, 0
  {
    if t.Cmp? { ReadsAllFrame(m, m', lo, hi, lo', hi', Base(t.k, c.p), t.args); }
  }

  lemma {:induction false} ReadsAllFrame(m: seq<Cell>, m': seq<Cell>, lo: nat, hi: nat, lo': nat, hi': nat, a: nat,
      ts: seq<Term>)
    requires ReadsAll(m, lo, hi, a, ts) && lo <= a && a + |ts| <= hi
    requires |m'| == |m| && lo' <= lo && hi <= hi' <= |m| && forall x :: lo <= x < hi && x < |m| ==> m'[x] == m[x]
    ensures ReadsAll(m', lo', hi', a, ts)
    decreases ts, 1
  {
    if ts != [] {
      ReadsFrame(m, m', lo, hi, lo', hi', m[a], ts[0]);
      ReadsAllFrame(m, m', lo, hi, lo', hi', a + 1, ts[1..]);
    }
  }

  // ---------------------------------------------------------------- terms without cycles

  ghost predicate Acyclic(m: seq<Cell>, slots: set<nat>, r: Rank) {
    forall a :: a in slots && a < |m| && IsCompound(m, m[a]) ==>
      var k := ShapeOf(m, m[a]);
      forall x :: Base(k, m[a].p) <= x < Base(k, m[a].p) + Arity(k) ==> r(x) < r(a)
  }

  function Values(v: nat -> Term, a: nat, n: nat): (r: seq<Term>)
    ensures |r| == n && forall j :: 0 <= j < n ==> r[j] == v(a + j)
  {
    seq(n, (j: nat) requires j < n => v(a + j))
  }

  function CellValue(v: nat -> Term, m: seq<Cell>, c: Cell): Term {
    if c.Ref? then v(c.a)
    else if c.Con? then Atom(c.c)
    else if IsCompound(m, c) then
      var k := ShapeOf(m, c);
      Cmp(k, Values(v, Base(k, c.p), Arity(k)))
    else if c.Fun? then Atom(c.name)
    else Blob(c.p)
  }

  /** v gives every word the term that its contents say; unbound variables stand for themselves. */
  ghost predicate Meaning(m: seq<Cell>, slots: set<nat>, v: nat -> Term) {
    forall a :: a in slots && a < |m| ==> v(a) == if m[a] == Ref(a) then Var(a) else CellValue(v, m, m[a])
  }

  lemma {:induction false} DerefMeaning(m: seq<Cell>, slots: set<nat>, r: Rank, lo: nat, hi: nat, busy: set<nat>,
      c: Cell, left: set<nat>, v: nat -> Term, bound: nat)
    requires Closed(m, slots, r, lo, hi) && Meaning(m, slots, v) && CellOk(m, slots, lo, hi, c)
    requires forall b :: b in busy ==> bound < r(b)
    requires c.Ref? ==> r(c.a) <= bound && forall b: nat :: b < |m| && r(b) <= r(c.a) ==> b in left
    requires Acyclic(m, slots, r) && (IsCompound(m, c) ==> Under(m, r, c, bound))
    ensures
      var d := Deref(Damaged(m, busy), c, left);
      && CellOk(m, slots, lo, hi, d) && CellValue(v, m, d) == CellValue(v, m, c)
      && (d.Ref? ==> v(d.a) == Var(d.a)) && (IsCompound(m, d) ==> Under(m, r, d, bound))
    decreases left
  {
    if c.Ref? {
      assert WordOk(m, slots, r, lo, hi, c.a) && c.a !in busy;
      if m[c.a] != c {
        DerefMeaning(m, slots, r, lo, hi, busy, m[c.a], left - {c.a}, v, bound);
      }
    }
  }

  /** The arguments of c rank below bound. */
  ghost predicate Under(m: seq<Cell>, r: Rank, c: Cell, bound: nat)
    requires IsCompound(m, c)
  {
    var k := ShapeOf(m, c);
    forall x :: Base(k, c.p) <= x < Base(k, c.p) + Arity(k) ==> r(x) < bound
  }

  /** Without cycles nothing reads [] in the middle: the term is what the words mean. */
  lemma {:induction false} AcyclicTerm(m: seq<Cell>, slots: set<nat>, r: Rank, lo: nat, hi: nat, busy: set<nat>,
      a: nat, v: nat -> Term)
    requires Closed(m, slots, r, lo, hi) && Acyclic(m, slots, r) && Meaning(m, slots, v)
    requires a in slots && forall b :: b in busy ==> r(a) < r(b)
    ensures TermAt(m, slots, busy, a) == v(a)
    decreases r(a) + 1, 0
  {
    assert WordOk(m, slots, r, lo, hi, a) && a !in busy;
    DerefMeaning(m, slots, r, lo, hi, busy, m[a], Addresses(|m|), v, r(a));
    var d := Target(m, busy, a);
    if IsCompound(m, d) {
      var k := ShapeOf(m, d);
      AcyclicTerms(m, slots, r, lo, hi, busy + {a}, Base(k, d.p), Arity(k), v, r(a));
    }
  }

  lemma {:induction false} AcyclicTerms(m: seq<Cell>, slots: set<nat>, r: Rank, lo: nat, hi: nat, busy: set<nat>,
      a: nat, n: nat, v: nat -> Term, bound: nat)
    requires Closed(m, slots, r, lo, hi) && Acyclic(m, slots, r) && Meaning(m, slots, v)
    requires forall b :: b in busy ==> bound <= r(b)
    requires forall x :: a <= x < a + n ==> x in slots && r(x) < bound
    ensures TermsAt(m, slots, busy, a, n) == Values(v, a, n)
    decreases bound, n
  {
    hide Closed, Acyclic, Meaning;
    if n > 0 {
      AcyclicTerm(m, slots, r, lo, hi, busy, a, v);
      AcyclicTerms(m, slots, r, lo, hi, busy, a + 1, n - 1, v, bound);
    }
  }

  /** A number above the ranks of n words from a on. */
  function Ceiling(r: Rank, a: nat, n: nat): (b: nat)
    ensures forall x :: a <= x < a + n ==> r(x) < b
  {
    if n == 0 then 0
    else
      var b := Ceiling(r, a, n - 1);
      if r(a + n - 1) < b then b else r(a + n - 1) + 1
  }

  /** For a term without cycles the copy is of what the argument means. */
  lemma CellTermMeaning(m: seq<Cell>, slots: set<nat>, r: Rank, lo: nat, hi: nat, c: Cell, v: nat -> Term)
    requires Closed(m, slots, r, lo, hi) && Acyclic(m, slots, r) && Meaning(m, slots, v) && CellOk(m, slots, lo, hi, c)
    ensures CellTerm(m, slots, c) == CellValue(v, m, c)
  {
    var bound :=
      if c.Ref? then r(c.a)
      else if IsCompound(m, c) then Ceiling(r, Base(ShapeOf(m, c), c.p), Arity(ShapeOf(m, c)))
      else 0;
    assert Damaged(m, {}) == m;
    DerefMeaning(m, slots, r, lo, hi, {}, c, Addresses(|m|), v, bound);
    var d := DerefCell(m, c);
    if IsCompound(m, d) {
      AcyclicTerms(m, slots, r, lo, hi, {}, Base(ShapeOf(m, d), d.p), Arity(ShapeOf(m, d)), v, bound);
    }
  }

  lemma {:induction false} DerefClear(m: seq<Cell>, slots: set<nat>, r: Rank, lo: nat, hi: nat, busy: set<nat>,
      c: Cell, left: set<nat>, bound: nat)
    requires Closed(m, slots, r, lo, hi) && Acyclic(m, slots, r) && CellOk(m, slots, lo, hi, c)
    requires forall b :: b in busy ==> bound < r(b)
    requires c.Ref? ==> r(c.a) <= bound
    requires IsCompound(m, c) ==> Under(m, r, c, bound)
    ensures
      var d := Deref(m, c, left);
      && Deref(Damaged(m, busy), c, left) == d && CellOk(m, slots, lo, hi, d) &&
          (IsCompound(m, d) ==> Under(m, r, d, bound))
    decreases left
  {
    if c.Ref? {
      assert WordOk(m, slots, r, lo, hi, c.a) && c.a !in busy;
      if m[c.a] != c && c.a in left { DerefClear(m, slots, r, lo, hi, busy, m[c.a], left - {c.a}, bound); }
    }
  }

  /** Words being visited above a term do not show in it. */
  lemma {:induction false} BusyAbove(m: seq<Cell>, slots: set<nat>, r: Rank, lo: nat, hi: nat, b1: set<nat>,
      b2: set<nat>, a: nat)
    requires Closed(m, slots, r, lo, hi) && Acyclic(m, slots, r) && a in slots
    requires forall b :: b in b1 + b2 ==> r(a) < r(b)
    ensures TermAt(m, slots, b1, a) == TermAt(m, slots, b2, a)
    decreases r(a) + 1, 0
  {
    assert WordOk(m, slots, r, lo, hi, a) && a !in b1 && a !in b2;
    DerefClear(m, slots, r, lo, hi, b1, m[a], Addresses(|m|), r(a));
    DerefClear(m, slots, r, lo, hi, b2, m[a], Addresses(|m|), r(a));
    var d := Target(m, b1, a);
    if IsCompound(m, d) {
      BusyAboveAll(m, slots, r, lo, hi, b1 + {a}, b2 + {a}, Base(ShapeOf(m, d), d.p), Arity(ShapeOf(m, d)), r(a));
    }
  }

  lemma {:induction false} BusyAboveAll(m: seq<Cell>, slots: set<nat>, r: Rank, lo: nat, hi: nat, b1: set<nat>,
      b2: set<nat>, a: nat, n: nat, bound: nat)
    requires Closed(m, slots, r, lo, hi) && Acyclic(m, slots, r)
    requires forall b :: b in b1 + b2 ==> bound <= r(b)
    requires forall x :: a <= x < a + n ==> x in slots && r(x) < bound
    ensures TermsAt(m, slots, b1, a, n) == TermsAt(m, slots, b2, a, n)
    decreases bound, n
  {
    hide Closed, Acyclic;
    if n > 0 {
      BusyAbove(m, slots, r, lo, hi, b1, b2, a);
      BusyAboveAll(m, slots, r, lo, hi, b1, b2, a + 1, n - 1, bound);
    }
  }

  function Tree(m: seq<Cell>, slots: set<nat>): nat -> Term {
    (x: nat) => TermAt(m, slots, {}, x)
  }

  lemma {:induction false} TermsValues(m: seq<Cell>, slots: set<nat>, a: nat, n: nat)
    ensures TermsAt(m, slots, {}, a, n) == Values(Tree(m, slots), a, n)
    decreases n
  {
    if n > 0 { TermsValues(m, slots, a + 1, n - 1); }
  }

  /** Every store without cycles has a meaning. */
  lemma MeaningExists(m: seq<Cell>, slots: set<nat>, r: Rank, lo: nat, hi: nat)
    requires Closed(m, slots, r, lo, hi) && Acyclic(m, slots, r)
    ensures Meaning(m, slots, Tree(m, slots))
  {
    forall a | a in slots && a < |m|
      ensures Tree(m, slots)(a) == if m[a] == Ref(a) then Var(a) else CellValue(Tree(m, slots), m, m[a])
    {
      TermOfTarget(m, slots, r, lo, hi, a);
      assert WordOk(m, slots, r, lo, hi, a) && Damaged(m, {}) == m;
      if m[a].Ref? && m[a] != Ref(a) {
        TermOfTarget(m, slots, r, lo, hi, m[a].a);
        DerefStep(m, slots, r, lo, hi, m[a]);
      }
    }
  }

  lemma TermOfTarget(m: seq<Cell>, slots: set<nat>, r: Rank, lo: nat, hi: nat, a: nat)
    requires Closed(m, slots, r, lo, hi) && Acyclic(m, slots, r) && a in slots
    ensures
      var d := Target(m, {}, a);
      TermAt(m, slots, {}, a) == if d.Ref? then Var(d.a) else CellValue(Tree(m, slots), m, d)
  {
    assert WordOk(m, slots, r, lo, hi, a) && Damaged(m, {}) == m;
    DerefClear(m, slots, r, lo, hi, {}, m[a], Addresses(|m|), r(a));
    var d := Target(m, {}, a);
    if IsCompound(m, d) {
      ArgsMean(m, slots, r, lo, hi, a, Base(ShapeOf(m, d), d.p), Arity(ShapeOf(m, d)));
    }
  }

  lemma ArgsMean(m: seq<Cell>, slots: set<nat>, r: Rank, lo: nat, hi: nat, a: nat, base: nat, n: nat)
    requires Closed(m, slots, r, lo, hi) && Acyclic(m, slots, r)
    requires forall x :: base <= x < base + n ==> x in slots && r(x) < r(a)
    ensures TermsAt(m, slots, {} + {a}, base, n) == Values(Tree(m, slots), base, n)
  {
    BusyAboveAll(m, slots, r, lo, hi, {} + {a}, {}, base, n, r(a));
    TermsValues(m, slots, base, n);
  }

  /** Dereferencing may start one step further. */
  lemma DerefStep(m: seq<Cell>, slots: set<nat>, r: Rank, lo: nat, hi: nat, c: Cell)
    requires Closed(m, slots, r, lo, hi) && c.Ref? && c.a in slots
    ensures c.a < |m| && DerefCell(m, m[c.a]) == DerefCell(m, c)
  {
    assert WordOk(m, slots, r, lo, hi, c.a);
    if m[c.a] != c {
      DerefEnough(m, slots, r, lo, hi, m[c.a], Addresses(|m|), Addresses(|m|) - {c.a});
    }
  }

  lemma {:induction false} DerefEnough(m: seq<Cell>, slots: set<nat>, r: Rank, lo: nat, hi: nat, c: Cell,
      l1: set<nat>, l2: set<nat>)
    requires Closed(m, slots, r, lo, hi) && CellOk(m, slots, lo, hi, c)
    requires c.Ref? ==> forall b: nat :: b < |m| && r(b) <= r(c.a) ==> b in l1 && b in l2
    ensures Deref(m, c, l1) == Deref(m, c, l2)
    decreases l1
  {
    if c.Ref? {
      assert WordOk(m, slots, r, lo, hi, c.a);
      if m[c.a] != c { DerefEnough(m, slots, r, lo, hi, m[c.a], l1 - {c.a}, l2 - {c.a}); }
    }
  }

  // ---------------------------------------------------------------- in place

  function Open(stack: seq<Saved>): int {
    if stack == [] then 0 else Rest(Frame(stack[|stack| - 1])) + Open(stack[..|stack| - 1])
  }

  lemma {:induction false} OpenNat(m0: seq<Cell>, slots: set<nat>, plan: seq<Job>, h0: nat, stack: seq<Saved>, lim: nat)
    requires StackOk(m0, slots, plan, h0, stack, lim)
    ensures 0 <= Open(stack)
  {
    if stack != [] { OpenNat(m0, slots, plan, h0, stack[..|stack| - 1], stack[|stack| - 1].ptn); }
  }

  /** The term that a cell in a register stands for. */
  function CellTerm(m: seq<Cell>, slots: set<nat>, c: Cell): Term {
    var d := DerefCell(m, c);
    if IsCompound(m, d) then
      var k := ShapeOf(m, d);
      Cmp(k, TermsAt(m, slots, {}, Base(k, d.p), Arity(k)))
    else if d.Ref? then Var(d.a)
    else if d.Con? then Atom(d.c)
    else if d.Fun? then Atom(d.name)
    else Blob(d.p)
  }

  class GlobalStack {
    const mem: array<Cell>
    var hr: nat

    constructor (space: array<Cell>, top: nat)
      ensures mem == space && hr == top
    {
      mem, hr := space, top;
    }

    /** Derefa: follows references from word a. */
    method Derefa(a: nat, ghost m0: seq<Cell>, ghost slots: set<nat>, ghost r: Rank, ghost h0: nat, ghost top: nat,
        ghost busy: set<nat>) returns (d: Cell)
      requires Closed(m0, slots, r, h0, top) && SourceOk(m0, mem[..], h0, top, busy) && a in slots && busy <= slots
      ensures a < mem.Length && d == DerefCell(mem[..], mem[a])
    {
      assert WordOk(m0, slots, r, h0, top, a);
      d := mem[a];
      ghost var left := Addresses(mem.Length);
      while d.Ref? && mem[d.a] != d
        invariant CellOk(m0, slots, h0, top, d) && (d.Ref? ==> d.a < mem.Length)
        invariant d.Ref? ==> forall b: nat :: b < mem.Length && r(b) <= r(d.a) ==> b in left
        invariant Deref(mem[..], d, left) == DerefCell(mem[..], mem[a])
        decreases if d.Ref? then r(d.a) + 1 else 0
      {
        assert WordOk(m0, slots, r, h0, top, d.a);
        left := left - {d.a};
        d := mem[d.a];
        if d.Ref? { assert WordOk(m0, slots, r, h0, top, d.a); }
      }
    }

    /** Lays out a block for compound d, points word ptn to it and leaves [] in word a. */
    method EnterCompound(d: Cell, ptn: nat, a: nat) returns (pt: int, end: int, ptn': nat)
      requires IsCompound(mem[..], d) && ptn < hr && hr + Words(ShapeOf(mem[..], d)) <= mem.Length && a < mem.Length
      requires a < hr || hr + Words(ShapeOf(mem[..], d)) <= a
      requires d.Appl? ==> d.p != ptn && d.p != a && (d.p < hr || hr + mem[d.p].arity < d.p)
      modifies this, mem
      ensures
        var k := ShapeOf(old(mem[..]), d);
        && mem[..] == Entered(old(mem[..]), k, ptn, old(hr), a) && hr == old(hr) + Words(k)
        && pt == Base(k, d.p) - 1 && end == Base(k, d.p) - 1 + Arity(k) && ptn' == Base(k, old(hr))
    {
      if d.Pair? {
        mem[ptn] := Pair(hr);
        mem[a] := NIL;
        pt := d.p - 1;
        end := d.p + 1;
        ptn' := hr;
        hr := hr + 2;
      } else {
        var f := mem[d.p];
        mem[ptn] := Appl(hr);
        mem[a] := NIL;
        pt := d.p;
        end := pt + f.arity;
        ptn' := hr;
        mem[ptn'] := f;
        ptn' := ptn' + 1;
        hr := hr + f.arity + 1;
      }
    }

    /** One word of the task. */
    method CopyWord(t: Task, toVisit: seq<Saved>, ghost m0: seq<Cell>, ghost slots: set<nat>, ghost r: Rank,
        ghost h0: nat, ghost top: nat, ghost plan: seq<Job>) returns (t': Task, toVisit': seq<Saved>,
        ghost plan': seq<Job>)
      requires Closed(m0, slots, r, h0, top) && hr == h0 + |plan| && 0 < Rest(t)
      requires Inv(m0, mem[..], slots, h0, top, plan, t, toVisit)
      modifies this, mem
      ensures Inv(m0, mem[..], slots, h0, top, plan', t', toVisit') && hr == h0 + |plan'| && plan <= plan'
      ensures old(hr) <= hr && (hr == old(hr) ==> Rest(t') == Rest(t) - 1 && toVisit' == toVisit)
    {
      hide Inv, Closed, TaskOk, StackOk, Copied, CellOk;
      ghost var m := mem[..];
      InvFacts(m0, m, slots, h0, top, plan, t, toVisit);
      NextWord(m0, m, slots, r, h0, top, plan, t, toVisit);
      var a: nat := t.pt + 1;
      var d := Derefa(a, m0, slots, r, h0, top, Busy(toVisit));
      if d.Pair? || (d.Appl? && mem[d.p].Fun?) {
        ghost var k := ShapeOf(m, d);
        CompoundStep(m0, m, slots, r, h0, top, plan, t, toVisit, k, a, d);
        plan' := plan + NewJobs(k, d.p, Busy(toVisit) + {a});
        toVisit' := toVisit + [Saved(a, t.end, t.ptn + 1, mem[a])];
        var pt, end, ptn := EnterCompound(d, t.ptn, a);
        t' := Task(pt, end, ptn);
      } else {
        AtomicStep(m0, m, slots, r, h0, top, plan, t, toVisit);
        mem[t.ptn] := d;
        t', toVisit', plan' := Task(t.pt + 1, t.end, t.ptn + 1), toVisit, plan;
      }
    }

    /** The loop: copies words t0.pt + 1 to t0.end to t0.ptn and on, blocks for their compounds on top of the stack. */
    method ReplaceComplex(t0: Task, ghost m0: seq<Cell>, ghost slots: set<nat>, ghost r: Rank, ghost h0: nat,
        ghost top: nat, ghost plan0: seq<Job>) returns (ghost plan: seq<Job>)
      requires Closed(m0, slots, r, h0, top) && hr == h0 + |plan0|
      requires Inv(m0, mem[..], slots, h0, top, plan0, t0, [])
      modifies this, mem
      ensures hr == top == h0 + |plan| && plan0 <= plan
      ensures SourceOk(m0, mem[..], h0, top, {}) && AllCopied(m0, mem[..], slots, h0, plan)
    {
      hide Inv, Closed, TaskOk, StackOk, Copied, CellOk;
      plan := plan0;
      var t := t0;
      var toVisit: seq<Saved> := [];
      while 0 < Rest(t) || toVisit != []
        invariant Inv(m0, mem[..], slots, h0, top, plan, t, toVisit)
        invariant hr == h0 + |plan| && plan0 <= plan
        decreases top - hr, Rest(t) + Open(toVisit), |toVisit|
      {
        ghost var m := mem[..];
        InvFacts(m0, m, slots, h0, top, plan, t, toVisit);
        if 0 < Rest(t) {
          t, toVisit, plan := CopyWord(t, toVisit, m0, slots, r, h0, top, plan);
          InvFacts(m0, mem[..], slots, h0, top, plan, t, toVisit);
        } else {
          var f := toVisit[|toVisit| - 1];
          PopStep(m0, m, slots, r, h0, top, plan, t, toVisit, toVisit[..|toVisit| - 1], f);
          toVisit := toVisit[..|toVisit| - 1];
          t := Frame(f);
          mem[f.pt] := f.cell;
        }
      }
      LoopDone(m0, mem[..], slots, h0, top, plan, t);
    }

    /** A variable, then a copy of compound d above it. */
    method CopyCompound(d: Cell, ghost slots: set<nat>, ghost r: Rank, ghost k: Shape, ghost t: Term, ghost top: nat)
        returns (res: Cell)
      requires Is(mem[..], k, d) && t == Cmp(k, TermsAt(mem[..], slots, {}, Base(k, d.p), Arity(k)))
      requires top == hr + 1 + Space(t) <= mem.Length
      requires Closed(mem[..], slots, r, hr, top) && CellOk(mem[..], slots, hr, top, d)
      modifies this, mem
      ensures hr == top && SourceOk(old(mem[..]), mem[..], old(hr), top, {})
      ensures Reads(mem[..], old(hr) + 1, top, res, t)
    {
      hide Closed, CellOk, Reads, TermsAt;
      ghost var m0, h0 := mem[..], hr;
      StartRoom(m0, slots, r, h0, top, k, d, t);
      var v := hr;
      mem[v] := Ref(v);
      hr := hr + 1;
      var task: Task;
      if d.Pair? {
        task := Task(d.p - 1, d.p + 1, hr);
        res := Pair(hr);
        hr := hr + 2;
      } else {
        res := Appl(hr);
        var f := mem[d.p];
        mem[hr] := f;
        task := Task(d.p, d.p + f.arity, hr + 1);
        hr := hr + f.arity + 1;
      }
      StartInv(m0, mem[..], slots, r, h0, top, k, d);
      ghost var plan := ReplaceComplex(task, m0, slots, r, h0, top, StartPlan(h0, k, d));
      EndReads(m0, mem[..], slots, h0, plan, k, d);
    }

    /** The same for an extension term, whose functor is no functor entry: ext words of it are taken for arguments. */
    method CopyExtension(d: Cell, ext: nat, ghost slots: set<nat>, ghost r: Rank, ghost top: nat) returns (res: Cell)
      requires d.Appl? && d.p < mem.Length && !mem[d.p].Fun? && ExtWords(slots, d.p, ext)
      requires top == hr + 2 + ext + SpaceAll(TermsAt(mem[..], slots, {}, d.p + 1, ext)) <= mem.Length
      requires Closed(mem[..], slots, r, hr, top) && CellOk(mem[..], slots, hr, top, d)
      modifies this, mem
      ensures hr == top && SourceOk(old(mem[..]), mem[..], old(hr), top, {})
      ensures res == Appl(old(hr) + 1) && mem[old(hr) + 1] == old(mem[d.p])
      ensures ReadsAll(mem[..], old(hr) + 1, top, old(hr) + 2, TermsAt(old(mem[..]), slots, {}, d.p + 1, ext))
    {
      hide Closed, Reads, ReadsAll, TermsAt;
      ghost var m0, h0 := mem[..], hr;
      var f, v := mem[d.p], hr;
      mem[v] := Ref(v);
      hr := hr + 1;
      res := Appl(hr);
      mem[hr] := f;
      var task := Task(d.p, d.p + ext, hr + 1);
      hr := hr + ext + 1;
      ExtInv(m0, mem[..], slots, r, h0, top, f, d.p, ext);
      ghost var plan := ReplaceComplex(task, m0, slots, r, h0, top, ExtPlan(h0, f, d.p, ext));
      ExtReads(m0, mem[..], slots, h0, plan, f, d.p, ext);
    }

    /** A pair of a copy of t0 and [], the copy made of new words; variables are shared, and so are extension terms,
        except t0 itself: ext is what is read as the arity of its functor. */
    method ReplaceReferences(t0: Cell, ext: nat, ghost slots: set<nat>, ghost r: Rank) returns (res: Cell)
      requires Copyable(mem[..], slots, r, hr, t0, ext)
      modifies this, mem
      ensures hr == old(hr) + Room(old(mem[..]), slots, t0, ext) && res == Pair(hr - 2) && hr <= mem.Length
      ensures Reads(mem[..], old(hr), hr, mem[hr - 2], CellTerm(old(mem[..]), slots, t0)) <==>
        !CellTerm(old(mem[..]), slots, t0).Blob?
      ensures CellTerm(old(mem[..]), slots, t0).Blob? ==> mem[hr - 2] == Appl(old(hr) + 1)
      ensures DerefCell(mem[..], mem[hr - 1]) == NIL
      ensures SourceOk(old(mem[..]), mem[..], old(hr), hr, {})
    {
      hide Copyable, Closed, CellOk, TermsAt, Reads, SpaceAll, Space, DerefCell;
      ghost var m0, h0, t := mem[..], hr, CellTerm(mem[..], slots, t0);
      CopyableFacts(m0, slots, r, hr, t0, ext);
      var d := DerefCell(mem[..], t0);
      ReadsOne(d, t);
      if !(d.Pair? || d.Appl?) {
        mem[hr] := d;
        mem[hr + 1] := NIL;
        hr := hr + 2;
        NilIsNil(mem[..]);
        return Pair(hr - 2);
      }
      var v := hr;
      ghost var top := h0 + Room(m0, slots, t0, ext) - 2;
      if d.Pair? || mem[d.p].Fun? {
        res := CopyCompound(d, slots, r, ShapeOf(m0, d), t, top);
      } else {
        res := CopyExtension(d, ext, slots, r, top);
      }
      ghost var m1 := mem[..];
      mem[v] := NIL;
      mem[hr] := res;
      mem[hr + 1] := Ref(v);
      if t.Cmp? { ReadsFrame(m1, mem[..], h0 + 1, hr, h0, hr + 2, res, t); }
      VListEmpty(mem[..], v);
      res := Pair(hr);
      hr := hr + 2;
    }
  }

  /** A cell that holds no pointer reads as the term it stands for. */
  lemma ReadsOne(d: Cell, t: Term)
    ensures (d.Ref? && t == Var(d.a)) || (d.Con? && t == Atom(d.c)) ==>
      forall m: seq<Cell>, lo: nat, hi: nat :: Reads(m, lo, hi, d, t)
    ensures t.Blob? ==> forall m: seq<Cell>, lo: nat, hi: nat, c: Cell :: Reads(m, lo, hi, c, t) <==> c == Appl(t.p)
  {
  }

  predicate ExtWords(slots: set<nat>, p: nat, ext: nat) {
    forall x: nat {:trigger x in slots} :: p < x <= p + ext ==> x in slots
  }

  /** Words replace_array_references takes: the copy, a variable if there is something to copy, and a pair. */
  function Room(m: seq<Cell>, slots: set<nat>, c: Cell, ext: nat): nat {
    var t := CellTerm(m, slots, c);
    if t.Cmp? then 3 + Space(t)
    else if t.Blob? then 4 + ext + SpaceAll(TermsAt(m, slots, {}, t.p + 1, ext))
    else 2
  }

  /** What the copier asks of its caller: room, and a well-formed source below it; for an extension term also that what
      is taken for its arguments can be read as terms. */
  ghost predicate Copyable(m: seq<Cell>, slots: set<nat>, r: Rank, hr: nat, c: Cell, ext: nat) {
    var t, room := CellTerm(m, slots, c), Room(m, slots, c, ext);
    && hr + room <= |m| && Closed(m, slots, r, hr, hr + room) && CellOk(m, slots, hr, hr + room, c)
    && (t.Blob? ==> ExtWords(slots, t.p, ext))
  }

  lemma CopyableFacts(m: seq<Cell>, slots: set<nat>, r: Rank, hr: nat, c: Cell, ext: nat)
    requires Copyable(m, slots, r, hr, c, ext)
    ensures
      var t, d, room := CellTerm(m, slots, c), DerefCell(m, c), Room(m, slots, c, ext);
      && hr + room <= |m| && !d.Fun? && (d.Appl? ==> d.p < |m| && (d.p < hr || hr + room <= d.p))
      && (t.Blob? ==> ExtWords(slots, t.p, ext))
      && CellOk(m, slots, hr, hr + room - 2, d) && Closed(m, slots, r, hr, hr + room - 2)
  {
    var room := Room(m, slots, c, ext);
    RegisterTarget(m, slots, r, hr, hr + room, c);
    forall a | a in slots
      ensures WordOk(m, slots, r, hr, hr + room - 2, a)
    {
      assert WordOk(m, slots, r, hr, hr + room, a);
    }
  }

  /** A boxed word as the argument: nothing more is known of it. */
  lemma ExtensionCounterexample()
    ensures
      var m := [Con(7), Con(0), Con(0), Con(0), Con(0)];
      Copyable(m, {}, x => 0, 1, Appl(0), 0) && CellTerm(m, {}, Appl(0)) == Blob(0)
  {
    var m := [Con(7), Con(0), Con(0), Con(0), Con(0)];
    assert DerefCell(m, Appl(0)) == Appl(0);
    assert TermsAt(m, {}, {}, 1, 0) == [] && Room(m, {}, Appl(0), 0) == 4;
  }

  function ExtPlan(h0: nat, f: Cell, p: nat, n: nat): (plan: seq<Job>)
    ensures |plan| == n + 2
  {
    [Head(Ref(h0)), Head(f)] + Jobs(p + 1, {}, n)
  }

  lemma ExtPlanAt(h0: nat, f: Cell, p: nat, n: nat)
    ensures JobAt(ExtPlan(h0, f, p, n), h0, h0) == Head(Ref(h0)) && JobAt(ExtPlan(h0, f, p, n), h0, h0 + 1) == Head(f)
    ensures forall y: nat {:trigger JobAt(ExtPlan(h0, f, p, n), h0, y)} :: h0 + 2 <= y < h0 + 2 + n ==>
      JobAt(ExtPlan(h0, f, p, n), h0, y) == Word(p + 1 + (y - h0 - 2), {})
  {
    var plan, js := ExtPlan(h0, f, p, n), Jobs(p + 1, {}, n);
    forall y: nat | h0 + 2 <= y < h0 + 2 + n
      ensures JobAt(plan, h0, y) == Word(p + 1 + (y - h0 - 2), {})
    {
      assert plan[y - h0] == js[y - h0 - 2];
    }
  }

  lemma ExtInv(m0: seq<Cell>, m: seq<Cell>, slots: set<nat>, r: Rank, h0: nat, top: nat, f: Cell, p: nat, n: nat)
    requires Closed(m0, slots, r, h0, top) && ExtWords(slots, p, n) && top <= |m0|
    requires |m| == |m0| && h0 + 2 + n <= |m| && m[h0] == Ref(h0) && m[h0 + 1] == f
    requires forall x :: 0 <= x < |m| && !(h0 <= x < h0 + 2 + n) ==> m[x] == m0[x]
    requires top == h0 + 2 + n + SpaceAll(TermsAt(m0, slots, {}, p + 1, n))
    ensures Inv(m0, m, slots, h0, top, ExtPlan(h0, f, p, n), Task(p, p + n, h0 + 2), [])
  {
    hide TermsAt, SpaceAll, WordOk, CellOk;
    var plan, t := ExtPlan(h0, f, p, n), Task(p, p + n, h0 + 2);
    ExtPlanAt(h0, f, p, n);
    assert TaskOk(slots, plan, h0, t, {}, h0 + |plan|);
    forall x: nat | h0 <= x < h0 + |plan| && !InTask(t, x) && !Pending([], x)
      ensures Copied(m0, m, slots, h0, plan, x)
    {
      assert x == h0 || x == h0 + 1;
    }
    assert StackOk(m0, slots, plan, h0, [], h0 + 2);
  }

  lemma ExtReads(m0: seq<Cell>, m: seq<Cell>, slots: set<nat>, h0: nat, plan: seq<Job>, f: Cell, p: nat, n: nat)
    requires AllCopied(m0, m, slots, h0, plan) && ExtPlan(h0, f, p, n) <= plan
    ensures h0 + 1 < |m| && m[h0 + 1] == f
    ensures ReadsAll(m, h0 + 1, h0 + |plan|, h0 + 2, TermsAt(m0, slots, {}, p + 1, n))
  {
    ExtPlanAt(h0, f, p, n);
    var plan0 := ExtPlan(h0, f, p, n);
    assert forall x: nat {:trigger JobAt(plan, h0, x)} :: h0 <= x < h0 + |plan0| ==>
           JobAt(plan, h0, x) == JobAt(plan0, h0, x);
    assert Copied(m0, m, slots, h0, plan, h0 + 1);
    CopiedReadsAll(m0, m, slots, h0, plan, h0 + 2, p + 1, n, {});
  }

  lemma StartRoom(m0: seq<Cell>, slots: set<nat>, r: Rank, h0: nat, top: nat, k: Shape, d: Cell, t: Term)
    requires Is(m0, k, d) && t == Cmp(k, TermsAt(m0, slots, {}, Base(k, d.p), Arity(k))) &&
      top == h0 + 1 + Space(t) <= |m0|
    requires CellOk(m0, slots, h0, top, d)
    ensures h0 + 1 + Words(k) <= top && (d.Appl? ==> d.p < h0 || top <= d.p)
  {
  }

  lemma NilIsNil(m: seq<Cell>)
    ensures DerefCell(m, NIL) == NIL
  {
  }

  lemma VListEmpty(m: seq<Cell>, v: nat)
    requires v < |m| && m[v] == NIL
    ensures DerefCell(m, Ref(v)) == NIL
  {
    assert Deref(m, Ref(v), Addresses(|m|)) == Deref(m, m[v], Addresses(|m|) - {v});
  }

  lemma RegisterTarget(m: seq<Cell>, slots: set<nat>, r: Rank, lo: nat, hi: nat, c: Cell)
    requires Closed(m, slots, r, lo, hi) && CellOk(m, slots, lo, hi, c)
    ensures CellOk(m, slots, lo, hi, DerefCell(m, c))
  {
    assert Damaged(m, {}) == m;
    DerefSame(m, m, slots, r, lo, hi, {}, c, Addresses(|m|));
  }

  /** The store with the variable, then the first block laid out. */
  ghost predicate Started(m0: seq<Cell>, m: seq<Cell>, h0: nat, k: Shape) {
    && |m| == |m0| && h0 + 1 + Words(k) <= |m| && m[h0] == Ref(h0)
    && (k.Struct? ==> m[h0 + 1] == Fun(k.name, k.arity))
    && forall x :: 0 <= x < |m| && !(h0 <= x < h0 + 1 + Words(k)) ==> m[x] == m0[x]
  }

  function StartPlan(h0: nat, k: Shape, d: Cell): seq<Job>
    requires d.Pair? || d.Appl?
  {
    [Head(Ref(h0))] + NewJobs(k, d.p, {})
  }

  lemma StartInv(m0: seq<Cell>, m: seq<Cell>, slots: set<nat>, r: Rank, h0: nat, top: nat, k: Shape, d: Cell)
    requires Closed(m0, slots, r, h0, top) && CellOk(m0, slots, h0, top, d) && Is(m0, k, d) && top <= |m0|
    requires Started(m0, m, h0, k)
    requires top == h0 + 1 + Words(k) + SpaceAll(TermsAt(m0, slots, {}, Base(k, d.p), Arity(k)))
    ensures |StartPlan(h0, k, d)| == 1 + Words(k)
    ensures Inv(m0, m, slots, h0, top, StartPlan(h0, k, d),
      Task(Base(k, d.p) - 1, Base(k, d.p) - 1 + Arity(k), Base(k, h0 + 1)), [])
  {
    var plan := StartPlan(h0, k, d);
    NewJobsPlanned([Head(Ref(h0))], h0, k, d.p, {});
    var t := Task(Base(k, d.p) - 1, Base(k, d.p) - 1 + Arity(k), Base(k, h0 + 1));
    assert JobAt([Head(Ref(h0))], h0, h0) == Head(Ref(h0));
    assert TaskOk(slots, plan, h0, t, {}, h0 + |plan|);
    forall x: nat | h0 <= x < h0 + |plan| && !InTask(t, x) && !Pending([], x)
      ensures Copied(m0, m, slots, h0, plan, x)
    {
    }
  }

  /** The first block, all copied. */
  lemma EndReads(m0: seq<Cell>, m: seq<Cell>, slots: set<nat>, h0: nat, plan: seq<Job>, k: Shape, d: Cell)
    requires Is(m0, k, d) && AllCopied(m0, m, slots, h0, plan) && StartPlan(h0, k, d) <= plan
    ensures Reads(m, h0 + 1, h0 + |plan|, Ptr(k, h0 + 1), Cmp(k, TermsAt(m0, slots, {}, Base(k, d.p), Arity(k))))
  {
    NewJobsPlanned([Head(Ref(h0))], h0, k, d.p, {});
    var plan0 := StartPlan(h0, k, d);
    assert |plan0| == 1 + Words(k);
    assert forall x: nat {:trigger JobAt(plan, h0, x)} :: h0 <= x < h0 + |plan0| ==>
           JobAt(plan, h0, x) == JobAt(plan0, h0, x);
    if k.Struct? { assert Copied(m0, m, slots, h0, plan, h0 + 1); }
    CopiedReadsAll(m0, m, slots, h0, plan, Base(k, h0 + 1), Base(k, d.p), Arity(k), {});
  }

  lemma InvFacts(m0: seq<Cell>, m: seq<Cell>, slots: set<nat>, h0: nat, top: nat, plan: seq<Job>, t: Task,
      stack: seq<Saved>)
    requires Inv(m0, m, slots, h0, top, plan, t, stack)
    ensures 0 <= Rest(t) && 0 <= Open(stack) && h0 + |plan| <= top <= |m| && Busy(stack) <= slots
    ensures SourceOk(m0, m, h0, top, Busy(stack)) && StackOk(m0, slots, plan, h0, stack, t.ptn)
  {
    OpenNat(m0, slots, plan, h0, stack, t.ptn);
    BusyInSlots(m0, slots, plan, h0, stack, t.ptn);
  }

  lemma LoopDone(m0: seq<Cell>, m: seq<Cell>, slots: set<nat>, h0: nat, top: nat, plan: seq<Job>, t: Task)
    requires Inv(m0, m, slots, h0, top, plan, t, []) && Rest(t) <= 0
    ensures top == h0 + |plan| && SourceOk(m0, m, h0, top, {}) && AllCopied(m0, m, slots, h0, plan)
  {
  }
}
