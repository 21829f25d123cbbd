/** The two passes of the assembler: the first finds out where labels are, the second writes the code. */
module Assembler {
  import opened Pseudo

  function Width(ys: seq<Yam>): nat {
    if ys == [] then 0 else ys[0].width + Width(ys[1..])
  }

  /** Pseudo-instruction i was met at address at, and left the code pointer at next. */
  datatype Mark = Mark(i: nat, at: nat, next: nat)

  datatype Pass = Pass(code: Code, info: Info, end: nat, marks: seq<Mark>)

  /** Pass 0: addresses advance, fetches rewrite the list ahead. */
  function FirstPass(lu: bool, arity: nat, code: Code, i: nat, f: Info, a: nat): Pass
    decreases |code| - i
  {
    if i >= |code| then Pass(code, f, a + Width(YStop(f)), [])
    else
      var o := Emit(lu, arity, false, code, i, f);
      var b := a + Width(o.yams);
      var r := FirstPass(lu, arity, Rewrite(code, i), i + o.used, o.info, b);
      r.(marks := [Mark(i, a, b)] + r.marks)
  }

  /** Pass 1, over the list as pass 0 left it. */
  function SecondPass(lu: bool, arity: nat, code: Code, i: nat, f: Info, a: nat): Pass
    decreases |code| - i
  {
    if i >= |code| then Pass(code, f, a + Width(YStop(f)), [])
    else
      var o := Emit(lu, arity, true, code, i, f);
      var b := a + Width(o.yams);
      var r := SecondPass(lu, arity, code, i + o.used, o.info, b);
      r.(marks := [Mark(i, a, b)] + r.marks)
  }

  // ---------------------------------------------------------------- rewriting ahead changes no decision

  /** From i on, up to and including the first fetch, the lists are the same. */
  ghost predicate Near(code: Code, c: Code, i: nat) {
    && |code| == |c|
    && forall j {:trigger c[j]} {:trigger code[j]} :: i <= j < |code| && NoFetch(code, i, j) ==> c[j] == code[j]
  }

  predicate NoFetch(code: Code, i: nat, j: nat)
    requires j <= |code|
  {
    forall k :: i <= k < j ==> !IsFetch(code[k].op)
  }

  lemma NearAt(code: Code, c: Code, i: nat, j: nat)
    requires Near(code, c, i) && i <= j && (j <= |code| ==> NoFetch(code, i, j))
    ensures At(c, j) == At(code, j)
  {
    if j < |code| { assert c[j] == code[j]; }
  }

  lemma {:induction false} NearVoids(code: Code, c: Code, i: nat, j: nat, op: Op)
    requires Near(code, c, i) && i <= j && (j <= |code| ==> NoFetch(code, i, j)) && !IsFetch(op)
    ensures VoidRun(c, j, op) == VoidRun(code, j, op)
    ensures var k := j + VoidRun(code, j, op); k <= |code| ==> NoFetch(code, i, k)
    decreases |code| - j
  {
    hide IsFetch;
    NearAt(code, c, i, j);
    if j < |code| && code[j].op == op && code[j].ve.Void? { NearVoids(code, c, i, j + 1, op); }
  }

  lemma {:induction false} NearCons(code: Code, c: Code, i: nat, j: nat, op: Op, x: nat)
    requires Near(code, c, i) && i <= j && (j <= |code| ==> NoFetch(code, i, j)) && !IsFetch(op)
    ensures ConsRun(c, j, op, x) == ConsRun(code, j, op, x)
    decreases |code| - j
  {
    NearAt(code, c, i, j);
    if j < |code| && code[j].op == op && code[j].rnd1 == x { NearCons(code, c, i, j + 1, op, x); }
  }

  lemma {:induction false} NearAtoms(code: Code, c: Code, i: nat, j: nat, x: nat)
    requires Near(code, c, i) && i <= j && (j <= |code| ==> NoFetch(code, i, j))
    ensures AtomRun(c, j, x) == AtomRun(code, j, x)
    decreases 7 - x
  {
    NearAt(code, c, i, j);
    if x <= 6 && IsGetAtom(At(code, j), x) { NearAtoms(code, c, i, j + 1, x + 1); }
  }

  lemma {:induction false} NearConstants(code: Code, c: Code, i: nat, j: nat, x: nat)
    requires Near(code, c, i) && i <= j && (j <= |code| ==> NoFetch(code, i, j))
    ensures Constants(c, j, AtomRun(code, j, x)) == Constants(code, j, AtomRun(code, j, x))
    decreases 7 - x
  {
    hide Near, NoFetch, At, AtomRun, Constants;
    NearAt(code, c, i, j);
    RunStep(code, j, x);
    var n := AtomRun(code, j, x);
    ConstantsStep(code, j, n);
    ConstantsStep(c, j, n);
    if n > 0 {
      NoFetchHere(code, i, j);
      NearConstants(code, c, i, j + 1, x + 1);
    }
  }

  lemma {:induction false} RunStep(code: Code, j: nat, x: nat)
    ensures
      var n := AtomRun(code, j, x);
      n > 0 ==> x <= 6 && !IsFetch(At(code, j).op) && AtomRun(code, j + 1, x + 1) == n - 1
  {
  }

  lemma {:induction false} ConstantsStep(code: Code, j: nat, n: nat)
    ensures Constants(code, j, n) == if n == 0 then [] else [At(code, j).rnd1] + Constants(code, j + 1, n - 1)
  {
  }

  lemma NoFetchHere(code: Code, i: nat, j: nat)
    requires (j <= |code| ==> NoFetch(code, i, j)) && !IsFetch(At(code, j).op)
    ensures j + 1 <= |code| ==> NoFetch(code, i, j + 1)
  {
  }

  /** The next instructions are the same, unless this one is a fetch. */
  lemma NearNext(code: Code, c: Code, i: nat)
    requires Near(code, c, i) && i < |code|
    ensures At(c, i) == At(code, i)
    ensures !IsFetch(code[i].op) ==> At(c, i + 1) == At(code, i + 1) && NoFetch(code, i, i + 1)
    ensures !IsFetch(code[i].op) && !IsFetch(At(code, i + 1).op) ==> At(c, i + 2) == At(code, i + 2)
  {
    NearAt(code, c, i, i);
    if !IsFetch(code[i].op) {
      NearAt(code, c, i, i + 1);
      if !IsFetch(At(code, i + 1).op) { NearAt(code, c, i, i + 2); }
    }
  }

  lemma RegisterConstNear(opc: Opcode, code: Code, c: Code, i: nat, f: Info)
    requires Near(code, c, i) && i < |code| && !IsFetch(code[i].op)
    ensures RegisterConst(opc, c, i, f) == RegisterConst(opc, code, i, f)
  {
    hide Near, NoFetch, AtomRun, At;
    NearNext(code, c, i);
    NearAtoms(code, c, i, i + 1, 2);
    NearConstants(code, c, i, i + 1, 2);
  }

  lemma ConstantsNear(code: Code, c: Code, i: nat, f: Info)
    requires Near(code, c, i) && i < |code| && !IsFetch(code[i].op)
    ensures RegisterConst(YGetAtom, c, i, f) == RegisterConst(YGetAtom, code, i, f)
    ensures RegisterConst(YPutAtom, c, i, f) == RegisterConst(YPutAtom, code, i, f)
    ensures UnifyConst(UnifyAtom, c, i, f) == UnifyConst(UnifyAtom, code, i, f)
    ensures UnifyConst(WriteAtom, c, i, f) == UnifyConst(WriteAtom, code, i, f)
  {
    hide Near, NoFetch, ConsRun, RegisterConst;
    NearNext(code, c, i);
    NearCons(code, c, i, i + 1, UnifyAtom, code[i].rnd1);
    NearCons(code, c, i, i + 1, WriteAtom, code[i].rnd1);
    RegisterConstNear(YGetAtom, code, c, i, f);
    RegisterConstNear(YPutAtom, code, c, i, f);
  }

  lemma VariablesNear(code: Code, c: Code, i: nat, f: Info)
    requires Near(code, c, i) && i < |code| && !IsFetch(code[i].op)
    ensures UnifyVariable(c, i, f) == UnifyVariable(code, i, f)
    ensures WriteVariable(c, i, f) == WriteVariable(code, i, f)
  {
    UnifyNear(code, c, i, f);
    WriteNear(code, c, i, f);
  }

  lemma UnifyNear(code: Code, c: Code, i: nat, f: Info)
    requires Near(code, c, i) && i < |code| && !IsFetch(code[i].op)
    ensures UnifyVariable(c, i, f) == UnifyVariable(code, i, f)
  {
    hide Near, NoFetch, VoidRun, At, UnifyVariable;
    NearNext(code, c, i);
    NearVoids(code, c, i, i + 1, UnifyVar);
    NearAt(code, c, i, i + 1 + VoidRun(code, i + 1, UnifyVar));
    UnifySame(code, c, i, f);
  }

  lemma UnifySame(code: Code, c: Code, i: nat, f: Info)
    requires At(c, i) == At(code, i) && At(c, i + 1) == At(code, i + 1)
    requires VoidRun(c, i + 1, UnifyVar) == VoidRun(code, i + 1, UnifyVar)
    requires
      var k := i + 1 + VoidRun(code, i + 1, UnifyVar);
      At(c, k) == At(code, k)
    ensures UnifyVariable(c, i, f) == UnifyVariable(code, i, f)
  {
    hide VoidRun, At;
  }

  lemma WriteNear(code: Code, c: Code, i: nat, f: Info)
    requires Near(code, c, i) && i < |code| && !IsFetch(code[i].op)
    ensures WriteVariable(c, i, f) == WriteVariable(code, i, f)
  {
    hide Near, NoFetch, VoidRun;
    NearNext(code, c, i);
    NearVoids(code, c, i, i + 1, WriteVar);
  }

  lemma PlainNear(lu: bool, arity: nat, code: Code, c: Code, i: nat)
    requires Near(code, c, i) && i < |code| && IsPlain(code[i].op)
    ensures Plain(lu, arity, c, i) == Plain(lu, arity, code, i)
  {
    hide Near, NoFetch, ILabels;
    NearNext(code, c, i);
  }

  lemma Ats(code: Code, c: Code, i: nat)
    requires Near(code, c, i) && i < |code|
    ensures At(code, i) == code[i] && At(c, i) == c[i]
  {
  }

  lemma HeadsNear(code: Code, c: Code, i: nat, f: Info)
    requires Near(code, c, i) && i < |code| && !IsFetch(code[i].op)
    ensures Register(code[i].op, c, i, f) == Register(code[i].op, code, i, f)
    ensures List(c, i, f) == List(code, i, f)
  {
    hide Near, NoFetch;
    NearNext(code, c, i);
  }

  lemma GoalsNear(lu: bool, code: Code, c: Code, i: nat, f: Info)
    requires Near(code, c, i) && i < |code| && !IsFetch(code[i].op)
    ensures DeallocateCode(lu, c, i, f) == DeallocateCode(lu, code, i, f)
    ensures Builtin(c, i, f) == Builtin(code, i, f)
  {
    hide Near, NoFetch;
    NearNext(code, c, i);
  }

  lemma FetchNear(lu: bool, second: bool, code: Code, c: Code, i: nat, f: Info)
    requires Near(code, c, i) && i < |code| && IsFetch(code[i].op)
    ensures Mixed(lu, second, c, i, f) == Mixed(lu, second, code, i, f)
  {
    hide Near, NoFetch, RegisterConst, UnifyConst, UnifyVariable, WriteVariable, Predicate, CheckAlloc, CutCode;
    hide Register, List, DeallocateCode, Builtin, After, Protect, YStop, Entry, Marks;
    NearNext(code, c, i);
  }

  lemma MixedNear(lu: bool, second: bool, code: Code, c: Code, i: nat, f: Info)
    requires Near(code, c, i) && i < |code| && !IsPlain(code[i].op)
    ensures Mixed(lu, second, c, i, f) == Mixed(lu, second, code, i, f)
  {
    hide Near, NoFetch, RegisterConst, UnifyConst, UnifyVariable, WriteVariable, Predicate, CheckAlloc, CutCode;
    hide Register, List, DeallocateCode, Builtin, After, Protect, YStop, Entry, IsPlain, IsFetch;
    NearNext(code, c, i);
    if IsFetch(code[i].op) {
      FetchNear(lu, second, code, c, i, f);
    } else {
      HeadsNear(code, c, i, f);
      GoalsNear(lu, code, c, i, f);
      ConstantsNear(code, c, i, f);
      VariablesNear(code, c, i, f);
    }
  }

  /** What an instruction turns into depends on the list only as far as the next fetch. */
  lemma EmitNear(lu: bool, arity: nat, second: bool, code: Code, c: Code, i: nat, f: Info)
    requires Near(code, c, i) && i < |code|
    ensures Emit(lu, arity, second, c, i, f) == Emit(lu, arity, second, code, i, f)
  {
    NearNext(code, c, i);
    if IsPlain(code[i].op) { PlainNear(lu, arity, code, c, i); } else { MixedNear(lu, second, code, c, i, f); }
  }

  /** A pass changes nothing behind it. */
  lemma {:induction false} PrefixKept(lu: bool, arity: nat, code: Code, i: nat, f: Info, a: nat)
    ensures
      var c := FirstPass(lu, arity, code, i, f, a).code;
      |c| == |code| && forall j :: 0 <= j <= i && j < |code| ==> c[j] == code[j]
    decreases |code| - i
  {
    hide Emit, Rewrite;
    if i < |code| {
      var o := Emit(lu, arity, false, code, i, f);
      PrefixKept(lu, arity, Rewrite(code, i), i + o.used, o.info, a + Width(o.yams));
    }
  }

  /** A load that a fetch has taken over is a nop that names the register the temporary is in; loads of permanent
      variables and puts of new ones stay. */
  predicate TakenOver(p: PInstr, q: PInstr) {
    if IsPerm(p) || p.op == Nop || p.op == PutVar then q == p
    else q.op == Nop && q.rnd2 == Offset(p) && q.ve == p.ve && q.rnd1 == p.rnd1
  }

  /** What pass 0 does to the list at a fetch: one load or two are taken over, and nothing else changes. */
  lemma RewriteIs(code: Code, i: nat, j: nat)
    requires i < |code| && j < |code|
    ensures
      var c, op := Rewrite(code, i), code[i].op;
      if IsFetch(op) && (j == i + 1 || (j == i + 2 && op == FetchVV)) then TakenOver(code[j], c[j])
      else c[j] == code[j]
  {
  }

  predicate Stays(p: PInstr) { IsPerm(p) || p.op == Nop || p.op == PutVar }

  lemma {:induction false} PassKeeps(lu: bool, arity: nat, code: Code, i: nat, f: Info, a: nat, j: nat)
    requires j < |code| && Stays(code[j])
    ensures
      var c := FirstPass(lu, arity, code, i, f, a).code;
      |c| == |code| && c[j] == code[j]
    decreases |code| - i
  {
    hide Emit, Width, Rewrite;
    if i < |code| {
      var o := Emit(lu, arity, false, code, i, f);
      RewriteIs(code, i, j);
      PassKeeps(lu, arity, Rewrite(code, i), i + o.used, o.info, a + Width(o.yams), j);
    }
  }

  lemma {:induction false} FetchHere(lu: bool, arity: nat, code: Code, i: nat, f: Info, a: nat, j: nat)
    requires i < |code| && IsFetch(code[i].op) && j < |code| && (j == i + 1 || (j == i + 2 && code[i].op == FetchVV))
    ensures
      var c := FirstPass(lu, arity, code, i, f, a).code;
      |c| == |code| && Stays(c[j])
  {
    hide Emit, Width, Rewrite, FirstPass;
    var o := Emit(lu, arity, false, code, i, f);
    RewriteIs(code, i, j);
    OneFirst(lu, arity, code, i, f, a);
    PassKeeps(lu, arity, Rewrite(code, i), i + o.used, o.info, a + Width(o.yams), j);
  }

  lemma NoMarks(lu: bool, arity: nat, code: Code, i: nat, f: Info, a: nat)
    requires i >= |code|
    ensures FirstPass(lu, arity, code, i, f, a).marks == []
  {
  }

  /** In the list pass 0 leaves, every fetch it came to has its loads taken over. */
  lemma {:induction false} FetchesDone(lu: bool, arity: nat, code: Code, i: nat, f: Info, a: nat, k: nat)
    requires k < |FirstPass(lu, arity, code, i, f, a).marks|
    ensures
      var r := FirstPass(lu, arity, code, i, f, a);
      var m := r.marks[k].i;
      && m < |r.code| && i <= m
      && (IsFetch(r.code[m].op) && m + 1 < |r.code| ==> Stays(r.code[m + 1]))
      && (r.code[m].op == FetchVV && m + 2 < |r.code| ==> Stays(r.code[m + 2]))
    decreases |code| - i
  {
    hide Emit, Width, Rewrite, FirstPass, Stays;
    var o, c := Emit(lu, arity, false, code, i, f), Rewrite(code, i);
    PrefixKept(lu, arity, code, i, f, a);
    if i >= |code| { NoMarks(lu, arity, code, i, f, a); }
    OneFirst(lu, arity, code, i, f, a);
    if k == 0 {
      if IsFetch(code[i].op) && i + 1 < |code| { FetchHere(lu, arity, code, i, f, a, i + 1); }
      if code[i].op == FetchVV && i + 2 < |code| { FetchHere(lu, arity, code, i, f, a, i + 2); }
    } else {
      FetchesDone(lu, arity, c, i + o.used, o.info, a + Width(o.yams), k - 1);
    }
  }

  /** The list that pass 0 leaves is, from any instruction it came to, what it was then up to the next fetch. */
  lemma {:induction false} FinalNear(lu: bool, arity: nat, code: Code, i: nat, f: Info, a: nat)
    ensures Near(code, FirstPass(lu, arity, code, i, f, a).code, i)
    decreases |code| - i
  {
    hide Emit, Rewrite, Near, FirstPass, Width, IsFetch;
    PrefixKept(lu, arity, code, i, f, a);
    NearBack(code, FirstPass(lu, arity, code, i, f, a).code, i, i);
    if i < |code| {
      var o := Emit(lu, arity, false, code, i, f);
      var b := a + Width(o.yams);
      var c := FirstPass(lu, arity, Rewrite(code, i), i + o.used, o.info, b).code;
      OneFirst(lu, arity, code, i, f, a);
      FinalNear(lu, arity, Rewrite(code, i), i + o.used, o.info, b);
      PrefixKept(lu, arity, Rewrite(code, i), i + o.used, o.info, b);
      if !IsFetch(code[i].op) {
        NotRewritten(code, i);
        NearBack(code, c, i, i + o.used);
      }
    }
  }

  lemma OneFirst(lu: bool, arity: nat, code: Code, i: nat, f: Info, a: nat)
    requires i < |code|
    ensures
      var o := Emit(lu, arity, false, code, i, f);
      var a' := a + Width(o.yams);
      var r, r' := FirstPass(lu, arity, code, i, f, a), FirstPass(lu, arity, Rewrite(code, i), i + o.used, o.info, a');
      r.code == r'.code && r.info == r'.info && r.end == r'.end && r.marks == [Mark(i, a, a')] + r'.marks
  {
    hide Emit, Rewrite, Width;
  }

  lemma NotRewritten(code: Code, i: nat)
    requires i < |code| && !IsFetch(code[i].op)
    ensures Rewrite(code, i) == code
  {
  }

  lemma NearBack(code: Code, c: Code, i: nat, k: nat)
    requires |c| == |code| && i <= k
    ensures Near(code, c, k) && (forall j :: 0 <= j < |code| && j < k ==> c[j] == code[j]) ==> Near(code, c, i)
    ensures (forall j :: 0 <= j <= i && j < |code| ==> c[j] == code[j]) && (i >= |code| || IsFetch(code[i].op)) ==>
      Near(code, c, i)
  {
    if Near(code, c, k) && forall j :: 0 <= j < |code| && j < k ==> c[j] == code[j] { NearWider(code, c, i, k); }
    if i < |code| && IsFetch(code[i].op) {
      forall j | i < j < |code|
        ensures !NoFetch(code, i, j)
      {
        assert IsFetch(code[i].op);
      }
    }
  }

  lemma NearWider(code: Code, c: Code, i: nat, k: nat)
    requires i <= k && Near(code, c, k) && forall j :: 0 <= j < |code| && j < k ==> c[j] == code[j]
    ensures Near(code, c, i)
  {
    forall j | i <= j < |code| && NoFetch(code, i, j)
      ensures c[j] == code[j]
    {
      if k <= j { assert NoFetch(code, k, j); }
    }
  }

  // ---------------------------------------------------------------- the two passes side by side

  predicate IsExit(op: Op) { op == Procceed || op == CutExit }

  /** An exit that must protect the clause's blobs or terms but comes before pass 0 has seen any. */
  predicate Late(lu: bool, op: Op, f: Info, holds: bool) {
    IsExit(op) && lu && f.alloc == 0 && holds && !f.blobs && !f.dbterm
  }

  function LateExits(lu: bool, arity: nat, code: Code, i: nat, f: Info, holds: bool): nat
    decreases |code| - i
  {
    if i >= |code| then 0
    else
      var o := Emit(lu, arity, false, code, i, f);
      (if Late(lu, code[i].op, f, holds) then 1 else 0)
      + LateExits(lu, arity, Rewrite(code, i), i + o.used, o.info, holds)
  }

  /** The variables of the two passes: alike but for what pass 0 does not know yet, or never notes. */
  predicate Alike(f: Info, g: Info) {
    && g.alloc == f.alloc && g.dealloc == f.dealloc && g.noUatom == f.noUatom && g.ystop == f.ystop &&
        g.failure == f.failure
    && (f.blobs ==> g.blobs) && (f.dbterm ==> g.dbterm)
  }

  lemma {:induction false} WidthConcat(xs: seq<Yam>, ys: seq<Yam>)
    ensures Width(xs + ys) == Width(xs) + Width(ys)
  {
    if xs == [] {
      assert xs + ys == ys;
    } else {
      assert (xs + ys)[1..] == xs[1..] + ys;
      WidthConcat(xs[1..], ys);
    }
  }

  /** Same instructions used up, same variables, same width but at late exits. */
  ghost predicate Agree(o: Out, u: Out, extra: nat) {
    && o.used == u.used && Alike(o.info, u.info) && Width(u.yams) == Width(o.yams) + extra
  }

  /** Flags are only ever set, and set alike. */
  predicate FlagsGrow(f: Info, f': Info, g: Info, g': Info) {
    && (f.blobs ==> f'.blobs) && (f.dbterm ==> f'.dbterm)
    && (g'.blobs <==> g.blobs || (f'.blobs && !f.blobs)) && (g'.dbterm <==> g.dbterm || (f'.dbterm && !f.dbterm))
  }

  /** The same instructions from both passes, no flag set. */
  predicate Same(o: Out, u: Out, f: Info, g: Info) {
    && u.yams == o.yams && u.used == o.used && Alike(o.info, u.info)
    && o.info.blobs == f.blobs && o.info.dbterm == f.dbterm && u.info.blobs == g.blobs && u.info.dbterm == g.dbterm
  }

  lemma RegisterAlike(op: Op, code: Code, i: nat, f: Info, g: Info)
    requires Alike(f, g)
    ensures Same(Register(op, code, i, f), Register(op, code, i, g), f, g)
  {
    hide At, IsPerm;
  }

  lemma RegistersAlike(code: Code, i: nat, f: Info, g: Info)
    requires Alike(f, g)
    ensures Same(Register(GetVar, code, i, f), Register(GetVar, code, i, g), f, g)
    ensures Same(Register(PutVar, code, i, f), Register(PutVar, code, i, g), f, g)
    ensures Same(Register(GetVal, code, i, f), Register(GetVal, code, i, g), f, g)
    ensures Same(Register(PutVal, code, i, f), Register(PutVal, code, i, g), f, g)
  {
    hide Same, Alike, Register;
    RegisterAlike(GetVar, code, i, f, g);
    RegisterAlike(PutVar, code, i, f, g);
    RegisterAlike(GetVal, code, i, f, g);
    RegisterAlike(PutVal, code, i, f, g);
  }

  lemma RegisterConstAlike(opc: Opcode, code: Code, i: nat, f: Info, g: Info)
    requires Alike(f, g)
    ensures Same(RegisterConst(opc, code, i, f), RegisterConst(opc, code, i, g), f, g)
  {
    hide RegisterConst;
    ConstInfo(opc, code, i, f, g);
  }

  lemma ConstInfo(opc: Opcode, code: Code, i: nat, f: Info, g: Info)
    ensures
      var o, u := RegisterConst(opc, code, i, f), RegisterConst(opc, code, i, g);
      u.yams == o.yams && u.used == o.used && o.info == f && u.info == g
  {
    hide ConsRun, AtomRun, At, Constants;
  }

  lemma UnifyConstAlike(op: Op, code: Code, i: nat, f: Info, g: Info)
    requires Alike(f, g)
    ensures Same(UnifyConst(op, code, i, f), UnifyConst(op, code, i, g), f, g)
  {
    hide ConsRun, AtomRun, At;
  }

  lemma ConstantsAlike(code: Code, i: nat, f: Info, g: Info)
    requires Alike(f, g)
    ensures Same(RegisterConst(YGetAtom, code, i, f), RegisterConst(YGetAtom, code, i, g), f, g)
    ensures Same(RegisterConst(YPutAtom, code, i, f), RegisterConst(YPutAtom, code, i, g), f, g)
    ensures Same(UnifyConst(UnifyAtom, code, i, f), UnifyConst(UnifyAtom, code, i, g), f, g)
    ensures Same(UnifyConst(WriteAtom, code, i, f), UnifyConst(WriteAtom, code, i, g), f, g)
  {
    hide Same, Alike, RegisterConst, UnifyConst;
    RegisterConstAlike(YGetAtom, code, i, f, g);
    RegisterConstAlike(YPutAtom, code, i, f, g);
    UnifyConstAlike(UnifyAtom, code, i, f, g);
    UnifyConstAlike(WriteAtom, code, i, f, g);
  }

  lemma ListAlike(code: Code, i: nat, f: Info, g: Info)
    requires Alike(f, g)
    ensures Same(List(code, i, f), List(code, i, g), f, g)
  {
    hide At;
  }

  lemma UnifyVariableAlike(code: Code, i: nat, f: Info, g: Info)
    requires Alike(f, g)
    ensures Same(UnifyVariable(code, i, f), UnifyVariable(code, i, g), f, g)
    ensures Same(WriteVariable(code, i, f), WriteVariable(code, i, g), f, g)
  {
    hide VoidRun, At;
  }

  lemma VariablesAlike(code: Code, i: nat, f: Info, g: Info)
    requires Alike(f, g)
    ensures Same(UnifyVariable(code, i, f), UnifyVariable(code, i, g), f, g)
    ensures Same(WriteVariable(code, i, f), WriteVariable(code, i, g), f, g)
    ensures Same(List(code, i, f), List(code, i, g), f, g)
  {
    hide Same, Alike, UnifyVariable, WriteVariable, List;
    UnifyVariableAlike(code, i, f, g);
    ListAlike(code, i, f, g);
  }

  lemma AllocAlike(lu: bool, f: Info, g: Info)
    requires Alike(f, g)
    ensures
      var p, q := CheckAlloc(lu, f), CheckAlloc(lu, g);
      && p.0 == q.0 && Alike(p.1, q.1)
      && p.1.blobs == f.blobs && p.1.dbterm == f.dbterm && q.1.blobs == g.blobs && q.1.dbterm == g.dbterm
  {
  }

  lemma PredicateAlike(lu: bool, p: PInstr, opc: Opcode, f: Info, g: Info)
    requires Alike(f, g)
    ensures Same(Predicate(opc, lu, p, f), Predicate(opc, lu, p, g), f, g)
  {
    hide CheckAlloc, Bitmap, Alike;
    AllocAlike(lu, f, g);
    AlikeFields(f, g);
    AlikeAlloc(f, g);
  }

  lemma AlikeAlloc(f: Info, g: Info)
    requires Alike(f, g)
    ensures Alike(f.(alloc := 1), g.(alloc := 1)) && g.failure == f.failure
  {
  }

  lemma CutAlike(lu: bool, f: Info, g: Info)
    requires Alike(f, g)
    ensures Same(CutCode(lu, f), CutCode(lu, g), f, g)
  {
    hide CheckAlloc;
    AllocAlike(lu, f, g);
  }

  lemma DeallocateAlike(lu: bool, code: Code, i: nat, f: Info, g: Info)
    requires Alike(f, g)
    ensures Same(DeallocateCode(lu, code, i, f), DeallocateCode(lu, code, i, g), f, g)
  {
    hide Predicate;
    PredicateAlike(lu, At(code, i + 1), YDexecute, f, g);
  }

  /** Built-ins on two registers, or a register and a constant, take the same room: pass 0 need not know which. */
  lemma BuiltinAlike(code: Code, i: nat, f: Info, g: Info)
    requires Alike(f, g)
    ensures Agree(Builtin(code, i, f), Builtin(code, i, g), 0)
    ensures FlagsGrow(f, Builtin(code, i, f).info, g, Builtin(code, i, g).info)
  {
  }

  lemma ExitAlike(lu: bool, op: Op, ys: seq<Yam>, f: Info, g: Info)
    requires Alike(f, g) && IsExit(op)
    ensures Width(Protect(lu, g) + ys) == Width(Protect(lu, f) + ys)
      + if Late(lu, op, f, g.blobs || g.dbterm) then 2 else 0
  {
    WidthConcat(Protect(lu, g), ys);
    WidthConcat(Protect(lu, f), ys);
  }

  lemma ApplyAlike(e: Effect, x: nat, f: Info, g: Info)
    requires Alike(f, g)
    ensures Alike(Apply(e, x, f), Apply(e, x, g)) && FlagsGrow(f, Apply(e, x, f), g, Apply(e, x, g))
  {
  }

  /** The two passes agree on an instruction. */
  ghost predicate Meets(o: Out, u: Out, f: Info, g: Info, extra: nat) {
    Agree(o, u, extra) && FlagsGrow(f, o.info, g, u.info)
  }

  lemma SameMeets(o: Out, u: Out, f: Info, g: Info)
    requires Same(o, u, f, g)
    ensures Meets(o, u, f, g, 0)
  {
  }

  lemma SameSelf(f: Info, g: Info)
    requires Alike(f, g)
    ensures Same(Out([Yam(YProcceed, 2, [])], 1, f), Out([Yam(YProcceed, 2, [])], 1, g), f, g)
  {
  }

  lemma ExitMeets(lu: bool, op: Op, o: Out, u: Out, f: Info, g: Info)
    requires Same(o, u, f, g) && Alike(f, g) && IsExit(op)
    ensures Meets(Out(Protect(lu, f) + o.yams, 1, o.info), Out(Protect(lu, g) + u.yams, 1, u.info), f, g,
                  if Late(lu, op, f, g.blobs || g.dbterm) then 2 else 0)
  {
    hide Protect, Width;
    ExitAlike(lu, op, o.yams, f, g);
  }

  lemma BuiltinMeets(code: Code, i: nat, f: Info, g: Info)
    requires Alike(f, g)
    ensures Meets(Builtin(code, i, f), Builtin(code, i, g), f, g, 0)
  {
    BuiltinAlike(code, i, f, g);
  }

  lemma AllocMeets(lu: bool, code: Code, i: nat, f: Info, g: Info)
    requires i < |code| && Alike(f, g) && (code[i].op == PushOr || code[i].op == Either)
    ensures Meets(Mixed(lu, false, code, i, f), Mixed(lu, true, code, i, g), f, g, 0)
  {
    hide Register, RegisterConst, UnifyConst, UnifyVariable, WriteVariable, List, Predicate, CutCode, DeallocateCode,
      CheckAlloc, Builtin, Width, Protect;
    AllocAlike(lu, f, g);
    SameMeets(Mixed(lu, false, code, i, f), Mixed(lu, true, code, i, g), f, g);
  }

  lemma FetchMeets(lu: bool, code: Code, i: nat, f: Info, g: Info)
    requires i < |code| && Alike(f, g) && IsFetch(code[i].op)
    ensures Meets(Mixed(lu, false, code, i, f), Mixed(lu, true, code, i, g), f, g, 0)
  {
    hide Register, RegisterConst, UnifyConst, UnifyVariable, WriteVariable, List, Predicate, CutCode, DeallocateCode,
      CheckAlloc, Builtin, Width, Protect, Meets, Alike;
    var x := match code[i].op case FetchVV => XX case FetchVC => XC case _ => CX;
    OperandsMeet(f, g, x);
  }

  lemma OperandsMeet(f: Info, g: Info, x: Operands)
    requires Alike(f, g)
    ensures Meets(Out([], 1, f), Out([], 1, g.(operands := x)), f, g, 0)
  {
  }

  lemma MarksMeet(lu: bool, code: Code, i: nat, f: Info, g: Info)
    requires i < |code| && Alike(f, g)
    requires code[i].op == MarkLive || code[i].op == MarkInit || code[i].op == Label || code[i].op == EmptyCall
    ensures Meets(Mixed(lu, false, code, i, f), Mixed(lu, true, code, i, g), f, g, 0)
  {
    hide Register, RegisterConst, UnifyConst, UnifyVariable, WriteVariable, List, Predicate, CutCode, DeallocateCode,
      CheckAlloc, Builtin, Width, Protect, Meets, Alike;
    AlikeFields(f, g);
    match code[i].op
    case Label => LabelMeets(lu, code, i, f, g);
    case EmptyCall => UnmarkedMeet(Mixed(lu, false, code, i, f).yams, f, g, f.dealloc);
    case MarkLive | MarkInit => MarkedMeet(Mixed(lu, false, code, i, f).yams, f, g, true, f.dealloc);
  }

  lemma LabelMeets(lu: bool, code: Code, i: nat, f: Info, g: Info)
    requires i < |code| && Alike(f, g) && code[i].op == Label
    ensures Meets(Mixed(lu, false, code, i, f), Mixed(lu, true, code, i, g), f, g, 0)
  {
    hide Register, RegisterConst, UnifyConst, UnifyVariable, WriteVariable, List, Predicate, CutCode, DeallocateCode,
      CheckAlloc, Builtin, Width, Protect, Meets, Alike;
    AlikeFields(f, g);
    match code[i].op
    case Label =>
      if Marks(At(code, i + 1).op) {
        MarkedMeet(YStop(f), f, g, true, false);
      } else {
        UnmarkedMeet([], f, g, false);
      }
  }

  lemma UnmarkedMeet(ys: seq<Yam>, f: Info, g: Info, d: bool)
    requires Alike(f, g)
    ensures Meets(Out(ys, 1, f.(dealloc := d)), Out(ys, 1, g.(dealloc := d)), f, g, 0)
  {
  }

  lemma AlikeFields(f: Info, g: Info)
    requires Alike(f, g)
    ensures g.alloc == f.alloc && g.dealloc == f.dealloc && g.ystop == f.ystop && YStop(g) == YStop(f)
  {
  }

  lemma MarkedMeet(ys: seq<Yam>, f: Info, g: Info, y: bool, d: bool)
    requires Alike(f, g)
    ensures Meets(Out(ys, 1, f.(ystop := y, dealloc := d)), Out(ys, 1, g.(ystop := y, dealloc := d)), f, g, 0)
  {
  }

  lemma MixedAlike(lu: bool, code: Code, i: nat, f: Info, g: Info)
    requires i < |code| && Alike(f, g) && !IsPlain(code[i].op)
    ensures Meets(Mixed(lu, false, code, i, f), Mixed(lu, true, code, i, g), f, g,
                  if Late(lu, code[i].op, f, g.blobs || g.dbterm) then 2 else 0)
  {
    hide Register, RegisterConst, UnifyConst, UnifyVariable, WriteVariable, List, Predicate, CutCode, DeallocateCode,
      CheckAlloc, Builtin, Width, Protect, Same, Meets, Alike;
    var o, u := Mixed(lu, false, code, i, f), Mixed(lu, true, code, i, g);
    match code[i].op
    case GetVar | PutVar | GetVal | PutVal =>
      RegistersAlike(code, i, f, g);
      SameMeets(o, u, f, g);
    case GetAtom | GetNum | PutAtom | PutNum | UnifyAtom | WriteAtom =>
      ConstantsAlike(code, i, f, g);
      SameMeets(o, u, f, g);
    case UnifyVar | WriteVar | GetList =>
      VariablesAlike(code, i, f, g);
      SameMeets(o, u, f, g);
    case Call =>
      PredicateAlike(lu, code[i], YCall, f, g);
      SameMeets(o, u, f, g);
    case Execute =>
      PredicateAlike(lu, code[i], YExecute, f, g);
      SameMeets(o, u, f, g);
    case Deallocate =>
      DeallocateAlike(lu, code, i, f, g);
      SameMeets(o, u, f, g);
    case Cut =>
      CutAlike(lu, f, g);
      SameMeets(o, u, f, g);
    case CutExit =>
      CutAlike(lu, f, g);
      SameMeets(CutCode(lu, f), CutCode(lu, g), f, g);
      ExitMeets(lu, CutExit, CutCode(lu, f), CutCode(lu, g), f, g);
    case Procceed =>
      SameSelf(f, g);
      ExitMeets(lu, Procceed, Out([Yam(YProcceed, 2, [])], 1, f), Out([Yam(YProcceed, 2, [])], 1, g), f, g);
    case FVal | FVar | F0 =>
      BuiltinMeets(code, i, f, g);
    case PushOr | Either =>
      AllocMeets(lu, code, i, f, g);
    case FetchVV | FetchVC | FetchCV =>
      FetchMeets(lu, code, i, f, g);
    case MarkLive | MarkInit | Label | EmptyCall =>
      MarksMeet(lu, code, i, f, g);
  }

  lemma EmitAlike(lu: bool, arity: nat, code: Code, i: nat, f: Info, g: Info)
    requires i < |code| && Alike(f, g)
    ensures Meets(Emit(lu, arity, false, code, i, f), Emit(lu, arity, true, code, i, g), f, g,
                  if Late(lu, code[i].op, f, g.blobs || g.dbterm) then 2 else 0)
  {
    hide Mixed, Plain, EffectOf, Apply, Width, Alike;
    if IsPlain(code[i].op) {
      ApplyAlike(EffectOf(code[i].op), code[i].rnd1, f, g);
    } else {
      MixedAlike(lu, code, i, f, g);
    }
  }

  // ---------------------------------------------------------------- both passes

  /** Pass 0 only ever sets the flags. */
  lemma {:induction false} FlagsStay(lu: bool, arity: nat, code: Code, i: nat, f: Info, a: nat)
    ensures
      var r := FirstPass(lu, arity, code, i, f, a).info;
      (f.blobs ==> r.blobs) && (f.dbterm ==> r.dbterm)
    decreases |code| - i
  {
    hide Emit, Rewrite, Width, Alike;
    if i < |code| {
      var o := Emit(lu, arity, false, code, i, f);
      SelfAlike(f);
      EmitAlike(lu, arity, code, i, f, f);
      var protection := if Late(lu, code[i].op, f, f.blobs || f.dbterm) then 2 else 0;
      MeetsFlags(o, Emit(lu, arity, true, code, i, f), f, f, protection);
      FlagsStay(lu, arity, Rewrite(code, i), i + o.used, o.info, a + Width(o.yams));
    }
  }

  lemma SelfAlike(f: Info)
    ensures Alike(f, f)
  {
  }

  lemma MeetsFlags(o: Out, u: Out, f: Info, g: Info, extra: nat)
    requires Meets(o, u, f, g, extra)
    ensures (f.blobs ==> o.info.blobs) && (f.dbterm ==> o.info.dbterm)
    ensures (u.info.blobs <==> g.blobs || (o.info.blobs && !f.blobs)) &&
      (u.info.dbterm <==> g.dbterm || (o.info.dbterm && !f.dbterm))
    ensures u.used == o.used && Alike(o.info, u.info) && Width(u.yams) == Width(o.yams) + extra
  {
  }

  /** Pass 1 starts with the flags that pass 0 ended with. */
  predicate Starts(f: Info, g: Info, end: Info) {
    Alike(f, g) && g.blobs == end.blobs && g.dbterm == end.dbterm
  }

  /** One instruction of the three recursions over the list. */
  lemma OneStep(lu: bool, arity: nat, code: Code, i: nat, f: Info, a: nat, c: Code, g: Info, b: nat, holds: bool)
    requires i < |code| == |c|
    ensures
      var o, u := Emit(lu, arity, false, code, i, f), Emit(lu, arity, true, c, i, g);
      var a', b' := a + Width(o.yams), b + Width(u.yams);
      var r, r' := FirstPass(lu, arity, code, i, f, a), FirstPass(lu, arity, Rewrite(code, i), i + o.used, o.info, a');
      var s, s' := SecondPass(lu, arity, c, i, g, b), SecondPass(lu, arity, c, i + u.used, u.info, b');
      && r.code == r'.code && r.info == r'.info && r.end == r'.end && r.marks == [Mark(i, a, a')] + r'.marks
      && s.end == s'.end && s.marks == [Mark(i, b, b')] + s'.marks
      && LateExits(lu, arity, code, i, f, holds) ==
           (if Late(lu, code[i].op, f, holds) then 1 else 0)
           + LateExits(lu, arity, Rewrite(code, i), i + o.used, o.info, holds)
  {
    hide Emit, Rewrite, Width, Late, FirstPass, SecondPass, LateExits;
    OneFirst(lu, arity, code, i, f, a);
    OneSecond(lu, arity, c, i, g, b);
    OneLate(lu, arity, code, i, f, holds);
  }

  lemma OneSecond(lu: bool, arity: nat, c: Code, i: nat, g: Info, b: nat)
    requires i < |c|
    ensures
      var u := Emit(lu, arity, true, c, i, g);
      var b' := b + Width(u.yams);
      var s, s' := SecondPass(lu, arity, c, i, g, b), SecondPass(lu, arity, c, i + u.used, u.info, b');
      s.end == s'.end && s.marks == [Mark(i, b, b')] + s'.marks
  {
    hide Emit, Width;
  }

  lemma OneLate(lu: bool, arity: nat, code: Code, i: nat, f: Info, holds: bool)
    requires i < |code|
    ensures
      var o := Emit(lu, arity, false, code, i, f);
      LateExits(lu, arity, code, i, f, holds) ==
        (if Late(lu, code[i].op, f, holds) then 1 else 0)
       + LateExits(lu, arity, Rewrite(code, i), i + o.used, o.info, holds)
  {
    hide Emit, Rewrite, Late;
  }

  /** Pass 1 is pass 0 again, but two cells longer at every exit that pass 0 met too early; without such an exit the
      two meet the same instructions at the same addresses. */
  lemma {:induction false} PassesAgree(lu: bool, arity: nat, code: Code, i: nat, f: Info, a: nat, c: Code, g: Info,
      b: nat)
    requires var r := FirstPass(lu, arity, code, i, f, a); c == r.code && Starts(f, g, r.info)
    ensures
      var r, s := FirstPass(lu, arity, code, i, f, a), SecondPass(lu, arity, c, i, g, b);
      var late := LateExits(lu, arity, code, i, f, g.blobs || g.dbterm);
      && s.end - b == r.end - a + 2 * late
      && (late == 0 && a == b ==> s.marks == r.marks)
    decreases |code| - i
  {
    hide Emit, Rewrite, Width, Late, FirstPass, SecondPass, LateExits, Starts;
    if i < |code| {
      PassesStep(lu, arity, code, i, f, a, c, g, b);
      var o, u := Emit(lu, arity, false, code, i, f), Emit(lu, arity, true, c, i, g);
      PassesAgree(lu, arity, Rewrite(code, i), i + o.used, o.info, a + Width(o.yams), c, u.info, b + Width(u.yams));
      OneStep(lu, arity, code, i, f, a, c, g, b, g.blobs || g.dbterm);
    } else {
      FirstEnd(lu, arity, code, i, f, a);
      PassesEnd(lu, arity, code, i, f, a, c, g, b);
    }
  }

  lemma FirstEnd(lu: bool, arity: nat, code: Code, i: nat, f: Info, a: nat)
    requires |code| <= i
    ensures FirstPass(lu, arity, code, i, f, a).code == code && FirstPass(lu, arity, code, i, f, a).info == f
  {
  }

  lemma PassesEnd(lu: bool, arity: nat, code: Code, i: nat, f: Info, a: nat, c: Code, g: Info, b: nat)
    requires |code| <= i && c == code && Starts(f, g, f)
    ensures
      var r, s := FirstPass(lu, arity, code, i, f, a), SecondPass(lu, arity, c, i, g, b);
      s.end - b == r.end - a && s.marks == r.marks && LateExits(lu, arity, code, i, f, g.blobs || g.dbterm) == 0
  {
    LastYStop(f, g);
  }

  lemma PassesStep(lu: bool, arity: nat, code: Code, i: nat, f: Info, a: nat, c: Code, g: Info, b: nat)
    requires var r := FirstPass(lu, arity, code, i, f, a); i < |code| && c == r.code && Starts(f, g, r.info)
    ensures |c| == |code|
    ensures
      var o, u := Emit(lu, arity, false, code, i, f), Emit(lu, arity, true, c, i, g);
      var r' := FirstPass(lu, arity, Rewrite(code, i), i + o.used, o.info, a + Width(o.yams));
      && u.used == o.used && c == r'.code && Starts(o.info, u.info, r'.info)
      && u.info.blobs == g.blobs && u.info.dbterm == g.dbterm
      && Width(u.yams) == Width(o.yams) + if Late(lu, code[i].op, f, g.blobs || g.dbterm) then 2 else 0
  {
    hide Emit, Rewrite, Width, Alike, Late, Near, FirstPass;
    PrefixKept(lu, arity, code, i, f, a);
    OneStep(lu, arity, code, i, f, a, c, g, b, true);
    var o, u := Emit(lu, arity, false, code, i, f), Emit(lu, arity, true, c, i, g);
    FinalNear(lu, arity, code, i, f, a);
    EmitNear(lu, arity, true, code, c, i, g);
    EmitAlike(lu, arity, code, i, f, g);
    MeetsFlags(o, u, f, g, if Late(lu, code[i].op, f, g.blobs || g.dbterm) then 2 else 0);
    FlagsStay(lu, arity, Rewrite(code, i), i + o.used, o.info, a + Width(o.yams));
  }

  lemma LastYStop(f: Info, g: Info)
    requires Alike(f, g)
    ensures YStop(g) == YStop(f)
  {
  }

  // ---------------------------------------------------------------- labels and space

  /** clinfo and the flags as Yap_assemble sets them up. */
  const START := Info(0, false, false, false, 0, false, false, XX)

  predicate Defines(code: Code, m: Mark, l: nat) {
    At(code, m.i).op == Label && At(code, m.i).rnd1 == l
  }

  /** label_offset after the marks of a pass. */
  function Offsets(code: Code, marks: seq<Mark>, table: seq<nat>): (r: seq<nat>)
    ensures |r| == |table|
  {
    if marks == [] then table
    else
      var p := At(code, marks[0].i);
      Offsets(code, marks[1..], if p.op == Label && p.rnd1 < |table| then table[p.rnd1 := marks[0].next] else table)
  }

  /** A label stands for the address after its last definition; a label never met keeps what the table held. */
  lemma {:induction false} LastDefinition(code: Code, marks: seq<Mark>, table: seq<nat>, l: nat, k: nat)
    requires l < |table| && k <= |marks| && (k < |marks| ==> Defines(code, marks[k], l))
    requires forall j :: k < j < |marks| || (k == |marks| && 0 <= j < k) ==> !Defines(code, marks[j], l)
    ensures Offsets(code, marks, table)[l] == if k < |marks| then marks[k].next else table[l]
  {
    if marks != [] {
      var p := At(code, marks[0].i);
      var table' := if p.op == Label && p.rnd1 < |table| then table[p.rnd1 := marks[0].next] else table;
      if k == 0 {
        if exists j :: 0 < j < |marks| && Defines(code, marks[j], l) { assert false; }
        LastDefinition(code, marks[1..], table', l, |marks| - 1);
      } else {
        assert k < |marks| ==> marks[1..][k - 1] == marks[k];
        LastDefinition(code, marks[1..], table', l, k - 1);
      }
    }
  }

  /** Instructions follow each other without gaps. */
  lemma {:induction false} MarksChain(lu: bool, arity: nat, code: Code, i: nat, f: Info, a: nat, k: nat)
    requires var s := SecondPass(lu, arity, code, i, f, a); k < |s.marks|
    ensures
      var s := SecondPass(lu, arity, code, i, f, a);
      && s.marks[0].at == a && s.marks[k].at <= s.marks[k].next <= s.end
      && (k + 1 < |s.marks| ==> s.marks[k + 1].at == s.marks[k].next)
    decreases |code| - i
  {
    hide Emit;
    if i < |code| {
      var o := Emit(lu, arity, true, code, i, f);
      var b := a + Width(o.yams);
      var r := SecondPass(lu, arity, code, i + o.used, o.info, b);
      EndAfter(lu, arity, code, i + o.used, o.info, b);
      if k > 0 {
        MarksChain(lu, arity, code, i + o.used, o.info, b, k - 1);
      } else if r.marks != [] {
        MarksChain(lu, arity, code, i + o.used, o.info, b, 0);
      }
    }
  }

  lemma {:induction false} EndAfter(lu: bool, arity: nat, code: Code, i: nat, f: Info, a: nat)
    ensures a <= SecondPass(lu, arity, code, i, f, a).end
    decreases |code| - i
  {
    hide Emit;
    if i < |code| {
      var o := Emit(lu, arity, true, code, i, f);
      EndAfter(lu, arity, code, i + o.used, o.info, a + Width(o.yams));
    }
  }

  /** Yap_assemble: the clause's header takes base cells, and space that is asked for covers least cells. */
  function Assembled(lu: bool, arity: nat, code: Code, base: nat): (Pass, Pass) {
    var r := FirstPass(lu, arity, code, 0, START, base);
    (r, SecondPass(lu, arity, r.code, 0, START.(blobs := r.info.blobs, dbterm := r.info.dbterm), base))
  }

  function EarlyExits(lu: bool, arity: nat, code: Code, base: nat): nat {
    var end := FirstPass(lu, arity, code, 0, START, base).info;
    LateExits(lu, arity, code, 0, START, end.blobs || end.dbterm)
  }

  /** Pass 1 ends where pass 0 did, so within the space asked for, exactly when no exit comes before the first blob or
      term of a clause that needs protection; the two then meet the same instructions at the same addresses. */
  lemma SamePlaces(lu: bool, arity: nat, code: Code, base: nat)
    ensures
      var (r, s) := Assembled(lu, arity, code, base);
      && s.end == r.end + 2 * EarlyExits(lu, arity, code, base)
      && (EarlyExits(lu, arity, code, base) == 0 ==> s.marks == r.marks)
  {
    var r := FirstPass(lu, arity, code, 0, START, base);
    PassesAgree(lu, arity, code, 0, START, base, r.code, START.(blobs := r.info.blobs, dbterm := r.info.dbterm), base);
  }

  /** A label resolved in pass 1 is the address at which pass 1 itself comes to what follows its last definition. */
  lemma LabelsResolve(lu: bool, arity: nat, code: Code, base: nat, table: seq<nat>, l: nat, k: nat)
    requires EarlyExits(lu, arity, code, base) == 0 && l < |table|
    requires
      var s := Assembled(lu, arity, code, base).1;
      k < |s.marks| && Defines(s.code, s.marks[k], l) && forall j :: k < j < |s.marks| ==>
          !Defines(s.code, s.marks[j], l)
    ensures
      var (r, s) := Assembled(lu, arity, code, base);
      var target := Offsets(r.code, r.marks, table)[l];
      && target == s.marks[k].next <= r.end
      && (k + 1 < |s.marks| ==> target == s.marks[k + 1].at)
  {
    var (r, s) := Assembled(lu, arity, code, base);
    SamePlaces(lu, arity, code, base);
    SecondCode(lu, arity, r.code, 0, START.(blobs := r.info.blobs, dbterm := r.info.dbterm), base);
    LastDefinition(r.code, r.marks, table, l, k);
    MarksChain(lu, arity, r.code, 0, START.(blobs := r.info.blobs, dbterm := r.info.dbterm), base, k);
  }

  lemma {:induction false} SecondCode(lu: bool, arity: nat, code: Code, i: nat, f: Info, a: nat)
    ensures SecondPass(lu, arity, code, i, f, a).code == code
    decreases |code| - i
  {
    hide Emit;
    if i < |code| {
      var o := Emit(lu, arity, true, code, i, f);
      SecondCode(lu, arity, code, i + o.used, o.info, a + Width(o.yams));
    }
  }

  /** The code of p(X) :- (integer(X) -> true ; X = 1.5), nops left out. It needs no environment: X stays in register 1,
      and the test that leads to the second branch, at label 1, stands for a choice point. */
  function Early(): Code {
    [NOP.(op := PushOr, rnd1 := 1), NOP.(op := LabelCtl, rnd1 := 1), NOP.(op := FVal, ve := Temp(1), rnd2 := 4),
     NOP.(op := LabelCtl), NOP.(op := Procceed), NOP.(op := Label, rnd1 := 1), NOP.(op := GetFloat, rnd2 := 1),
     NOP.(op := Procceed)]
  }

  /** The variables of pass 0 as it comes to instruction i. */
  function EarlyInfo(i: nat): Info {
    START.(failure := if 2 <= i <= 3 then 1 else 0, blobs := i >= 7)
  }

  /** What these instructions do to the variables, when no environment has been announced. */
  lemma InfoOfPlain(code: Code, i: nat, f: Info)
    requires i < |code| && (code[i].op == LabelCtl || code[i].op == Nop || code[i].op == GetFloat)
    ensures
      var o := Emit(true, 1, false, code, i, f);
      && o.used == 1
      && o.info == if code[i].op == LabelCtl then f.(failure := code[i].rnd1)
                   else if code[i].op == GetFloat then f.(blobs := true) else f
  {
    hide Mixed, TypeSwitch, Clause, ILabels, Variable;
  }

  lemma InfoOfTest(code: Code, i: nat, f: Info)
    requires i < |code| && f.alloc == 0 && (code[i].op == PushOr || (code[i].op == FVal && code[i].rnd2 <= 9))
    ensures Emit(true, 1, false, code, i, f).used == 1 && Emit(true, 1, false, code, i, f).info == f
  {
  }

  lemma InfoOfExit(code: Code, i: nat, f: Info)
    requires i < |code| && code[i].op == Procceed
    ensures Emit(true, 1, false, code, i, f).used == 1 && Emit(true, 1, false, code, i, f).info == f
  {
  }

  lemma InfoOfLabel(code: Code, i: nat, f: Info)
    requires i < |code| && code[i].op == Label && At(code, i + 1).op == GetFloat && !f.dealloc
    ensures Emit(true, 1, false, code, i, f).used == 1 && Emit(true, 1, false, code, i, f).info == f
  {
  }

  lemma EarlyCode()
    ensures |Early()| == 8
    ensures Early()[0].op == PushOr && Early()[1].op == LabelCtl && Early()[1].rnd1 == 1
    ensures Early()[2].op == FVal && Early()[2].rnd2 == 4 && Early()[3].op == LabelCtl && Early()[3].rnd1 == 0
  {
  }

  lemma EarlyRest()
    ensures |Early()| == 8 && Early()[4].op == Procceed && Early()[5].op == Label
    ensures Early()[6].op == GetFloat && Early()[7].op == Procceed
  {
  }

  lemma EarlyStep(i: nat)
    requires i < 8 == |Early()|
    ensures
      var o := Emit(true, 1, false, Early(), i, EarlyInfo(i));
      o.used == 1 && o.info == EarlyInfo(i + 1)
  {
    hide Emit, Early;
    EarlyCode();
    EarlyRest();
    if i == 0 || i == 2 { InfoOfTest(Early(), i, EarlyInfo(i)); }
    else if i == 4 || i == 7 { InfoOfExit(Early(), i, EarlyInfo(i)); }
    else if i == 5 { InfoOfLabel(Early(), i, EarlyInfo(i)); }
    else { InfoOfPlain(Early(), i, EarlyInfo(i)); }
  }

  lemma EarlyKind(i: nat)
    requires i < 8 == |Early()|
    ensures !IsFetch(Early()[i].op) && (IsExit(Early()[i].op) <==> i == 4 || i == 7)
  {
    hide Early;
    EarlyCode();
    EarlyRest();
  }

  lemma EarlyEnd(i: nat, a: nat)
    requires i == |Early()|
    ensures LateExits(true, 1, Early(), i, EarlyInfo(i), true) == 0
    ensures FirstPass(true, 1, Early(), i, EarlyInfo(i), a).info == EarlyInfo(i)
  {
    hide Early;
  }

  lemma EarlyLate(op: Op, i: nat)
    requires IsExit(op) <==> i == 4 || i == 7
    ensures Late(true, op, EarlyInfo(i), true) <==> i == 4
  {
  }

  lemma {:induction false} EarlyFrom(i: nat, a: nat)
    requires i <= 8 == |Early()|
    ensures LateExits(true, 1, Early(), i, EarlyInfo(i), true) == if i <= 4 then 1 else 0
    ensures FirstPass(true, 1, Early(), i, EarlyInfo(i), a).info == EarlyInfo(8)
    decreases 8 - i
  {
    hide Emit, Rewrite, Width, Late, FirstPass, LateExits, EarlyInfo, Early, IsFetch, IsExit;
    if i < 8 {
      EarlyStep(i);
      EarlyKind(i);
      EarlyLate(Early()[i].op, i);
      NotRewritten(Early(), i);
      OneFirst(true, 1, Early(), i, EarlyInfo(i), a);
      OneLate(true, 1, Early(), i, EarlyInfo(i), true);
      EarlyFrom(i + 1, a + Width(Emit(true, 1, false, Early(), i, EarlyInfo(i)).yams));
    } else {
      EarlyEnd(i, a);
    }
  }

  lemma EarlyInfos()
    ensures EarlyInfo(0) == START && EarlyInfo(8).blobs
  {
  }

  /** Without the condition pass 1 outgrows pass 0: a clause whose first branch ends before its second loads a float. */
  lemma ExitBeforeBlob(base: nat)
    ensures var (r, s) := Assembled(true, 1, Early(), base); s.end == r.end + 2
  {
    hide Emit, Rewrite, Width, Late, FirstPass, SecondPass, LateExits, EarlyInfo, Early;
    EarlyInfos();
    EarlyCode();
    EarlyFrom(0, base);
    SamePlaces(true, 1, Early(), base);
  }
}
