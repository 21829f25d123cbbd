/** The assembler in place: one list of pseudo-instructions that pass 0 rewrites, one table of label offsets. */
module Assembly {
  import opened Pseudo
  import opened Assembler

  /** An instruction in the code, its label operands resolved. */
  datatype Put = Put(at: nat, yam: Yam, targets: seq<nat>)

  function Targets(labs: seq<nat>, table: seq<nat>, origin: nat): (r: seq<nat>)
    ensures |r| == |labs|
    ensures forall j :: 0 <= j < |labs| ==> r[j] == origin + if labs[j] < |table| then table[labs[j]] else 0
  {
    if labs == [] then []
    else [origin + if labs[0] < |table| then table[labs[0]] else 0] + Targets(labs[1..], table, origin)
  }

  function PutsOf(ys: seq<Yam>, a: nat, table: seq<nat>, origin: nat): seq<Put> {
    if ys == [] then []
    else [Put(origin + a, ys[0], Targets(ys[0].labs, table, origin))] + PutsOf(ys[1..], a + ys[0].width, table, origin)
  }

  /** What pass 1 writes from instruction i on. */
  function Puts(lu: bool, arity: nat, code: Code, i: nat, f: Info, a: nat, table: seq<nat>, origin: nat): seq<Put>
    decreases |code| - i
  {
    if i >= |code| then PutsOf(YStop(f), a, table, origin)
    else
      var o := Emit(lu, arity, true, code, i, f);
      PutsOf(o.yams, a, table, origin)
      + Puts(lu, arity, code, i + o.used, o.info, a + Width(o.yams), table, origin)
  }

  /** The words lie one after the other from address a on, and every label operand is the address of its label. */
  ghost predicate LaidOut(ps: seq<Put>, a: nat, table: seq<nat>, origin: nat) {
    && (forall k {:trigger ps[k]} :: 0 <= k < |ps| ==>
          ps[k].at == origin + a + Width(Yams(ps[..k])) && |ps[k].targets| == |ps[k].yam.labs|)
    && forall k, j {:trigger ps[k].targets[j]} :: 0 <= k < |ps| && 0 <= j < |ps[k].targets| ==>
         ps[k].targets[j] == origin + if ps[k].yam.labs[j] < |table| then table[ps[k].yam.labs[j]] else 0
  }

  function Yams(ps: seq<Put>): (ys: seq<Yam>)
    ensures |ys| == |ps|
  {
    if ps == [] then [] else [ps[0].yam] + Yams(ps[1..])
  }

  lemma {:induction false} LaidOutOne(y: Yam, a: nat, table: seq<nat>, origin: nat)
    ensures
      var p := Put(origin + a, y, Targets(y.labs, table, origin));
      Yams([p]) == [y] && Width([y]) == y.width && LaidOut([p], a, table, origin)
  {
    hide Targets;
    var ps := [Put(origin + a, y, Targets(y.labs, table, origin))];
    assert ps[1..] == [] && [y][1..] == [] && ps[..0] == [];
  }

  lemma {:induction false} LaidOutOf(ys: seq<Yam>, a: nat, table: seq<nat>, origin: nat)
    ensures Yams(PutsOf(ys, a, table, origin)) == ys && LaidOut(PutsOf(ys, a, table, origin), a, table, origin)
  {
    hide LaidOut, Targets, Yams, Width;
    LaidOutNone(a, table, origin);
    if ys != [] {
      var ps, p := PutsOf(ys[1..], a + ys[0].width, table, origin), Put(origin + a, ys[0], Targets(ys[0].labs, table,
        origin));
      LaidOutOf(ys[1..], a + ys[0].width, table, origin);
      LaidOutOne(ys[0], a, table, origin);
      LaidOutAfter([p], ps, a, table, origin);
      YamsConcat([p], ps);
    }
  }

  lemma {:induction false} LaidOutNone(a: nat, table: seq<nat>, origin: nat)
    ensures Yams([]) == [] && LaidOut([], a, table, origin)
  {
  }

  lemma {:induction false} YamsConcat(ps: seq<Put>, qs: seq<Put>)
    ensures Yams(ps + qs) == Yams(ps) + Yams(qs)
  {
    if ps == [] {
      assert ps + qs == qs;
    } else {
      assert (ps + qs)[0] == ps[0] && (ps + qs)[1..] == ps[1..] + qs;
      YamsConcat(ps[1..], qs);
    }
  }

  lemma {:induction false} LaidOutAfter(ps: seq<Put>, qs: seq<Put>, a: nat, table: seq<nat>, origin: nat)
    requires LaidOut(ps, a, table, origin) && LaidOut(qs, a + Width(Yams(ps)), table, origin)
    ensures LaidOut(ps + qs, a, table, origin)
  {
    var rs := ps + qs;
    forall k {:trigger rs[k]} | 0 <= k < |rs|
      ensures rs[k].at == origin + a + Width(Yams(rs[..k])) && |rs[k].targets| == |rs[k].yam.labs|
    {
      if k < |ps| {
        assert rs[..k] == ps[..k] && rs[k] == ps[k];
      } else {
        assert rs[..k] == ps + qs[..k - |ps|] && rs[k] == qs[k - |ps|];
        YamsConcat(ps, qs[..k - |ps|]);
        WidthConcat(Yams(ps), Yams(qs[..k - |ps|]));
      }
    }
    forall k, j {:trigger rs[k].targets[j]} | 0 <= k < |rs| && 0 <= j < |rs[k].targets|
      ensures rs[k].targets[j] == origin + if rs[k].yam.labs[j] < |table| then table[rs[k].yam.labs[j]] else 0
    {
      assert rs[k] == if k < |ps| then ps[k] else qs[k - |ps|];
    }
  }

  /** So does everything pass 1 writes. */
  lemma {:induction false} PutsLaidOut(lu: bool, arity: nat, code: Code, i: nat, f: Info, a: nat, table: seq<nat>,
      origin: nat)
    ensures LaidOut(Puts(lu, arity, code, i, f, a, table, origin), a, table, origin)
    decreases |code| - i
  {
    hide Emit, PutsOf, LaidOut, YStop;
    if i >= |code| {
      LaidOutOf(YStop(f), a, table, origin);
    } else {
      var o := Emit(lu, arity, true, code, i, f);
      LaidOutOf(o.yams, a, table, origin);
      PutsLaidOut(lu, arity, code, i + o.used, o.info, a + Width(o.yams), table, origin);
      LaidOutAfter(PutsOf(o.yams, a, table, origin),
                   Puts(lu, arity, code, i + o.used, o.info, a + Width(o.yams), table, origin), a, table, origin);
    }
  }

  /** Label numbers stay below the size of the table. */
  predicate LabelsFit(code: Code, n: nat) {
    forall i :: 0 <= i < |code| && code[i].op == Label ==> code[i].rnd1 < n
  }

  lemma RewriteFits(code: Code, i: nat, n: nat)
    requires LabelsFit(code, n)
    ensures LabelsFit(Rewrite(code, i), n)
  {
  }

  /** One instruction of pass 0: its mark, and the label it may define. */
  lemma MeasureStep(lu: bool, arity: nat, code: Code, i: nat, f: Info, a: nat, table: seq<nat>)
    requires i < |code| && LabelsFit(code, |table|)
    ensures
      var o := Emit(lu, arity, false, code, i, f);
      var b := a + Width(o.yams);
      var r := FirstPass(lu, arity, code, i, f, a);
      && r.marks != [] && FirstPass(lu, arity, Rewrite(code, i), i + o.used, o.info, b) == r.(marks := r.marks[1..])
      && (code[i].op == Label ==> code[i].rnd1 < |table|)
      && Offsets(r.code, r.marks, table) ==
           Offsets(r.code, r.marks[1..], if code[i].op == Label then table[code[i].rnd1 := b] else table)
  {
    hide Emit, Rewrite, Width, FirstPass;
    PrefixKept(lu, arity, code, i, f, a);
    OneFirst(lu, arity, code, i, f, a);
  }

  lemma MeasureEnd(lu: bool, arity: nat, code: Code, i: nat, f: Info, a: nat, table: seq<nat>)
    requires |code| <= i
    ensures FirstPass(lu, arity, code, i, f, a) == Pass(code, f, a + Width(YStop(f)), []) &&
      Offsets(code, [], table) == table
  {
  }

  lemma WriteStep(lu: bool, arity: nat, code: Code, i: nat, f: Info, a: nat, table: seq<nat>, origin: nat)
    ensures
      if i < |code| then
        var o := Emit(lu, arity, true, code, i, f);
        var b := a + Width(o.yams);
        && SecondPass(lu, arity, code, i, f, a).end == SecondPass(lu, arity, code, i + o.used, o.info, b).end
        && Puts(lu, arity, code, i, f, a, table, origin) ==
             PutsOf(o.yams, a, table, origin) + Puts(lu, arity, code, i + o.used, o.info, b, table, origin)
      else
        && SecondPass(lu, arity, code, i, f, a).end == a + Width(YStop(f))
        && Puts(lu, arity, code, i, f, a, table, origin) == PutsOf(YStop(f), a, table, origin)
  {
    hide Emit, Width, PutsOf, YStop;
  }

  class Assembly {
    var code: Code
    const labelOffset: array<nat>
    var out: seq<Put>

    constructor (list: Code, maxLabel: nat)
      ensures code == list && labelOffset.Length == maxLabel && fresh(labelOffset) && out == []
    {
      code, out := list, [];
      labelOffset := new nat[maxLabel];
    }

    /** Pass 0. */
    method Measure(lu: bool, arity: nat, base: nat) returns (end: nat, f: Info)
      requires LabelsFit(code, labelOffset.Length)
      modifies `code, labelOffset
      ensures
        var r := FirstPass(lu, arity, old(code), 0, START, base);
        && code == r.code && end == r.end && f == r.info && LabelsFit(code, labelOffset.Length)
        && labelOffset[..] == Offsets(r.code, r.marks, old(labelOffset[..]))
    {
      hide Emit, Rewrite, FirstPass, Offsets, Width, YStop, LabelsFit;
      f := START;
      var i: nat, codeP: nat := 0, base;
      ghost var r := FirstPass(lu, arity, code, 0, START, base);
      ghost var left := r.marks;
      while i < |code|
        invariant LabelsFit(code, labelOffset.Length)
        invariant FirstPass(lu, arity, code, i, f, codeP) == r.(marks := left)
        invariant Offsets(r.code, left, labelOffset[..]) == Offsets(r.code, r.marks, old(labelOffset[..]))
        decreases |code| - i
      {
        var p, o := code[i], Emit(lu, arity, false, code, i, f);
        MeasureStep(lu, arity, code, i, f, codeP, labelOffset[..]);
        RewriteFits(code, i, labelOffset.Length);
        code := Rewrite(code, i);
        codeP := codeP + Width(o.yams);
        if p.op == Label { labelOffset[p.rnd1] := codeP; }
        i, f := i + o.used, o.info;
        left := left[1..];
      }
      MeasureEnd(lu, arity, code, i, f, codeP, labelOffset[..]);
      end := codeP + Width(YStop(f));
    }

    /** Pass 1, into code that starts at origin. */
    method Write(lu: bool, arity: nat, base: nat, f0: Info, origin: nat) returns (end: nat)
      modifies `out
      ensures end == SecondPass(lu, arity, code, 0, f0, base).end
      ensures out == old(out) + Puts(lu, arity, code, 0, f0, base, labelOffset[..], origin)
    {
      hide Emit, SecondPass, Width, YStop, PutsOf, Puts;
      var i: nat, codeP: nat, f := 0, base, f0;
      ghost var done := Puts(lu, arity, code, 0, f0, base, labelOffset[..], origin);
      while i < |code|
        invariant SecondPass(lu, arity, code, i, f, codeP).end == SecondPass(lu, arity, code, 0, f0, base).end
        invariant out + Puts(lu, arity, code, i, f, codeP, labelOffset[..], origin) == old(out) + done
        decreases |code| - i
      {
        WriteStep(lu, arity, code, i, f, codeP, labelOffset[..], origin);
        var o := Emit(lu, arity, true, code, i, f);
        out := out + PutsOf(o.yams, codeP, labelOffset[..], origin);
        codeP := codeP + Width(o.yams);
        i, f := i + o.used, o.info;
      }
      WriteStep(lu, arity, code, i, f, codeP, labelOffset[..], origin);
      out := out + PutsOf(YStop(f), codeP, labelOffset[..], origin);
      end := codeP + Width(YStop(f));
    }

    /** Both passes; between them space for size cells is found at origin. Unless an exit comes too early the code fits,
        and every instruction lies where pass 0 said; a label operand is the address of what follows its definition. */
    method Assemble(lu: bool, arity: nat, base: nat, least: nat, origin: nat) returns (size: nat, end: nat)
      requires LabelsFit(code, labelOffset.Length)
      modifies this, labelOffset
      ensures
        var (r, s) := Assembled(lu, arity, old(code), base);
        && code == r.code && size == (if r.end > least then r.end else least) && end == s.end
        && out == old(out) + Puts(lu, arity, r.code, 0, START.(blobs := r.info.blobs, dbterm := r.info.dbterm), base,
                                  Offsets(r.code, r.marks, old(labelOffset[..])), origin)
        && (EarlyExits(lu, arity, old(code), base) == 0 ==> end <= size)
      ensures EarlyExits(lu, arity, old(code), base) == 0 ==>
                Resolved(Assembled(lu, arity, old(code), base).1, labelOffset[..])
    {
      hide Emit, FirstPass, SecondPass, LateExits, Puts, Offsets;
      var f;
      size, f := Measure(lu, arity, base);
      if size < least { size := least; }
      end := Write(lu, arity, base, START.(blobs := f.blobs, dbterm := f.dbterm), origin);
      SamePlaces(lu, arity, old(code), base);
      if EarlyExits(lu, arity, old(code), base) == 0 { AllResolved(lu, arity, old(code), base, old(labelOffset[..])); }
    }
  }

  /** Mark k is where label l was last defined. */
  predicate IsLast(code: Code, marks: seq<Mark>, l: nat, k: nat) {
    k < |marks| && Defines(code, marks[k], l) && forall j :: k < j < |marks| ==> !Defines(code, marks[j], l)
  }

  /** Every label is the address of the instruction that pass 1 comes to after the label's last definition. */
  ghost predicate Resolved(s: Pass, table: seq<nat>) {
    forall l: nat, k: nat :: l < |table| && IsLast(s.code, s.marks, l, k) ==>
      table[l] == s.marks[k].next && (k + 1 < |s.marks| ==> table[l] == s.marks[k + 1].at)
  }

  lemma AllResolved(lu: bool, arity: nat, code: Code, base: nat, table: seq<nat>)
    requires EarlyExits(lu, arity, code, base) == 0
    ensures
      var (r, s) := Assembled(lu, arity, code, base);
      Resolved(s, Offsets(r.code, r.marks, table))
  {
    hide Emit, FirstPass, SecondPass, LateExits, Offsets;
    var (r, s) := Assembled(lu, arity, code, base);
    var after := Offsets(r.code, r.marks, table);
    forall l: nat, k: nat | l < |after| && IsLast(s.code, s.marks, l, k)
      ensures after[l] == s.marks[k].next && (k + 1 < |s.marks| ==> after[l] == s.marks[k + 1].at)
    {
      LabelsResolve(lu, arity, code, base, table, l, k);
    }
  }
}
