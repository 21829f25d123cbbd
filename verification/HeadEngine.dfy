/** The get, unify and pop instructions as the emulator runs them: registers, stacks and trail updated in place. */
module HeadEngine {
  import opened Cells
  import opened Terms
  import opened HeadUnify
  import opened HeadProof
  import opened HeadTrail
  import B = Backtrack

  /** What a head that succeeds has done: its common instance with the argument is in the store and the registers. */
  ghost predicate Unified(st: State, n: State, p: Pat, x: nat)
    requires x < |st.x|
  {
    && n.sp == st.sp && SameElsewhere(st, n, Regs(p))
    && forall v: Val :: Model(n, {}, v) ==>
         Model(st, {}, v) && Match(p, RegVal(st, v)(x)) && Holds(p, RegVal(st, v)(x), RegVal(n, v))
  }

  lemma InvIs(m: B.Machine, snaps: seq<seq<Cell>>)
    ensures B.Inv(m, snaps) <==> B.Shaped(m) && B.Recoverable(m, snaps)
    ensures B.Recoverable(m, snaps) ==> B.Framed(m)
  {
  }

  lemma FromRead(st: State, r: Rank, p: Pat, x: nat)
    requires HeadReady(st, r, p, x)
    ensures HeadReady(st.(mode := Read), r, p, x)
  {
    Moved(st, st.(mode := Read), {}, r);
    GrowsCell(st, {}, st.(mode := Read), {}, st.x[x], y => Leaf(0));
  }

  lemma HeadMeans(st: State, r: Rank, p: Pat, x: nat)
    requires HeadReady(st, r, p, x)
    ensures
      var o := Exec(CompileHead(p, x), st.(mode := Read));
      && (o.Ok? <==> exists v: Val :: Model(st, {}, v) && Match(p, RegVal(st, v)(x)))
      && (o.Ok? ==> Unified(st, o.st, p, x))
  {
    var q := st.(mode := Read);
    FromRead(st, r, p, x);
    HeadUnifiesIff(q, r, p, x);
    var r' := HeadKeeps(q, r, p, x);
    var o := Exec(CompileHead(p, x), q);
    SameInstances(st, q, p, x);
    if o.Ok? {
      forall v: Val | Model(o.st, {}, v)
        ensures Model(st, {}, v) && Match(p, RegVal(st, v)(x)) && Holds(p, RegVal(st, v)(x), RegVal(o.st, v))
      {
        HeadSound(q, r, p, x, v);
        MovedModel(st, q, {}, v);
        assert RegVal(st, v)(x) == RegVal(q, v)(x);
      }
    }
  }

  lemma SameInstances(st: State, q: State, p: Pat, x: nat)
    requires q == st.(mode := Read)
    ensures (exists v: Val :: Model(st, {}, v) && Match(p, RegVal(st, v)(x)))
       <==> (exists v: Val :: Model(q, {}, v) && Match(p, RegVal(q, v)(x)))
  {
    forall v: Val
      ensures Model(st, {}, v) && Match(p, RegVal(st, v)(x)) <==> Model(q, {}, v) && Match(p, RegVal(q, v)(x))
    {
      MovedModel(st, q, {}, v);
      assert RegVal(st, v)(x) == RegVal(q, v)(x);
    }
  }

  class Emulator {
    const mem: array<Cell>
    const xregs: array<Cell>
    const cps: seq<B.Choice>
    var hr: nat
    var asp: nat
    var s: nat
    var mode: Mode
    var sp: seq<Frame>
    var trail: seq<B.Entry>

    constructor (store: array<Cell>, registers: array<Cell>, choices: seq<B.Choice>, top: nat, local: nat)
      requires store != registers
      ensures Valid() && mem == store && xregs == registers && cps == choices && hr == top && asp == local
      ensures s == 0 && mode == Read && sp == [] && trail == []
    {
      mem, xregs, cps, hr, asp := store, registers, choices, top, local;
      s, mode, sp, trail := 0, Read, [], [];
    }

    /** The registers are no part of the stacks. */
    ghost predicate Valid() { mem != xregs }

    function Now(): State
      reads this, mem, xregs
    {
      State(mem[..], hr, asp, xregs[..], s, mode, sp)
    }

    /** The backtracking machine these stacks are part of. */
    ghost function Stacks(): B.Machine
      reads this, mem
    {
      B.Machine(mem[..], hr, asp, trail, cps)
    }

    /** The head was entered with m, and what it did since can be taken back. */
    ghost predicate Since(m: B.Machine)
      reads this, mem
    {
      && Valid() && B.Framed(m) && FrameWord(m) && cps == m.cps && asp == m.asp && m.hr <= hr < asp
      && Noted(m, mem[..], trail)
    }

    /** Write mode is about blocks the head built. */
    ghost predicate Fenced(m: B.Machine)
      reads this
    {
      && (mode == Write ==> m.hr <= s)
      && forall i :: 0 <= i < |sp| && sp[i].mode == Write ==> m.hr <= sp[i].s
    }

    /** Follows references from c to a variable that is unbound or to something else. */
    method Derefer(c: Cell) returns (d: Cell)
      requires var e := DerefCell(mem[..], c); e.Ref? ==> Unbound(mem[..], e)
      ensures d == DerefCell(mem[..], c)
    {
      d := c;
      ghost var left := Addresses(mem.Length);
      while d.Ref? && mem[d.a] != d
        invariant Deref(mem[..], d, left) == DerefCell(mem[..], c)
        invariant d.Ref? ==> d.a < mem.Length
        decreases left
      {
        left := left - {d.a};
        d := mem[d.a];
      }
    }

    /** YapBind: the variable at a is bound, and noted if the choice point must be able to take that back. */
    method Bind(a: nat, c: Cell, ghost m: B.Machine)
      requires Since(m) && a < mem.Length && mem[a] == Ref(a)
      modifies `trail, mem
      ensures Since(m) && mem[..] == old(mem[..])[a := c] && trail == Grown(cps, hr, old(trail), a)
    {
      BindNoted(m, mem[..], trail, hr, a, c);
      mem[a] := c;
      if cps != [] && (if a < hr then a < cps[|cps| - 1].h else cps[|cps| - 1].addr < a) {
        trail := trail + [B.VarEntry(a)];
      }
      assert mem[..] == old(mem[..])[a := c];
    }

    /** A word of the block being built. */
    method Put(a: nat, c: Cell, ghost m: B.Machine)
      requires Since(m) && m.hr <= a < asp
      modifies mem
      ensures Since(m) && mem[..] == old(mem[..])[a := c]
    {
      BuildNoted(m, mem[..], trail, a, c);
      mem[a] := c;
      assert mem[..] == old(mem[..])[a := c];
    }

    /** Bind or compare: d against an atom. */
    method MatchAtom(d: Cell, c: nat, ghost m: B.Machine) returns (ok: bool)
      requires Since(m) && MeetAtom(Now(), d, c) != Crashed
      modifies `trail, mem
      ensures Since(m) && MeetAtom(old(Now()), d, c) == if ok then Ok(Now()) else Failed
    {
      if d.Ref? {
        Bind(d.a, Con(c), m);
        return true;
      }
      return d == Con(c);
    }

    /** Lays out a block on top of the stack and goes on in write mode. */
    method Layout(k: Shape, ghost m: B.Machine)
      requires Since(m) && hr + Words(k) < asp
      modifies `hr, `s, `mode, mem
      ensures Since(m) && mem[..] == Header(old(mem[..]), k, old(hr)) && hr == old(hr) + Words(k)
      ensures s == Base(k, old(hr)) && mode == Write
    {
      s := hr;
      if k.Struct? {
        Put(s, Fun(k.name, k.arity), m);
        s := s + 1;
      }
      hr := hr + Words(k);
      mode := Write;
    }

    /** get_list, get_struct and their unify forms once the argument is dereferenced. */
    method EnterTerm(k: Shape, d: Cell, ghost m: B.Machine) returns (ok: bool)
      requires Since(m) && Fenced(m) && Enter(Now(), k, d) != Crashed
      modifies `hr, `s, `mode, `trail, mem
      ensures Since(m) && Fenced(m) && Enter(old(Now()), k, d) == if ok then Ok(Now()) else Failed
    {
      if d.Ref? {
        Bind(d.a, Ptr(k, hr), m);
        Layout(k, m);
        return true;
      }
      if k.Dot? {
        if !d.Pair? { return false; }
        s := d.p;
      } else {
        if !d.Appl? || d.p >= mem.Length || mem[d.p] != Fun(k.name, k.arity) { return false; }
        s := d.p + 1;
      }
      mode := Read;
      return true;
    }

    /** One atom, void or variable argument at SREG. */
    method Argument(p: Pat, ghost m: B.Machine) returns (ok: bool)
      requires Since(m) && Fenced(m) && InBlock(Now(), 1) && !p.PNode? && Simple(Now(), p) != Crashed
      modifies `trail, mem, xregs
      ensures Since(m) && Fenced(m) && Simple(old(Now()), p) == if ok then Ok(Now()) else Failed
    {
      if mode == Read {
        match p
        case PAtom(c) =>
          var d := Derefer(mem[s]);
          ok := MatchAtom(d, c, m);
        case PVoid => ok := true;
        case PVar(x) =>
          Load(x, mem[s]);
          ok := true;
      } else {
        ok := true;
        match p
        case PAtom(c) => Put(s, Con(c), m);
        case PVoid => Put(s, Ref(s), m);
        case PVar(x) =>
          Put(s, Ref(s), m);
          Load(x, Ref(s));
      }
    }

    method Load(x: nat, c: Cell)
      requires Valid() && x < xregs.Length
      modifies xregs
      ensures xregs[..] == old(xregs[..])[x := c]
    {
      xregs[x] := c;
    }

    /** The same argument n times over. */
    method Arguments(p: Pat, n: nat, ghost m: B.Machine) returns (ok: bool)
      requires Since(m) && Fenced(m) && InBlock(Now(), n) && !p.PNode? && Repeat(Now(), p, n) != Crashed
      modifies `s, `trail, mem, xregs
      ensures Since(m) && Fenced(m) && Repeat(old(Now()), p, n) == if ok then Ok(Now()) else Failed
    {
      hide Noted, B.Framed, FrameWord, Simple;
      var i := n;
      ghost var st := Now();
      ok := true;
      while i > 0
        invariant Since(m) && Fenced(m) && InBlock(Now(), i) && Repeat(st, p, n) == Repeat(Now(), p, i)
      {
        ok := Argument(p, m);
        if !ok { return; }
        s := s + 1;
        i := i - 1;
      }
    }

    method CompoundArgument(k: Shape, ghost m: B.Machine) returns (ok: bool)
      requires Since(m) && Fenced(m) && InBlock(Now(), 1) && Compound(Now(), k) != Crashed
      modifies `hr, `s, `mode, `trail, mem
      ensures Since(m) && Fenced(m) && Compound(old(Now()), k) == if ok then Ok(Now()) else Failed
    {
      if mode == Read {
        var d := Derefer(mem[s]);
        ok := EnterTerm(k, d, m);
      } else {
        Put(s, Ptr(k, hr), m);
        Layout(k, m);
        ok := true;
      }
    }

    method Instruction(i: Instr, ghost m: B.Machine) returns (ok: bool)
      requires Since(m) && Fenced(m) && Step(i, Now()) != Crashed
      modifies this, mem, xregs
      ensures Since(m) && Fenced(m) && Step(i, old(Now())) == if ok then Ok(Now()) else Failed
    {
      hide Noted, B.Framed, FrameWord, Deref, DerefCell;
      match i
      case GetAtom(c, x) =>
        var d := Derefer(xregs[x]);
        ok := MatchAtom(d, c, m);
      case GetVar(x, to) =>
        Load(to, xregs[x]);
        ok := true;
      case Get(k, x) =>
        var d := Derefer(xregs[x]);
        ok := EnterTerm(k, d, m);
      case UAtom(c) =>
        ok := Argument(PAtom(c), m);
        s := s + 1;
      case ULastAtom(c) => ok := Argument(PAtom(c), m);
      case UVoid =>
        ok := Argument(PVoid, m);
        s := s + 1;
      case ULastVoid => ok := Argument(PVoid, m);
      case UVar(x) =>
        ok := Argument(PVar(x), m);
        s := s + 1;
      case ULastVar(x) => ok := Argument(PVar(x), m);
      case Unify(k) =>
        sp := [Frame(mode, s + 1)] + sp;
        ok := CompoundArgument(k, m);
      case ULast(k) => ok := CompoundArgument(k, m);
      case Pop(n) =>
        var f := sp[n - 1];
        sp := sp[n..];
        s, mode := f.s, f.mode;
        ok := true;
      case UNAtoms(n, c) => ok := Arguments(PAtom(c), n, m);
      case UNVoids(n) => ok := Arguments(PVoid, n, m);
    }

    /** The interpreter loop over straight code: stops at the first failure. */
    method Run(code: seq<Instr>, ghost m: B.Machine) returns (ok: bool)
      requires Since(m) && Fenced(m) && Exec(code, Now()) != Crashed
      modifies this, mem, xregs
      ensures Since(m) && Exec(code, old(Now())) == if ok then Ok(Now()) else Failed
    {
      var pc := 0;
      ghost var st := Now();
      ok := true;
      assert code[0..] == code;
      while pc < |code|
        invariant Since(m) && Fenced(m) && pc <= |code| && Exec(code, st) == Exec(code[pc..], Now())
      {
        ok := Instruction(code[pc], m);
        if !ok { return; }
        assert code[pc..][1..] == code[pc + 1..];
        pc := pc + 1;
      }
    }

    /** The head's code from read mode. */
    method RunHead(p: Pat, x: nat, ghost r: Rank, ghost m: B.Machine) returns (ok: bool)
      requires Since(m) && mode == Read && sp == [] && HeadReady(Now(), r, p, x)
      modifies this, mem, xregs
      ensures Since(m) && (ok ==> B.Shaped(Stacks()))
      ensures ok == Exec(CompileHead(p, x), old(Now())).Ok?
      ensures ok ==> Exec(CompileHead(p, x), old(Now())) == Ok(Now())
    {
      ghost var st := Now();
      ghost var r' := HeadKeeps(st, r, p, x);
      ok := Run(CompileHead(p, x), m);
      StillFramed(m, mem[..], trail, hr);
      if ok { GoodShaped(Now(), r', Stacks()); }
    }

    /** Compiled code for head argument x succeeds exactly when the argument and p have a common instance, which it then
        leaves in the argument and the registers of p's variables; the mode stack is as it was. Succeeding keeps the
        invariant of runs; failing, wherever in the head, is failing before it. The get instructions do not look at the
        mode, which may be left from another argument. */
    method UnifyHead(p: Pat, x: nat, ghost r: Rank, ghost snaps: seq<seq<Cell>>) returns (ok: bool)
      requires Valid() && HeadReady(Now(), r, p, x)
      requires sp == [] && B.Inv(Stacks(), snaps) && FrameWord(Stacks())
      modifies this, mem, xregs
      ensures ok <==> exists v: Val :: Model(old(Now()), {}, v) && Match(p, RegVal(old(Now()), v)(x))
      ensures ok ==> Unified(old(Now()), Now(), p, x)
      ensures B.Recoverable(Stacks(), snaps) && (ok ==> B.Inv(Stacks(), snaps))
      ensures cps != [] ==> SameFailure(B.Failed(Stacks()), old(B.Failed(Stacks())), cps[|cps| - 1])
    {
      hide HeadReady, Exec, CompileHead, B.Inv, B.Recoverable, B.Framed, B.Failed, Noted, FrameWord, Unified,
          SameFailure;
      ghost var st, m := Now(), Stacks();
      InvIs(m, snaps);
      NothingYet(m);
      mode := Read;
      FromRead(st, r, p, x);
      ok := RunHead(p, x, r, m);
      HeadMeans(st, r, p, x);
      HeadRecoverable(m, mem[..], trail, hr, snaps);
      InvIs(Stacks(), snaps);
      if cps != [] { FailsAsBefore(m, mem[..], trail, hr, snaps); }
    }
  }
}
