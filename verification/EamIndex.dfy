/** First-argument indexing of the Extended Andorra Model: chains of clauses for each kind of first argument. */
module EamIndex {
  import opened Prelude

  datatype Kind = Variavel | Lista | Estrutura | Constante

  /** A clause: what its first argument is, and the atom or functor it is or has. */
  datatype Clause = Clause(kind: Kind, val: nat)

  datatype Instr =
    | PrepareTries(nr: nat, arity: nat)
    | Only1(nr: nat, clause: nat) | TryMe(nr: nat, clause: nat) | RetryMe(nr: nat, clause: nat)
    | TrustMe(nr: nat, clause: nat)
    | Fail

  datatype Entry = Entry(value: nat, code: seq<Instr>)

  type Table = seq<seq<Entry>>

  // ---------------------------------------------------------------- which clauses a chain is for

  /** A first argument, dereferenced; Unbound meets every clause. NoKey is one no clause names. */
  datatype Arg = Unbound | NoKey | AList | AnAtom(a: nat) | AStruct(f: nat)

  predicate Meets(c: Clause, k: Arg) {
    match k
    case Unbound => true
    case NoKey => c.kind == Variavel
    case AList => c.kind == Lista || c.kind == Variavel
    case AnAtom(a) => (c.kind == Constante && c.val == a) || c.kind == Variavel
    case AStruct(f) => (c.kind == Estrutura && c.val == f) || c.kind == Variavel
  }

  /** Those of the first n clauses that meet the argument, in source order. */
  function Pick(cl: seq<Clause>, k: Arg, n: nat): (r: seq<nat>)
    requires n <= |cl|
    ensures |r| <= n && forall j :: 0 <= j < |r| ==> r[j] < n && Meets(cl[r[j]], k)
  {
    if n == 0 then [] else Pick(cl, k, n - 1) + (if Meets(cl[n - 1], k) then [n - 1] else [])
  }

  lemma {:induction false} PickPrefix(cl: seq<Clause>, k: Arg, n: nat, m: nat)
    requires n <= m <= |cl|
    ensures Pick(cl, k, n) <= Pick(cl, k, m)
  {
    if n < m { PickPrefix(cl, k, n, m - 1); }
  }

  function Count(cl: seq<Clause>, kind: Kind, n: nat): nat
    requires n <= |cl|
  {
    if n == 0 then 0 else Count(cl, kind, n - 1) + (if cl[n - 1].kind == kind then 1 else 0)
  }

  lemma {:induction false} PickCounts(cl: seq<Clause>, n: nat)
    requires n <= |cl|
    ensures |Pick(cl, Unbound, n)| == n && |Pick(cl, NoKey, n)| == Count(cl, Variavel, n)
    ensures |Pick(cl, AList, n)| == Count(cl, Lista, n) + Count(cl, Variavel, n)
  {
    if n > 0 { PickCounts(cl, n - 1); }
  }

  // ---------------------------------------------------------------- the shape of a chain

  /** Instruction i of the chain for the clauses cs; first is what try_me counts. */
  function Alt(cs: seq<nat>, i: nat, first: nat): Instr
    requires i < |cs|
  {
    if |cs| == 1 then Only1(0, cs[0])
    else if i + 1 == |cs| then TrustMe(i, cs[i])
    else if i == 0 then TryMe(first, cs[0])
    else RetryMe(i, cs[i])
  }

  function Alts(cs: seq<nat>, n: nat, first: nat): (r: seq<Instr>)
    requires n <= |cs|
    ensures |r| == n && forall i :: 0 <= i < n ==> r[i] == Alt(cs, i, first)
  {
    if n == 0 then [] else Alts(cs, n - 1, first) + [Alt(cs, n - 1, first)]
  }

  lemma AltsNext(cs: seq<nat>, n: nat, first: nat)
    requires n < |cs|
    ensures Alts(cs, n + 1, first) == Alts(cs, n, first) + [Alt(cs, n, first)]
  {
  }

  lemma PickNext(cl: seq<Clause>, k: Arg, c: nat)
    requires c < |cl|
    ensures Pick(cl, k, c + 1) == Pick(cl, k, c) + (if Meets(cl[c], k) then [c] else [])
    ensures
      var p, cs := Pick(cl, k, c), Pick(cl, k, |cl|);
      |p| <= |cs| && (Meets(cl[c], k) ==> |p| < |cs| && cs[|p|] == c)
  {
    PickPrefix(cl, k, c + 1, |cl|);
    PickPrefix(cl, k, c, c + 1);
    if Meets(cl[c], k) { assert Pick(cl, k, c + 1)[|Pick(cl, k, c)|] == c; }
  }

  /** The chain for cs: only_1, or try, retries and trust; fail if there is none. */
  function Chain(cs: seq<nat>, first: nat, arity: nat): seq<Instr> {
    [PrepareTries(|cs|, arity)] + (if cs == [] then [Fail] else Alts(cs, |cs|, first))
  }

  /** The clauses a chain tries, in order. */
  function Tried(code: seq<Instr>): seq<nat> {
    if code == [] then []
    else (if code[0].PrepareTries? || code[0].Fail? then [] else [code[0].clause]) + Tried(code[1..])
  }

  lemma {:induction false} TriedConcat(a: seq<Instr>, b: seq<Instr>)
    ensures Tried(a + b) == Tried(a) + Tried(b)
  {
    if a == [] {
      assert a + b == b;
    } else {
      assert (a + b)[1..] == a[1..] + b && (a + b)[0] == a[0];
      TriedConcat(a[1..], b);
    }
  }

  lemma {:induction false} TriedAlts(cs: seq<nat>, n: nat, first: nat)
    requires n <= |cs|
    ensures Tried(Alts(cs, n, first)) == cs[..n]
  {
    if n > 0 {
      TriedAlts(cs, n - 1, first);
      TriedConcat(Alts(cs, n - 1, first), [Alt(cs, n - 1, first)]);
      assert [Alt(cs, n - 1, first)][1..] == [];
      assert cs[..n] == cs[..n - 1] + [cs[n - 1]];
    }
  }

  lemma ChainTries(cs: seq<nat>, first: nat, arity: nat)
    ensures Tried(Chain(cs, first, arity)) == cs
  {
    var p := PrepareTries(|cs|, arity);
    TriedConcat([p], if cs == [] then [Fail] else Alts(cs, |cs|, first));
    assert [p][1..] == [] && Tried([p]) == [];
    if cs == [] { assert [Fail][1..] == []; } else { TriedAlts(cs, |cs|, first); assert cs[..|cs|] == cs; }
  }

  // ---------------------------------------------------------------- running a chain

  /** An or-box: the argument registers, the arguments saved for the alternatives to come, and the clauses entered, with
      the arguments each was entered with. */
  datatype Box = Box(regs: seq<nat>, saved: Option<seq<nat>>, entered: seq<(nat, seq<nat>)>)

  /** try_me takes the registers as they are, retry_me what was saved, and trust_me frees that too. */
  function Enter(i: Instr, arity: nat, b: Box): Option<Box> {
    if i.Only1? || i.TryMe? then Some(b.(entered := b.entered + [(i.clause, b.regs)]))
    else if (i.RetryMe? || i.TrustMe?) && b.saved.Some? && |b.saved.value| == arity then
      Some(Box(b.saved.value, if i.TrustMe? then None else b.saved, b.entered + [(i.clause, b.saved.value)]))
    else None
  }

  /** One alternative after the other; each leaves the registers in any state. */
  function Explore(code: seq<Instr>, arity: nat, b: Box, junk: nat -> seq<nat>): Option<Box> {
    if code == [] then Some(b)
    else
      var o := Enter(code[0], arity, b);
      if o == None then None else Explore(code[1..], arity, o.value.(regs := junk(|code|)), junk)
  }

  /** prepare_tries: no alternatives, or one, or several for which the arguments are saved. */
  function RunChain(code: seq<Instr>, args: seq<nat>, junk: nat -> seq<nat>): Option<Box> {
    if code == [] || !code[0].PrepareTries? || |code| <= code[0].nr || code[0].arity > |args| then None
    else if code[0].nr == 0 then Some(Box(args, None, []))
    else
      Explore(code[1..code[0].nr + 1], |args|,
              Box(args, if code[0].nr > 1 then Some(args[..code[0].arity]) else None, []), junk)
  }

  function Entries(cs: seq<nat>, args: seq<nat>): (r: seq<(nat, seq<nat>)>)
    ensures |r| == |cs| && forall i :: 0 <= i < |r| ==> r[i] == (cs[i], args)
  {
    seq(|cs|, i requires 0 <= i < |cs| => (cs[i], args))
  }

  lemma {:induction false} ExploreRest(cs: seq<nat>, i: nat, first: nat, args: seq<nat>, b: Box, junk: nat -> seq<nat>)
    requires 0 < i < |cs| && b.saved == Some(args) && b.entered == Entries(cs[..i], args)
    ensures
      var o := Explore(Alts(cs, |cs|, first)[i..], |args|, b, junk);
      o.Some? && o.value.saved == None && o.value.entered == Entries(cs, args)
    decreases |cs| - i
  {
    hide Alts;
    var code := Alts(cs, |cs|, first)[i..];
    var e := Enter(code[0], |args|, b).value;
    assert code[1..] == Alts(cs, |cs|, first)[i + 1..];
    assert Entries(cs[..i], args) + [(cs[i], args)] == Entries(cs[..i + 1], args);
    if i + 1 < |cs| {
      ExploreRest(cs, i + 1, first, args, e.(regs := junk(|code|)), junk);
    } else {
      assert cs[..i + 1] == cs;
    }
  }

  /** A chain enters each of its clauses once, in order, with the arguments of the call, and frees what it saved. */
  lemma ChainRuns(cs: seq<nat>, first: nat, args: seq<nat>, junk: nat -> seq<nat>)
    ensures
      var o := RunChain(Chain(cs, first, |args|), args, junk);
      o.Some? && o.value.saved == None && o.value.entered == Entries(cs, args)
  {
    hide Alts;
    var code := Chain(cs, first, |args|);
    if cs != [] {
      var alts := Alts(cs, |cs|, first);
      assert code[1..|cs| + 1] == alts && args[..|args|] == args;
      var b := Box(args, if |cs| > 1 then Some(args) else None, []);
      var e := Enter(alts[0], |args|, b).value;
      assert e.entered == Entries(cs[..1], args);
      if |cs| > 1 {
        ExploreRest(cs, 1, first, args, e.(regs := junk(|alts|)), junk);
      } else {
        assert cs[..1] == cs && alts[1..] == [] && |alts| == 1;
        assert Explore(alts[1..], |args|, e.(regs := junk(1)), junk) == Some(e.(regs := junk(1)));
      }
    }
  }

  // ---------------------------------------------------------------- the tables

  /** index_of_hash_table_atom and _appl, and the last slot for no value or an empty table. */
  function Slot(kind: Kind, a: nat, nr: nat): (h: nat)
    ensures h <= nr
  {
    if a != 0 && nr != 0 then a / (if kind == Constante then 8 else 32) % nr else nr
  }

  function KeyOf(kind: Kind, a: nat): Arg {
    if kind == Constante then AnAtom(a) else AStruct(a)
  }

  predicate Names(c: Clause, kind: Kind, a: nat) { c.kind == kind && c.val == a }

  /** An entry of slot h: a value some of the first n clauses names, and the chain for it. */
  ghost predicate EntryOk(cl: seq<Clause>, kind: Kind, n: nat, nr: nat, arity: nat, h: nat, e: Entry)
    requires n <= |cl|
  {
    && Slot(kind, e.value, nr) == h && (exists j :: 0 <= j < n && Names(cl[j], kind, e.value))
    && e.code == Chain(Pick(cl, KeyOf(kind, e.value), |cl|), 0, arity)
  }

  predicate Has(bucket: seq<Entry>, a: nat) {
    exists i :: 0 <= i < |bucket| && bucket[i].value == a
  }

  /** The entries of slot h, no two for one value. */
  ghost predicate BucketOk(cl: seq<Clause>, kind: Kind, n: nat, nr: nat, arity: nat, h: nat, bucket: seq<Entry>)
    requires n <= |cl|
  {
    && (forall i {:trigger bucket[i]} :: 0 <= i < |bucket| ==> EntryOk(cl, kind, n, nr, arity, h, bucket[i]))
    && forall i, j :: 0 <= i < j < |bucket| ==> bucket[i].value != bucket[j].value
  }

  /** One entry for each value that the first n clauses name, and no other. */
  ghost predicate TableOk(cl: seq<Clause>, kind: Kind, n: nat, nr: nat, arity: nat, table: Table)
    requires n <= |cl|
  {
    && |table| == nr + 1
    && (forall h {:trigger table[h]} :: 0 <= h <= nr ==> BucketOk(cl, kind, n, nr, arity, h, table[h]))
    && (forall j {:trigger cl[j]} :: 0 <= j < n && cl[j].kind == kind ==>
        Has(table[Slot(kind, cl[j].val, nr)], cl[j].val))
  }

  function Find(bucket: seq<Entry>, a: nat): Option<seq<Instr>> {
    if bucket == [] then None else if bucket[0].value == a then Some(bucket[0].code) else Find(bucket[1..], a)
  }

  lemma {:induction false} FindIs(bucket: seq<Entry>, a: nat)
    ensures Find(bucket, a).Some? <==> Has(bucket, a)
    ensures Find(bucket, a).Some? ==> exists i ::
      0 <= i < |bucket| && bucket[i].value == a && bucket[i].code == Find(bucket, a).value
  {
    if bucket != [] {
      FindIs(bucket[1..], a);
      if bucket[0].value != a {
        if Has(bucket[1..], a) {
          var i :| 0 <= i < |bucket| - 1 && bucket[1..][i].value == a &&
              bucket[1..][i].code == Find(bucket[1..], a).value;
          assert bucket[i + 1] == bucket[1..][i];
        }
        if Has(bucket, a) {
          var i :| 0 <= i < |bucket| && bucket[i].value == a;
          assert bucket[1..][i - 1] == bucket[i];
        }
      }
    }
  }

  class Predicate {
    const arity: nat
    var clauses: seq<Clause>
    var nrAlt: nat
    var idxVar: nat
    var idxList: nat
    var idxAtom: nat
    var idxFunctor: nat

    /** The counters agree with the clauses. */
    ghost predicate Valid()
      reads this
    {
      && nrAlt == |clauses| && idxVar == Count(clauses, Variavel, |clauses|) &&
          idxList == Count(clauses, Lista, |clauses|)
      && idxAtom == Count(clauses, Constante, |clauses|) && idxFunctor == Count(clauses, Estrutura, |clauses|)
    }

    constructor (arity: nat)
      ensures Valid() && clauses == [] && this.arity == arity
    {
      this.arity := arity;
      clauses, nrAlt, idxVar, idxList, idxAtom, idxFunctor := [], 0, 0, 0, 0, 0;
    }

    /** anota_predicados, for a clause of the predicate. */
    method Note(c: Clause)
      requires Valid()
      modifies this
      ensures Valid() && clauses == old(clauses) + [c]
    {
      CountMore(clauses, c);
      nrAlt := nrAlt + 1;
      match c.kind {
        case Variavel => idxVar := idxVar + 1;
        case Lista => idxList := idxList + 1;
        case Estrutura => idxFunctor := idxFunctor + 1;
        case Constante => idxAtom := idxAtom + 1;
      }
      clauses := clauses + [c];
    }

    /** gera_codigo_try: the chain of all clauses. */
    method GenTry() returns (code: seq<Instr>)
      requires Valid()
      ensures code == Chain(Pick(clauses, Unbound, |clauses|), nrAlt, arity)
    {
      PickCounts(clauses, |clauses|);
      ghost var cs := Pick(clauses, Unbound, |clauses|);
      code := [PrepareTries(nrAlt, arity)];
      if nrAlt == 1 {
        Everything(clauses, 1);
        code := code + [Only1(0, 0)];
        assert Alts(cs, 1, nrAlt) == [Alt(cs, 0, nrAlt)];
      } else if nrAlt > 1 {
        var nr := 0;
        while nr < |clauses|
          invariant nr <= |clauses| && code == [PrepareTries(nrAlt, arity)] + Alts(cs, nr, nrAlt)
        {
          Everything(clauses, |clauses|);
          if nr + 1 == nrAlt {
            code := code + [TrustMe(nr, nr)];
          } else if nr == 0 {
            code := code + [TryMe(nrAlt, nr)];
          } else {
            code := code + [RetryMe(nr, nr)];
          }
          nr := nr + 1;
        }
      } else {
        code := code + [Fail];
      }
    }

    /** gera_codigo_try_list and gera_codigo_try_only_vars: the chain of the clauses for lists, or of those with a
        variable. */
    method GenTrySome(lists: bool) returns (code: seq<Instr>)
      requires Valid()
      ensures
        var cs := Pick(clauses, if lists then AList else NoKey, |clauses|);
        code == Chain(cs, |cs|, arity)
    {
      hide Alts, Pick;
      PickCounts(clauses, |clauses|);
      ghost var k := if lists then AList else NoKey;
      ghost var cs := Pick(clauses, k, |clauses|);
      var nrPreds := (if lists then idxList else 0) + idxVar;
      NoneYet(clauses, k, cs, nrPreds);
      code := [PrepareTries(nrPreds, arity)];
      if nrPreds >= 1 {
        var nr, c, done := 0, 0, false;
        while c < |clauses| && !done
          invariant c <= |clauses| && nr <= nrPreds == |cs|
          invariant if done then nr == nrPreds else nr == |Pick(clauses, k, c)|
          invariant code == [PrepareTries(nrPreds, arity)] + Alts(cs, nr, nrPreds)
          decreases |clauses| - c, !done
        {
          PickNext(clauses, k, c);
          if clauses[c].kind == Variavel || (lists && clauses[c].kind == Lista) {
            AltsNext(cs, nr, nrPreds);
            if nrPreds == 1 {
              code := code + [Only1(0, c)];
              done := true;
            } else if nr + 1 == nrPreds {
              code := code + [TrustMe(nr, c)];
              done := true;
            } else if nr == 0 {
              code := code + [TryMe(nrPreds, c)];
            } else {
              code := code + [RetryMe(nr, c)];
            }
            nr := nr + 1;
          }
          c := c + 1;
        }
      } else {
        code := code + [Fail];
      }
    }

    /** The chain for a value, its instructions emitted as retries and the first and last then made what they should
        be. */
    method GenKey(kind: Kind, a: nat) returns (code: seq<Instr>)
      requires kind == Constante || kind == Estrutura
      requires exists j :: 0 <= j < |clauses| && Names(clauses[j], kind, a)
      ensures code == Chain(Pick(clauses, KeyOf(kind, a), |clauses|), 0, arity)
    {
      ghost var k := KeyOf(kind, a);
      ghost var cs := Pick(clauses, k, |clauses|);
      NamedIsPicked(clauses, kind, a);
      code := [PrepareTries(0, arity)];
      var nr, c := 0, 0;
      while c < |clauses|
        invariant c <= |clauses| && nr == |Pick(clauses, k, c)| && |code| == nr + 1 && code[0] == PrepareTries(0, arity)
        invariant forall i :: 0 <= i < nr ==> code[i + 1] == RetryMe(i, Pick(clauses, k, c)[i])
      {
        if (clauses[c].kind == kind && clauses[c].val == a) || clauses[c].kind == Variavel {
          code := code + [RetryMe(nr, c)];
          nr := nr + 1;
        }
        c := c + 1;
      }
      assert nr == |cs|;
      code := Patch(code, Pick(clauses, KeyOf(kind, a), |clauses|));
    }

    /** The opcodes of a chain of retries put right, and its count. */
    method Patch(code0: seq<Instr>, cs: seq<nat>) returns (code: seq<Instr>)
      requires cs != [] && |code0| == |cs| + 1 && forall i :: 0 <= i < |cs| ==> code0[i + 1] == RetryMe(i, cs[i])
      ensures code == Chain(cs, 0, arity)
    {
      var nr := |cs|;
      code := code0[0 := PrepareTries(nr, arity)];
      assert code[0 + 1] == RetryMe(0, cs[0]) && code[(nr - 1) + 1] == RetryMe(nr - 1, cs[nr - 1]);
      if nr == 1 {
        code := code[1 := Only1(0, code[1].clause)];
      } else {
        code := code[1 := TryMe(0, code[1].clause)];
        code := code[nr := TrustMe(nr - 1, code[nr].clause)];
      }
      assert code == [PrepareTries(nr, arity)] + Alts(cs, nr, 0);
    }

    /** exists_on_table. */
    method ExistsOnTable(a: nat, bucket: seq<Entry>) returns (b: bool)
      ensures b == Has(bucket, a)
    {
      var i := 0;
      while i < |bucket|
        invariant i <= |bucket| && forall j :: 0 <= j < i ==> bucket[j].value != a
      {
        if bucket[i].value == a { return true; }
        i := i + 1;
      }
      return false;
    }

    /** gera_codigo_try_atom and gera_codigo_try_functor. */
    method GenTable(kind: Kind) returns (table: Table)
      requires Valid() && (kind == Constante || kind == Estrutura)
      ensures TableOk(clauses, kind, |clauses|, if kind == Constante then idxAtom else idxFunctor, arity, table)
    {
      var nr := if kind == Constante then idxAtom else idxFunctor;
      table := seq(nr + 1, _ => []);
      var c := 0;
      while c < |clauses|
        invariant c <= |clauses| && TableOk(clauses, kind, c, nr, arity, table)
      {
        if clauses[c].kind == kind {
          var a := clauses[c].val;
          var index := Slot(kind, a, nr);
          var there := ExistsOnTable(a, table[index]);
          TableMore(clauses, kind, c, nr, arity, table);
          if !there {
            assert Names(clauses[c], kind, a);
            var code := GenKey(kind, a);
            TableAdds(clauses, kind, c, nr, arity, table, Entry(a, code));
            table := table[index := [Entry(a, code)] + table[index]];
          }
        } else {
          TableMore(clauses, kind, c, nr, arity, table);
        }
        c := c + 1;
      }
    }
  }

  lemma NoneYet(cl: seq<Clause>, k: Arg, cs: seq<nat>, first: nat)
    ensures Pick(cl, k, 0) == [] && Alts(cs, 0, first) == []
  {
  }

  lemma {:induction false} CountSame(cl: seq<Clause>, c: Clause, kind: Kind, n: nat)
    requires n <= |cl|
    ensures Count(cl + [c], kind, n) == Count(cl, kind, n)
  {
    if n > 0 { CountSame(cl, c, kind, n - 1); }
  }

  lemma CountMore(cl: seq<Clause>, c: Clause)
    ensures forall kind: Kind ::
              Count(cl + [c], kind, |cl| + 1) == Count(cl, kind, |cl|) + (if c.kind == kind then 1 else 0)
  {
    forall kind: Kind
      ensures Count(cl + [c], kind, |cl| + 1) == Count(cl, kind, |cl|) + (if c.kind == kind then 1 else 0)
    {
      CountSame(cl, c, kind, |cl|);
    }
  }

  lemma {:induction false} Everything(cl: seq<Clause>, n: nat)
    requires n <= |cl|
    ensures |Pick(cl, Unbound, n)| == n && forall i :: 0 <= i < n ==> Pick(cl, Unbound, n)[i] == i
  {
    if n > 0 { Everything(cl, n - 1); }
  }

  lemma NamedIsPicked(cl: seq<Clause>, kind: Kind, a: nat)
    requires (kind == Constante || kind == Estrutura) && exists j :: 0 <= j < |cl| && Names(cl[j], kind, a)
    ensures Pick(cl, KeyOf(kind, a), |cl|) != []
  {
    var j :| 0 <= j < |cl| && Names(cl[j], kind, a);
    PickPrefix(cl, KeyOf(kind, a), j + 1, |cl|);
  }

  lemma OldEntry(cl: seq<Clause>, kind: Kind, n: nat, nr: nat, arity: nat, h: nat, e: Entry)
    requires n < |cl| && EntryOk(cl, kind, n, nr, arity, h, e)
    ensures EntryOk(cl, kind, n + 1, nr, arity, h, e)
  {
  }

  lemma BucketMore(cl: seq<Clause>, kind: Kind, n: nat, nr: nat, arity: nat, h: nat, bucket: seq<Entry>)
    requires n < |cl| && BucketOk(cl, kind, n, nr, arity, h, bucket)
    ensures BucketOk(cl, kind, n + 1, nr, arity, h, bucket)
  {
    hide EntryOk;
    forall i {:trigger bucket[i]} | 0 <= i < |bucket|
      ensures EntryOk(cl, kind, n + 1, nr, arity, h, bucket[i])
    {
      OldEntry(cl, kind, n, nr, arity, h, bucket[i]);
    }
  }

  lemma BucketAdds(cl: seq<Clause>, kind: Kind, n: nat, nr: nat, arity: nat, h: nat, bucket: seq<Entry>, e: Entry)
    requires n <= |cl| && BucketOk(cl, kind, n, nr, arity, h, bucket) && EntryOk(cl, kind, n, nr, arity, h, e)
    requires !Has(bucket, e.value)
    ensures BucketOk(cl, kind, n, nr, arity, h, [e] + bucket)
  {
    hide EntryOk;
    var b := [e] + bucket;
    assert b[0] == e && forall i :: 0 < i < |b| ==> b[i] == bucket[i - 1];
  }

  lemma StillHas(bucket: seq<Entry>, e: Entry, a: nat)
    ensures Has(bucket, a) || e.value == a ==> Has([e] + bucket, a)
  {
    if Has(bucket, a) {
      var i :| 0 <= i < |bucket| && bucket[i].value == a;
      assert ([e] + bucket)[i + 1] == bucket[i];
    }
    if e.value == a { assert ([e] + bucket)[0] == e; }
  }

  /** One more clause, its value in the table already. */
  lemma TableMore(cl: seq<Clause>, kind: Kind, n: nat, nr: nat, arity: nat, table: Table)
    requires n < |cl| && TableOk(cl, kind, n, nr, arity, table)
    ensures
      (cl[n].kind == kind ==> Has(table[Slot(kind, cl[n].val, nr)], cl[n].val)) ==>
          TableOk(cl, kind, n + 1, nr, arity, table)
  {
    hide BucketOk, Has;
    forall h {:trigger table[h]} | 0 <= h <= nr
      ensures BucketOk(cl, kind, n + 1, nr, arity, h, table[h])
    {
      BucketMore(cl, kind, n, nr, arity, h, table[h]);
    }
  }

  /** The entry for a value not there yet. */
  lemma TableAdds(cl: seq<Clause>, kind: Kind, n: nat, nr: nat, arity: nat, table: Table, e: Entry)
    requires n < |cl| && TableOk(cl, kind, n, nr, arity, table) && Names(cl[n], kind, e.value)
    requires !Has(table[Slot(kind, e.value, nr)], e.value)
    requires e.code == Chain(Pick(cl, KeyOf(kind, e.value), |cl|), 0, arity)
    ensures
      var h := Slot(kind, e.value, nr);
      TableOk(cl, kind, n + 1, nr, arity, table[h := [e] + table[h]])
  {
    hide BucketOk, Has, Slot, Chain, Pick;
    var s := Slot(kind, e.value, nr);
    var t := table[s := [e] + table[s]];
    assert EntryOk(cl, kind, n + 1, nr, arity, s, e);
    forall h {:trigger t[h]} | 0 <= h <= nr
      ensures BucketOk(cl, kind, n + 1, nr, arity, h, t[h])
    {
      BucketMore(cl, kind, n, nr, arity, h, table[h]);
      if h == s { BucketAdds(cl, kind, n + 1, nr, arity, s, table[s], e); }
    }
    forall j {:trigger cl[j]} | 0 <= j < n + 1 && cl[j].kind == kind
      ensures Has(t[Slot(kind, cl[j].val, nr)], cl[j].val)
    {
      if j < n { assert Has(table[Slot(kind, cl[j].val, nr)], cl[j].val); }
      StillHas(table[s], e, cl[j].val);
    }
  }

  // ---------------------------------------------------------------- what indexing is for

  /** The code for an argument: the general chain, a chain of its kind, or one from a table. */
  function Dispatch(k: Arg, code: seq<Instr>, vars: seq<Instr>, list: seq<Instr>, atoms: Table, nrAtoms: nat,
      functors: Table, nrFunctors: nat): seq<Instr>
    requires |atoms| == nrAtoms + 1 && |functors| == nrFunctors + 1
  {
    match k
    case Unbound => code
    case NoKey => vars
    case AList => list
    case AnAtom(a) => var r := Find(atoms[Slot(Constante, a, nrAtoms)], a); if r.Some? then r.value else vars
    case AStruct(f) => var r := Find(functors[Slot(Estrutura, f, nrFunctors)], f); if r.Some? then r.value else vars
  }

  lemma TableTries(cl: seq<Clause>, kind: Kind, nr: nat, arity: nat, table: Table, a: nat, vars: seq<Instr>)
    requires (kind == Constante || kind == Estrutura) && TableOk(cl, kind, |cl|, nr, arity, table)
    requires Tried(vars) == Pick(cl, NoKey, |cl|)
    ensures
      var r := Find(table[Slot(kind, a, nr)], a);
      Tried(if r.Some? then r.value else vars) == Pick(cl, KeyOf(kind, a), |cl|)
  {
    var h := Slot(kind, a, nr);
    FindIs(table[h], a);
    if Find(table[h], a).Some? {
      var i :| 0 <= i < |table[h]| && table[h][i].value == a && table[h][i].code == Find(table[h], a).value;
      assert BucketOk(cl, kind, |cl|, nr, arity, h, table[h]);
      assert EntryOk(cl, kind, |cl|, nr, arity, h, table[h][i]);
      ChainTries(Pick(cl, KeyOf(kind, a), |cl|), 0, arity);
    } else {
      NotNamed(cl, kind, a, |cl|);
    }
  }

  lemma {:induction false} NotNamed(cl: seq<Clause>, kind: Kind, a: nat, n: nat)
    requires n <= |cl| && (kind == Constante || kind == Estrutura) && forall j :: 0 <= j < n ==> !Names(cl[j], kind, a)
    ensures Pick(cl, KeyOf(kind, a), n) == Pick(cl, NoKey, n)
  {
    if n > 0 { NotNamed(cl, kind, a, n - 1); }
  }

  /** The clauses of cs that meet the argument. */
  function Meeting(cl: seq<Clause>, k: Arg, cs: seq<nat>): seq<nat>
    requires forall i :: 0 <= i < |cs| ==> cs[i] < |cl|
  {
    if cs == [] then []
    else Meeting(cl, k, cs[..|cs| - 1]) + (if Meets(cl[cs[|cs| - 1]], k) then [cs[|cs| - 1]] else [])
  }

  lemma {:induction false} MeetingAll(cl: seq<Clause>, k: Arg, n: nat)
    requires n <= |cl|
    ensures Meeting(cl, k, Pick(cl, Unbound, n)) == Pick(cl, k, n)
  {
    if n > 0 {
      MeetingAll(cl, k, n - 1);
      var p := Pick(cl, Unbound, n);
      assert p[..|p| - 1] == Pick(cl, Unbound, n - 1) && p[|p| - 1] == n - 1;
    }
  }

  /** Whatever the argument, the indexed code tries exactly the clauses of the general chain that can meet it, in
      order. */
  lemma IndexedTries(cl: seq<Clause>, arity: nat, nrAtoms: nat, nrFunctors: nat, code: seq<Instr>, vars: seq<Instr>,
      list: seq<Instr>, atoms: Table, functors: Table, k: Arg)
    requires code == Chain(Pick(cl, Unbound, |cl|), |cl|, arity)
    requires vars == Chain(Pick(cl, NoKey, |cl|), |Pick(cl, NoKey, |cl|)|, arity)
    requires list == Chain(Pick(cl, AList, |cl|), |Pick(cl, AList, |cl|)|, arity)
    requires TableOk(cl, Constante, |cl|, nrAtoms, arity, atoms) &&
      TableOk(cl, Estrutura, |cl|, nrFunctors, arity, functors)
    ensures Tried(code) == Pick(cl, Unbound, |cl|)
    ensures Tried(Dispatch(k, code, vars, list, atoms, nrAtoms, functors, nrFunctors)) == Meeting(cl, k, Tried(code))
  {
    ChainTries(Pick(cl, Unbound, |cl|), |cl|, arity);
    ChainTries(Pick(cl, NoKey, |cl|), |Pick(cl, NoKey, |cl|)|, arity);
    ChainTries(Pick(cl, AList, |cl|), |Pick(cl, AList, |cl|)|, arity);
    MeetingAll(cl, k, |cl|);
    match k
    case AnAtom(a) => TableTries(cl, Constante, nrAtoms, arity, atoms, a, vars);
    case AStruct(f) => TableTries(cl, Estrutura, nrFunctors, arity, functors, f, vars);
    case _ =>
  }
}
