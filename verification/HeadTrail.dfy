/** What head unification leaves on the trail: enough to take its bindings back, wherever in the head it stops. */
module HeadTrail {
  import opened Cells
  import opened Backtrack
  import HU = HeadUnify

  /** The test of YapBind: a global variable older than the choice point, or a local one above it. */
  predicate MustTrail(cps: seq<Choice>, hr: nat, a: nat) {
    cps != [] && (if a < hr then a < cps[|cps| - 1].h else cps[|cps| - 1].addr < a)
  }

  /** The first word of a choice point is its trail top and no unbound variable. */
  predicate FrameWord(m: Machine) {
    m.cps != [] && Top(m).addr == Top(m).top < |m.mem| ==> m.mem[Top(m).addr] != Ref(Top(m).addr)
  }

  /** mem and trail may come from m by building above hr and binding variables that were unbound, each noted if it is
      older than the choice point. */
  ghost predicate Noted(m: Machine, mem: seq<Cell>, trail: seq<Entry>) {
    && |mem| == |m.mem| && |m.trail| <= |trail| && trail[..|m.trail|] == m.trail
    && (forall k :: |m.trail| <= k < |trail| ==> NotedOnce(m, trail[k]))
    && (forall a :: 0 <= a < |mem| && Live(m, a) ==> mem[a] == m.mem[a] || m.mem[a] == Ref(a))
    && (m.cps != [] ==>
          forall a :: 0 <= a < |mem| && Existed(Top(m), a) ==> mem[a] == m.mem[a] || Touched(trail, |m.trail|, a))
  }

  /** An entry the head made is about a word that was an unbound variable, or that the head built. */
  predicate NotedOnce(m: Machine, e: Entry) {
    e.VarEntry? && e.at < |m.mem| && (Live(m, e.at) ==> m.mem[e.at] == Ref(e.at))
  }

  lemma NothingYet(m: Machine)
    ensures Noted(m, m.mem, m.trail)
  {
  }

  lemma TouchedMore(trail: seq<Entry>, e: Entry, base: nat, a: nat)
    requires Touched(trail, base, a)
    ensures Touched(trail + [e], base, a)
  {
    var k :| base <= k < |trail| && !trail[k].RefEntry? && trail[k].at == a;
    assert (trail + [e])[k] == trail[k];
  }

  /** Writing into the words between the stacks. */
  lemma BuildNoted(m: Machine, mem: seq<Cell>, trail: seq<Entry>, a: nat, c: Cell)
    requires Framed(m) && Noted(m, mem, trail) && m.hr <= a < m.asp
    ensures Noted(m, mem[a := c], trail)
  {
    if m.cps != [] { assert ChoiceOk(m, Top(m)); }
  }

  function Grown(cps: seq<Choice>, hr: nat, trail: seq<Entry>, a: nat): seq<Entry> {
    if MustTrail(cps, hr, a) then trail + [VarEntry(a)] else trail
  }

  /** Binding a variable with YapBind. */
  lemma BindNoted(m: Machine, mem: seq<Cell>, trail: seq<Entry>, hr: nat, a: nat, c: Cell)
    requires Framed(m) && FrameWord(m) && Noted(m, mem, trail) && m.hr <= hr < m.asp
    requires a < |mem| && mem[a] == Ref(a)
    ensures Noted(m, mem[a := c], Grown(m.cps, hr, trail, a))
  {
    var trail' := Grown(m.cps, hr, trail, a);
    assert trail'[..|m.trail|] == trail[..|m.trail|];
    if m.cps != [] {
      assert ChoiceOk(m, Top(m));
      if Existed(Top(m), a) {
        assert Live(m, a) && MustTrail(m.cps, hr, a);
        assert trail'[|trail|] == VarEntry(a);
      }
      forall x | 0 <= x < |mem| && Existed(Top(m), x)
        ensures mem[a := c][x] == m.mem[x] || Touched(trail', |m.trail|, x)
      {
        if x != a && mem[x] != m.mem[x] && trail' != trail { TouchedMore(trail, VarEntry(a), |m.trail|, x); }
      }
    }
  }

  // ---------------------------------------------------------------- what that is good for

  /** The machine once the head is through, or has failed. */
  function Now(m: Machine, mem: seq<Cell>, trail: seq<Entry>, hr: nat): Machine {
    m.(mem := mem, trail := trail, hr := hr)
  }

  /** Taking back what the head did leaves every word that existed at the last choice point as the head found it. */
  lemma TakenBack(m: Machine, mem: seq<Cell>, trail: seq<Entry>, x: nat)
    requires Noted(m, mem, trail) && m.cps != [] && x < |mem| && Existed(Top(m), x) && Live(m, x)
    ensures TrailOk(trail, |mem|) ==> Undo(mem, trail, |m.trail|)[x] == m.mem[x]
    decreases |trail|
  {
    if TrailOk(trail, |mem|) {
      if Touched(trail, |m.trail|, x) {
        UndoToRef(m, mem, trail, x);
      } else {
        UndoUntouched(mem, trail, |m.trail|, x);
      }
    }
  }

  lemma {:induction false} UndoToRef(m: Machine, mem: seq<Cell>, trail: seq<Entry>, x: nat)
    requires TrailOk(trail, |mem|) && |m.trail| <= |trail| && |mem| == |m.mem| && x < |mem| && Live(m, x)
    requires forall k :: |m.trail| <= k < |trail| ==> NotedOnce(m, trail[k])
    requires mem[x] == Ref(x) || Touched(trail, |m.trail|, x)
    ensures Undo(mem, trail, |m.trail|)[x] == Ref(x)
    decreases |trail|
  {
    if |trail| > |m.trail| {
      var e, rest := trail[|trail| - 1], trail[..|trail| - 1];
      assert NotedOnce(m, e);
      if e.at != x && mem[x] != Ref(x) {
        var k :| |m.trail| <= k < |trail| && !trail[k].RefEntry? && trail[k].at == x;
        assert rest[k] == trail[k];
        assert Touched(rest, |m.trail|, x);
      }
      UndoToRef(m, Reset(mem, e), rest, x);
    }
  }

  lemma TrailFits(m: Machine, mem: seq<Cell>, trail: seq<Entry>)
    requires Noted(m, mem, trail) && TrailOk(m.trail, |m.mem|)
    ensures TrailOk(trail, |mem|)
  {
    forall k | 0 <= k < |trail|
      ensures InRange(trail[k], |mem|)
    {
      if k < |m.trail| { assert trail[..|m.trail|][k] == m.trail[k]; } else { assert NotedOnce(m, trail[k]); }
    }
  }

  lemma StillFramed(m: Machine, mem: seq<Cell>, trail: seq<Entry>, hr: nat)
    requires Framed(m) && Noted(m, mem, trail) && m.hr <= hr < m.asp
    ensures Framed(Now(m, mem, trail, hr))
  {
    var n := Now(m, mem, trail, hr);
    TrailFits(m, mem, trail);
    forall i | 0 <= i < |n.cps|
      ensures ChoiceOk(n, n.cps[i])
    {
      assert ChoiceOk(m, m.cps[i]);
    }
  }

  lemma StillRestorable(m: Machine, mem: seq<Cell>, trail: seq<Entry>, hr: nat, i: nat, snap: seq<Cell>)
    requires Framed(m) && Noted(m, mem, trail) && i < |m.cps| && Restorable(m, m.cps[i], snap)
    ensures Restorable(Now(m, mem, trail, hr), m.cps[i], snap)
  {
    var c, k := m.cps[i], |m.cps| - 1;
    TrailFits(m, mem, trail);
    assert ChoiceOk(m, m.cps[k]) && (i < k ==> Nested(m.cps[i], m.cps[k]));
    var back := Undo(mem, trail, |m.trail|);
    UndoSplit(mem, trail, |m.trail|, c.tr);
    forall a | 0 <= a < |mem| && Existed(c, a)
      ensures Undo(mem, trail, c.tr)[a] == snap[a] && PointsBelow(snap[a], c.h)
    {
      TakenBack(m, mem, trail, a);
      UndoPointwise(back, m.mem, m.trail, c.tr, a);
    }
  }

  /** A head that stops, having succeeded or not, leaves every choice point able to restore its store. */
  lemma HeadRecoverable(m: Machine, mem: seq<Cell>, trail: seq<Entry>, hr: nat, snaps: seq<seq<Cell>>)
    requires Recoverable(m, snaps) && Noted(m, mem, trail) && m.hr <= hr < m.asp
    ensures Recoverable(Now(m, mem, trail, hr), snaps)
  {
    StillFramed(m, mem, trail, hr);
    forall i | 0 <= i < |m.cps|
      ensures Restorable(Now(m, mem, trail, hr), m.cps[i], snaps[i])
    {
      StillRestorable(m, mem, trail, hr, i, snaps[i]);
    }
  }

  /** The same machine but for words that did not exist when c was pushed. */
  ghost predicate SameFailure(f: Machine, g: Machine, c: Choice) {
    f == g.(mem := f.mem) && |f.mem| == |g.mem| && forall a :: 0 <= a < |f.mem| && Existed(c, a) ==>
        f.mem[a] == g.mem[a]
  }

  /** Failing in the head is failing before it. */
  lemma FailsAsBefore(m: Machine, mem: seq<Cell>, trail: seq<Entry>, hr: nat, snaps: seq<seq<Cell>>)
    requires Recoverable(m, snaps) && Noted(m, mem, trail) && m.hr <= hr < m.asp && m.cps != []
    ensures Framed(Now(m, mem, trail, hr)) && SameFailure(Failed(Now(m, mem, trail, hr)), Failed(m), Top(m))
  {
    HeadRecoverable(m, mem, trail, hr, snaps);
    var k := |m.cps| - 1;
    assert Restorable(m, m.cps[k], snaps[k]) && Restorable(Now(m, mem, trail, hr), m.cps[k], snaps[k]);
    assert trail[..|m.trail|][..Top(m).tr] == trail[..Top(m).tr];
  }

  /** A head that succeeds leaves nothing unwritten. */
  lemma GoodShaped(st: HU.State, r: HU.Rank, m: Machine)
    requires HU.Good(st, {}, r) && Framed(m) && m.mem == st.mem && m.hr == st.hr && m.asp == st.asp
    ensures Shaped(m)
  {
    forall a | 0 <= a < |m.mem| && Live(m, a)
      ensures PointsBelow(m.mem[a], m.hr)
    {
      assert HU.Live(st, a);
    }
  }
}
