/** How the attribute operations store, and when failing to a choice point takes their stores back. */
module AttTrail {
  import opened Cells
  import opened Backtrack

  /** A store as it is, MaBind, and Bind_Global_NonAtt. */
  datatype Write = Plain(at: nat, v: Cell) | Multi(at: nat, v: Cell) | Once(at: nat, v: Cell)

  function Put(m: Machine, w: Write): Machine
    requires w.at < |m.mem|
  {
    var trail :=
      match w
      case Plain(_, _) => m.trail
      case Multi(a, _) => Logged(m, a, MultiEntry(a, m.mem[a]))
      case Once(a, _) => if m.cps != [] && a < Top(m).h then m.trail + [VarEntry(a)] else m.trail;
    m.(mem := m.mem[w.at := w.v], trail := trail)
  }

  /** MaBind trails the old value of a cell older than HB or above B, Bind_Global an address below HB. */
  lemma PutTrails(m: Machine, w: Write)
    requires w.at < |m.mem|
    ensures
      var n, c := Put(m, w), if m.cps == [] then Choice(0, 0, 0, 0) else m.cps[|m.cps| - 1];
      && n.mem == m.mem[w.at := w.v] && n.cps == m.cps && n.hr == m.hr && n.asp == m.asp
      && n.trail == m.trail +
           (if w.Multi? && m.cps != [] && (w.at < c.h || c.addr < w.at) then [MultiEntry(w.at, m.mem[w.at])]
            else if w.Once? && m.cps != [] && w.at < c.h then [VarEntry(w.at)] else [])
  {
  }

  predicate InStore(n: nat, ws: seq<Write>) {
    forall i :: 0 <= i < |ws| ==> ws[i].at < n
  }

  function PutAll(m: Machine, ws: seq<Write>): (r: Machine)
    requires InStore(|m.mem|, ws)
    ensures |r.mem| == |m.mem| && r.cps == m.cps && r.hr == m.hr && r.asp == m.asp
  {
    if ws == [] then m else Put(PutAll(m, ws[..|ws| - 1]), ws[|ws| - 1])
  }

  lemma PutMore(m: Machine, ws: seq<Write>, w: Write)
    requires InStore(|m.mem|, ws) && w.at < |m.mem|
    ensures InStore(|m.mem|, ws + [w]) && PutAll(m, ws + [w]) == Put(PutAll(m, ws), w)
  {
    assert (ws + [w])[..|ws|] == ws;
  }

  lemma {:induction false} PutSplit(m: Machine, a: seq<Write>, b: seq<Write>)
    requires InStore(|m.mem|, a) && InStore(|m.mem|, b)
    ensures InStore(|m.mem|, a + b) && PutAll(m, a + b) == PutAll(PutAll(m, a), b)
  {
    if b == [] {
      assert a + b == a;
    } else {
      var n := |b| - 1;
      PutSplit(m, a, b[..n]);
      assert a + b == a + b[..n] + [b[n]];
      PutMore(m, a + b[..n], b[n]);
    }
  }

  /** What failing to c would make of cell a. */
  function Back(m: Machine, c: Choice, a: nat): Cell
    requires c.tr <= |m.trail| && TrailOk(m.trail, |m.mem|) && a < |m.mem|
  {
    Undo(m.mem, m.trail, c.tr)[a]
  }

  ghost predicate Sound(m: Machine, c: Choice) {
    c.tr <= |m.trail| && TrailOk(m.trail, |m.mem|)
  }

  /** Failing to c gives the cells that existed then the same after q as after m. */
  ghost predicate SameBack(m: Machine, q: Machine, c: Choice)
    requires Sound(m, c) && Sound(q, c)
  {
    |q.mem| == |m.mem| && forall a: nat {:trigger Existed(c, a)} :: a < |m.mem| && Existed(c, a) ==>
        Back(q, c, a) == Back(m, c, a)
  }

  /** The store is to a cell newer than c, or to one the trail names since c, or is trailed with the value it is to get
      back, or changes nothing. */
  ghost predicate Safe(m: Machine, c: Choice, w: Write)
    requires w.at < |m.mem|
  {
    Existed(c, w.at) && !Touched(m.trail, c.tr, w.at) ==>
      match w
      case Plain(a, v) => v == m.mem[a]
      case Multi(a, v) => Outside(m, a) || v == m.mem[a]
      case Once(a, v) => if m.cps != [] && a < Top(m).h then m.mem[a] == Ref(a) else v == m.mem[a]
  }

  lemma OneStore(m: Machine, c: Choice, w: Write, y: nat)
    requires Sound(m, c) && w.at < |m.mem| && y < |m.mem|
    ensures Sound(Put(m, w), c)
    ensures y != w.at ==> Back(Put(m, w), c, y) == Back(m, c, y)
    ensures y != w.at ==> (Touched(Put(m, w).trail, c.tr, y) <==> Touched(m.trail, c.tr, y))
    ensures y == w.at && Existed(c, y) ==> (Back(Put(m, w), c, y) == Back(m, c, y) <==> Safe(m, c, w))
  {
    var q := Put(m, w);
    if q.trail == m.trail {
      PlainStore(m, c, w.at, w.v, y);
    } else {
      var e := if w.Multi? then MultiEntry(w.at, m.mem[w.at]) else VarEntry(w.at);
      assert q.trail == m.trail + [e];
      UndoPush(q.mem, m.trail, e, c.tr);
      PlainStore(m, c, w.at, if w.Multi? then m.mem[w.at] else Ref(w.at), y);
      TouchedPush(m.trail, e, c.tr, y);
      assert Reset(q.mem, e) == m.mem[w.at := if w.Multi? then m.mem[w.at] else Ref(w.at)];
    }
  }

  lemma PlainStore(m: Machine, c: Choice, x: nat, v: Cell, y: nat)
    requires Sound(m, c) && x < |m.mem| && y < |m.mem|
    ensures Undo(m.mem[x := v], m.trail, c.tr)[y] == Undo(m.mem, m.trail, c.tr)[y] <==>
              y != x || Touched(m.trail, c.tr, y) || v == m.mem[x]
  {
    if y != x || Touched(m.trail, c.tr, y) || v == m.mem[x] {
      UndoPointwise(m.mem[x := v], m.mem, m.trail, c.tr, y);
    } else {
      UndoUntouched(m.mem[x := v], m.trail, c.tr, y);
      UndoUntouched(m.mem, m.trail, c.tr, y);
    }
  }

  lemma TouchedPush(tr: seq<Entry>, e: Entry, base: nat, y: nat)
    requires base <= |tr|
    ensures Touched(tr + [e], base, y) <==> Touched(tr, base, y) || (!e.RefEntry? && e.at == y)
  {
    if Touched(tr, base, y) {
      var k :| base <= k < |tr| && !tr[k].RefEntry? && tr[k].at == y;
      assert (tr + [e])[k] == tr[k];
    }
    if !e.RefEntry? && e.at == y { assert (tr + [e])[|tr|] == e; }
  }

  predicate Distinct(ws: seq<Write>) {
    forall i, j :: 0 <= i < j < |ws| ==> ws[i].at != ws[j].at
  }

  /** A cell none of the stores is to. */
  lemma {:induction false} Unstored(m: Machine, c: Choice, ws: seq<Write>, y: nat)
    requires Sound(m, c) && InStore(|m.mem|, ws) && y < |m.mem| && forall i :: 0 <= i < |ws| ==> ws[i].at != y
    ensures Sound(PutAll(m, ws), c) && PutAll(m, ws).mem[y] == m.mem[y] && Back(PutAll(m, ws), c, y) == Back(m, c, y)
    ensures Touched(PutAll(m, ws).trail, c.tr, y) <==> Touched(m.trail, c.tr, y)
  {
    if ws != [] {
      Unstored(m, c, ws[..|ws| - 1], y);
      OneStore(PutAll(m, ws[..|ws| - 1]), c, ws[|ws| - 1], y);
    }
  }

  lemma LastIff(m: Machine, q: Machine, c: Choice, w: Write)
    requires Sound(m, c) && Sound(q, c) && |q.mem| == |m.mem| && q.cps == m.cps && w.at < |m.mem|
    requires q.mem[w.at] == m.mem[w.at] && Back(q, c, w.at) == Back(m, c, w.at)
    requires Touched(q.trail, c.tr, w.at) <==> Touched(m.trail, c.tr, w.at)
    ensures Sound(Put(q, w), c)
    ensures SameBack(m, Put(q, w), c) <==> SameBack(m, q, c) && Safe(m, c, w)
  {
    hide Back, Put;
    SafeSame(m, q, c, w);
    OneStore(q, c, w, w.at);
    PutSize(q, w);
    forall y: nat | y < |m.mem| && y != w.at
      ensures Back(Put(q, w), c, y) == Back(q, c, y)
    {
      OneStore(q, c, w, y);
    }
  }

  lemma PutSize(m: Machine, w: Write)
    requires w.at < |m.mem|
    ensures |Put(m, w).mem| == |m.mem|
  {
  }

  lemma SafeSame(m: Machine, q: Machine, c: Choice, w: Write)
    requires |q.mem| == |m.mem| && q.cps == m.cps && w.at < |m.mem| && q.mem[w.at] == m.mem[w.at]
    requires Touched(q.trail, c.tr, w.at) <==> Touched(m.trail, c.tr, w.at)
    ensures Safe(q, c, w) <==> Safe(m, c, w)
  {
    hide Touched;
  }

  /** Stores to different cells are taken back on failure exactly when each of them is safe as things were before. */
  lemma {:induction false} TakenBackIff(m: Machine, c: Choice, ws: seq<Write>)
    requires Sound(m, c) && InStore(|m.mem|, ws) && Distinct(ws)
    ensures Sound(PutAll(m, ws), c)
    ensures SameBack(m, PutAll(m, ws), c) <==> forall i {:trigger ws[i]} :: 0 <= i < |ws| ==> Safe(m, c, ws[i])
  {
    hide Safe, Put, Sound, Touched;
    if ws == [] {
      NothingStored(m, c);
    } else {
      var n := |ws| - 1;
      TakenBackIff(m, c, ws[..n]);
      Unstored(m, c, ws[..n], ws[n].at);
      LastIff(m, PutAll(m, ws[..n]), c, ws[n]);
      assert forall i :: 0 <= i < n ==> ws[..n][i] == ws[i];
    }
  }

  lemma NothingStored(m: Machine, c: Choice)
    requires Sound(m, c)
    ensures SameBack(m, m, c)
  {
  }
}
