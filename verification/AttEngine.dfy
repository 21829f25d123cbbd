/** The attribute operations on the store, in place. */
module AttEngine {
  import opened Prelude
  import opened Cells
  import opened Terms
  import opened AttMap
  import opened AttOverwrite
  import opened Backtrack
  import AttTrail

  /** The attribute part of a variable's record, on the stacks: Atts is the cell at atts. */
  class AttVar {
    var mem: seq<Cell>
    var trail: seq<Entry>
    const hr: nat
    const asp: nat
    const cps: seq<Choice>
    const atts: nat
    /** Whether the variable is bound: it has no attributes then. */
    var done: bool
    ghost var bs: seq<nat>

    ghost predicate Ok()
      reads this
    {
      Valid(mem, atts, bs)
    }

    ghost function Map(): map<Cell, seq<Cell>>
      reads this
      requires Ok()
    {
      if done then map[] else Attributes(mem, atts, bs)
    }

    ghost function View(): Machine
      reads this
    {
      Machine(mem, hr, asp, trail, cps)
    }

    /** HB. */
    function HB(): nat {
      if cps == [] then 0 else cps[|cps| - 1].h
    }

    /** BuildNewAttVar: no attributes. */
    constructor (mem: seq<Cell>, trail: seq<Entry>, hr: nat, asp: nat, cps: seq<Choice>, atts: nat)
      requires atts < |mem| && mem[atts] == Ref(atts)
      ensures Ok() && this.atts == atts && bs == [] && !done && Map() == map[]
      ensures View() == Machine(mem, hr, asp, trail, cps)
    {
      this.mem, this.trail, this.hr, this.asp, this.cps := mem, trail, hr, asp, cps;
      this.atts, this.done, this.bs := atts, false, [];
    }

    /** A store as it is, MaBind, or Bind_Global_NonAtt. */
    method Store(w: AttTrail.Write)
      requires w.at < |mem|
      modifies this`mem, this`trail
      ensures View() == AttTrail.Put(old(View()), w) && mem == old(mem)[w.at := w.v]
    {
      if w.Multi? && cps != [] && (w.at < HB() || cps[|cps| - 1].addr < w.at) {
        trail := trail + [MultiEntry(w.at, mem[w.at])];
      }
      mem := mem[w.at := w.v];
      if w.Once? && cps != [] && w.at < HB() {
        trail := trail + [VarEntry(w.at)];
      }
    }

    /** SearchAttsForModule: the block for a functor, or the variable at the end. */
    method Search(f: Cell) returns (r: Cell, ghost k: nat)
      requires Ok()
      ensures r.Ref? ==> NoSuch(mem, bs, f)
      ensures !r.Ref? ==> k < |bs| && r == Appl(bs[k]) && BlockAt(mem, bs[k]) && mem[bs[k]] == f
    {
      hide Apart, Linked, Tidy, DerefCell;
      k := 0;
      EndsOrGoesOn(mem, atts, bs, 0);
      var start := mem[atts];
      while start.Appl? && mem[start.p] != f
        invariant k <= |bs| && (k < |bs| ==> start == Appl(bs[k]) && BlockAt(mem, bs[k])) && (k == |bs| ==> start.Ref?)
        invariant forall j :: 0 <= j < k ==> bs[j] < |mem| && mem[bs[j]] != f
        decreases |bs| - k
      {
        start := DerefCell(mem, mem[start.p + 1]);
        k := k + 1;
        EndsOrGoesOn(mem, atts, bs, k);
      }
      return start, k;
    }

    /** The cell that points to block b: the loops that move wherep. */
    method FindLink(b: nat, ghost k: nat) returns (l: nat)
      requires Ok() && k < |bs| && bs[k] == b
      ensures l == LinkAt(atts, bs, k) && l < |mem|
    {
      hide Apart, Linked, Tidy, DerefCell;
      l := atts;
      ghost var i := 0;
      EndsOrGoesOn(mem, atts, bs, 0);
      while mem[l] != Appl(b)
        invariant i <= k && l == LinkAt(atts, bs, i) && l < |mem| && mem[l] == Appl(bs[i]) &&
          DerefCell(mem, mem[l]) == mem[l]
        decreases k - i
      {
        l := DerefCell(mem, mem[l]).p + 1;
        i := i + 1;
        EndsOrGoesOn(mem, atts, bs, i);
      }
      SameBlock(mem, atts, bs, i, k);
    }

    method FindEnd() returns (l: nat)
      requires Ok()
      ensures l == LinkAt(atts, bs, |bs|) && l < |mem|
    {
      hide Apart, Linked, Tidy, DerefCell;
      l := atts;
      ghost var i := 0;
      EndsOrGoesOn(mem, atts, bs, 0);
      while !mem[l].Ref?
        invariant i <= |bs| && l == LinkAt(atts, bs, i) && l < |mem|
        invariant if i < |bs| then mem[l] == Appl(bs[i]) && DerefCell(mem, mem[l]) == mem[l] else mem[l].Ref?
        decreases |bs| - i
      {
        l := DerefCell(mem, mem[l]).p + 1;
        i := i + 1;
        EndsOrGoesOn(mem, atts, bs, i);
      }
    }

    /** put_att/2: the block's vector goes into the map, merged with the one there was. */
    method PutAtts(t: nat, isNew: bool) returns (ghost k: nat)
      requires Ok() && !done && Fresh(mem, atts, bs, t) && BlockAt(mem, t) && (isNew ==> bs == [])
      modifies this`mem, this`trail, this`bs
      ensures Ok()
      ensures NoSuch(old(mem), old(bs), old(mem)[t]) ==>
        Map() == if HasValue(Normal(old(mem), t), |Normal(old(mem), t)|) then
            old(Map())[old(mem)[t] := Normal(old(mem), t)] else old(Map())
      ensures !NoSuch(old(mem), old(bs), old(mem)[t]) ==>
        && k < |old(bs)| && BlockAt(old(mem), old(bs)[k]) && old(mem)[old(bs)[k]] == old(mem)[t]
        && (Map() == old(Map())[old(mem)[t] := Merged(old(mem), old(bs)[k], t)] <==>
              old(bs)[k] + 1 <= HB() || Agrees(old(mem), old(bs), old(bs)[k], t))
    {
      hide Valid, Fresh, Agrees, Attributes, Merged, Normal, Does;
      var found;
      found, k := Search(mem[t]);
      if found.Ref? {
        var added := AddNewModule(t, isNew, false);
      } else {
        ReplaceAtts(found.p, t, k);
      }
    }

    /** del_atts/2: the functor's vector goes out of the map. */
    method DelAttsOf(f: Cell)
      requires Ok() && !done
      modifies this
      ensures Ok() && Map() == old(Map()) - {f}
    {
      hide Apart, Linked, Tidy, Values;
      var found;
      ghost var k;
      found, k := Search(f);
      if found.Ref? {
        NoSuchKey(mem, atts, bs, f);
      } else {
        DelAtts(found.p, k);
      }
    }

    /** AddNewModule: free places hold nothing; without a value the block is only added on demand. */
    method AddNewModule(t: nat, isNew: bool, doIt: bool) returns (added: bool)
      requires Ok() && !done && Fresh(mem, atts, bs, t) && BlockAt(mem, t) && NoSuch(mem, bs, mem[t])
      requires isNew ==> bs == []
      modifies this`mem, this`trail, this`bs
      ensures Ok()
      ensures added <==> doIt || HasValue(Normal(old(mem), t), |Normal(old(mem), t)|)
      ensures bs == if added then old(bs) + [t] else old(bs)
      ensures Map() == if added then old(Map())[old(mem)[t] := Normal(old(mem), t)] else old(Map())
      ensures added ==> |Map()[old(mem)[t]]| == old(mem)[t].arity - 1
      ensures added ==> forall i: nat :: i < old(mem)[t].arity - 1 ==>
        var x := DerefCell(old(mem), old(mem)[t + 2 + i]);
        Map()[old(mem)[t]][i] == if x == FREE then VOID else x
      ensures Does(old(View()), View(), AddWrites(old(mem), atts, old(bs), t, isNew, added))
    {
      hide Valid, Fresh, Voided, Attributes, Normal, NoSuch, VoidWrites;
      ghost var m0 := mem;
      NormalAt(m0, t);
      FreshArgs(mem, atts, bs, t);
      added := FillVoid(t, doIt);
      VoidedKeeps(m0, mem, atts, bs, t);
      assert VoidWrites(m0, t, m0[t].arity - 1) + [] == VoidWrites(m0, t, m0[t].arity - 1);
      if added {
        var l := FindEnd();
        VoidedAppended(m0, mem, atts, bs, t, l);
        LinkWrite(old(View()), View(), VoidWrites(m0, t, m0[t].arity - 1), AddLink(atts, bs, t, isNew));
        Store(if isNew then AttTrail.Plain(l, Appl(t)) else if l == atts then AttTrail.Multi(l, Appl(t))
            else AttTrail.Once(l, Appl(t)));
        bs := bs + [t];
      }
    }

    /** The loop of AddNewModule. */
    method FillVoid(t: nat, doIt: bool) returns (some: bool)
      requires BlockAt(mem, t) && forall x: nat :: IsArg(mem, t, x) ==> Clear(mem, mem[x], Private(mem, t))
      modifies this`mem, this`trail
      ensures Voided(old(mem), mem, t, old(mem)[t].arity - 1)
      ensures some <==> doIt || HasValue(Normal(old(mem), t), |Normal(old(mem), t)|)
      ensures Does(old(View()), View(), VoidWrites(old(mem), t, old(mem)[t].arity - 1))
    {
      hide Voided, Normal, VoidWrites, Does;
      ghost var m0 := mem;
      some := doIt;
      var ar := mem[t].arity;
      var i := 0;
      VoidedStart(mem, t);
      DoesNothing(View());
      NoVoids(m0, t);
      while i < ar - 1
        invariant 0 <= i <= ar - 1 && Voided(m0, mem, t, i)
        invariant some <==> doIt || HasValue(Normal(m0, t), i)
        invariant Does(old(View()), View(), VoidWrites(m0, t, i))
      {
        VoidedNext(m0, mem, t, i);
        VoidWritesNext(m0, t, i);
        var x := t + 2 + i;
        var n := DerefCell(mem, mem[x]);
        if n == FREE {
          LinkWrite(old(View()), View(), VoidWrites(m0, t, i), AttTrail.Plain(x, VOID));
          Store(AttTrail.Plain(x, VOID));
        } else if n != VOID {
          some := true;
        }
        i := i + 1;
      }
    }

    /** ReplaceAtts: in place if the block is newer than HB, and else by a copy that takes its place. In place the map
        is as it is with a copy exactly when Agrees holds of the store before the call. */
    method ReplaceAtts(b: nat, t: nat, ghost k: nat)
      requires Ok() && !done && k < |bs| && bs[k] == b && BlockAt(mem, b) && Fresh(mem, atts, bs, t) &&
        BlockAt(mem, t) && mem[b] == mem[t]
      modifies this`mem, this`trail, this`bs
      ensures Ok() && bs == if b + 1 > HB() then old(bs) else old(bs)[k := t]
      ensures Map() == old(Map())[old(mem)[t] := Merged(old(mem), b, t)] <==>
        b + 1 <= HB() || Agrees(old(mem), old(bs), b, t)
      ensures Does(old(View()), View(), ReplaceWrites(old(mem), atts, old(bs), k, t, b + 1 > HB()))
    {
      hide Valid, Fresh, Agrees, Attributes, Merged, InPlaceWrites, FillWrites;
      if b + 1 > HB() {
        InPlaceIff(mem, atts, bs, k, t);
        InPlace(b, t, k);
      } else {
        CopyOver(b, t, k);
      }
    }

    /** The rest of ReplaceAtts. The block is older than HB here, so its test for a newer one never holds and the link
        is always trailed. */
    method CopyOver(b: nat, t: nat, ghost k: nat)
      requires Ok() && !done && k < |bs| && bs[k] == b && BlockAt(mem, b) && Fresh(mem, atts, bs, t) &&
        BlockAt(mem, t) && mem[b] == mem[t]
      modifies this`mem, this`trail, this`bs
      ensures Ok() && bs == old(bs)[k := t]
      ensures Map() == old(Map())[old(mem)[t] := Merged(old(mem), b, t)]
      ensures |Map()[old(mem)[t]]| == old(mem)[t].arity - 1
      ensures forall i: nat :: i < old(mem)[t].arity - 1 ==>
        var x := DerefCell(old(mem), old(mem)[t + 2 + i]);
        Map()[old(mem)[t]][i] == if x == FREE then DerefCell(old(mem), old(mem)[b + 2 + i]) else x
      ensures Does(old(View()), View(), ReplaceWrites(old(mem), atts, old(bs), k, t, false))
    {
      hide Valid, Fresh, Filled, Merged, Attributes, FillWrites;
      ghost var m0 := mem;
      MergedAt(m0, b, t);
      FillFrom(b, t, k);
      FilledKeeps(m0, mem, atts, bs, k, t);
      var l := FindLink(b, k);
      FilledCopied(m0, mem, atts, bs, k, t, l);
      LinkWrite(old(View()), View(), FillWrites(m0, b, t, m0[t].arity - 1), AttTrail.Multi(l, Appl(t)));
      Store(AttTrail.Multi(l, Appl(t)));
      bs := bs[k := t];
    }

    /** The first loop of ReplaceAtts. */
    method InPlace(b: nat, t: nat, ghost k: nat)
      requires Ok() && !done && k < |bs| && bs[k] == b && BlockAt(mem, b) && Fresh(mem, atts, bs, t) &&
        BlockAt(mem, t) && mem[b] == mem[t]
      modifies this`mem, this`trail
      ensures Ok() && mem == InPlaceTo(old(mem), b, t, old(mem)[t].arity - 1)
      ensures Does(old(View()), View(), InPlaceWrites(old(mem), b, t, old(mem)[t].arity - 1))
    {
      hide Valid, Fresh, InPlaceWrites, InPlaceFrame, Does, InPlaceTo;
      ghost var m0 := mem;
      var ar := mem[b].arity;
      var i := 0;
      InPlaceStart(mem, atts, bs, k, t);
      DoesNothing(View());
      InPlaceNone(mem, b, t);
      while i < ar - 1
        invariant 0 <= i <= ar - 1
        invariant Valid(mem, atts, bs) && InPlaceFrame(m0, mem, atts, bs, k, t)
        invariant mem == InPlaceTo(m0, b, t, i)
        invariant Does(old(View()), View(), InPlaceWrites(m0, b, t, i))
      {
        InPlaceNext(m0, mem, atts, bs, k, t, i);
        InPlaceWritesNext(m0, b, t, i);
        InPlaceSize(m0, mem, atts, bs, k, t);
        var n := DerefCell(mem, mem[t + 2 + i]);
        if n != FREE {
          LinkWrite(old(View()), View(), InPlaceWrites(m0, b, t, i), AttTrail.Plain(b + 2 + i, n));
          Store(AttTrail.Plain(b + 2 + i, n));
        }
        i := i + 1;
      }
    }

    /** The second loop of ReplaceAtts. */
    method FillFrom(b: nat, t: nat, ghost k: nat)
      requires Ok() && k < |bs| && bs[k] == b && BlockAt(mem, b) && Fresh(mem, atts, bs, t) && BlockAt(mem, t) &&
        mem[b] == mem[t]
      modifies this`mem, this`trail
      ensures Filled(old(mem), mem, b, t, old(mem)[t].arity - 1)
      ensures Does(old(View()), View(), FillWrites(old(mem), b, t, old(mem)[t].arity - 1))
    {
      hide Valid, Fresh, Filled, FillWrites, Does, DerefCell, FreeArgs;
      ghost var m0 := mem;
      var ar := mem[b].arity;
      FilledStart(mem, b, t);
      FillWritesNext(m0, b, t, 0);
      DoesNothing(View());
      LinkWrite(View(), View(), [], AttTrail.Plain(t + 1, mem[b + 1]));
      Store(AttTrail.Plain(t + 1, mem[b + 1]));
      var i := 0;
      while i < ar - 1
        invariant 0 <= i <= ar - 1 && Filled(m0, mem, b, t, i)
        invariant Does(old(View()), View(), FillWrites(m0, b, t, i))
      {
        FillPlace(b, t, i, old(View()), k);
        i := i + 1;
      }
    }

    /** One round of it. */
    method FillPlace(b: nat, t: nat, i: nat, ghost m: Machine, ghost k: nat)
      requires Valid(m.mem, atts, bs) && k < |bs| && bs[k] == b && Fresh(m.mem, atts, bs, t)
      requires BlockAt(m.mem, b) && BlockAt(m.mem, t) && m.mem[b] == m.mem[t] && i < m.mem[t].arity - 1
      requires Filled(m.mem, mem, b, t, i) && Does(m, View(), FillWrites(m.mem, b, t, i))
      modifies this`mem, this`trail
      ensures Filled(m.mem, mem, b, t, i + 1) && Does(m, View(), FillWrites(m.mem, b, t, i + 1))
    {
      hide Valid, Fresh, Filled, FillWrites, Does, DerefCell;
      FilledNext(m.mem, mem, atts, bs, k, t, i);
      FilledReads(m.mem, mem, atts, bs, k, t, i);
      FillWritesNext(m.mem, b, t, i);
      if DerefCell(mem, mem[t + 2 + i]) == FREE {
        var w := AttTrail.Plain(t + 2 + i, DerefCell(mem, mem[b + 2 + i]));
        LinkWrite(m, View(), FillWrites(m.mem, b, t, i), w);
        Store(w);
      }
    }

    /** DelAtts: what follows takes the block's place; without the only block the variable is bound to its value. */
    method DelAtts(b: nat, ghost k: nat)
      requires Ok() && !done && k < |bs| && bs[k] == b && BlockAt(mem, b)
      modifies this
      ensures Ok() && Map() == old(Map()) - {old(mem)[b]}
      ensures done <==> |old(bs)| == 1
      ensures Does(old(View()), View(), if |old(bs)| == 1 then [] else [DelWrite(old(mem), atts, old(bs), k, HB())])
    {
      hide Apart, Linked, Tidy, Attributes;
      ghost var m0 := mem;
      EndsOrGoesOn(mem, atts, bs, 0);
      EndsOrGoesOn(mem, atts, bs, k + 1);
      SameBlock(mem, atts, bs, 0, k);
      if mem[atts] == Appl(b) && DerefCell(mem, mem[b + 1]).Ref? {
        OnlyBlock(mem, atts, bs);
        done := true;
        return;
      }
      var l := FindLink(b, k);
      var next := DerefCell(mem, mem[b + 1]);
      LinkWrite(View(), View(), [], if l == atts && b >= HB() then AttTrail.Plain(l, next)
          else AttTrail.Multi(l, next));
      Store(if l == atts && b >= HB() then AttTrail.Plain(l, next) else AttTrail.Multi(l, next));
      HeadLink(m0, atts, bs, k);
      RemovedKeeps(m0, mem, atts, bs, k);
      bs := Remove(bs, k);
    }

    /** PutAtt: one value, at place x of block b. The map is the old one with that value exactly when PutAgrees
        holds. */
    method PutAtt(b: nat, pos: nat, v: Cell, ghost k: nat)
      requires Ok() && !done && k < |bs| && bs[k] == b && BlockAt(mem, b) && 2 <= pos <= mem[b].arity &&
        Settled(mem, v, Frame(atts, bs))
      modifies this`mem, this`trail
      ensures Ok()
      ensures Map() == old(Map())[old(mem)[b] := Values(old(mem), b)[pos - 2 := v]] <==>
        PutAgrees(old(mem), bs, b + pos, v)
      ensures Does(old(View()), View(), [AttTrail.Multi(b + pos, v)])
    {
      hide Valid, Settled, PutAgrees, Values, Attributes;
      PutIff(mem, atts, bs, k, b + pos, v);
      LinkWrite(View(), View(), [], AttTrail.Multi(b + pos, v));
      Store(AttTrail.Multi(b + pos, v));
    }
  }

  lemma MergedAt(mem: seq<Cell>, b: nat, t: nat)
    requires BlockAt(mem, b) && BlockAt(mem, t) && mem[b] == mem[t]
    ensures |Merged(mem, b, t)| == mem[t].arity - 1
    ensures forall i: nat :: i < mem[t].arity - 1 ==>
      var x := DerefCell(mem, mem[t + 2 + i]);
      Merged(mem, b, t)[i] == if x == FREE then DerefCell(mem, mem[b + 2 + i]) else x
  {
  }

  lemma NormalAt(mem: seq<Cell>, t: nat)
    requires BlockAt(mem, t)
    ensures |Normal(mem, t)| == mem[t].arity - 1
    ensures forall i: nat :: i < mem[t].arity - 1 ==>
      var x := DerefCell(mem, mem[t + 2 + i]);
      Normal(mem, t)[i] == if x == FREE then VOID else x
  {
  }

  // ---------------------------------------------------------------- the stores of each operation

  ghost predicate Does(m: Machine, q: Machine, ws: seq<AttTrail.Write>) {
    AttTrail.InStore(|m.mem|, ws) && q == AttTrail.PutAll(m, ws)
  }

  lemma LinkWrite(m: Machine, q: Machine, ws: seq<AttTrail.Write>, w: AttTrail.Write)
    requires Does(m, q, ws) && w.at < |m.mem|
    ensures Does(m, AttTrail.Put(q, w), ws + [w]) && (ws == [] ==> ws + [w] == [w])
  {
    AttTrail.PutMore(m, ws, w);
  }

  lemma DoesNothing(m: Machine)
    ensures Does(m, m, [])
  {
  }

  lemma VoidWritesNext(mem: seq<Cell>, t: nat, i: nat)
    requires BlockAt(mem, t) && i < mem[t].arity - 1
    ensures VoidWrites(mem, t, i + 1) ==
      if DerefCell(mem, mem[t + 2 + i]) == FREE then VoidWrites(mem, t, i) + [AttTrail.Plain(t + 2 + i, VOID)]
          else VoidWrites(mem, t, i)
  {
  }

  lemma NoVoids(mem: seq<Cell>, t: nat)
    requires BlockAt(mem, t)
    ensures VoidWrites(mem, t, 0) == []
  {
  }

  lemma InPlaceNone(mem: seq<Cell>, b: nat, t: nat)
    requires BlockAt(mem, b) && BlockAt(mem, t) && mem[b] == mem[t]
    ensures InPlaceTo(mem, b, t, 0) == mem && InPlaceWrites(mem, b, t, 0) == []
  {
  }

  lemma InPlaceSize(m0: seq<Cell>, mem: seq<Cell>, atts: nat, bs: seq<nat>, k: nat, t: nat)
    requires k < |bs| && InPlaceFrame(m0, mem, atts, bs, k, t)
    ensures |mem| == |m0|
  {
  }

  lemma InPlaceWritesNext(mem: seq<Cell>, b: nat, t: nat, i: nat)
    requires BlockAt(mem, b) && BlockAt(mem, t) && mem[b] == mem[t] && i < mem[t].arity - 1
    ensures
      var m := InPlaceTo(mem, b, t, i);
      var n := DerefCell(m, m[t + 2 + i]);
      && InPlaceTo(mem, b, t, i + 1) == (if n == FREE then m else m[b + 2 + i := n])
      && InPlaceWrites(mem, b, t, i + 1) == (if n == FREE then InPlaceWrites(mem, b, t, i)
                                             else InPlaceWrites(mem, b, t, i) + [AttTrail.Plain(b + 2 + i, n)])
  {
    hide DerefCell;
  }

  lemma FillWritesNext(mem: seq<Cell>, b: nat, t: nat, i: nat)
    requires BlockAt(mem, b) && BlockAt(mem, t) && mem[b] == mem[t] && i < mem[t].arity
    ensures FillWrites(mem, b, t, 0) == [AttTrail.Plain(t + 1, mem[b + 1])]
    ensures i < mem[t].arity - 1 ==>
      FillWrites(mem, b, t, i + 1) ==
        if DerefCell(mem, mem[t + 2 + i]) == FREE
        then FillWrites(mem, b, t, i) + [AttTrail.Plain(t + 2 + i, DerefCell(mem, mem[b + 2 + i]))]
        else FillWrites(mem, b, t, i)
  {
    hide DerefCell;
  }

  function VoidWrites(mem: seq<Cell>, t: nat, i: nat): (ws: seq<AttTrail.Write>)
    requires BlockAt(mem, t) && i < mem[t].arity
    ensures AttTrail.InStore(|mem|, ws)
  {
    if i == 0 then []
    else VoidWrites(mem, t, i - 1) + (if DerefCell(mem, mem[t + 1 + i]) == FREE then
        [AttTrail.Plain(t + 1 + i, VOID)] else [])
  }

  function AddLink(atts: nat, bs: seq<nat>, t: nat, isNew: bool): AttTrail.Write {
    var l := LinkAt(atts, bs, |bs|);
    if isNew then AttTrail.Plain(l, Appl(t)) else if l == atts then AttTrail.Multi(l, Appl(t))
        else AttTrail.Once(l, Appl(t))
  }

  function AddWrites(mem: seq<Cell>, atts: nat, bs: seq<nat>, t: nat, isNew: bool, added: bool): seq<AttTrail.Write>
    requires BlockAt(mem, t)
  {
    VoidWrites(mem, t, mem[t].arity - 1) + (if added then [AddLink(atts, bs, t, isNew)] else [])
  }

  function InPlaceWrites(mem: seq<Cell>, b: nat, t: nat, i: nat): (ws: seq<AttTrail.Write>)
    requires BlockAt(mem, b) && BlockAt(mem, t) && mem[b] == mem[t] && i < mem[t].arity
    ensures AttTrail.InStore(|mem|, ws)
  {
    if i == 0 then []
    else
      var m := InPlaceTo(mem, b, t, i - 1);
      var n := DerefCell(m, m[t + 1 + i]);
      InPlaceWrites(mem, b, t, i - 1) + (if n == FREE then [] else [AttTrail.Plain(b + 1 + i, n)])
  }

  function FillWrites(mem: seq<Cell>, b: nat, t: nat, i: nat): (ws: seq<AttTrail.Write>)
    requires BlockAt(mem, b) && BlockAt(mem, t) && mem[b] == mem[t] && i < mem[t].arity
    ensures AttTrail.InStore(|mem|, ws)
  {
    if i == 0 then [AttTrail.Plain(t + 1, mem[b + 1])]
    else
      FillWrites(mem, b, t, i - 1) +
      (if DerefCell(mem, mem[t + 1 + i]) == FREE then [AttTrail.Plain(t + 1 + i, DerefCell(mem, mem[b + 1 + i]))]
          else [])
  }

  function ReplaceWrites(mem: seq<Cell>, atts: nat, bs: seq<nat>, k: nat, t: nat, inPlace: bool): seq<AttTrail.Write>
    requires k < |bs| && BlockAt(mem, bs[k]) && BlockAt(mem, t) && mem[bs[k]] == mem[t]
  {
    var n := mem[t].arity - 1;
    if inPlace then InPlaceWrites(mem, bs[k], t, n)
    else FillWrites(mem, bs[k], t, n) + [AttTrail.Multi(LinkAt(atts, bs, k), Appl(t))]
  }

  function DelWrite(mem: seq<Cell>, atts: nat, bs: seq<nat>, k: nat, hb: nat): AttTrail.Write
    requires k < |bs| && BlockAt(mem, bs[k])
  {
    var next := DerefCell(mem, mem[bs[k] + 1]);
    if k == 0 && bs[k] >= hb then AttTrail.Plain(atts, next) else AttTrail.Multi(LinkAt(atts, bs, k), next)
  }

  lemma HeadLink(mem: seq<Cell>, atts: nat, bs: seq<nat>, k: nat)
    requires Apart(mem, atts, bs) && k < |bs|
    ensures LinkAt(atts, bs, k) == atts <==> k == 0
  {
    LinksApart(mem, atts, bs, 0, k);
  }

  lemma NoSuchKey(mem: seq<Cell>, atts: nat, bs: seq<nat>, f: Cell)
    requires Apart(mem, atts, bs) && NoSuch(mem, bs, f)
    ensures Attributes(mem, atts, bs) - {f} == Attributes(mem, atts, bs)
  {
  }

  /** One block: one vector. */
  lemma OnlyBlock(mem: seq<Cell>, atts: nat, bs: seq<nat>)
    requires Apart(mem, atts, bs)
    ensures |bs| == 1 ==> bs[0] < |mem| && Attributes(mem, atts, bs) - {mem[bs[0]]} == map[]
  {
    if |bs| == 1 { HeadersDiffer(mem, atts, bs, 0, 0); }
  }

  lemma SameBlock(mem: seq<Cell>, atts: nat, bs: seq<nat>, i: nat, k: nat)
    requires Apart(mem, atts, bs) && i < |bs| && k < |bs|
    ensures bs[i] == bs[k] ==> i == k
  {
    HeadersDiffer(mem, atts, bs, i, k);
  }

  /** One of the first n is a value. */
  predicate HasValue(v: seq<Cell>, n: nat)
    requires n <= |v|
  {
    n > 0 && (v[n - 1] != VOID || HasValue(v, n - 1))
  }

  /** The first i places of a new block, if free, hold nothing. */
  ghost predicate Voided(m0: seq<Cell>, mem: seq<Cell>, t: nat, i: nat)
    requires BlockAt(m0, t)
  {
    && Only(m0, mem, FreeArgs(m0, t))
    && forall x: nat :: x in FreeArgs(m0, t) && x < |mem| && x < |m0| ==>
        mem[x] == if x < t + 2 + i then VOID else m0[x]
  }

  lemma VoidedStart(mem: seq<Cell>, t: nat)
    requires BlockAt(mem, t)
    ensures Voided(mem, mem, t, 0)
  {
  }

  lemma VoidedNext(m0: seq<Cell>, mem: seq<Cell>, t: nat, i: nat)
    requires BlockAt(m0, t) && i < m0[t].arity - 1 && Voided(m0, mem, t, i)
    requires forall x: nat :: IsArg(m0, t, x) ==> Clear(m0, m0[x], Private(m0, t))
    ensures t + 2 + i < |mem|
    ensures
      var x := t + 2 + i;
      var n := DerefCell(mem, mem[x]);
      && n == DerefCell(m0, m0[x]) && Normal(m0, t)[i] == (if n == FREE then VOID else n)
      && Voided(m0, if n == FREE then mem[x := VOID] else mem, t, i + 1)
  {
    hide Clear, DerefCell;
    var x := t + 2 + i;
    assert IsArg(m0, t, x) && mem[x] == m0[x];
    ClearFewer(m0, m0[x], Private(m0, t), FreeArgs(m0, t));
    ClearKept(m0, mem, m0[x], FreeArgs(m0, t), {});
  }

  lemma OnlyMore(m0: seq<Cell>, mem: seq<Cell>, z: set<nat>, more: set<nat>)
    requires Only(m0, mem, z) && z <= more
    ensures Only(m0, mem, more)
  {
  }

  lemma VoidedKeeps(m0: seq<Cell>, mem: seq<Cell>, atts: nat, bs: seq<nat>, t: nat)
    requires Valid(m0, atts, bs) && Fresh(m0, atts, bs, t) && BlockAt(m0, t) && Voided(m0, mem, t, m0[t].arity - 1)
    ensures Valid(mem, atts, bs) && Attributes(mem, atts, bs) == Attributes(m0, atts, bs)
  {
    hide Valid, Fresh, Attributes;
    PrivateBeside(m0, atts, bs, t);
    OnlyMore(m0, mem, FreeArgs(m0, t), Private(m0, t));
    BesideKeeps(m0, mem, atts, bs, Private(m0, t));
  }

  lemma VoidedAppended(m0: seq<Cell>, mem: seq<Cell>, atts: nat, bs: seq<nat>, t: nat, l: nat)
    requires Valid(m0, atts, bs) && Fresh(m0, atts, bs, t) && BlockAt(m0, t) && NoSuch(m0, bs, m0[t])
    requires Voided(m0, mem, t, m0[t].arity - 1) && l == LinkAt(atts, bs, |bs|) && l < |mem|
    ensures
      var q := mem[l := Appl(t)];
      Valid(q, atts, bs + [t]) && Attributes(q, atts, bs + [t]) == Attributes(m0, atts, bs)[m0[t] := Normal(m0, t)]
  {
    hide Apart, Linked, Tidy, Fresh, Attributes, Normal;
    LinkNotIn(m0, atts, bs, t, |bs|);
    FreeInside(m0, t);
    var q := mem[l := Appl(t)];
    assert Appended(m0, q, atts, bs, t);
    AppendedKeeps(m0, q, atts, bs, t);
  }

  /** The first i places of a new block, if free, filled up from block b, and its link copied. */
  ghost predicate Filled(m0: seq<Cell>, mem: seq<Cell>, b: nat, t: nat, i: nat)
    requires BlockAt(m0, b) && BlockAt(m0, t)
  {
    && Only(m0, mem, {t + 1} + FreeArgs(m0, t)) && t + 1 < |mem| && mem[t + 1] == m0[b + 1]
    && forall x: nat {:trigger x in FreeArgs(m0, t)} :: x in FreeArgs(m0, t) && x < |mem| && x < |m0| ==>
         mem[x] == if x < t + 2 + i then NewFor(m0, t, b, x) else m0[x]
  }

  lemma FilledStart(mem: seq<Cell>, b: nat, t: nat)
    requires BlockAt(mem, b) && BlockAt(mem, t)
    ensures Filled(mem, mem[t + 1 := mem[b + 1]], b, t, 0)
  {
    FreeInside(mem, t);
  }

  lemma FilledPlace(m0: seq<Cell>, mem: seq<Cell>, b: nat, t: nat, i: nat)
    requires BlockAt(m0, b) && BlockAt(m0, t) && m0[b] == m0[t] && i < m0[t].arity - 1 && Filled(m0, mem, b, t, i)
    ensures |mem| == |m0| && mem[t + 2 + i] == m0[t + 2 + i]
  {
    hide DerefCell;
    var x := t + 2 + i;
    if x !in FreeArgs(m0, t) { assert x !in {t + 1} + FreeArgs(m0, t); }
  }

  lemma FilledStep(m0: seq<Cell>, mem: seq<Cell>, b: nat, t: nat, i: nat)
    requires BlockAt(m0, b) && BlockAt(m0, t) && m0[b] == m0[t] && i < m0[t].arity - 1 && Filled(m0, mem, b, t, i)
    ensures |mem| == |m0|
    ensures
      var x := t + 2 + i;
      Filled(m0, if DerefCell(m0, m0[x]) == FREE then mem[x := DerefCell(m0, m0[b + 2 + i])] else mem, b, t, i + 1)
  {
    hide DerefCell, FreeArgs, NewFor;
    var x := t + 2 + i;
    FreeInside(m0, t);
    FreeIff(m0, t, x);
    NewForIs(m0, t, b, i);
    var q := if DerefCell(m0, m0[x]) == FREE then mem[x := DerefCell(m0, m0[b + 2 + i])] else mem;
    forall y: nat | y in FreeArgs(m0, t) && y < |q|
      ensures q[y] == if y < x + 1 then NewFor(m0, t, b, y) else m0[y]
    {
      assert mem[y] == if y < x then NewFor(m0, t, b, y) else m0[y];
    }
  }

  lemma NewForIs(mem: seq<Cell>, t: nat, b: nat, i: nat)
    requires BlockAt(mem, b) && BlockAt(mem, t) && mem[b] == mem[t] && i < mem[t].arity - 1
    ensures NewFor(mem, t, b, t + 2 + i) == DerefCell(mem, mem[b + 2 + i])
  {
  }

  lemma FreeIff(mem: seq<Cell>, t: nat, x: nat)
    requires BlockAt(mem, t) && IsArg(mem, t, x)
    ensures x in FreeArgs(mem, t) <==> DerefCell(mem, mem[x]) == FREE
  {
  }

  lemma FilledNext(m0: seq<Cell>, mem: seq<Cell>, atts: nat, bs: seq<nat>, k: nat, t: nat, i: nat)
    requires Valid(m0, atts, bs) && k < |bs| && BlockAt(m0, bs[k]) && Fresh(m0, atts, bs, t) && BlockAt(m0, t) &&
      m0[bs[k]] == m0[t]
    requires i < m0[t].arity - 1 && Filled(m0, mem, bs[k], t, i)
    ensures |mem| == |m0|
    ensures
      var x := t + 2 + i;
      Filled(m0, if DerefCell(mem, mem[x]) == FREE then mem[x := DerefCell(mem, mem[bs[k] + 2 + i])] else mem, bs[k],
          t, i + 1)
  {
    hide Valid, Fresh, DerefCell, Filled;
    FilledPlace(m0, mem, bs[k], t, i);
    FilledOnly(m0, mem, bs[k], t, i);
    FillNext(m0, mem, atts, bs, k, t, i);
    FilledStep(m0, mem, bs[k], t, i);
  }

  lemma FilledReads(m0: seq<Cell>, mem: seq<Cell>, atts: nat, bs: seq<nat>, k: nat, t: nat, i: nat)
    requires Valid(m0, atts, bs) && k < |bs| && BlockAt(m0, bs[k]) && Fresh(m0, atts, bs, t) && BlockAt(m0, t) &&
      m0[bs[k]] == m0[t]
    requires i < m0[t].arity - 1 && Filled(m0, mem, bs[k], t, i)
    ensures |mem| == |m0|
    ensures DerefCell(mem, mem[t + 2 + i]) == DerefCell(m0, m0[t + 2 + i])
    ensures DerefCell(mem, mem[bs[k] + 2 + i]) == DerefCell(m0, m0[bs[k] + 2 + i])
  {
    hide Valid, Fresh, DerefCell, Filled;
    FilledPlace(m0, mem, bs[k], t, i);
    FilledOnly(m0, mem, bs[k], t, i);
    FillNext(m0, mem, atts, bs, k, t, i);
  }

  lemma FilledOnly(m0: seq<Cell>, mem: seq<Cell>, b: nat, t: nat, i: nat)
    requires BlockAt(m0, b) && BlockAt(m0, t) && Filled(m0, mem, b, t, i)
    ensures Only(m0, mem, {t + 1} + FreeArgs(m0, t))
  {
  }

  lemma FilledKeeps(m0: seq<Cell>, mem: seq<Cell>, atts: nat, bs: seq<nat>, k: nat, t: nat)
    requires Valid(m0, atts, bs) && Fresh(m0, atts, bs, t) && k < |bs| && BlockAt(m0, bs[k]) && BlockAt(m0, t)
    requires Filled(m0, mem, bs[k], t, m0[t].arity - 1)
    ensures Valid(mem, atts, bs)
  {
    hide Valid, Fresh, Attributes;
    PrivateBeside(m0, atts, bs, t);
    OnlyMore(m0, mem, {t + 1} + FreeArgs(m0, t), Private(m0, t));
    BesideKeeps(m0, mem, atts, bs, Private(m0, t));
  }

  lemma FilledCopied(m0: seq<Cell>, mem: seq<Cell>, atts: nat, bs: seq<nat>, k: nat, t: nat, l: nat)
    requires Valid(m0, atts, bs) && Fresh(m0, atts, bs, t) && k < |bs| && BlockAt(m0, bs[k]) && BlockAt(m0, t) &&
      m0[bs[k]] == m0[t]
    requires Filled(m0, mem, bs[k], t, m0[t].arity - 1) && l == LinkAt(atts, bs, k) && l < |mem|
    ensures
      var q := mem[l := Appl(t)];
      Valid(q, atts, bs[k := t]) && Attributes(q, atts, bs[k := t]) == Attributes(m0, atts,
          bs)[m0[t] := Merged(m0, bs[k], t)]
  {
    hide Apart, Linked, Tidy, Fresh, Attributes, Merged;
    LinkNotIn(m0, atts, bs, t, k);
    FreeInside(m0, t);
    var q := mem[l := Appl(t)];
    assert Copied(m0, q, atts, bs, k, t);
    CopiedKeeps(m0, q, atts, bs, k, t);
  }

  /** A place to be filled, and the one it is filled from, read as before. */
  lemma FillNext(m0: seq<Cell>, mem: seq<Cell>, atts: nat, bs: seq<nat>, k: nat, t: nat, i: nat)
    requires Valid(m0, atts, bs) && k < |bs| && BlockAt(m0, bs[k]) && Fresh(m0, atts, bs, t) && BlockAt(m0, t) &&
      m0[bs[k]] == m0[t]
    requires i < m0[t].arity - 1 && Only(m0, mem, {t + 1} + FreeArgs(m0, t)) && mem[t + 2 + i] == m0[t + 2 + i]
    ensures DerefCell(mem, mem[t + 2 + i]) == DerefCell(m0, m0[t + 2 + i])
    ensures DerefCell(mem, mem[bs[k] + 2 + i]) == DerefCell(m0, m0[bs[k] + 2 + i])
  {
    hide Apart, Linked, Tidy, Clear, DerefCell;
    var z, y := {t + 1} + FreeArgs(m0, t), bs[k] + 2 + i;
    assert IsArg(m0, t, t + 2 + i) && IsArg(m0, bs[k], y);
    FreshClear(m0, atts, bs, t, k, t + 2 + i);
    FreshClear(m0, atts, bs, t, k, y);
    ClearFewer(m0, m0[t + 2 + i], Private(m0, t) + Frame(atts, bs), z);
    ClearFewer(m0, m0[y], Private(m0, t) + Frame(atts, bs), z);
    ClearKept(m0, mem, m0[t + 2 + i], z, z);
    ClearKept(m0, mem, m0[y], z, z);
    assert Disjoint(m0, bs[k], t);
    FreeInside(m0, t);
  }

  lemma FreshArgs(mem: seq<Cell>, atts: nat, bs: seq<nat>, t: nat)
    requires Fresh(mem, atts, bs, t) && BlockAt(mem, t)
    ensures forall x: nat :: IsArg(mem, t, x) ==> Clear(mem, mem[x], Private(mem, t))
  {
  }

  // ---------------------------------------------------------------- where the branches differ

  /** A chain of one block, with two variables for values, and a new block with the two exchanged. */
  const SWAP := [Appl(1), Fun(7, 3), Ref(2), Ref(3), Ref(4), Fun(7, 3), Ref(6), Ref(4), Ref(3)]

  lemma OneHop(mem: seq<Cell>, a: nat)
    requires a < |mem| && mem[a] != Ref(a) && Settled(mem, mem[a], {})
    ensures DerefCell(mem, Ref(a)) == mem[a]
  {
    assert Deref(mem, mem[a], Addresses(|mem|) - {a}) == mem[a];
  }

  lemma SwapArgs()
    ensures BlockAt(SWAP, 1) && BlockAt(SWAP, 5) && SWAP[1] == SWAP[5]
    ensures forall x: nat :: IsArg(SWAP, 5, x) ==> x == 7 || x == 8
    ensures forall k, x: nat :: 0 <= k < 1 && IsArg(SWAP, [1][k], x) ==> x == 3 || x == 4
  {
    hide DerefCell;
  }

  lemma SwapFresh()
    ensures Fresh(SWAP, 0, [1], 5)
  {
    hide DerefCell;
    SwapArgs();
    ClearSettled(SWAP, Ref(3), Frame(0, [1]));
    ClearSettled(SWAP, Ref(4), Frame(0, [1]));
    ClearSettled(SWAP, Ref(3), Private(SWAP, 5));
    ClearSettled(SWAP, Ref(4), Private(SWAP, 5));
  }

  lemma SwapValid()
    ensures Valid(SWAP, 0, [1]) && Fresh(SWAP, 0, [1], 5) && BlockAt(SWAP, 1) && BlockAt(SWAP, 5) && SWAP[1] == SWAP[5]
  {
    hide DerefCell, Fresh;
    SwapArgs();
    SwapFresh();
    ClearSettled(SWAP, Ref(3), Frame(0, [1]));
    ClearSettled(SWAP, Ref(4), Frame(0, [1]));
    assert LinkOk(SWAP, 0, [1], 0) && LinkOk(SWAP, 0, [1], 1);
  }

  lemma SwapReads()
    ensures BlockAt(SWAP, 1) && BlockAt(SWAP, 5) && SWAP[1] == SWAP[5]
    ensures Merged(SWAP, 1, 5) == [Ref(4), Ref(3)]
    ensures BlockAt(InPlaceTo(SWAP, 1, 5, 2), 1) && Values(InPlaceTo(SWAP, 1, 5, 2), 1) == [Ref(4), Ref(4)]
    ensures InPlaceTo(SWAP, 1, 5, 2)[1] == SWAP[1]
  {
    hide DerefCell;
    ClearSettled(SWAP, Ref(3), {});
    ClearSettled(SWAP, Ref(4), {});
    assert SWAP[7] == Ref(4) && SWAP[8] == Ref(3);
    var m := SWAP[3 := Ref(4)];
    assert InPlaceTo(SWAP, 1, 5, 1) == m;
    OneHop(m, 3);
    assert m[8] == Ref(3) && m[3] == Ref(4) && DerefCell(m, m[8]) == Ref(4);
    assert InPlaceTo(SWAP, 1, 5, 2) == m[4 := Ref(4)] == m;
    ClearSettled(m, Ref(4), {});
  }

  /** In place, the exchange makes one variable of the two; a copy keeps them apart. */
  lemma SwapClash()
    ensures Valid(SWAP, 0, [1]) && Fresh(SWAP, 0, [1], 5) && BlockAt(SWAP, 1) && BlockAt(SWAP, 5) && SWAP[1] == SWAP[5]
    ensures !Agrees(SWAP, [1], 1, 5)
    ensures Valid(InPlaceTo(SWAP, 1, 5, 2), 0, [1])
    ensures Attributes(InPlaceTo(SWAP, 1, 5, 2), 0, [1]) != Attributes(SWAP, 0, [1])[Fun(7, 3) := [Ref(4), Ref(3)]]
  {
    hide Valid, Fresh, Agrees, Attributes, Merged, Values;
    SwapValid();
    SwapReads();
    InPlaceIff(SWAP, 0, [1], 0, 5);
    Differ(InPlaceTo(SWAP, 1, 5, 2), Attributes(SWAP, 0, [1]), [Ref(4), Ref(4)], [Ref(4), Ref(3)]);
  }

  lemma Differ(f: seq<Cell>, m: map<Cell, seq<Cell>>, v: seq<Cell>, w: seq<Cell>)
    requires Valid(f, 0, [1]) && BlockAt(f, 1) && Values(f, 1) == v && v != w
    ensures Attributes(f, 0, [1]) != m[f[1] := w]
  {
    hide Values;
    Vector(f, 0, [1], 0);
  }

  /** A chain of one block whose second value is the variable that is the first. */
  const SHARED := [Appl(1), Fun(7, 3), Ref(2), Ref(3), Ref(3)]

  /** Putting an attribute binds that variable: the other value changes with it. */
  lemma PutClash()
    ensures Valid(SHARED, 0, [1]) && BlockAt(SHARED, 1) && !PutAgrees(SHARED, [1], 3, Con(9))
    ensures Values(SHARED, 1) == [Ref(3), Ref(3)]
    ensures BlockAt(SHARED[3 := Con(9)], 1) && Values(SHARED[3 := Con(9)], 1) == [Con(9), Con(9)]
  {
    hide DerefCell;
    ClearSettled(SHARED, Ref(3), Frame(0, [1]));
    assert LinkOk(SHARED, 0, [1], 0) && LinkOk(SHARED, 0, [1], 1);
    assert forall x: nat :: IsArg(SHARED, 1, x) ==> x == 3 || x == 4;
    assert FirstIn(SHARED, Ref(3), {3}) == Some(3);
    assert IsArg(SHARED, [1][0], 4) && !Stays(SHARED, 3, Con(9), 4);
    ClearSettled(SHARED[3 := Con(9)], Con(9), {});
    OneHop(SHARED[3 := Con(9)], 3);
  }
}
