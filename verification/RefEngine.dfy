/** The fail loop's part in the reference counts, and trust_logical, as the emulator does them in place. */
module RefEngine {
  import opened Prelude
  import opened RefCounts

  /** No chain names a clause twice. */
  predicate AllDistinct(blocks: seq<Block>) {
    forall b :: 0 <= b < |blocks| ==> Distinct(blocks[b].chain)
  }

  lemma {:induction false} KillOffDistinct(s: State, b: nat)
    requires ParentsFirst(s.blocks) && b < |s.blocks| && AllDistinct(s.blocks)
    ensures AllDistinct(KillOff(s, b).blocks)
    decreases b
  {
    var q, p := Freed(s, b), s.blocks[b].parent;
    if p.Some? && q.blocks[p.value].erased && q.blocks[p.value].count == 0 &&
        !q.blocks[p.value].gone { KillOffDistinct(q, p.value); }
  }

  lemma {:induction false} LiveDistinct(clauses: seq<Clause>, chain: seq<nat>)
    requires Distinct(chain)
    ensures Distinct(LiveOf(clauses, chain))
  {
    if chain != [] {
      var rest := LiveOf(clauses, chain[1..]);
      assert forall i :: 0 <= i < |chain[1..]| ==> chain[1..][i] == chain[i + 1];
      LiveDistinct(clauses, chain[1..]);
      LiveOrErased(clauses, chain[1..]);
      assert chain[0] !in chain[1..] && chain[0] !in rest;
      var a := LiveOf(clauses, chain);
      assert a == rest || a == [chain[0]] + rest;
      forall i, j | 0 <= i < j < |a|
        ensures a[i] != a[j]
      {
        if a != rest { assert a[j] == rest[j - 1] && (i > 0 ==> a[i] == rest[i - 1]); }
      }
    }
  }

  lemma PopDistinct(s: State)
    requires s.trail != [] && ParentsFirst(s.blocks) && AllDistinct(s.blocks)
    ensures AllDistinct(Pop(s).blocks)
  {
    var q, e := Taken(s), s.trail[|s.trail| - 1];
    if e.Index? && e.block < |q.blocks| {
      KillOffDistinct(q, e.block);
      LiveDistinct(q.clauses, q.blocks[e.block].chain);
    }
  }

  class Emulator {
    var blocks: seq<Block>
    var clauses: seq<Clause>
    var trail: seq<Ref>
    var choices: seq<Choice>
    var at: Option<nat>

    ghost function State(): State
      reads this
    {
      RefCounts.State(blocks, clauses, trail, choices, at)
    }

    constructor ()
      ensures State() == EMPTY
    {
      blocks, clauses, trail, choices, at := [], [], [], [], None;
    }

    /** INC_CLREF_COUNT and TRAIL_CLREF. */
    method Keep(r: Ref)
      modifies this
      ensures State() == Push(old(State()), r)
      ensures trail == old(trail) + [r]
      ensures r.Index? && r.block < |old(blocks)| ==>
        blocks == old(blocks)[r.block := old(blocks)[r.block].(count := old(blocks)[r.block].count + 1)]
      ensures r.Code? && r.clause < |old(clauses)| ==>
        clauses == old(clauses)[r.clause := old(clauses)[r.clause].(count := old(clauses)[r.clause].count + 1)]
    {
      match r {
        case Index(b) => if b < |blocks| { blocks := blocks[b := blocks[b].(count := blocks[b].count + 1)]; }
        case Code(c) => if c < |clauses| { clauses := clauses[c := clauses[c].(count := clauses[c].count + 1)]; }
        case Var =>
      }
      trail := trail + [r];
    }

    /** decrease_log_indices: the chain's clauses lose a reference each. */
    method DecreaseAll(which: seq<nat>)
      requires Distinct(which)
      modifies this`clauses
      ensures clauses == DropAll(old(clauses), which)
    {
      var i := 0;
      while i < |which|
        invariant i <= |which| && |clauses| == |old(clauses)|
        invariant forall k :: 0 <= k < |clauses| ==>
          clauses[k] == if k in which[..i] then Dropped(old(clauses)[k]) else old(clauses)[k]
      {
        var c := which[i];
        assert c !in which[..i];
        assert which[..i + 1] == which[..i] + [c];
        if c < |clauses| {
          var left := clauses[c].count - 1;
          clauses := clauses[c := Clause(left, clauses[c].erased, clauses[c].gone || (clauses[c].erased && left == 0))];
        }
        i := i + 1;
      }
      assert which[..i] == which;
    }

    /** Block b lets go of its clauses and its parent. */
    method FreeBlock(b: nat)
      requires ParentsFirst(blocks) && b < |blocks| && Distinct(blocks[b].chain)
      modifies this
      ensures State() == Freed(old(State()), b)
    {
      var k := blocks[b];
      DecreaseAll(k.chain);
      blocks := blocks[b := k.(erased := true, gone := true)];
      if k.parent.Some? {
        var p := k.parent.value;
        blocks := blocks[p := blocks[p].(count := blocks[p].count - 1)];
      }
    }

    /** kill_off_lu_block: up through the parents that only waited for this block. */
    method KillOffBlock(b: nat)
      requires ParentsFirst(blocks) && b < |blocks| && AllDistinct(blocks)
      modifies this
      ensures State() == KillOff(old(State()), b)
      ensures b < |blocks| == |old(blocks)| && blocks[b].gone && blocks[b].erased && trail == old(trail)
      ensures forall d :: b < d < |blocks| ==> blocks[d] == old(blocks)[d]
    {
      hide Freed, Distinct;
      KillOffFrees(State(), b);
      var d: nat := b;
      var going := true;
      while going
        invariant |blocks| == |old(blocks)| && d < |blocks| && ParentsFirst(blocks)
        invariant AllDistinct(blocks)
        invariant (if going then KillOff(State(), d) else State()) == KillOff(old(State()), b)
        decreases going, d
      {
        FreedFrame(State(), d);
        var parent := blocks[d].parent;
        FreeBlock(d);
        if parent.Some? && blocks[parent.value].erased && blocks[parent.value].count == 0 &&
            !blocks[parent.value].gone {
          d := parent.value;
        } else {
          going := false;
        }
      }
    }

    /** The clauses of a chain that are not erased, and those that are. */
    method Split(chain: seq<nat>) returns (live: seq<nat>, dead: seq<nat>)
      requires Distinct(chain)
      ensures live == LiveOf(clauses, chain) && dead == ErasedOf(clauses, chain) && Distinct(dead)
    {
      hide LiveOf, ErasedOf;
      live, dead := [], [];
      var i := 0;
      assert chain[0..] == chain;
      while i < |chain|
        invariant i <= |chain| && Distinct(dead) && (forall c :: c in dead ==> c in chain[..i])
        invariant live + LiveOf(clauses, chain[i..]) == LiveOf(clauses, chain)
        invariant dead + ErasedOf(clauses, chain[i..]) == ErasedOf(clauses, chain)
      {
        var c := chain[i];
        LiveStep(clauses, chain, i, live);
        ErasedStep(clauses, chain, i, dead);
        assert c !in chain[..i];
        assert chain[..i + 1] == chain[..i] + [c];
        if c < |clauses| && clauses[c].erased { dead := dead + [c]; } else { live := live + [c]; }
        i := i + 1;
      }
      SplitEnd(clauses, chain);
    }

    /** Yap_CleanUpIndex. */
    method CleanUpIndex(b: nat)
      requires b < |blocks| && Distinct(blocks[b].chain)
      modifies this
      ensures State() == CleanedUp(old(State()), b)
      ensures trail == old(trail) && choices == old(choices) && at == old(at)
      ensures blocks == old(blocks)[b := old(blocks)[b].(chain := blocks[b].chain, dirty := false)]
      ensures InOrder(blocks[b].chain, old(blocks)[b].chain)
      ensures forall c: nat :: c in blocks[b].chain <==>
        c in old(blocks)[b].chain && !(c < |old(clauses)| && old(clauses)[c].erased)
      ensures |clauses| == |old(clauses)| && forall c :: 0 <= c < |clauses| ==>
        var was := old(clauses)[c];
        clauses[c] == if was.erased && c in old(blocks)[b].chain
                      then Clause(was.count - 1, true, was.gone || was.count == 1) else was
    {
      LiveInOrder(clauses, blocks[b].chain);
      LiveOrErased(clauses, blocks[b].chain);
      var k := blocks[b];
      var live, dead := Split(k.chain);
      blocks := blocks[b := k.(chain := live, dirty := false)];
      DecreaseAll(dead);
    }

    /** What the fail loop does with the last entry. */
    method PopEntry()
      requires trail != [] && ParentsFirst(blocks) && AllDistinct(blocks)
      modifies this
      ensures State() == Pop(old(State()))
    {
      var r := trail[|trail| - 1];
      Drop();
      if r.Index? && r.block < |blocks| {
        var k := blocks[r.block];
        if k.erased && k.count == 0 {
          KillOffBlock(r.block);
        } else if k.dirty {
          CleanUpIndex(r.block);
        }
      }
    }

    /** The fail loop, down to a choice point's cp_tr. */
    method Unwind(tr: nat)
      requires ParentsFirst(blocks) && AllDistinct(blocks)
      modifies this
      ensures State() == Unwound(old(State()), tr)
    {
      hide Pop, Distinct, AllDistinct;
      while |trail| > tr
        invariant ParentsFirst(blocks) && AllDistinct(blocks)
        invariant Unwound(State(), tr) == Unwound(old(State()), tr)
        decreases |trail|
      {
        PopParents(State());
        PopDistinct(State());
        PopEntry();
      }
    }

    /** DEC_CLREF_COUNT for the last entry, which goes. */
    method Drop()
      requires trail != []
      modifies this
      ensures State() == Taken(old(State()))
    {
      var r := trail[|trail| - 1];
      trail := trail[..|trail| - 1];
      match r {
        case Index(b) => if b < |blocks| { blocks := blocks[b := blocks[b].(count := blocks[b].count - 1)]; }
        case Code(c) => if c < |clauses| { clauses := clauses[c := Dropped(clauses[c])]; }
        case Var =>
      }
    }

    /** trust_logical, after the fail loop: block b, going into clause c if its stamp is valid. */
    method TrustLogical(b: nat, c: nat, valid: bool)
      requires trail != [] && ParentsFirst(blocks) && AllDistinct(blocks)
      requires b < |blocks| && c < |clauses| && choices != []
      modifies this
      ensures State() == Trusted(old(State()), b, c, valid).(choices := old(choices)[..|old(choices)| - 1],
        at := Into(c, valid))
    {
      Drop();
      if blocks[b].count == 0 && (blocks[b].erased || blocks[b].dirty) {
        if valid && clauses[c].count == 1 {
          Keep(Code(c));
        }
        if blocks[b].erased { KillOffBlock(b); } else { CleanUpIndex(b); }
      }
      choices := choices[..|choices| - 1];
      at := if valid then Some(c) else None;
    }
  }

  lemma FreedFrame(s: State, b: nat)
    requires ParentsFirst(s.blocks) && b < |s.blocks| && AllDistinct(s.blocks)
    ensures
      var q := Freed(s, b);
      && |q.blocks| == |s.blocks| && ParentsFirst(q.blocks)
      && AllDistinct(q.blocks)
  {
  }

  lemma LiveStep(clauses: seq<Clause>, chain: seq<nat>, i: nat, live: seq<nat>)
    requires i < |chain|
    ensures
      var c, rest := chain[i], LiveOf(clauses, chain[i + 1..]);
      live + LiveOf(clauses, chain[i..]) == (if c < |clauses| && clauses[c].erased then live else live + [c]) + rest
  {
    hide LiveOf;
    assert chain[i..][1..] == chain[i + 1..];
    LiveFirst(clauses, chain[i..]);
    Joined(live, chain[i], !(chain[i] < |clauses| && clauses[chain[i]].erased), LiveOf(clauses, chain[i + 1..]));
  }

  lemma LiveFirst(clauses: seq<Clause>, chain: seq<nat>)
    requires chain != []
    ensures LiveOf(clauses, chain) ==
      (if !(chain[0] < |clauses| && clauses[chain[0]].erased) then [chain[0]] else []) + LiveOf(clauses, chain[1..])
  {
  }

  lemma Joined(a: seq<nat>, c: nat, there: bool, rest: seq<nat>)
    ensures a + ((if there then [c] else []) + rest) == (if there then a + [c] else a) + rest
  {
    if there {
      assert a + ([c] + rest) == a + [c] + rest;
    } else {
      assert [] + rest == rest;
    }
  }

  lemma ErasedFirst(clauses: seq<Clause>, chain: seq<nat>)
    requires chain != []
    ensures ErasedOf(clauses, chain) ==
      (if chain[0] < |clauses| && clauses[chain[0]].erased then [chain[0]] else []) + ErasedOf(clauses, chain[1..])
  {
  }

  lemma ErasedStep(clauses: seq<Clause>, chain: seq<nat>, i: nat, dead: seq<nat>)
    requires i < |chain|
    ensures
      var c, rest := chain[i], ErasedOf(clauses, chain[i + 1..]);
      dead + ErasedOf(clauses, chain[i..]) == (if c < |clauses| && clauses[c].erased then dead + [c] else dead) + rest
  {
    hide ErasedOf;
    assert chain[i..][1..] == chain[i + 1..];
    ErasedFirst(clauses, chain[i..]);
    Joined(dead, chain[i], chain[i] < |clauses| && clauses[chain[i]].erased, ErasedOf(clauses, chain[i + 1..]));
  }

  lemma SplitEnd(clauses: seq<Clause>, chain: seq<nat>)
    ensures LiveOf(clauses, chain[|chain|..]) == [] && ErasedOf(clauses, chain[|chain|..]) == []
  {
  }
}
