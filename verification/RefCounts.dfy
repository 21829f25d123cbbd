/** The reference counts that keep logical-update clauses and their index blocks while stacks still point at them
    (MULTIPLE_STACKS): who holds a reference, when something is freed, and whether the clause that is jumped to is
    there. */
module RefCounts {
  import opened Prelude

  /** A trail entry: a variable, or a reference that keeps an index block or a clause. */
  datatype Ref = Var | Index(block: nat) | Code(clause: nat)

  /** An index block: the block it is a part of, the clauses its chain names, its count and its flags; gone once
      freed. */
  datatype Block = Block(parent: Option<nat>, chain: seq<nat>, count: int, erased: bool, dirty: bool, gone: bool)

  datatype Clause = Clause(count: int, erased: bool, gone: bool)

  /** A choice point: its cp_tr and, if try_logical made it, the block its alternatives are in. */
  datatype Choice = Choice(tr: nat, block: Option<nat>)

  /** at is the clause whose code is being entered. */
  datatype State = State(blocks: seq<Block>, clauses: seq<Clause>, trail: seq<Ref>, choices: seq<Choice>,
      at: Option<nat>)

  datatype Op =
    | NewClause | NewBlock(parent: Option<nat>, chain: seq<nat>)
    | EraseClause(c: nat) | KillBlock(b: nat)
    | EnterTry(b: nat, c: nat, valid: bool) | Alloc | Proceed
    | PushVar | PushChoice | Cut(n: nat)
    | RetryPlain | TrustPlain | Retry(c: nat, valid: bool) | Trust(c: nat, valid: bool)

  // ---------------------------------------------------------------- who holds what

  function CountRefs(trail: seq<Ref>, r: Ref): nat {
    if trail == [] then 0 else CountRefs(trail[..|trail| - 1], r) + (if trail[|trail| - 1] == r then 1 else 0)
  }

  function Holds(b: Block, c: nat): nat {
    if !b.gone && c in b.chain then 1 else 0
  }

  /** How many blocks name clause c in their chains. */
  function Held(blocks: seq<Block>, c: nat): nat {
    if blocks == [] then 0 else Held(blocks[..|blocks| - 1], c) + Holds(blocks[|blocks| - 1], c)
  }

  function IsKid(k: Block, b: nat): nat {
    if !k.gone && k.parent == Some(b) then 1 else 0
  }

  /** How many blocks are parts of block b. */
  function Kids(blocks: seq<Block>, b: nat): nat {
    if blocks == [] then 0 else Kids(blocks[..|blocks| - 1], b) + IsKid(blocks[|blocks| - 1], b)
  }

  // ---------------------------------------------------------------- freeing

  /** decrease_ref_counter and clean_ref_to_clause. */
  function Dropped(c: Clause): Clause {
    Clause(c.count - 1, c.erased, c.gone || (c.erased && c.count == 1))
  }

  function DropAll(clauses: seq<Clause>, which: seq<nat>): (r: seq<Clause>)
    ensures |r| == |clauses|
    ensures forall i :: 0 <= i < |r| ==> r[i] == if i in which then Dropped(clauses[i]) else clauses[i]
  {
    seq(|clauses|, i requires 0 <= i < |clauses| => if i in which then Dropped(clauses[i]) else clauses[i])
  }

  /** The block is freed: it lets go of its clauses and of its parent. */
  function Freed(s: State, b: nat): State
    requires b < |s.blocks| && (s.blocks[b].parent.Some? ==> s.blocks[b].parent.value < b)
  {
    var k := s.blocks[b];
    var blocks := s.blocks[b := k.(erased := true, gone := true)];
    s.(clauses := DropAll(s.clauses, k.chain),
       blocks := if k.parent == None then blocks
                 else blocks[k.parent.value := blocks[k.parent.value].(count := blocks[k.parent.value].count - 1)])
  }

  predicate ParentsFirst(blocks: seq<Block>) {
    forall b :: 0 <= b < |blocks| && blocks[b].parent.Some? ==> blocks[b].parent.value < b
  }

  /** kill_off_lu_block: a parent that was waiting for this block goes too. */
  function KillOff(s: State, b: nat): (r: State)
    requires ParentsFirst(s.blocks) && b < |s.blocks|
    ensures |r.blocks| == |s.blocks| && |r.clauses| == |s.clauses|
    ensures r.trail == s.trail && r.choices == s.choices && r.at == s.at
    decreases b
  {
    var q, p := Freed(s, b), s.blocks[b].parent;
    if p.Some? && q.blocks[p.value].erased && q.blocks[p.value].count == 0 &&
        !q.blocks[p.value].gone then KillOff(q, p.value) else q
  }

  function LiveOf(clauses: seq<Clause>, chain: seq<nat>): seq<nat> {
    if chain == [] then []
    else (if chain[0] < |clauses| && clauses[chain[0]].erased then [] else [chain[0]]) + LiveOf(clauses, chain[1..])
  }

  function ErasedOf(clauses: seq<Clause>, chain: seq<nat>): seq<nat> {
    if chain == [] then []
    else (if chain[0] < |clauses| && clauses[chain[0]].erased then [chain[0]] else []) + ErasedOf(clauses, chain[1..])
  }

  /** Yap_CleanUpIndex: the chain lets go of its erased clauses. */
  function CleanedUp(s: State, b: nat): State
    requires b < |s.blocks|
  {
    var k := s.blocks[b];
    s.(blocks := s.blocks[b := k.(chain := LiveOf(s.clauses, k.chain), dirty := false)],
       clauses := DropAll(s.clauses, ErasedOf(s.clauses, k.chain)))
  }

  // ---------------------------------------------------------------- the trail

  function Push(s: State, r: Ref): State {
    var q := s.(trail := s.trail + [r]);
    match r
    case Index(b) => if b < |s.blocks| then q.(blocks := s.blocks[b := s.blocks[b].(count := s.blocks[b].count + 1)])
        else q
    case Code(c) => if c < |s.clauses| then
        q.(clauses := s.clauses[c := s.clauses[c].(count := s.clauses[c].count + 1)]) else q
    case Var => q
  }

  /** The last entry goes: its count goes down. */
  function Taken(s: State): State
    requires s.trail != []
  {
    var q := s.(trail := s.trail[..|s.trail| - 1]);
    match s.trail[|s.trail| - 1]
    case Index(b) => if b < |s.blocks| then q.(blocks := s.blocks[b := s.blocks[b].(count := s.blocks[b].count - 1)])
        else q
    case Code(c) => if c < |s.clauses| then q.(clauses := s.clauses[c := Dropped(s.clauses[c])]) else q
    case Var => q
  }

  /** What the fail loop does with the last entry. */
  function Pop(s: State): (r: State)
    requires s.trail != [] && ParentsFirst(s.blocks)
    ensures r.trail == s.trail[..|s.trail| - 1] && r.choices == s.choices && r.at == s.at
    ensures |r.blocks| == |s.blocks| && |r.clauses| == |s.clauses|
  {
    var q, e := Taken(s), s.trail[|s.trail| - 1];
    if e.Index? && e.block < |q.blocks| then
      var k := q.blocks[e.block];
      if k.erased && k.count == 0 then KillOff(q, e.block) else if k.dirty then CleanedUp(q, e.block) else q
    else q
  }

  // ---------------------------------------------------------------- what every run keeps

  /** The counts are the references there are. */
  ghost predicate BlocksBalanced(s: State) {
    forall b :: 0 <= b < |s.blocks| ==>
      && s.blocks[b].count == Kids(s.blocks, b) + CountRefs(s.trail, Index(b))
      && (s.blocks[b].gone ==> s.blocks[b].count == 0 && s.blocks[b].erased)
  }

  ghost predicate ClausesBalanced(s: State) {
    forall c :: 0 <= c < |s.clauses| ==>
      && s.clauses[c].count == Held(s.blocks, c) + CountRefs(s.trail, Code(c))
      && (s.clauses[c].gone <==> s.clauses[c].erased && s.clauses[c].count == 0)
  }

  ghost predicate Shaped(s: State) {
    && ParentsFirst(s.blocks)
    && (forall b :: 0 <= b < |s.blocks| ==> forall i :: 0 <= i < |s.blocks[b].chain| ==>
        s.blocks[b].chain[i] < |s.clauses|)
    && (forall i :: 0 <= i < |s.trail| ==> RefOk(s, s.trail[i]))
  }

  predicate RefOk(s: State, r: Ref) {
    match r
    case Index(b) => b < |s.blocks|
    case Code(c) => c < |s.clauses|
    case Var => true
  }

  /** Erased blocks nobody refers to are gone; x, if any, is the one about to go. */
  ghost predicate Settled(s: State, x: Option<nat>) {
    forall b :: 0 <= b < |s.blocks| && s.blocks[b].erased && s.blocks[b].count == 0 && x != Some(b) ==> s.blocks[b].gone
  }

  lemma {:induction false} HeldUpdate(blocks: seq<Block>, i: nat, k: Block, c: nat)
    requires i < |blocks|
    ensures Held(blocks[i := k], c) == Held(blocks, c) - Holds(blocks[i], c) + Holds(k, c)
  {
    var n := |blocks| - 1;
    var q := blocks[i := k];
    if i < n {
      HeldUpdate(blocks[..n], i, k, c);
      assert q[..n] == blocks[..n][i := k];
    } else {
      assert q[..n] == blocks[..n];
    }
  }

  lemma {:induction false} KidsUpdate(blocks: seq<Block>, i: nat, k: Block, b: nat)
    requires i < |blocks|
    ensures Kids(blocks[i := k], b) == Kids(blocks, b) - IsKid(blocks[i], b) + IsKid(k, b)
  {
    var n := |blocks| - 1;
    var q := blocks[i := k];
    if i < n {
      KidsUpdate(blocks[..n], i, k, b);
      assert q[..n] == blocks[..n][i := k];
    } else {
      assert q[..n] == blocks[..n];
    }
  }

  lemma {:induction false} HeldIn(blocks: seq<Block>, i: nat, c: nat)
    requires i < |blocks|
    ensures Holds(blocks[i], c) <= Held(blocks, c)
  {
    if i < |blocks| - 1 { HeldIn(blocks[..|blocks| - 1], i, c); }
  }

  lemma {:induction false} KidsIn(blocks: seq<Block>, i: nat, b: nat)
    requires i < |blocks|
    ensures IsKid(blocks[i], b) <= Kids(blocks, b)
  {
    if i < |blocks| - 1 { KidsIn(blocks[..|blocks| - 1], i, b); }
  }

  lemma CountPush(trail: seq<Ref>, e: Ref, r: Ref)
    ensures CountRefs(trail + [e], r) == CountRefs(trail, r) + (if e == r then 1 else 0)
  {
    assert (trail + [e])[..|trail|] == trail;
  }

  lemma {:induction false} CountIn(trail: seq<Ref>, i: nat, r: Ref)
    requires i < |trail| && trail[i] == r
    ensures CountRefs(trail, r) > 0
  {
    if i < |trail| - 1 { CountIn(trail[..|trail| - 1], i, r); }
  }

  // ---------------------------------------------------------------- freeing keeps the counts

  ghost predicate Balanced(s: State) {
    Shaped(s) && BlocksBalanced(s) && ClausesBalanced(s)
  }

  /** Freed changes a block to something that holds nothing, and one count. */
  lemma FreedHeld(s: State, b: nat, c: nat)
    requires b < |s.blocks| && (s.blocks[b].parent.Some? ==> s.blocks[b].parent.value < b)
    ensures Held(Freed(s, b).blocks, c) == Held(s.blocks, c) - Holds(s.blocks[b], c)
  {
    var k := s.blocks[b];
    var blocks := s.blocks[b := k.(erased := true, gone := true)];
    HeldUpdate(s.blocks, b, blocks[b], c);
    if k.parent.Some? {
      var p := k.parent.value;
      HeldUpdate(blocks, p, blocks[p].(count := blocks[p].count - 1), c);
    }
  }

  lemma FreedKids(s: State, b: nat, d: nat)
    requires b < |s.blocks| && (s.blocks[b].parent.Some? ==> s.blocks[b].parent.value < b)
    ensures Kids(Freed(s, b).blocks, d) == Kids(s.blocks, d) - IsKid(s.blocks[b], d)
  {
    var k := s.blocks[b];
    var blocks := s.blocks[b := k.(erased := true, gone := true)];
    KidsUpdate(s.blocks, b, blocks[b], d);
    if k.parent.Some? {
      var p := k.parent.value;
      KidsUpdate(blocks, p, blocks[p].(count := blocks[p].count - 1), d);
    }
  }

  lemma FreedBlocks(s: State, b: nat)
    requires Balanced(s) && b < |s.blocks| && s.blocks[b].count == 0 && !s.blocks[b].gone
    ensures BlocksBalanced(Freed(s, b))
  {
    var q := Freed(s, b);
    forall d | 0 <= d < |q.blocks|
      ensures q.blocks[d].count == Kids(q.blocks, d) + CountRefs(q.trail, Index(d))
      ensures q.blocks[d].gone ==> q.blocks[d].count == 0 && q.blocks[d].erased
    {
      FreedKids(s, b, d);
      KidsIn(s.blocks, b, d);
    }
  }

  lemma FreedClauses(s: State, b: nat)
    requires Balanced(s) && b < |s.blocks| && s.blocks[b].count == 0 && !s.blocks[b].gone
    ensures ClausesBalanced(Freed(s, b))
  {
    var q := Freed(s, b);
    forall c | 0 <= c < |q.clauses|
      ensures q.clauses[c].count == Held(q.blocks, c) + CountRefs(q.trail, Code(c))
      ensures q.clauses[c].gone <==> q.clauses[c].erased && q.clauses[c].count == 0
    {
      FreedHeld(s, b, c);
      HeldIn(s.blocks, b, c);
    }
  }

  lemma FreedKeeps(s: State, b: nat)
    requires Balanced(s) && Settled(s, Some(b)) && b < |s.blocks| && s.blocks[b].count == 0 && !s.blocks[b].gone
    ensures Balanced(Freed(s, b))
    ensures Settled(Freed(s, b), s.blocks[b].parent)
  {
    hide BlocksBalanced, ClausesBalanced, Shaped, Settled;
    BalancedParents(s);
    FreedBlocks(s, b);
    FreedClauses(s, b);
    FreedShaped(s, b);
    FreedSettled(s, b);
  }

  lemma FreedShaped(s: State, b: nat)
    requires Shaped(s) && b < |s.blocks|
    ensures Shaped(Freed(s, b))
  {
  }

  lemma FreedSettled(s: State, b: nat)
    requires Settled(s, Some(b)) && ParentsFirst(s.blocks) && b < |s.blocks|
    ensures Settled(Freed(s, b), s.blocks[b].parent)
  {
  }

  /** How many of the blocks that go with b name clause c. */
  function Dooms(s: State, b: nat, c: nat): nat
    requires ParentsFirst(s.blocks) && b < |s.blocks|
    decreases b
  {
    var p := s.blocks[b].parent;
    Holds(s.blocks[b], c) +
    (if p.Some? && s.blocks[p.value].erased && s.blocks[p.value].count == 1 &&
        !s.blocks[p.value].gone then Dooms(s, p.value, c)
     else 0)
  }

  /** What goes with p depends only on the blocks up to p. */
  lemma {:induction false} DoomsSame(s: State, q: State, b: nat, c: nat)
    requires ParentsFirst(s.blocks) && ParentsFirst(q.blocks) && b < |s.blocks| && |q.blocks| == |s.blocks|
    requires forall i :: 0 <= i < b ==> q.blocks[i] == s.blocks[i]
    requires Holds(q.blocks[b], c) == Holds(s.blocks[b], c) && q.blocks[b].parent == s.blocks[b].parent
    ensures Dooms(s, b, c) == Dooms(q, b, c)
    decreases b
  {
    if s.blocks[b].parent.Some? { DoomsSame(s, q, s.blocks[b].parent.value, c); }
  }

  lemma {:induction false} KillOffKeeps(s: State, b: nat)
    requires Balanced(s) && Settled(s, Some(b)) && b < |s.blocks| && s.blocks[b].count == 0 && !s.blocks[b].gone
    ensures Balanced(KillOff(s, b)) && Settled(KillOff(s, b), None)
    ensures forall c :: 0 <= c < |s.clauses| ==>
      KillOff(s, b).clauses[c].count == s.clauses[c].count - Dooms(s, b, c) &&
          KillOff(s, b).clauses[c].erased == s.clauses[c].erased
    decreases b
  {
    hide BlocksBalanced, ClausesBalanced;
    FreedKeeps(s, b);
    var q, p := Freed(s, b), s.blocks[b].parent;
    if p.Some? && q.blocks[p.value].erased && q.blocks[p.value].count == 0 && !q.blocks[p.value].gone {
      KillOffKeeps(q, p.value);
      forall c | 0 <= c < |s.clauses|
        ensures KillOff(s, b).clauses[c].count == s.clauses[c].count - Dooms(s, b, c)
        ensures KillOff(s, b).clauses[c].erased == s.clauses[c].erased
      {
        DoomsSame(s, q, p.value, c);
      }
    }
  }

  lemma {:induction false} LiveOrErased(clauses: seq<Clause>, chain: seq<nat>)
    ensures forall c: nat :: c in LiveOf(clauses, chain) <==> c in chain && !(c < |clauses| && clauses[c].erased)
    ensures forall c: nat :: c in ErasedOf(clauses, chain) <==> c in chain && c < |clauses| && clauses[c].erased
  {
    if chain != [] { LiveOrErased(clauses, chain[1..]); }
  }

  lemma CleanedUpKeeps(s: State, b: nat)
    requires Balanced(s) && Settled(s, None) && b < |s.blocks| && !s.blocks[b].gone
    ensures Balanced(CleanedUp(s, b)) && Settled(CleanedUp(s, b), None)
  {
    var q, k := CleanedUp(s, b), s.blocks[b];
    LiveOrErased(s.clauses, k.chain);
    forall d | 0 <= d < |q.blocks|
      ensures Kids(q.blocks, d) == Kids(s.blocks, d)
    {
      KidsUpdate(s.blocks, b, q.blocks[b], d);
    }
    CleanedUpClauses(s, b);
    CleanedUpShaped(s, b);
  }

  lemma CleanedUpShaped(s: State, b: nat)
    requires Shaped(s) && b < |s.blocks|
    ensures Shaped(CleanedUp(s, b))
  {
    var q, k := CleanedUp(s, b), s.blocks[b];
    LiveOrErased(s.clauses, k.chain);
    forall i | 0 <= i < |q.blocks[b].chain|
      ensures q.blocks[b].chain[i] < |q.clauses|
    {
      assert q.blocks[b].chain[i] in k.chain;
    }
  }

  lemma CleanedUpClauses(s: State, b: nat)
    requires Balanced(s) && b < |s.blocks| && !s.blocks[b].gone
    ensures ClausesBalanced(CleanedUp(s, b))
  {
    var q, k := CleanedUp(s, b), s.blocks[b];
    LiveOrErased(s.clauses, k.chain);
    forall c | 0 <= c < |q.clauses|
      ensures q.clauses[c].count == Held(q.blocks, c) + CountRefs(q.trail, Code(c))
      ensures q.clauses[c].gone <==> q.clauses[c].erased && q.clauses[c].count == 0
    {
      HeldUpdate(s.blocks, b, q.blocks[b], c);
      HeldIn(s.blocks, b, c);
    }
  }

  lemma PushCounts(s: State, r: Ref)
    requires RefOk(s, r)
    ensures forall d: nat :: Kids(Push(s, r).blocks, d) == Kids(s.blocks, d)
    ensures forall c: nat :: Held(Push(s, r).blocks, c) == Held(s.blocks, c)
    ensures forall e: Ref :: CountRefs(s.trail + [r], e) == CountRefs(s.trail, e) + (if r == e then 1 else 0)
  {
    var q := Push(s, r);
    forall d: nat
      ensures Kids(q.blocks, d) == Kids(s.blocks, d) && Held(q.blocks, d) == Held(s.blocks, d)
    {
      if r.Index? {
        KidsUpdate(s.blocks, r.block, q.blocks[r.block], d);
        HeldUpdate(s.blocks, r.block, q.blocks[r.block], d);
      }
    }
    forall e: Ref
      ensures CountRefs(s.trail + [r], e) == CountRefs(s.trail, e) + (if r == e then 1 else 0)
    {
      CountPush(s.trail, r, e);
    }
  }

  lemma PushKeeps(s: State, r: Ref)
    requires Balanced(s) && Settled(s, None) && RefOk(s, r)
    requires r.Index? ==> !s.blocks[r.block].gone
    requires r.Code? ==> !s.clauses[r.clause].gone
    ensures Balanced(Push(s, r)) && Settled(Push(s, r), None)
  {
    hide Kids, Held, CountRefs;
    PushCounts(s, r);
  }

  /** The block of the entry taken, if it is one. */
  function TakenBlock(s: State): Option<nat>
    requires s.trail != []
  {
    match s.trail[|s.trail| - 1]
    case Index(b) => Some(b)
    case _ => None
  }

  lemma TakenCounts(s: State)
    requires Shaped(s) && s.trail != []
    ensures forall d: nat :: Kids(Taken(s).blocks, d) == Kids(s.blocks, d)
    ensures forall c: nat :: Held(Taken(s).blocks, c) == Held(s.blocks, c)
  {
    var q, r := Taken(s), s.trail[|s.trail| - 1];
    forall d: nat
      ensures Kids(q.blocks, d) == Kids(s.blocks, d) && Held(q.blocks, d) == Held(s.blocks, d)
    {
      if r.Index? && r.block < |s.blocks| {
        KidsUpdate(s.blocks, r.block, q.blocks[r.block], d);
        HeldUpdate(s.blocks, r.block, q.blocks[r.block], d);
      }
    }
  }

  lemma TakenKeeps(s: State)
    requires Balanced(s) && Settled(s, None) && s.trail != []
    ensures Balanced(Taken(s)) && Settled(Taken(s), TakenBlock(s))
    ensures TakenBlock(s).Some? ==> TakenBlock(s).value < |s.blocks| && !Taken(s).blocks[TakenBlock(s).value].gone
  {
    hide Kids, Held;
    assert RefOk(s, s.trail[|s.trail| - 1]);
    CountIn(s.trail, |s.trail| - 1, s.trail[|s.trail| - 1]);
    TakenCounts(s);
  }

  lemma PopKeeps(s: State)
    requires Balanced(s) && Settled(s, None) && s.trail != []
    ensures Balanced(Pop(s)) && Settled(Pop(s), None)
  {
    hide BlocksBalanced, ClausesBalanced, Shaped;
    TakenKeeps(s);
    var q, e := Taken(s), s.trail[|s.trail| - 1];
    if e.Index? {
      var k := q.blocks[e.block];
      if k.erased && k.count == 0 {
        BalancedParents(q);
        KillOffKeeps(q, e.block);
      } else if k.dirty {
        SettledDown(q, e.block);
        CleanedUpKeeps(q, e.block);
      } else {
        SettledDown(q, e.block);
      }
    }
  }

  lemma BalancedParents(s: State)
    requires Balanced(s)
    ensures ParentsFirst(s.blocks)
  {
  }

  lemma SettledDown(s: State, b: nat)
    requires Settled(s, Some(b)) && b < |s.blocks| && !(s.blocks[b].erased && s.blocks[b].count == 0)
    ensures Settled(s, None)
  {
    forall d | 0 <= d < |s.blocks| && s.blocks[d].erased && s.blocks[d].count == 0
      ensures s.blocks[d].gone
    {
      assert Some(b) != Some(d);
    }
  }

  // ---------------------------------------------------------------- the steps

  /** The fail loop: entries go until the trail is as long as it was at the choice point. */
  function Unwound(s: State, tr: nat): (r: State)
    requires ParentsFirst(s.blocks)
    ensures r.choices == s.choices && r.at == s.at && |r.blocks| == |s.blocks| && |r.clauses| == |s.clauses|
    ensures r.trail == (if tr <= |s.trail| then s.trail[..tr] else s.trail)
    ensures ParentsFirst(r.blocks)
    decreases |s.trail|
  {
    if |s.trail| <= tr then s else PopParents(s); Unwound(Pop(s), tr)
  }

  lemma {:induction false} KillOffParents(s: State, b: nat)
    requires ParentsFirst(s.blocks) && b < |s.blocks|
    ensures ParentsFirst(KillOff(s, b).blocks)
    decreases b
  {
    var q, p := Freed(s, b), s.blocks[b].parent;
    if p.Some? && q.blocks[p.value].erased && q.blocks[p.value].count == 0 &&
        !q.blocks[p.value].gone { KillOffParents(q, p.value); }
  }

  lemma PopParents(s: State)
    requires s.trail != [] && ParentsFirst(s.blocks)
    ensures ParentsFirst(Pop(s).blocks)
  {
    var q, e := Taken(s), s.trail[|s.trail| - 1];
    if e.Index? && e.block < |q.blocks| { KillOffParents(q, e.block); }
  }

  function Top(s: State): Choice
    requires s.choices != []
  {
    s.choices[|s.choices| - 1]
  }

  function AddAll(clauses: seq<Clause>, which: seq<nat>): (r: seq<Clause>)
    ensures |r| == |clauses|
    ensures forall i :: 0 <= i < |r| ==>
      r[i] == if i in which then clauses[i].(count := clauses[i].count + 1) else clauses[i]
  {
    seq(|clauses|, i requires 0 <= i < |clauses| => if i in which then clauses[i].(count := clauses[i].count + 1)
        else clauses[i])
  }

  function NewBlockIn(s: State, parent: Option<nat>, chain: seq<nat>): State
    requires parent.Some? ==> parent.value < |s.blocks|
  {
    var blocks := if parent == None then s.blocks
                  else s.blocks[parent.value := s.blocks[parent.value].(count := s.blocks[parent.value].count + 1)];
    s.(blocks := blocks + [Block(parent, chain, 0, false, false, false)], clauses := AddAll(s.clauses, chain))
  }

  function Without(chain: seq<nat>, c: nat): (r: seq<nat>)
    ensures forall d: nat :: d in r <==> d in chain && d != c
  {
    if chain == [] then [] else (if chain[0] == c then [] else [chain[0]]) + Without(chain[1..], c)
  }

  /** remove_from_index, in one block: out of a chain not in use, or only marked for later. */
  function Stripped(s: State, c: nat, b: nat): (r: State)
    requires b < |s.blocks| && c < |s.clauses|
    ensures |r.blocks| == |s.blocks| && |r.clauses| == |s.clauses| && r.clauses[c].erased == s.clauses[c].erased
  {
    var k := s.blocks[b];
    if k.gone || k.erased || c !in k.chain then s
    else if k.count != 0 then s.(blocks := s.blocks[b := k.(dirty := true)])
    else s.(blocks := s.blocks[b := k.(chain := Without(k.chain, c))], clauses := s.clauses[c := Dropped(s.clauses[c])])
  }

  function StrippedTo(s: State, c: nat, n: nat): (r: State)
    requires n <= |s.blocks| && c < |s.clauses|
    ensures |r.blocks| == |s.blocks| && |r.clauses| == |s.clauses| && r.clauses[c].erased == s.clauses[c].erased
  {
    if n == 0 then s else Stripped(StrippedTo(s, c, n - 1), c, n - 1)
  }

  /** EraseLogUpdCl: out of the index, and freed if nothing else refers to it. */
  function ErasedClause(s: State, c: nat): State
    requires c < |s.clauses|
  {
    var q := StrippedTo(s, c, |s.blocks|);
    q.(clauses := q.clauses[c := Clause(q.clauses[c].count, true, q.clauses[c].count == 0)])
  }

  function KilledBlock(s: State, b: nat): State
    requires ParentsFirst(s.blocks) && b < |s.blocks|
  {
    if s.blocks[b].count == 0 then KillOff(s, b) else s.(blocks := s.blocks[b := s.blocks[b].(erased := true)])
  }

  /** trust_logical, on a trail unwound to its choice point: the entry just below cp_tr is removed, and if it was the
      last reference to a block that is erased or dirty, the block is freed or cleaned up. A clause about to be entered
      that only the block keeps is kept by an entry of its own. */
  function Trusted(u: State, b: nat, c: nat, valid: bool): State
    requires u.trail != [] && ParentsFirst(u.blocks) && b < |u.blocks| && c < |u.clauses|
  {
    var q := Taken(u);
    var k := q.blocks[b];
    if k.count == 0 && (k.erased || k.dirty) then
      var r := if valid && q.clauses[c].count == 1 then Push(q, Code(c)) else q;
      if k.erased then KillOff(r, b) else CleanedUp(r, b)
    else q
  }

  function Into(c: nat, valid: bool): Option<nat> {
    if valid then Some(c) else None
  }

  /** The clause a step goes into is one its block names. */
  predicate Named(s: State, b: nat, c: nat) {
    b < |s.blocks| && c < |s.clauses| && c in s.blocks[b].chain
  }

  predicate Chained(s: State, chain: seq<nat>) {
    Distinct(chain) && forall i :: 0 <= i < |chain| ==> chain[i] < |s.clauses| && !s.clauses[chain[i]].erased
  }

  predicate LiveBlock(s: State, b: nat) {
    b < |s.blocks| && !s.blocks[b].gone && !s.blocks[b].erased
  }

  predicate Enabled(s: State, op: Op) {
    && ParentsFirst(s.blocks)
    && ((op.Alloc? || op.Proceed?) <==> s.at.Some?)
    && match op
       case NewBlock(parent, chain) => Chained(s, chain) && (parent.Some? ==> LiveBlock(s, parent.value))
       case EraseClause(c) => c < |s.clauses| && !s.clauses[c].erased
       case KillBlock(b) => LiveBlock(s, b) && forall k :: 0 <= k < |s.blocks| && s.blocks[k].parent == Some(b) ==>
           s.blocks[k].erased
       case EnterTry(b, c, valid) => LiveBlock(s, b) && Named(s, b, c)
       case Alloc => s.at.value < |s.clauses|
       case Cut(n) => n <= |s.choices|
       case RetryPlain => s.choices != [] && Top(s).block == None
       case TrustPlain => s.choices != [] && Top(s).block == None
       case Retry(c, valid) =>
         s.choices != [] && Top(s).block.Some? && Named(Unwound(s, Top(s).tr), Top(s).block.value, c)
       case Trust(c, valid) =>
         && s.choices != [] && Top(s).block.Some? && Top(s).tr > 0 && s.trail != []
         && Named(Unwound(s, Top(s).tr), Top(s).block.value, c)
       case _ => true
  }

  function Do(s: State, op: Op): State
    requires Enabled(s, op)
  {
    match op
    case NewClause => s.(clauses := s.clauses + [Clause(0, false, false)])
    case NewBlock(parent, chain) => NewBlockIn(s, parent, chain)
    case EraseClause(c) => ErasedClause(s, c)
    case KillBlock(b) => KilledBlock(s, b)
    case EnterTry(b, c, valid) =>
      Push(s, Index(b)).(choices := s.choices + [Choice(|s.trail| + 1, Some(b))], at := Into(c, valid))
    case Alloc => Push(s, Code(s.at.value)).(at := None)
    case Proceed => s.(at := None)
    case PushVar => Push(s, Var)
    case PushChoice => s.(choices := s.choices + [Choice(|s.trail|, None)])
    case Cut(n) => s.(choices := s.choices[..n])
    case RetryPlain => Unwound(s, Top(s).tr)
    case TrustPlain => Unwound(s, Top(s).tr).(choices := s.choices[..|s.choices| - 1])
    case Retry(c, valid) => Unwound(s, Top(s).tr).(at := Into(c, valid))
    case Trust(c, valid) =>
      Trusted(Unwound(s, Top(s).tr), Top(s).block.value, c, valid).(choices := s.choices[..|s.choices| - 1],
          at := Into(c, valid))
  }

  // ---------------------------------------------------------------- the invariant

  /** A logical choice point has the entry of its block just below its trail top, above what any older one keeps. */
  ghost predicate ChoicesOk(s: State) {
    && (forall i :: 0 <= i < |s.choices| ==>
          && s.choices[i].tr <= |s.trail|
          && (s.choices[i].block.Some? ==>
              s.choices[i].tr > 0 && s.trail[s.choices[i].tr - 1] == Index(s.choices[i].block.value)))
    && (forall i, j :: 0 <= i < j < |s.choices| ==>
          s.choices[i].tr <= s.choices[j].tr && (s.choices[j].block.Some? ==> s.choices[i].tr < s.choices[j].tr))
  }

  ghost predicate AtOk(s: State) {
    s.at.Some? ==> s.at.value < |s.clauses| && !s.clauses[s.at.value].gone
  }

  ghost predicate Counted(s: State) {
    Balanced(s) && Settled(s, None) && ChoicesOk(s)
  }

  ghost predicate Inv(s: State) {
    Counted(s) && AtOk(s)
  }

  lemma {:induction false} UnwoundKeeps(s: State, tr: nat)
    requires Balanced(s) && Settled(s, None)
    ensures ParentsFirst(s.blocks) && Balanced(Unwound(s, tr)) && Settled(Unwound(s, tr), None)
    decreases |s.trail|
  {
    hide BlocksBalanced, ClausesBalanced, Settled;
    if |s.trail| > tr {
      PopKeeps(s);
      PopParents(s);
      UnwoundKeeps(Pop(s), tr);
    }
  }

  lemma NewBlockCounts(s: State, q: State, parent: Option<nat>, chain: seq<nat>)
    requires (parent.Some? ==> parent.value < |s.blocks|) && q == NewBlockIn(s, parent, chain)
    ensures forall d: nat :: Kids(q.blocks, d) == Kids(s.blocks, d) + (if parent == Some(d) then 1 else 0)
    ensures forall c: nat :: Held(q.blocks, c) == Held(s.blocks, c) + (if c in chain then 1 else 0)
  {
    var mid := q.blocks[..|s.blocks|];
    assert mid == if parent == None then s.blocks else s.blocks[parent.value := mid[parent.value]];
    forall d: nat
      ensures Kids(q.blocks, d) == Kids(s.blocks, d) + (if parent == Some(d) then 1 else 0)
      ensures Held(q.blocks, d) == Held(s.blocks, d) + (if d in chain then 1 else 0)
    {
      if parent.Some? {
        KidsUpdate(s.blocks, parent.value, mid[parent.value], d);
        HeldUpdate(s.blocks, parent.value, mid[parent.value], d);
      }
    }
  }

  lemma NewBlockBlocks(s: State, q: State, parent: Option<nat>, chain: seq<nat>)
    requires Balanced(s) && (parent.Some? ==> LiveBlock(s, parent.value)) && q == NewBlockIn(s, parent, chain)
    ensures BlocksBalanced(q)
  {
    hide Kids, Held, CountRefs;
    NewBlockCounts(s, q, parent, chain);
    NoKids(s, |s.blocks|);
  }

  lemma NewBlockClauses(s: State, q: State, parent: Option<nat>, chain: seq<nat>)
    requires Balanced(s) && (parent.Some? ==> parent.value < |s.blocks|) && Chained(s, chain) &&
      q == NewBlockIn(s, parent, chain)
    ensures ClausesBalanced(q)
  {
    hide Kids, Held, CountRefs;
    NewBlockCounts(s, q, parent, chain);
  }

  lemma NewBlockShaped(s: State, q: State, parent: Option<nat>, chain: seq<nat>)
    requires Balanced(s) && Settled(s, None) && Chained(s, chain) && (parent.Some? ==> LiveBlock(s, parent.value))
    requires q == NewBlockIn(s, parent, chain)
    ensures Shaped(q)
  {
    assert forall r: Ref :: RefOk(s, r) ==> RefOk(q, r);
  }

  lemma NewBlockKeeps(s: State, parent: Option<nat>, chain: seq<nat>)
    requires Balanced(s) && Settled(s, None) && Chained(s, chain) && (parent.Some? ==> LiveBlock(s, parent.value))
    ensures Balanced(NewBlockIn(s, parent, chain)) && Settled(NewBlockIn(s, parent, chain), None)
  {
    hide Kids, Held, CountRefs, Shaped, ClausesBalanced, Chained;
    var q := NewBlockIn(s, parent, chain);
    NewBlockBlocks(s, q, parent, chain);
    NewBlockClauses(s, q, parent, chain);
    NewBlockShaped(s, q, parent, chain);
    UsedSettled(s, q, parent);
  }

  lemma UsedSettled(s: State, q: State, parent: Option<nat>)
    requires BlocksBalanced(q) && Settled(s, None) && |q.blocks| == |s.blocks| + 1 && !q.blocks[|s.blocks|].erased
    requires parent.Some? ==> parent.value < |s.blocks| && !q.blocks[parent.value].erased
    requires forall b :: 0 <= b < |s.blocks| && parent != Some(b) ==> q.blocks[b] == s.blocks[b]
    ensures Settled(q, None)
  {
    hide Kids, Held, CountRefs, BlocksBalanced;
    assert forall b :: 0 <= b < |s.blocks| ==> parent != Some(b) || (parent.Some? && parent.value == b);
  }

  /** What is not there yet has no parts and no entries. */
  lemma NoKids(s: State, n: nat)
    requires Shaped(s) && n >= |s.blocks|
    ensures Kids(s.blocks, n) == 0 && CountRefs(s.trail, Index(n)) == 0
  {
    NoKidsIn(s.blocks, n);
    NoneIn(s.trail, Index(n));
  }

  lemma {:induction false} NoKidsIn(blocks: seq<Block>, n: nat)
    requires forall b :: 0 <= b < |blocks| ==> blocks[b].parent != Some(n)
    ensures Kids(blocks, n) == 0
  {
    if blocks != [] { NoKidsIn(blocks[..|blocks| - 1], n); }
  }

  lemma {:induction false} NoneIn(trail: seq<Ref>, r: Ref)
    requires forall i :: 0 <= i < |trail| ==> trail[i] != r
    ensures CountRefs(trail, r) == 0
  {
    if trail != [] { NoneIn(trail[..|trail| - 1], r); }
  }

  lemma {:induction false} NotHeld(blocks: seq<Block>, c: nat)
    requires forall b :: 0 <= b < |blocks| ==> c !in blocks[b].chain
    ensures Held(blocks, c) == 0
  {
    if blocks != [] { NotHeld(blocks[..|blocks| - 1], c); }
  }

  lemma NewClauseKeeps(s: State)
    requires Balanced(s) && Settled(s, None)
    ensures
      var q := s.(clauses := s.clauses + [Clause(0, false, false)]);
      Balanced(q) && Settled(q, None)
  {
    var n := |s.clauses|;
    NotHeld(s.blocks, n);
    NoneIn(s.trail, Code(n));
  }

  lemma StrippedKeeps(s: State, c: nat, b: nat)
    requires Balanced(s) && Settled(s, None) && c < |s.clauses| && !s.clauses[c].erased && b < |s.blocks|
    ensures Balanced(Stripped(s, c, b)) && Settled(Stripped(s, c, b), None)
  {
    var q := Stripped(s, c, b);
    forall d | 0 <= d < |q.blocks|
      ensures Kids(q.blocks, d) == Kids(s.blocks, d)
    {
      KidsUpdate(s.blocks, b, q.blocks[b], d);
    }
    forall d | 0 <= d < |q.clauses|
      ensures Held(q.blocks, d) == Held(s.blocks, d) - Holds(s.blocks[b], d) + Holds(q.blocks[b], d)
    {
      HeldUpdate(s.blocks, b, q.blocks[b], d);
    }
    StrippedShaped(s, c, b);
  }

  lemma StrippedShaped(s: State, c: nat, b: nat)
    requires Shaped(s) && c < |s.clauses| && b < |s.blocks|
    ensures Shaped(Stripped(s, c, b))
  {
    var q := Stripped(s, c, b);
    forall i | 0 <= i < |q.blocks[b].chain|
      ensures q.blocks[b].chain[i] < |q.clauses|
    {
      assert q.blocks[b].chain[i] in s.blocks[b].chain;
    }
  }

  lemma {:induction false} StrippedToKeeps(s: State, c: nat, n: nat)
    requires Balanced(s) && Settled(s, None) && c < |s.clauses| && !s.clauses[c].erased && n <= |s.blocks|
    ensures Balanced(StrippedTo(s, c, n)) && Settled(StrippedTo(s, c, n), None)
    ensures StrippedTo(s, c, n).trail == s.trail && StrippedTo(s, c, n).choices == s.choices &&
      StrippedTo(s, c, n).at == s.at
  {
    hide Balanced, Settled;
    if n > 0 {
      StrippedToKeeps(s, c, n - 1);
      StrippedKeeps(StrippedTo(s, c, n - 1), c, n - 1);
    }
  }

  lemma ErasedKeeps(s: State, c: nat)
    requires Balanced(s) && Settled(s, None) && c < |s.clauses| && !s.clauses[c].erased
    ensures Balanced(ErasedClause(s, c)) && Settled(ErasedClause(s, c), None)
  {
    StrippedToKeeps(s, c, |s.blocks|);
    var r := StrippedTo(s, c, |s.blocks|);
    forall d: nat
      ensures CountRefs(r.trail, Code(d)) >= 0
    {
    }
  }

  lemma KilledKeeps(s: State, b: nat)
    requires Balanced(s) && Settled(s, None) && LiveBlock(s, b)
    ensures Balanced(KilledBlock(s, b)) && Settled(KilledBlock(s, b), None)
  {
    if s.blocks[b].count == 0 {
      KillOffKeeps(s, b);
    } else {
      var q := KilledBlock(s, b);
      forall d | 0 <= d < |q.blocks|
        ensures Kids(q.blocks, d) == Kids(s.blocks, d)
      {
        KidsUpdate(s.blocks, b, q.blocks[b], d);
      }
      forall d | 0 <= d < |q.clauses|
        ensures Held(q.blocks, d) == Held(s.blocks, d)
      {
        HeldUpdate(s.blocks, b, q.blocks[b], d);
      }
    }
  }

  // ---------------------------------------------------------------- going into a clause

  /** A clause named by a live block has a count, and is there. */
  lemma NamedLives(s: State, b: nat, c: nat)
    requires Balanced(s) && Named(s, b, c) && !s.blocks[b].gone
    ensures s.clauses[c].count > 0 && !s.clauses[c].gone
  {
    HeldIn(s.blocks, b, c);
  }

  /** A block with an entry on the trail is there. */
  lemma EntryLives(s: State, i: nat, b: nat)
    requires Balanced(s) && i < |s.trail| && s.trail[i] == Index(b)
    ensures b < |s.blocks| && s.blocks[b].count > 0 && !s.blocks[b].gone
  {
    assert RefOk(s, s.trail[i]);
    CountIn(s.trail, i, Index(b));
  }

  /** When block b lets go of c, so do the erased blocks around it that only waited for b; c is freed under the jump
      exactly when c is erased and they hold all its references, and there are two of these or more. */
  predicate Loses(u: State, b: nat, c: nat)
    requires ParentsFirst(u.blocks) && b < |u.blocks| && c < |u.clauses|
  {
    && u.blocks[b].erased && u.blocks[b].count == 1
    && u.clauses[c].erased && u.clauses[c].count > 1 && u.clauses[c].count == Dooms(u, b, c)
  }

  lemma TakenSame(u: State, b: nat, c: nat)
    requires u.trail != [] && u.trail[|u.trail| - 1] == Index(b) && b < |u.blocks| && ParentsFirst(u.blocks)
    ensures Taken(u).clauses == u.clauses && ParentsFirst(Taken(u).blocks)
    ensures Taken(u).blocks[b].count == u.blocks[b].count - 1 && Dooms(Taken(u), b, c) == Dooms(u, b, c)
    ensures Taken(u).blocks[b].chain == u.blocks[b].chain && Taken(u).blocks[b].gone == u.blocks[b].gone
    ensures Taken(u).blocks[b].erased == u.blocks[b].erased && Taken(u).blocks[b].dirty == u.blocks[b].dirty
  {
    DoomsSame(u, Taken(u), b, c);
  }

  lemma TrustedKeeps(u: State, b: nat, c: nat, valid: bool)
    requires Balanced(u) && Settled(u, None) && u.trail != [] && u.trail[|u.trail| - 1] == Index(b) && Named(u, b, c)
    ensures Balanced(Trusted(u, b, c, valid)) && Settled(Trusted(u, b, c, valid), None)
  {
    hide BlocksBalanced, ClausesBalanced, Shaped;
    BalancedParents(u);
    EntryLives(u, |u.trail| - 1, b);
    NamedLives(u, b, c);
    TakenKeeps(u);
    TakenSame(u, b, c);
    var q := Taken(u);
    var k := q.blocks[b];
    if k.count == 0 && (k.erased || k.dirty) {
      var push := valid && q.clauses[c].count == 1;
      var r := if push then Push(q, Code(c)) else q;
      if push { PushLastKeeps(q, c, Some(b)); }
      if k.erased {
        KillOffKeeps(r, b);
      } else {
        SettledDown(r, b);
        CleanedUpKeeps(r, b);
      }
    } else {
      SettledDown(q, b);
    }
  }

  /** As PushKeeps, with a block about to go. */
  lemma PushLastKeeps(s: State, c: nat, x: Option<nat>)
    requires Balanced(s) && Settled(s, x) && c < |s.clauses| && !s.clauses[c].gone
    ensures Balanced(Push(s, Code(c))) && Settled(Push(s, Code(c)), x)
  {
    hide Kids, Held, CountRefs;
    PushCounts(s, Code(c));
  }

  lemma Referred(s: State, i: nat, c: nat)
    requires Balanced(s) && i < |s.trail| && s.trail[i] == Code(c)
    ensures c < |s.clauses| && s.clauses[c].count > 0 && !s.clauses[c].gone
  {
    assert RefOk(s, s.trail[i]);
    CountIn(s.trail, i, Code(c));
  }

  lemma GoneIff(s: State, c: nat)
    requires Balanced(s) && c < |s.clauses|
    ensures s.clauses[c].gone <==> s.clauses[c].erased && s.clauses[c].count == 0
  {
  }

  /** The clause jumped to survives the freeing of its index, exactly when that does not lose it. */
  lemma TrustIff(u: State, b: nat, c: nat)
    requires Balanced(u) && Settled(u, None) && u.trail != [] && u.trail[|u.trail| - 1] == Index(b) && Named(u, b, c)
    ensures ParentsFirst(u.blocks) && (!Trusted(u, b, c, true).clauses[c].gone <==> !Loses(u, b, c))
  {
    hide BlocksBalanced, ClausesBalanced, Shaped, Settled, Balanced;
    BalancedParents(u);
    EntryLives(u, |u.trail| - 1, b);
    NamedLives(u, b, c);
    TrustedKeeps(u, b, c, true);
    TakenSame(u, b, c);
    TakenKeeps(u);
    var q, t := Taken(u), Trusted(u, b, c, true);
    var k := q.blocks[b];
    GoneIff(t, c);
    if k.count == 0 && (k.erased || k.dirty) {
      if q.clauses[c].count == 1 {
        Referred(t, |q.trail|, c);
      } else if k.erased {
        KillOffKeeps(q, b);
      } else {
        LiveOrErased(q.clauses, k.chain);
      }
    }
  }

  /** A block that is not part of another never loses the clause. */
  lemma RootKeepsClause(u: State, b: nat, c: nat)
    requires Balanced(u) && Named(u, b, c) && !u.blocks[b].gone
    requires u.blocks[b].parent.Some? ==>
      !u.blocks[u.blocks[b].parent.value].erased || u.blocks[u.blocks[b].parent.value].count > 1
    ensures ParentsFirst(u.blocks) && !Loses(u, b, c)
  {
  }

  // ---------------------------------------------------------------- runs

  /** Everything but a trust that loses its clause. */
  predicate Harmless(s: State, op: Op)
    requires Enabled(s, op)
  {
    op.Trust? && op.valid ==> !Loses(Unwound(s, Top(s).tr), Top(s).block.value, op.c)
  }

  lemma EnterTryKeeps(s: State, b: nat, c: nat, valid: bool)
    requires Inv(s) && Enabled(s, EnterTry(b, c, valid))
    ensures Inv(Do(s, EnterTry(b, c, valid)))
  {
    hide BlocksBalanced, ClausesBalanced;
    var p, q := Push(s, Index(b)), Do(s, EnterTry(b, c, valid));
    PushKeeps(s, Index(b));
    NamedLives(s, b, c);
    AloneKeeps(p, q);
  }

  /** Choice points and the clause being entered count for nothing. */
  lemma AloneKeeps(p: State, q: State)
    requires Balanced(p) && Settled(p, None) && q == p.(choices := q.choices, at := q.at)
    ensures Balanced(q) && Settled(q, None)
  {
    hide Kids, Held, CountRefs;
    assert forall r: Ref :: RefOk(p, r) <==> RefOk(q, r);
  }

  lemma UnwoundChoices(s: State)
    requires Balanced(s) && Settled(s, None) && ChoicesOk(s) && s.choices != []
    ensures ParentsFirst(s.blocks)
    ensures
      var u, tr, b := Unwound(s, Top(s).tr), Top(s).tr, Top(s).block;
      tr <= |s.trail| && ChoicesOk(u) && u.trail == s.trail[..tr] &&
          (b.Some? ==> u.trail != [] && u.trail[|u.trail| - 1] == Index(b.value))
  {
    hide Balanced, Settled, ChoicesOk, Unwound;
    BalancedParents(s);
    ChoicesCut(s, Unwound(s, Top(s).tr));
  }

  lemma ChoicesCut(s: State, u: State)
    requires ChoicesOk(s) && s.choices != [] && u.choices == s.choices
    requires u.trail == if Top(s).tr <= |s.trail| then s.trail[..Top(s).tr] else s.trail
    ensures Top(s).tr <= |s.trail| && ChoicesOk(u) && u.trail == s.trail[..Top(s).tr]
    ensures Top(s).block.Some? ==> u.trail != [] && u.trail[|u.trail| - 1] == Index(Top(s).block.value)
  {
    assert forall i :: 0 <= i < |s.choices| ==> s.choices[i].tr <= Top(s).tr;
  }

  lemma FewerChoices(s: State, q: State)
    requires ChoicesOk(s) && s.trail <= q.trail && q.choices <= s.choices
    ensures ChoicesOk(q)
  {
  }

  /** Without its own choice point, a logical entry can go from the trail. */
  lemma ChoicesBelow(s: State, q: State)
    requires ChoicesOk(s) && s.choices != [] && Top(s).block.Some? && Top(s).tr == |s.trail|
    requires q.choices == s.choices[..|s.choices| - 1] && s.trail[..|s.trail| - 1] <= q.trail
    ensures ChoicesOk(q)
  {
  }

  lemma TrustedFrame(u: State, b: nat, c: nat, valid: bool)
    requires u.trail != [] && ParentsFirst(u.blocks) && b < |u.blocks| && c < |u.clauses|
    ensures ParentsFirst(Taken(u).blocks) && |Trusted(u, b, c, valid).clauses| == |u.clauses|
    ensures u.trail[..|u.trail| - 1] <= Trusted(u, b, c, valid).trail
  {
  }

  lemma TrustKeeps(s: State, c: nat, valid: bool)
    requires Inv(s) && Enabled(s, Trust(c, valid))
    ensures
      var q := Do(s, Trust(c, valid));
      Balanced(q) && Settled(q, None) && ChoicesOk(q) && (AtOk(q) <==> Harmless(s, Trust(c, valid)))
  {
    hide Balanced, ChoicesOk, Settled, Loses, Unwound, Trusted;
    UnwoundChoices(s);
    UnwoundKeeps(s, Top(s).tr);
    var u, b := Unwound(s, Top(s).tr), Top(s).block.value;
    var t, q := Trusted(u, b, c, valid), Do(s, Trust(c, valid));
    TrustedKeeps(u, b, c, valid);
    TrustIff(u, b, c);
    TrustedFrame(u, b, c, valid);
    AloneKeeps(t, q);
    ChoicesBelow(u, q);
  }

  lemma StayKeeps(s: State, op: Op)
    requires Inv(s) && Enabled(s, op) && (op.Cut? || op.Proceed? || op.PushChoice?)
    ensures Inv(Do(s, op))
  {
    hide BlocksBalanced, ClausesBalanced;
    AloneKeeps(s, Do(s, op));
  }

  lemma RetryKeeps(s: State, op: Op)
    requires Inv(s) && Enabled(s, op) && (op.RetryPlain? || op.TrustPlain? || op.Retry?)
    ensures Inv(Do(s, op))
  {
    hide Balanced, Settled, ChoicesOk, Unwound;
    UnwoundChoices(s);
    UnwoundKeeps(s, Top(s).tr);
    var u, q := Unwound(s, Top(s).tr), Do(s, op);
    if op.Retry? {
      EntryLives(u, |u.trail| - 1, Top(s).block.value);
      NamedLives(u, Top(s).block.value, op.c);
    }
    AloneKeeps(u, q);
    FewerChoices(u, q);
  }

  lemma CodeKeeps(s: State, op: Op)
    requires Inv(s) && Enabled(s, op) && (op.NewClause? || op.NewBlock? || op.EraseClause? || op.KillBlock?)
    ensures Inv(Do(s, op))
  {
    hide BlocksBalanced, ClausesBalanced, Shaped, Settled, ChoicesOk;
    match op
    case NewClause => NewClauseKeeps(s); FewerChoices(s, Do(s, op));
    case NewBlock(parent, chain) => NewBlockKeeps(s, parent, chain); FewerChoices(s, Do(s, op));
    case EraseClause(c) => ErasedKeeps(s, c); StrippedToKeeps(s, c, |s.blocks|); FewerChoices(s, Do(s, op));
    case KillBlock(b) => KilledKeeps(s, b); FewerChoices(s, Do(s, op));
  }

  lemma PushStepKeeps(s: State, op: Op)
    requires Inv(s) && Enabled(s, op) && (op.Alloc? || op.PushVar?)
    ensures Inv(Do(s, op))
  {
    hide BlocksBalanced, ClausesBalanced, Shaped, Settled, ChoicesOk;
    var r := if op.Alloc? then Code(s.at.value) else Var;
    PushKeeps(s, r);
    AloneKeeps(Push(s, r), Do(s, op));
    FewerChoices(s, Do(s, op));
  }

  /** Every step keeps the counts exact, what has no references freed, the entries where the choice points need them,
      and the clause being entered there, except exactly the trust that loses its clause. */
  lemma StepIff(s: State, op: Op)
    requires Inv(s) && Enabled(s, op)
    ensures Inv(Do(s, op)) <==> Harmless(s, op)
    ensures Counted(Do(s, op))
  {
    hide Balanced, Settled, ChoicesOk, Loses, Do, Enabled;
    match op
    case EnterTry(b, c, valid) => EnterTryKeeps(s, b, c, valid);
    case Trust(c, valid) => TrustKeeps(s, c, valid);
    case Cut(_) => StayKeeps(s, op);
    case Proceed => StayKeeps(s, op);
    case PushChoice => StayKeeps(s, op);
    case Alloc => PushStepKeeps(s, op);
    case PushVar => PushStepKeeps(s, op);
    case RetryPlain => RetryKeeps(s, op);
    case TrustPlain => RetryKeeps(s, op);
    case Retry(_, _) => RetryKeeps(s, op);
    case NewClause => CodeKeeps(s, op);
    case NewBlock(_, _) => CodeKeeps(s, op);
    case EraseClause(_) => CodeKeeps(s, op);
    case KillBlock(_) => CodeKeeps(s, op);
  }

  /** No entry is made for a clause that has been freed: what its code would do is not known. */
  predicate Kept(s: State, op: Op)
    requires Enabled(s, op)
  {
    op.Alloc? ==> !s.clauses[s.at.value].gone
  }

  /** The counts come past a trust that loses its clause as well. */
  lemma StepCounts(s: State, op: Op)
    requires Counted(s) && Enabled(s, op) && Kept(s, op)
    ensures Counted(Do(s, op))
  {
    hide Balanced, Settled, ChoicesOk;
    if op.Proceed? {
      AloneKeeps(s, Do(s, op));
      FewerChoices(s, Do(s, op));
    } else {
      StepIff(s, op);
    }
  }

  predicate Legal(s: State, ops: seq<Op>)
    decreases |ops|
  {
    ops == [] || (Enabled(s, ops[0]) && Kept(s, ops[0]) && Legal(Do(s, ops[0]), ops[1..]))
  }

  function Run(s: State, ops: seq<Op>): State
    requires Legal(s, ops)
    decreases |ops|
  {
    if ops == [] then s else Run(Do(s, ops[0]), ops[1..])
  }

  const EMPTY := State([], [], [], [], None)

  // ---------------------------------------------------------------- what a step leaves, field by field

  lemma {:induction false} KillOffFrees(s: State, b: nat)
    requires ParentsFirst(s.blocks) && b < |s.blocks|
    ensures KillOff(s, b).blocks[b].gone && KillOff(s, b).blocks[b].erased
    ensures forall d :: b < d < |s.blocks| ==> KillOff(s, b).blocks[d] == s.blocks[d]
    decreases b
  {
    var q, p := Freed(s, b), s.blocks[b].parent;
    if p.Some? && q.blocks[p.value].erased && q.blocks[p.value].count == 0 &&
        !q.blocks[p.value].gone { KillOffFrees(q, p.value); }
  }

  /** New clauses and blocks are what they were asked to be; erasing marks what is erased. */
  lemma CodeStepMakes(s: State, op: Op)
    requires Enabled(s, op) && (op.NewClause? || op.NewBlock? || op.EraseClause? || op.KillBlock?)
    ensures
      var q := Do(s, op);
      && q.trail == s.trail && q.choices == s.choices && q.at == s.at
      && (op.NewClause? ==> q.blocks == s.blocks && q.clauses == s.clauses + [Clause(0, false, false)])
      && (op.NewBlock? ==>
            && |q.blocks| == |s.blocks| + 1
            && q.blocks[|s.blocks|] == Block(op.parent, op.chain, 0, false, false, false)
            && forall b :: 0 <= b < |s.blocks| ==> q.blocks[b] == s.blocks[b].(count := q.blocks[b].count))
      && (op.EraseClause? ==> |q.clauses| == |s.clauses| && q.clauses[op.c].erased)
      && (op.KillBlock? ==> |q.blocks| == |s.blocks| && q.blocks[op.b].erased)
  {
    hide StrippedTo, KillOff;
    if op.EraseClause? { StrippedRest(s, op.c, |s.blocks|); }
    if op.KillBlock? { KillOffFrees(s, op.b); }
  }

  lemma {:induction false} StrippedRest(s: State, c: nat, n: nat)
    requires n <= |s.blocks| && c < |s.clauses|
    ensures
      var r := StrippedTo(s, c, n);
      r.trail == s.trail && r.choices == s.choices && r.at == s.at
  {
    if n > 0 { StrippedRest(s, c, n - 1); }
  }

  /** What every other step leaves on the trail and of the choice points, and where it goes on. */
  lemma ChoiceStepMakes(s: State, op: Op)
    requires Counted(s) && Enabled(s, op) && !op.Trust?
    requires !op.NewClause? && !op.NewBlock? && !op.EraseClause? && !op.KillBlock?
    ensures
      var q := Do(s, op);
      && q.trail == (if op.EnterTry? then s.trail + [Index(op.b)] else if op.Alloc? then s.trail + [Code(s.at.value)]
                     else if op.PushVar? then s.trail + [Var]
                     else if op.RetryPlain? || op.TrustPlain? || op.Retry? then
                       (if Top(s).tr <= |s.trail| then s.trail[..Top(s).tr] else s.trail)
                     else s.trail)
      && q.choices == (if op.EnterTry? then s.choices + [Choice(|s.trail| + 1, Some(op.b))]
                       else if op.PushChoice? then s.choices + [Choice(|s.trail|, None)]
                       else if op.Cut? then s.choices[..op.n]
                       else if op.TrustPlain? then s.choices[..|s.choices| - 1] else s.choices)
      && q.at == (if (op.EnterTry? || op.Retry?) && op.valid then Some(op.c)
                  else if op.EnterTry? || op.Retry? || op.Alloc? || op.Proceed? then None else s.at)
  {
    hide Unwound, Counted;
  }

  lemma TakenMakes(u: State, b: nat, c: nat)
    requires u.trail != [] && u.trail[|u.trail| - 1] == Index(b) && ParentsFirst(u.blocks)
    requires b < |u.blocks| && c < |u.clauses|
    ensures
      var q := Taken(u);
      && q.trail == u.trail[..|u.trail| - 1] && q.clauses == u.clauses && |q.blocks| == |u.blocks|
      && ParentsFirst(q.blocks) && q.blocks[b] == u.blocks[b].(count := u.blocks[b].count - 1)
    ensures
      var r := Push(Taken(u), Code(c));
      r.trail == u.trail[..|u.trail| - 1] + [Code(c)] && r.blocks == Taken(u).blocks && ParentsFirst(r.blocks)
  {
  }

  lemma TrustedMakes(u: State, b: nat, c: nat, valid: bool)
    requires u.trail != [] && u.trail[|u.trail| - 1] == Index(b) && ParentsFirst(u.blocks)
    requires b < |u.blocks| && c < |u.clauses|
    ensures
      var q := Trusted(u, b, c, valid);
      && |u.blocks| == |q.blocks|
      && (u.blocks[b].count == 1 && u.blocks[b].erased ==> q.blocks[b].gone)
      && (u.blocks[b].count == 1 && !u.blocks[b].erased ==> !q.blocks[b].dirty)
      && q.trail == u.trail[..|u.trail| - 1] +
           (if u.blocks[b].count == 1 && (u.blocks[b].erased || u.blocks[b].dirty) && valid && u.clauses[c].count == 1
            then [Code(c)] else [])
  {
    hide Taken, Push, KillOff, ParentsFirst;
    TakenMakes(u, b, c);
    var q := Taken(u);
    if q.blocks[b].erased {
      KillOffFrees(if valid && q.clauses[c].count == 1 then Push(q, Code(c)) else q, b);
    }
  }

  /** A trust takes the choice point and its entry away, frees or cleans up the block if that was the last reference to
      it, and goes into the clause. */
  lemma TrustMakes(s: State, c: nat, valid: bool)
    requires Counted(s) && Enabled(s, Trust(c, valid))
    ensures ParentsFirst(s.blocks) && Top(s).tr <= |s.trail|
    ensures
      var u, q, b := Unwound(s, Top(s).tr), Do(s, Trust(c, valid)), Top(s).block.value;
      && q.choices == s.choices[..|s.choices| - 1] && q.at == (if valid then Some(c) else None)
      && b < |u.blocks| == |q.blocks| && c < |u.clauses|
      && (u.blocks[b].count == 1 && u.blocks[b].erased ==> q.blocks[b].gone)
      && (u.blocks[b].count == 1 && !u.blocks[b].erased ==> !q.blocks[b].dirty)
      && q.trail == s.trail[..Top(s).tr - 1] +
           (if u.blocks[b].count == 1 && (u.blocks[b].erased || u.blocks[b].dirty) && valid && u.clauses[c].count == 1
            then [Code(c)] else [])
  {
    hide Unwound, Trusted, Balanced, Settled, ChoicesOk, ParentsFirst;
    UnwoundChoices(s);
    var u := Unwound(s, Top(s).tr);
    TrustedMakes(u, Top(s).block.value, c, valid);
    assert s.trail[..Top(s).tr][..Top(s).tr - 1] == s.trail[..Top(s).tr - 1];
  }

  /** What a has comes in b in the same order. */
  ghost predicate InOrder(a: seq<nat>, b: seq<nat>) {
    forall i, j, p, q {:trigger a[i], a[j], b[p], b[q]} ::
      0 <= i < j < |a| && 0 <= p < |b| && 0 <= q < |b| && b[p] == a[i] && b[q] == a[j] ==> p < q
  }

  lemma {:induction false} LiveInOrder(clauses: seq<Clause>, chain: seq<nat>)
    requires Distinct(chain)
    ensures InOrder(LiveOf(clauses, chain), chain)
  {
    if chain != [] {
      var a, rest := LiveOf(clauses, chain), LiveOf(clauses, chain[1..]);
      LiveInOrder(clauses, chain[1..]);
      LiveOrErased(clauses, chain[1..]);
      var d := |a| - |rest|;
      forall i, j, p, q | 0 <= i < j < |a| && 0 <= p < |chain| && 0 <= q < |chain| && chain[p] == a[i] &&
        chain[q] == a[j]
        ensures p < q
      {
        assert a[j] == rest[j - d] && rest[j - d] in chain[1..];
        if i >= d && p > 0 {
          assert a[i] == rest[i - d] && chain[1..][p - 1] == chain[p] && chain[1..][q - 1] == chain[q];
        }
      }
    }
  }

  /** A block that is in order, and not erased, names no erased clause. */
  ghost predicate CleanChains(s: State) {
    forall b {:trigger s.blocks[b]} :: 0 <= b < |s.blocks| ==> CleanBlock(s, s.blocks[b])
  }

  ghost predicate CleanBlock(s: State, k: Block) {
    !k.gone && !k.erased && !k.dirty ==>
      forall c {:trigger c in k.chain} :: c in k.chain && c < |s.clauses| ==> !s.clauses[c].erased
  }

  /** Blocks that are the same but for their counts, or are done with, stay so while no clause is erased. */
  lemma CleanKept(s: State, q: State)
    requires CleanChains(s) && |s.blocks| <= |q.blocks| && |q.clauses| >= |s.clauses|
    requires forall c :: 0 <= c < |s.clauses| ==> q.clauses[c].erased == s.clauses[c].erased
    requires forall c :: |s.clauses| <= c < |q.clauses| ==> !q.clauses[c].erased
    requires forall b :: 0 <= b < |q.blocks| ==> CleanBlock(q, q.blocks[b]) || (b < |s.blocks| && Alike(s.blocks[b],
      q.blocks[b]))
    ensures CleanChains(q)
  {
    forall b | 0 <= b < |q.blocks|
      ensures CleanBlock(q, q.blocks[b])
    {
      if b < |s.blocks| { assert CleanBlock(s, s.blocks[b]); }
    }
  }

  predicate Alike(k: Block, l: Block) {
    l.chain == k.chain && (k.gone ==> l.gone) && (k.erased ==> l.erased) && (k.dirty ==> l.dirty)
  }

  lemma {:induction false} KillOffClean(s: State, b: nat)
    requires ParentsFirst(s.blocks) && b < |s.blocks| && CleanChains(s)
    ensures CleanChains(KillOff(s, b))
    decreases b
  {
    hide CleanChains;
    var q, p := Freed(s, b), s.blocks[b].parent;
    CleanKept(s, q);
    if p.Some? && q.blocks[p.value].erased && q.blocks[p.value].count == 0 &&
        !q.blocks[p.value].gone { KillOffClean(q, p.value); }
  }

  lemma CleanedUpClean(s: State, b: nat)
    requires b < |s.blocks| && CleanChains(s)
    ensures CleanChains(CleanedUp(s, b))
  {
    hide CleanChains, LiveOf, ErasedOf;
    LiveOrErased(s.clauses, s.blocks[b].chain);
    var q := CleanedUp(s, b);
    assert CleanBlock(q, q.blocks[b]);
    CleanKept(s, q);
  }

  lemma TakenClean(s: State)
    requires s.trail != [] && CleanChains(s)
    ensures CleanChains(Taken(s))
  {
    hide CleanChains;
    CleanKept(s, Taken(s));
  }

  lemma PushClean(s: State, r: Ref)
    requires CleanChains(s)
    ensures CleanChains(Push(s, r))
  {
    hide CleanChains;
    CleanKept(s, Push(s, r));
  }

  lemma PopClean(s: State)
    requires s.trail != [] && ParentsFirst(s.blocks) && CleanChains(s)
    ensures CleanChains(Pop(s))
  {
    hide CleanChains, KillOff, CleanedUp;
    TakenClean(s);
    var q, e := Taken(s), s.trail[|s.trail| - 1];
    if e.Index? && e.block < |q.blocks| {
      var k := q.blocks[e.block];
      if k.erased && k.count == 0 { KillOffClean(q, e.block); } else if k.dirty { CleanedUpClean(q, e.block); }
    }
  }

  lemma {:induction false} UnwoundClean(s: State, tr: nat)
    requires ParentsFirst(s.blocks) && CleanChains(s)
    ensures CleanChains(Unwound(s, tr))
    decreases |s.trail|
  {
    hide CleanChains, Pop;
    if |s.trail| > tr {
      PopParents(s);
      PopClean(s);
      UnwoundClean(Pop(s), tr);
    }
  }

  /** Clause c is named by no block up to n that is in order. */
  ghost predicate Stripped0(s: State, c: nat, n: nat) {
    n <= |s.blocks| && forall b {:trigger s.blocks[b]} :: 0 <= b < n ==>
      s.blocks[b].gone || s.blocks[b].erased || s.blocks[b].dirty || c !in s.blocks[b].chain
  }

  lemma {:induction false} StrippedToClean(s: State, c: nat, n: nat)
    requires CleanChains(s) && c < |s.clauses| && n <= |s.blocks|
    ensures CleanChains(StrippedTo(s, c, n)) && Stripped0(StrippedTo(s, c, n), c, n)
  {
    hide CleanChains;
    if n > 0 {
      StrippedToClean(s, c, n - 1);
      StrippedClean(StrippedTo(s, c, n - 1), c, n - 1);
    }
  }

  lemma StrippedClean(s: State, c: nat, b: nat)
    requires CleanChains(s) && c < |s.clauses| && b < |s.blocks| && Stripped0(s, c, b)
    ensures CleanChains(Stripped(s, c, b)) && Stripped0(Stripped(s, c, b), c, b + 1)
  {
    hide CleanChains;
    var q := Stripped(s, c, b);
    BlockClean(s, b);
    assert CleanBlock(q, q.blocks[b]);
    CleanKept(s, q);
  }

  lemma BlockClean(s: State, b: nat)
    requires CleanChains(s) && b < |s.blocks|
    ensures CleanBlock(s, s.blocks[b])
  {
  }

  lemma EraseClean(s: State, c: nat)
    requires CleanChains(s) && c < |s.clauses|
    ensures CleanChains(ErasedClause(s, c))
  {
    hide StrippedTo;
    StrippedToClean(s, c, |s.blocks|);
    var r, q := StrippedTo(s, c, |s.blocks|), ErasedClause(s, c);
    forall b | 0 <= b < |q.blocks|
      ensures CleanBlock(q, q.blocks[b])
    {
      assert CleanBlock(r, r.blocks[b]);
    }
  }

  lemma KilledClean(s: State, b: nat)
    requires ParentsFirst(s.blocks) && CleanChains(s) && b < |s.blocks|
    ensures CleanChains(KilledBlock(s, b))
  {
    hide CleanChains, KillOff;
    if s.blocks[b].count == 0 { KillOffClean(s, b); } else { CleanKept(s, KilledBlock(s, b)); }
  }

  lemma TrustedClean(u: State, b: nat, c: nat, valid: bool)
    requires u.trail != [] && ParentsFirst(u.blocks) && b < |u.blocks| && c < |u.clauses| && CleanChains(u)
    ensures CleanChains(Trusted(u, b, c, valid))
  {
    hide CleanChains, KillOff, CleanedUp, Taken, Push;
    TakenClean(u);
    var q := Taken(u);
    TakenFrame(u);
    var k := q.blocks[b];
    if k.count == 0 && (k.erased || k.dirty) {
      var r := if valid && q.clauses[c].count == 1 then Push(q, Code(c)) else q;
      PushClean(q, Code(c));
      PushFrame(q, Code(c));
      if k.erased { KillOffClean(r, b); } else { CleanedUpClean(r, b); }
    }
  }

  lemma TakenFrame(s: State)
    requires s.trail != [] && ParentsFirst(s.blocks)
    ensures ParentsFirst(Taken(s).blocks) && |Taken(s).blocks| == |s.blocks| && |Taken(s).clauses| == |s.clauses|
  {
  }

  lemma PushFrame(s: State, r: Ref)
    requires ParentsFirst(s.blocks)
    ensures ParentsFirst(Push(s, r).blocks) && |Push(s, r).blocks| == |s.blocks|
  {
  }

  lemma NewBlockClean(s: State, parent: Option<nat>, chain: seq<nat>)
    requires CleanChains(s) && Chained(s, chain) && (parent.Some? ==> parent.value < |s.blocks|)
    ensures CleanChains(NewBlockIn(s, parent, chain))
  {
    hide CleanChains;
    var q := NewBlockIn(s, parent, chain);
    assert CleanBlock(q, q.blocks[|s.blocks|]);
    CleanKept(s, q);
  }

  lemma {:induction false} StepClean(s: State, op: Op)
    requires CleanChains(s) && Enabled(s, op)
    ensures CleanChains(Do(s, op))
  {
    hide CleanBlock, NewBlockIn, ErasedClause, KilledBlock, Push, Unwound, Trusted;
    if op.NewBlock? {
      NewBlockClean(s, op.parent, op.chain);
    } else if op.EraseClause? {
      EraseClean(s, op.c);
    } else if op.KillBlock? {
      KilledClean(s, op.b);
    } else if op.NewClause? {
      CleanKept(s, Do(s, op));
    } else {
      ChoiceStepClean(s, op);
    }
  }

  lemma CleanAlone(p: State, q: State)
    requires CleanChains(p) && q.blocks == p.blocks && q.clauses == p.clauses
    ensures CleanChains(q)
  {
    hide CleanChains;
    CleanKept(p, q);
  }

  lemma {:induction false} ChoiceStepClean(s: State, op: Op)
    requires CleanChains(s) && Enabled(s, op)
    requires !op.NewBlock? && !op.EraseClause? && !op.KillBlock? && !op.NewClause?
    ensures CleanChains(Do(s, op))
  {
    hide CleanChains, Push, Unwound, Trusted;
    var p := s;
    if op.EnterTry? {
      PushClean(s, Index(op.b));
      p := Push(s, Index(op.b));
    } else if op.Alloc? {
      PushClean(s, Code(s.at.value));
      p := Push(s, Code(s.at.value));
    } else if op.PushVar? {
      PushClean(s, Var);
      p := Push(s, Var);
    } else if op.RetryPlain? || op.TrustPlain? || op.Retry? || op.Trust? {
      UnwoundClean(s, Top(s).tr);
      p := Unwound(s, Top(s).tr);
      if op.Trust? {
        LastStays(s);
        TrustedClean(p, Top(s).block.value, op.c, op.valid);
        p := Trusted(p, Top(s).block.value, op.c, op.valid);
      }
    }
    CleanAlone(p, Do(s, op));
  }

  lemma LastStays(s: State)
    requires ParentsFirst(s.blocks) && s.choices != [] && Top(s).tr > 0 && s.trail != []
    ensures Unwound(s, Top(s).tr).trail != []
  {
  }

  /** In every run from the start an index block that is neither erased nor dirty nor freed names no erased clause. */
  lemma {:induction false} ChainsStayClean(ops: seq<Op>)
    requires Legal(EMPTY, ops)
    ensures
      var s := Run(EMPTY, ops);
      forall b, c {:trigger c in s.blocks[b].chain} ::
        0 <= b < |s.blocks| && c in s.blocks[b].chain && c < |s.clauses| && s.clauses[c].erased ==>
          s.blocks[b].erased || s.blocks[b].dirty || s.blocks[b].gone
  {
    hide Run, Legal;
    RunClean(EMPTY, ops);
    var s := Run(EMPTY, ops);
    assert forall b :: 0 <= b < |s.blocks| ==> CleanBlock(s, s.blocks[b]);
  }

  lemma {:induction false} RunClean(s: State, ops: seq<Op>)
    requires CleanChains(s) && Legal(s, ops)
    ensures CleanChains(Run(s, ops))
    decreases |ops|
  {
    hide CleanChains, Do, Enabled, Kept;
    if ops != [] {
      StepClean(s, ops[0]);
      RunClean(Do(s, ops[0]), ops[1..]);
    }
  }

  lemma {:induction false} RunKeeps(s: State, ops: seq<Op>)
    requires Counted(s) && Legal(s, ops)
    ensures Counted(Run(s, ops))
    decreases |ops|
  {
    hide Counted, Do, Enabled, Kept;
    if ops != [] {
      StepCounts(s, ops[0]);
      RunKeeps(Do(s, ops[0]), ops[1..]);
    }
  }

  /** In every run from the start, trusts that lose their clause among its steps: the counts are the references there
      are, only what nothing refers to is freed, and what is erased and not referred to is freed. */
  lemma CountsAreExact(ops: seq<Op>)
    requires Legal(EMPTY, ops)
    ensures
      var s := Run(EMPTY, ops);
      && (forall b :: 0 <= b < |s.blocks| ==>
            && s.blocks[b].count == Kids(s.blocks, b) + CountRefs(s.trail, Index(b))
            && (s.blocks[b].gone <==> s.blocks[b].erased && s.blocks[b].count == 0))
      && (forall c :: 0 <= c < |s.clauses| ==>
            && s.clauses[c].count == Held(s.blocks, c) + CountRefs(s.trail, Code(c))
            && (s.clauses[c].gone <==> s.clauses[c].erased && s.clauses[c].count == 0))
  {
    hide Kids, Held, CountRefs;
    EmptyOk();
    RunKeeps(EMPTY, ops);
  }

  lemma EmptyOk()
    ensures Inv(EMPTY)
  {
  }

  // ---------------------------------------------------------------- the clause that is lost

  const CHAIN: seq<nat> := [0, 1]

  /** Two clauses; a block with both, and a part of it with both, which a call is going through when the second clause
      is retracted and both blocks are erased. */
  const LOSING := State([Block(None, CHAIN, 1, true, true, false), Block(Some(0), CHAIN, 1, true, true, false)],
                        [Clause(2, false, false), Clause(2, true, false)], [Index(1)], [Choice(1, Some(1))], None)

  const TOLOSE: seq<Op> := [NewClause, NewClause, NewBlock(None, CHAIN), NewBlock(Some(0), CHAIN),
      EnterTry(1, 0, true), Proceed,
                            EraseClause(1), KillBlock(1), KillBlock(0)]

  const BUILT := State([Block(None, CHAIN, 1, false, false, false), Block(Some(0), CHAIN, 0, false, false, false)],
                       [Clause(2, false, false), Clause(2, false, false)], [], [], None)
  const GOING := State([BUILT.blocks[0], Block(Some(0), CHAIN, 1, false, false, false)], BUILT.clauses, [Index(1)],
                       [Choice(1, Some(1))], None)
  const MARKED := State([Block(None, CHAIN, 1, false, true, false), Block(Some(0), CHAIN, 1, false, true, false)],
                        LOSING.clauses, GOING.trail, GOING.choices, None)
  const HALF := State([MARKED.blocks[0], LOSING.blocks[1]], LOSING.clauses, GOING.trail, GOING.choices, None)

  lemma {:induction false} After(s: State, op: Op, ops: seq<Op>)
    requires Enabled(s, op) && Kept(s, op) && Legal(Do(s, op), ops)
    ensures Legal(s, [op] + ops) && Run(s, [op] + ops) == Run(Do(s, op), ops)
  {
    assert ([op] + ops)[1..] == ops;
  }

  lemma BuildIt()
    ensures Legal(EMPTY, TOLOSE[..4]) && Run(EMPTY, TOLOSE[..4]) == BUILT
  {
    hide Do, Enabled, Legal, Run;
    var s1 := State([], [Clause(0, false, false)], [], [], None);
    var s2 := State([], [Clause(0, false, false), Clause(0, false, false)], [], [], None);
    var s3 := State([Block(None, CHAIN, 0, false, false, false)], [Clause(1, false, false), Clause(1, false, false)],
        [], [], None);
    FirstClauses(s1, s2);
    FirstBlock(s2, s3);
    SecondBlock(s3);
    BuildRun(s1, s2, s3);
  }

  lemma FirstClauses(s1: State, s2: State)
    requires s1 == State([], [Clause(0, false, false)], [], [], None)
    requires s2 == State([], [Clause(0, false, false), Clause(0, false, false)], [], [], None)
    ensures Enabled(EMPTY, NewClause) && Do(EMPTY, NewClause) == s1 && Enabled(s1, NewClause) && Do(s1, NewClause) == s2
  {
  }

  lemma FirstBlock(s2: State, s3: State)
    requires s2 == State([], [Clause(0, false, false), Clause(0, false, false)], [], [], None)
    requires s3 == State([Block(None, CHAIN, 0, false, false, false)],
      [Clause(1, false, false), Clause(1, false, false)], [], [], None)
    ensures Enabled(s2, NewBlock(None, CHAIN)) && Do(s2, NewBlock(None, CHAIN)) == s3
  {
  }

  lemma SecondBlock(s3: State)
    requires s3 == State([Block(None, CHAIN, 0, false, false, false)],
      [Clause(1, false, false), Clause(1, false, false)], [], [], None)
    ensures Enabled(s3, NewBlock(Some(0), CHAIN)) && Do(s3, NewBlock(Some(0), CHAIN)) == BUILT
  {
  }

  lemma BuildRun(s1: State, s2: State, s3: State)
    requires Enabled(EMPTY, NewClause) && Do(EMPTY, NewClause) == s1 && Enabled(s1, NewClause) &&
      Do(s1, NewClause) == s2
    requires Enabled(s2, NewBlock(None, CHAIN)) && Do(s2, NewBlock(None, CHAIN)) == s3
    requires Enabled(s3, NewBlock(Some(0), CHAIN)) && Do(s3, NewBlock(Some(0), CHAIN)) == BUILT
    ensures Legal(EMPTY, TOLOSE[..4]) && Run(EMPTY, TOLOSE[..4]) == BUILT
  {
    hide Do, Enabled;
    After(s3, NewBlock(Some(0), CHAIN), []);
    After(s2, NewBlock(None, CHAIN), [NewBlock(Some(0), CHAIN)] + []);
    After(s1, NewClause, [NewBlock(None, CHAIN)] + ([NewBlock(Some(0), CHAIN)] + []));
    After(EMPTY, NewClause, [NewClause] + ([NewBlock(None, CHAIN)] + ([NewBlock(Some(0), CHAIN)] + [])));
    assert TOLOSE[..4] == [NewClause] + ([NewClause] + ([NewBlock(None, CHAIN)] + ([NewBlock(Some(0), CHAIN)] + [])));
  }

  lemma GoIt()
    ensures Legal(BUILT, TOLOSE[4..6]) && Run(BUILT, TOLOSE[4..6]) == GOING
  {
    var s := GOING.(at := Some(0));
    assert Do(BUILT, EnterTry(1, 0, true)) == s && Do(s, Proceed) == GOING;
    assert TOLOSE[4..6] == [EnterTry(1, 0, true)] + ([Proceed] + []);
    After(s, Proceed, []);
    After(BUILT, EnterTry(1, 0, true), [Proceed] + []);
  }

  lemma MarkIt()
    ensures Enabled(GOING, EraseClause(1)) && Do(GOING, EraseClause(1)) == MARKED
  {
    var s := Stripped(GOING, 1, 0);
    assert StrippedTo(GOING, 1, 0) == GOING && StrippedTo(GOING, 1, 1) == s &&
           StrippedTo(GOING, 1, 2) == Stripped(s, 1, 1);
    assert s.blocks[0] == MARKED.blocks[0];
    assert Stripped(s, 1, 1).blocks == MARKED.blocks;
  }

  lemma KillIt()
    ensures Enabled(MARKED, KillBlock(1)) && Do(MARKED, KillBlock(1)) == HALF
    ensures Enabled(HALF, KillBlock(0)) && Do(HALF, KillBlock(0)) == LOSING
  {
  }

  lemma LastSteps()
    ensures Legal(GOING, TOLOSE[6..]) && Run(GOING, TOLOSE[6..]) == LOSING
  {
    hide Do, Enabled;
    MarkIt();
    KillIt();
    After(HALF, KillBlock(0), []);
    After(MARKED, KillBlock(1), [KillBlock(0)] + []);
    After(GOING, EraseClause(1), [KillBlock(1)] + ([KillBlock(0)] + []));
    assert TOLOSE[6..] == [EraseClause(1)] + ([KillBlock(1)] + ([KillBlock(0)] + []));
  }

  /** A run that comes to a trust that frees the clause it goes into. */
  lemma LostCounterexample()
    ensures Legal(EMPTY, TOLOSE) && Run(EMPTY, TOLOSE) == LOSING
    ensures Enabled(LOSING, Trust(1, true)) && !Harmless(LOSING, Trust(1, true))
    ensures var q := Do(LOSING, Trust(1, true)); q.at == Some(1) && q.clauses[1].gone
  {
    BuildIt();
    GoIt();
    LastSteps();
    LegalJoin(EMPTY, TOLOSE[..4], TOLOSE[4..6]);
    assert TOLOSE[..6] == TOLOSE[..4] + TOLOSE[4..6];
    LegalJoin(EMPTY, TOLOSE[..6], TOLOSE[6..]);
    assert TOLOSE == TOLOSE[..6] + TOLOSE[6..];
    LoseIt();
  }

  lemma LoseIt()
    ensures Enabled(LOSING, Trust(1, true)) && !Harmless(LOSING, Trust(1, true))
    ensures var q := Do(LOSING, Trust(1, true)); q.at == Some(1) && q.clauses[1].gone
  {
    assert Unwound(LOSING, 1) == LOSING;
    assert Dooms(LOSING, 0, 1) == 1 && Dooms(LOSING, 1, 1) == 2;
    assert Loses(LOSING, 1, 1);
    EmptyOk();
    LosingBalanced();
    TrustIff(LOSING, 1, 1);
  }

  lemma LosingBalanced()
    ensures Balanced(LOSING) && Settled(LOSING, None)
  {
    BuildIt();
    GoIt();
    LastSteps();
    EmptyOk();
    RunKeeps(EMPTY, TOLOSE[..4]);
    RunKeeps(BUILT, TOLOSE[4..6]);
    RunKeeps(GOING, TOLOSE[6..]);
  }

  lemma {:induction false} LegalJoin(s: State, a: seq<Op>, b: seq<Op>)
    requires Legal(s, a) && Legal(Run(s, a), b)
    ensures Legal(s, a + b) && Run(s, a + b) == Run(Run(s, a), b)
    decreases |a|
  {
    hide Do, Enabled, Kept;
    if a == [] {
      assert a + b == b;
    } else {
      assert (a + b)[0] == a[0] && (a + b)[1..] == a[1..] + b;
      LegalJoin(Do(s, a[0]), a[1..], b);
    }
  }

  // ---------------------------------------------------------------- what a step leaves alone

  predicate ErasedIn(clauses: seq<Clause>, c: nat) { c < |clauses| && clauses[c].erased }

  /** A block as it was but for its count and for being freed; or cleaned up, if it was dirty. */
  ghost predicate LeftBlock(clauses: seq<Clause>, k: Block, l: Block) {
    && l.parent == k.parent && (l.erased <==> k.erased) && (k.gone ==> l.gone)
    && ((l.chain == k.chain && l.dirty == k.dirty) ||
        (k.dirty && !l.dirty && forall c: nat :: c in l.chain <==> c in k.chain && !ErasedIn(clauses, c)))
  }

  ghost predicate Left(s: State, q: State) {
    && |q.blocks| == |s.blocks| && |q.clauses| == |s.clauses|
    && (forall c :: 0 <= c < |s.clauses| ==>
          (q.clauses[c].erased <==> s.clauses[c].erased) && (s.clauses[c].gone ==> q.clauses[c].gone))
    && forall b :: 0 <= b < |s.blocks| ==> LeftBlock(s.clauses, s.blocks[b], q.blocks[b])
  }

  lemma LeftThen(s: State, q: State, r: State)
    requires Left(s, q) && Left(q, r)
    ensures Left(s, r)
  {
    forall b | 0 <= b < |s.blocks|
      ensures LeftBlock(s.clauses, s.blocks[b], r.blocks[b])
    {
      assert LeftBlock(s.clauses, s.blocks[b], q.blocks[b]) && LeftBlock(q.clauses, q.blocks[b], r.blocks[b]);
      assert forall c: nat :: ErasedIn(s.clauses, c) <==> ErasedIn(q.clauses, c);
    }
  }

  lemma {:induction false} KillOffLeaves(s: State, b: nat)
    requires ParentsFirst(s.blocks) && b < |s.blocks| && s.blocks[b].erased
    ensures Left(s, KillOff(s, b))
    decreases b
  {
    hide Left;
    var q, p := Freed(s, b), s.blocks[b].parent;
    FreedLeaves(s, b);
    if p.Some? && q.blocks[p.value].erased && q.blocks[p.value].count == 0 && !q.blocks[p.value].gone {
      KillOffLeaves(q, p.value);
      LeftThen(s, q, KillOff(q, p.value));
    }
  }

  lemma FreedLeaves(s: State, b: nat)
    requires ParentsFirst(s.blocks) && b < |s.blocks| && s.blocks[b].erased
    ensures Left(s, Freed(s, b))
  {
  }

  lemma CleanedUpLeaves(s: State, b: nat)
    requires b < |s.blocks| && s.blocks[b].dirty
    ensures Left(s, CleanedUp(s, b))
  {
    LiveOrErased(s.clauses, s.blocks[b].chain);
  }

  lemma EntryLeaves(s: State, r: Ref)
    ensures Left(s, Push(s, r)) && (s.trail != [] ==> Left(s, Taken(s)))
  {
  }

  lemma {:induction false} UnwoundLeaves(s: State, tr: nat)
    requires ParentsFirst(s.blocks)
    ensures Left(s, Unwound(s, tr))
    decreases |s.trail|
  {
    hide Left;
    if |s.trail| <= tr {
      SameLeaves(s, s);
    } else {
      PopParents(s);
      PopLeaves(s);
      UnwoundLeaves(Pop(s), tr);
      LeftThen(s, Pop(s), Unwound(Pop(s), tr));
    }
  }

  lemma SameLeaves(s: State, q: State)
    requires q.blocks == s.blocks && q.clauses == s.clauses
    ensures Left(s, q)
  {
  }

  lemma PopLeaves(s: State)
    requires s.trail != [] && ParentsFirst(s.blocks)
    ensures Left(s, Pop(s))
  {
    hide Left, Taken, KillOff, CleanedUp;
    var q, e := Taken(s), s.trail[|s.trail| - 1];
    EntryLeaves(s, e);
    TakenFrame(s);
    if e.Index? && e.block < |q.blocks| {
      if q.blocks[e.block].erased && q.blocks[e.block].count == 0 {
        KillOffLeaves(q, e.block);
        LeftThen(s, q, KillOff(q, e.block));
      } else if q.blocks[e.block].dirty {
        CleanedUpLeaves(q, e.block);
        LeftThen(s, q, CleanedUp(q, e.block));
      }
    }
  }

  lemma TrustedLeaves(u: State, b: nat, c: nat, valid: bool)
    requires u.trail != [] && ParentsFirst(u.blocks) && b < |u.blocks| && c < |u.clauses|
    ensures Left(u, Trusted(u, b, c, valid))
  {
    hide Left, Taken, Push, KillOff, CleanedUp;
    EntryLeaves(u, Var);
    TakenFrame(u);
    var q := Taken(u);
    if q.blocks[b].count == 0 && (q.blocks[b].erased || q.blocks[b].dirty) {
      var r := if valid && q.clauses[c].count == 1 then Push(q, Code(c)) else q;
      EntryLeaves(q, Code(c));
      PushFrame(q, Code(c));
      SameLeaves(q, q);
      PushFlags(q, c, b);
      LeftThen(u, q, r);
      if q.blocks[b].erased { KillOffLeaves(r, b); } else { CleanedUpLeaves(r, b); }
      LeftThen(u, r, if q.blocks[b].erased then KillOff(r, b) else CleanedUp(r, b));
    }
  }

  lemma PushFlags(q: State, c: nat, b: nat)
    requires b < |q.blocks|
    ensures Push(q, Code(c)).blocks == q.blocks
  {
  }

  lemma {:induction false} StrippedOne(s: State, c: nat, b: nat)
    requires b < |s.blocks| && c < |s.clauses|
    ensures
      var q := Stripped(s, c, b);
      && (forall d :: 0 <= d < |s.clauses| && d != c ==> q.clauses[d] == s.clauses[d])
      && q.blocks == s.blocks[b := q.blocks[b]] && StrippedBlock(s.blocks[b], q.blocks[b], c, true)
  {
    hide Without, Dropped;
  }

  /** The chain of every block after a clause is erased: the clause is out of it, or the block, in use, is marked. */
  lemma {:induction false} StrippedLeaves(s: State, c: nat, n: nat)
    requires n <= |s.blocks| && c < |s.clauses|
    ensures
      var q := StrippedTo(s, c, n);
      && (forall d :: 0 <= d < |s.clauses| && d != c ==> q.clauses[d] == s.clauses[d])
      && forall b :: 0 <= b < |s.blocks| ==> StrippedBlock(s.blocks[b], q.blocks[b], c, b < n)
  {
    hide Stripped, StrippedBlock;
    StrippedNone(s, c);
    if n > 0 {
      var q := StrippedTo(s, c, n - 1);
      StrippedLeaves(s, c, n - 1);
      StrippedOne(q, c, n - 1);
      UnstrippedIs(s.blocks[n - 1], q.blocks[n - 1], c);
    }
  }

  lemma StrippedNone(s: State, c: nat)
    ensures forall b, k: Block :: 0 <= b < |s.blocks| && k == s.blocks[b] ==> StrippedBlock(k, k, c, false)
  {
  }

  lemma UnstrippedIs(k: Block, l: Block, c: nat)
    requires StrippedBlock(k, l, c, false)
    ensures l == k
  {
  }

  ghost predicate StrippedBlock(k: Block, l: Block, c: nat, done: bool) {
    var named := done && !k.gone && !k.erased && c in k.chain;
    && l.parent == k.parent && l.count == k.count && l.erased == k.erased && l.gone == k.gone
    && l.dirty == (k.dirty || (named && k.count != 0))
    && l.chain == if named && k.count == 0 then Without(k.chain, c) else k.chain
  }

  /** No step erases a clause or a block but the one that is asked to, or frees what is not erased; a chain changes only
      as a dirty one is cleaned up, or by losing the clause erased while nobody uses it. */
  lemma StepLeaves(s: State, op: Op)
    requires Enabled(s, op)
    ensures
      var q := Do(s, op);
      && |s.clauses| <= |q.clauses| && |s.blocks| <= |q.blocks|
      && (forall c :: 0 <= c < |s.clauses| ==> (q.clauses[c].erased <==> s.clauses[c].erased || op == EraseClause(c)))
      && (forall b :: 0 <= b < |s.blocks| ==>
            && q.blocks[b].parent == s.blocks[b].parent
            && (q.blocks[b].erased <==> s.blocks[b].erased || op == KillBlock(b))
            && if op.EraseClause? then StrippedBlock(s.blocks[b], q.blocks[b], op.c, true)
               else LeftBlock(s.clauses, s.blocks[b].(erased := q.blocks[b].erased), q.blocks[b]))
  {
    hide Left, KillOff, Unwound, Trusted, StrippedTo;
    if op.EraseClause? {
      StrippedLeaves(s, op.c, |s.blocks|);
    } else if op.KillBlock? {
      KilledLeaves(s, op.b);
      LeftIs(s.(blocks := s.blocks[op.b := s.blocks[op.b].(erased := true)]), Do(s, op));
    } else if op.NewClause? || op.NewBlock? {
      CodeStepMakes(s, op);
    } else {
      OthersLeave(s, op);
      LeftIs(s, Do(s, op));
    }
  }

  lemma LeftIs(s: State, q: State)
    requires Left(s, q)
    ensures |q.blocks| == |s.blocks| && |q.clauses| == |s.clauses|
    ensures forall c :: 0 <= c < |s.clauses| ==> (q.clauses[c].erased <==> s.clauses[c].erased)
    ensures forall b :: 0 <= b < |s.blocks| ==> LeftBlock(s.clauses, s.blocks[b], q.blocks[b])
  {
  }

  lemma KilledLeaves(s: State, b: nat)
    requires ParentsFirst(s.blocks) && b < |s.blocks|
    ensures Left(s.(blocks := s.blocks[b := s.blocks[b].(erased := true)]), KilledBlock(s, b))
  {
    hide Left, KillOff;
    var p := s.(blocks := s.blocks[b := s.blocks[b].(erased := true)]);
    SameLeaves(p, p);
    KillOffLeaves(p, b);
    SameKilled(s, b);
  }

  lemma {:induction false} SameKilled(s: State, b: nat)
    requires ParentsFirst(s.blocks) && b < |s.blocks|
    ensures
      var p := s.(blocks := s.blocks[b := s.blocks[b].(erased := true)]);
      ParentsFirst(p.blocks) && KillOff(p, b) == KillOff(s, b)
  {
    var p := s.(blocks := s.blocks[b := s.blocks[b].(erased := true)]);
    assert p.blocks[b := p.blocks[b].(erased := true, gone := true)] ==
           s.blocks[b := s.blocks[b].(erased := true, gone := true)];
    assert Freed(p, b) == Freed(s, b);
  }

  lemma OthersLeave(s: State, op: Op)
    requires Enabled(s, op)
    requires !op.NewClause? && !op.NewBlock? && !op.EraseClause? && !op.KillBlock?
    ensures Left(s, Do(s, op))
  {
    hide Left, Unwound, Trusted, Push;
    var q := Do(s, op);
    if op.EnterTry? || op.Alloc? || op.PushVar? {
      var r := if op.EnterTry? then Index(op.b) else if op.Alloc? then Code(s.at.value) else Var;
      EntryLeaves(s, r);
      SameLeaves(Push(s, r), q);
      LeftThen(s, Push(s, r), q);
    } else if op.Proceed? || op.PushChoice? || op.Cut? {
      SameLeaves(s, q);
    } else {
      var u := Unwound(s, Top(s).tr);
      UnwoundLeaves(s, Top(s).tr);
      if op.Trust? {
        LastStays(s);
        var t := Trusted(u, Top(s).block.value, op.c, op.valid);
        TrustedLeaves(u, Top(s).block.value, op.c, op.valid);
        LeftThen(s, u, t);
        SameLeaves(t, q);
        LeftThen(s, t, q);
      } else {
        SameLeaves(u, q);
        LeftThen(s, u, q);
      }
    }
  }
}
