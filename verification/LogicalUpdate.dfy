/** The logical update view (section 7.5.4 of ISO/IEC 13211-1): a call goes through the clauses that were there when it
    entered, whatever is asserted and retracted meanwhile, although stamps are bumped only when the kind of operation
    changes, and not even then when a retract leaves at most one clause: what keeps the view then is that the index
    goes. */
module LogicalUpdate {
  import opened Prelude

  /** A clause, numbered as it was asserted; erased ones keep their place in the chains in use. */
  datatype Clause = Clause(start: nat, end: nat, erased: bool)

  /** LastCallOfPred. */
  datatype Kind = Exec | Assert | Retract

  const WORD: nat := 0x1_0000_0000_0000_0000
  const TIMESTAMP_EOT: nat := WORD - 1
  const TIMESTAMP_RESET: nat := TIMESTAMP_EOT - 1024

  datatype Status = Open | Through | Dropped

  /** A call: its stamp, the chain it runs through, the clause its alternative points to, and those it has gone into.
      entry is for the proofs: the clauses of the predicate as it entered. */
  datatype Call = Call(stamp: nat, on: nat, at: nat, status: Status, tried: seq<nat>, entry: seq<nat>)

  /** clauses holds every clause there ever was, order those of the predicate in its order. The chains of try_logical,
      retry_logical and trust_logical are kept one after the other; when indexed, the last one is the predicate's. dirty
      has those that hold clauses erased while they were in use (DirtyMask). */
  datatype Pred = Pred(threads: bool, stamp: nat, last: Kind, clauses: seq<Clause>, order: seq<nat>,
                       indexed: bool, chains: seq<seq<nat>>, dirty: set<nat>, calls: seq<Call>)

  datatype Op = Assertz | Asserta | Erase(clause: nat) | Unindex | Enter | Try(call: nat) | Drop(call: nat)

  /** The unsigned value of a difference of two words. */
  function Unsigned(x: int): int {
    if x < 0 then x + WORD else x
  }

  /** VALID_TIMESTAMP, by IN_BETWEEN. */
  predicate Valid(p: Pred, c: nat, t: nat) {
    c < |p.clauses| && Unsigned(t - p.clauses[c].start) <= Unsigned(p.clauses[c].end - p.clauses[c].start)
  }

  predicate IsOpen(p: Pred, i: nat) {
    i < |p.calls| && p.calls[i].status == Open && p.calls[i].on < |p.chains|
  }

  /** Below the bound at which Yap_UpdateTimestamps renumbers. Only a predicate of two clauses or more is called through
      index code, and a call cannot go on from an instruction that has been freed. */
  predicate Enabled(p: Pred, op: Op) {
    && p.stamp < TIMESTAMP_RESET
    && match op
       case Erase(c) => c < |p.clauses| && c in p.order
       case Enter => |p.order| > 1
       case Try(i) => IsOpen(p, i) && p.calls[i].at in p.chains[p.calls[i].on]
       case Drop(i) => IsOpen(p, i)
       case _ => true
  }

  function Bumped(p: Pred, k: Kind): Pred {
    if p.last != k then p.(stamp := p.stamp + 1, last := k) else p
  }

  function Without(s: seq<nat>, c: nat): seq<nat> {
    if s == [] then [] else (if s[0] == c then [] else [s[0]]) + Without(s[1..], c)
  }

  predicate Erased(p: Pred, c: nat) {
    c < |p.clauses| && p.clauses[c].erased
  }

  /** The chain without its erased clauses. */
  function Live(p: Pred, s: seq<nat>): seq<nat> {
    if s == [] then []
    else (if Erased(p, s[0]) then [] else [s[0]]) + Live(p, s[1..])
  }

  /** The chain from c on. */
  function From(chain: seq<nat>, c: nat): seq<nat> {
    if chain == [] || chain[0] == c then chain else From(chain[1..], c)
  }

  /** Some call is running through chain h: its reference count, or its in-use mark. */
  predicate InUse(p: Pred, h: nat) {
    exists i :: 0 <= i < |p.calls| && p.calls[i].status == Open && p.calls[i].on == h
  }

  /** Yap_CleanUpIndex: the erased clauses are taken out. */
  function CleanedUp(p: Pred, h: nat): Pred
    requires h < |p.chains|
  {
    p.(chains := p.chains[h := Live(p, p.chains[h])], dirty := p.dirty - {h})
  }

  /** The last call through with chain h lets go of it: if the chain is itself erased, it goes; if it is dirty, it is
      cleaned up. */
  function LetGo(p: Pred, h: nat): Pred
    requires h < |p.chains|
  {
    if InUse(p, h) then p
    else if !(p.indexed && h == |p.chains| - 1) then p.(chains := p.chains[h := []])
    else if h in p.dirty then CleanedUp(p, h)
    else p
  }

  /** The fail loop pops the entry of a call on chain h: with threads, it cleans up a dirty chain even if others use
      it. */
  function Popped(p: Pred, h: nat): Pred
    requires h < |p.chains|
  {
    if p.threads && InUse(p, h) && h in p.dirty then CleanedUp(p, h) else LetGo(p, h)
  }

  /** The stamp after a retract that leaves left clauses. */
  function StampAt(p: Pred, left: nat): Pred {
    if p.last == Retract then p
    else if left > 1 then p.(stamp := p.stamp + 1, last := Retract)
    else p.(stamp := if left == 0 && !p.threads then 0 else p.stamp, last := Assert)
  }

  function EraseIt(p: Pred, c: nat): Pred
    requires c < |p.clauses|
  {
    var order := Without(p.order, c);
    var q := StampAt(p, |order|);
    var h := |p.chains| - 1;
    q.(clauses := p.clauses[c := Clause(p.clauses[c].start, q.stamp, true)], order := order,
       indexed := p.indexed && |order| > 1,
       chains := if p.indexed && |order| > 1 && h >= 0 && !InUse(p, h) then p.chains[h := Without(p.chains[h], c)]
                 else p.chains,
       dirty := if p.indexed && |order| > 1 && h >= 0 && InUse(p, h) then p.dirty + {h} else p.dirty)
  }

  /** A new clause at one end of the predicate, and of its index if it has one. */
  function AddIt(p: Pred, first: bool): Pred {
    var q, n, h := Bumped(p, Assert), |p.clauses|, |p.chains| - 1;
    q.(clauses := p.clauses + [Clause(q.stamp, TIMESTAMP_EOT, false)],
       order := Joined(p.order, n, first),
       chains := if p.indexed && h >= 0 then p.chains[h := Joined(p.chains[h], n, first)] else p.chains)
  }

  function Joined(s: seq<nat>, n: nat, first: bool): seq<nat> {
    if first then [n] + s else s + [n]
  }

  /** A first call makes the index, of the clauses that are left. */
  function Indexed(p: Pred): Pred {
    if p.indexed then p else p.(indexed := true, chains := p.chains + [p.order])
  }

  function EnterIt(p: Pred): Pred {
    var q := Bumped(Indexed(p), Exec);
    var h := |q.chains| - 1;
    if h < 0 || q.chains[h] == [] then q
    else q.(calls := q.calls + [Call(q.stamp, h, q.chains[h][0], Open, [], q.order)])
  }

  /** try_logical, retry_logical or trust_logical: into its clause if the stamp is valid, and on to the next. */
  function Moved(p: Pred, c: Call): Call
    requires c.on < |p.chains|
  {
    var rest := From(p.chains[c.on], c.at);
    c.(tried := if Valid(p, c.at, c.stamp) then c.tried + [c.at] else c.tried,
       status := if |rest| > 1 then Open else Through,
       at := if |rest| > 1 then rest[1] else c.at)
  }

  function TryIt(p: Pred, i: nat): Pred
    requires IsOpen(p, i)
  {
    LetGo(p.(calls := p.calls[i := Moved(p, p.calls[i])]), p.calls[i].on)
  }

  /** A failure into an older choice point, perhaps after a cut: the call is over, and its trail entry is popped. */
  function DropIt(p: Pred, i: nat): Pred
    requires IsOpen(p, i)
  {
    Popped(p.(calls := p.calls[i := p.calls[i].(status := Dropped)]), p.calls[i].on)
  }

  function Do(p: Pred, op: Op): Pred
    requires Enabled(p, op)
  {
    match op
    case Assertz => AddIt(p, false)
    case Asserta => AddIt(p, true)
    case Erase(c) => EraseIt(p, c)
    case Unindex => p.(indexed := false)
    case Enter => EnterIt(p)
    case Try(i) => TryIt(p, i)
    case Drop(i) => DropIt(p, i)
  }

  // ---------------------------------------------------------------- what every run keeps

  /** The clauses of a stretch of a chain that a call with stamp t may see. */
  function Seen(p: Pred, chain: seq<nat>, t: nat): seq<nat> {
    if chain == [] then [] else (if Valid(p, chain[0], t) then [chain[0]] else []) + Seen(p, chain[1..], t)
  }

  ghost predicate InRange(p: Pred, s: seq<nat>) {
    Distinct(s) && forall i :: 0 <= i < |s| ==> s[i] < |p.clauses|
  }

  /** A clause that is there: asserted no later than now, and before now if a call came last. */
  predicate ThereOk(p: Pred, c: nat) {
    && c < |p.clauses| && !p.clauses[c].erased && p.clauses[c].end == TIMESTAMP_EOT
    && p.clauses[c].start <= p.stamp && (p.last == Exec ==> p.clauses[c].start < p.stamp)
  }

  /** A clause a chain in use still holds: calls yet to come will not see it. */
  predicate GoneOk(p: Pred, c: nat) {
    && c < |p.clauses| && p.clauses[c].start <= p.clauses[c].end <= p.stamp
    && (p.last == Exec ==> p.clauses[c].end < p.stamp)
  }

  ghost predicate OrderOk(p: Pred) {
    && InRange(p, p.order) && p.stamp <= TIMESTAMP_RESET
    && (forall i :: 0 <= i < |p.order| ==> ThereOk(p, p.order[i]))
    && (forall c :: 0 <= c < |p.clauses| && !p.clauses[c].erased ==> c in p.order)
  }

  /** A chain of the predicate has its clauses in its order, and others only if they are erased. */
  ghost predicate ChainOf(p: Pred, s: seq<nat>) {
    Live(p, s) == p.order && forall i :: 0 <= i < |s| && Erased(p, s[i]) ==> GoneOk(p, s[i])
  }

  ghost predicate IndexOk(p: Pred) {
    p.indexed ==> |p.chains| > 0 && |p.order| > 1 && ChainOf(p, p.chains[|p.chains| - 1])
  }

  ghost predicate ChainsOk(p: Pred) {
    forall h :: 0 <= h < |p.chains| ==> InRange(p, p.chains[h])
  }

  /** Nothing that is done from now on gets a stamp an open call could take for older than it is. */
  ghost predicate StampOk(p: Pred, c: Call) {
    && 0 < c.stamp <= TIMESTAMP_RESET && c.on < |p.chains|
    && (p.indexed && c.on == |p.chains| - 1 ==> c.stamp <= p.stamp && (p.last != Exec ==> c.stamp < p.stamp))
    && (forall i :: 0 <= i < |p.chains[c.on]| && !Erased(p, p.chains[c.on][i]) ==> c.stamp <= p.stamp)
  }

  /** What an open call has tried and what it can still see of its chain are what was there when it entered. */
  ghost predicate ViewOk(p: Pred, c: Call)
    requires c.on < |p.chains|
  {
    c.at in p.chains[c.on] && c.tried + Seen(p, From(p.chains[c.on], c.at), c.stamp) == c.entry
  }

  ghost predicate CallOk(p: Pred, c: Call) {
    match c.status
    case Open => ChainsOk(p) && StampOk(p, c) && ViewOk(p, c)
    case Through => c.tried == c.entry
    case Dropped => c.tried <= c.entry
  }

  ghost predicate Inv(p: Pred) {
    && OrderOk(p) && IndexOk(p) && ChainsOk(p)
    && forall i :: 0 <= i < |p.calls| ==> CallOk(p, p.calls[i])
  }

  // ---------------------------------------------------------------- chains

  lemma {:induction false} SeenConcat(p: Pred, a: seq<nat>, b: seq<nat>, t: nat)
    ensures Seen(p, a + b, t) == Seen(p, a, t) + Seen(p, b, t)
  {
    if a == [] {
      assert a + b == b;
    } else {
      assert (a + b)[0] == a[0] && (a + b)[1..] == a[1..] + b;
      SeenConcat(p, a[1..], b, t);
    }
  }

  lemma {:induction false} SeenSame(p: Pred, q: Pred, s: seq<nat>, t: nat)
    requires forall i :: 0 <= i < |s| ==> (Valid(p, s[i], t) <==> Valid(q, s[i], t))
    ensures Seen(p, s, t) == Seen(q, s, t)
  {
    if s != [] { SeenSame(p, q, s[1..], t); }
  }

  lemma {:induction false} SeenLoses(p: Pred, q: Pred, s: seq<nat>, c: nat, t: nat)
    requires Valid(p, c, t) && !Valid(q, c, t)
    requires forall i :: 0 <= i < |s| && s[i] != c ==> (Valid(p, s[i], t) <==> Valid(q, s[i], t))
    ensures |Seen(q, s, t)| <= |Seen(p, s, t)| && (c in s ==> |Seen(q, s, t)| < |Seen(p, s, t)|)
  {
    if s != [] { SeenLoses(p, q, s[1..], c, t); }
  }

  lemma {:induction false} SeenLive(p: Pred, s: seq<nat>, t: nat)
    requires forall i :: 0 <= i < |s| ==> (Valid(p, s[i], t) <==> !Erased(p, s[i]))
    ensures Seen(p, s, t) == Live(p, s)
  {
    if s != [] { SeenLive(p, s[1..], t); }
  }

  lemma {:induction false} LiveSame(p: Pred, q: Pred, s: seq<nat>)
    requires forall i :: 0 <= i < |s| ==> (Erased(p, s[i]) <==> Erased(q, s[i]))
    ensures Live(p, s) == Live(q, s)
  {
    if s != [] { LiveSame(p, q, s[1..]); }
  }

  lemma {:induction false} LiveAll(p: Pred, s: seq<nat>)
    requires forall i :: 0 <= i < |s| ==> !Erased(p, s[i])
    ensures Live(p, s) == s
  {
    if s != [] { LiveAll(p, s[1..]); }
  }

  lemma {:induction false} LiveConcat(p: Pred, a: seq<nat>, b: seq<nat>)
    ensures Live(p, a + b) == Live(p, a) + Live(p, b)
  {
    if a == [] {
      assert a + b == b;
    } else {
      assert (a + b)[0] == a[0] && (a + b)[1..] == a[1..] + b;
      LiveConcat(p, a[1..], b);
    }
  }

  /** Erasing c and taking it out of the chain, or leaving it there as erased, come to the same. */
  lemma {:induction false} LiveWithout(p: Pred, q: Pred, s: seq<nat>, c: nat)
    requires Erased(q, c) && forall i :: 0 <= i < |s| && s[i] != c ==> (Erased(p, s[i]) <==> Erased(q, s[i]))
    requires !Erased(p, c)
    ensures Live(q, s) == Without(Live(p, s), c) && Live(q, Without(s, c)) == Without(Live(p, s), c)
  {
    if s != [] {
      LiveWithout(p, q, s[1..], c);
      var a, l, w := s[0], Live(p, s[1..]), Without(s[1..], c);
      assert ([a] + l)[1..] == l && ([a] + w)[1..] == w && [] + l == l && [] + w == w;
      assert s[0] != c ==> (Erased(p, s[0]) <==> Erased(q, s[0]));
      if a == c {
        assert Live(p, s) == [a] + l && Without(s, c) == w;
      } else if Erased(q, a) {
        assert Live(p, s) == l && Without(s, c) == [a] + w;
      } else {
        assert Live(p, s) == [a] + l && Without(s, c) == [a] + w;
      }
    }
  }

  lemma {:induction false} LiveIn(p: Pred, s: seq<nat>)
    requires Distinct(s)
    ensures Distinct(Live(p, s)) && |Live(p, s)| <= |s|
    ensures forall i :: 0 <= i < |Live(p, s)| ==> Live(p, s)[i] in s && !Erased(p, Live(p, s)[i])
    ensures forall c: nat :: c in s && !Erased(p, c) ==> c in Live(p, s)
  {
    if s != [] { LiveIn(p, s[1..]); }
  }

  lemma {:induction false} WithoutIn(s: seq<nat>, c: nat)
    requires Distinct(s)
    ensures Distinct(Without(s, c)) && c !in Without(s, c)
    ensures forall d: nat :: d in s && d != c ==> d in Without(s, c)
    ensures forall i :: 0 <= i < |Without(s, c)| ==> Without(s, c)[i] in s
  {
    if s != [] { WithoutIn(s[1..], c); }
  }

  lemma {:induction false} FromIn(s: seq<nat>, c: nat)
    requires c in s
    ensures From(s, c) != [] && From(s, c)[0] == c
    ensures |From(s, c)| <= |s| && From(s, c) == s[|s| - |From(s, c)|..]
  {
    if s[0] != c { FromIn(s[1..], c); }
  }

  /** The clause after c has what is left of the chain after it. */
  lemma {:induction false} FromNext(s: seq<nat>, c: nat)
    requires Distinct(s) && c in s && |From(s, c)| > 1
    ensures From(s, c)[1] in s && From(s, From(s, c)[1]) == From(s, c)[1..]
  {
    if s[0] == c {
      assert s[1..][0] == s[1] && s[0] != s[1];
    } else {
      FromNext(s[1..], c);
      FromIn(s[1..], c);
      assert From(s, c)[1] == s[1..][|s| - 1 - |From(s, c)| + 1];
    }
  }

  lemma {:induction false} FromJoined(s: seq<nat>, c: nat, n: nat, first: bool)
    requires c in s && n !in s
    ensures From(Joined(s, n, first), c) == if first then From(s, c) else From(s, c) + [n]
  {
    if first {
      assert Joined(s, n, first)[1..] == s;
    } else if s[0] != c {
      assert (s + [n])[1..] == s[1..] + [n] && (s + [n])[0] == s[0];
      FromJoined(s[1..], c, n, first);
    }
  }

  // ---------------------------------------------------------------- one step

  /** What running call c out from here ends with. */
  function Outcome(p: Pred, c: Call): seq<nat>
    requires c.on < |p.chains|
  {
    c.tried + Seen(p, From(p.chains[c.on], c.at), c.stamp)
  }

  lemma ChainHas(p: Pred, c: Call)
    requires c.on < |p.chains| && c.at in p.chains[c.on]
    ensures forall d: nat :: d in From(p.chains[c.on], c.at) ==> d in p.chains[c.on]
  {
    FromIn(p.chains[c.on], c.at);
  }

  /** A call whose chain is left alone only needs its clauses to look the same. */
  lemma SameView(p: Pred, q: Pred, c: Call)
    requires c.on < |p.chains| && c.on < |q.chains| && q.chains[c.on] == p.chains[c.on] && ViewOk(p, c)
    requires forall d: nat :: d in From(p.chains[c.on], c.at) ==> (Valid(p, d, c.stamp) <==> Valid(q, d, c.stamp))
    ensures ViewOk(q, c)
  {
    SeenSame(p, q, From(p.chains[c.on], c.at), c.stamp);
  }

  /** A new clause at either end of its chain is nothing to a call that cannot see it. */
  lemma JoinedView(p: Pred, q: Pred, c: Call, n: nat, first: bool)
    requires c.on < |p.chains| && c.on < |q.chains| && q.chains[c.on] == Joined(p.chains[c.on], n, first)
    requires ViewOk(p, c) && n !in p.chains[c.on] && !Valid(q, n, c.stamp)
    requires forall d: nat :: d in p.chains[c.on] ==> (Valid(p, d, c.stamp) <==> Valid(q, d, c.stamp))
    ensures ViewOk(q, c)
  {
    var s := p.chains[c.on];
    ChainHas(p, c);
    FromJoined(s, c.at, n, first);
    SeenSame(p, q, From(s, c.at), c.stamp);
    if !first {
      SeenConcat(q, From(s, c.at), [n], c.stamp);
      assert Seen(q, [n], c.stamp) == [];
    }
    assert c.at in Joined(s, n, first);
  }

  lemma JoinedRange(p: Pred, q: Pred, s: seq<nat>, first: bool)
    requires InRange(p, s) && |q.clauses| == |p.clauses| + 1
    ensures InRange(q, s) && InRange(q, Joined(s, |p.clauses|, first)) && |p.clauses| !in s
  {
  }

  lemma AddKeepsOrder(p: Pred, first: bool)
    requires OrderOk(p) && p.stamp < TIMESTAMP_RESET
    ensures OrderOk(AddIt(p, first))
  {
    hide InRange;
    var q, n := AddIt(p, first), |p.clauses|;
    JoinedRange(p, q, p.order, first);
    forall i | 0 <= i < |q.order|
      ensures ThereOk(q, q.order[i])
    {
      if q.order[i] != n {
        assert q.order[i] == p.order[if first then i - 1 else i];
        assert ThereOk(p, q.order[i]);
      }
    }
    forall c | 0 <= c < |q.clauses| && !q.clauses[c].erased
      ensures c in q.order
    {
      if c != n { assert c in p.order; }
    }
  }

  lemma AddKeepsChains(p: Pred, first: bool)
    requires ChainsOk(p)
    ensures ChainsOk(AddIt(p, first))
  {
    var q := AddIt(p, first);
    forall h | 0 <= h < |q.chains|
      ensures InRange(q, q.chains[h])
    {
      JoinedRange(p, q, p.chains[h], first);
    }
  }

  lemma AddKeepsIndex(p: Pred, first: bool)
    requires IndexOk(p) && ChainsOk(p) && p.indexed
    ensures IndexOk(AddIt(p, first))
  {
    var q, n, s := AddIt(p, first), |p.clauses|, p.chains[|p.chains| - 1];
    assert InRange(p, s);
    LiveSame(p, q, s);
    LiveAll(q, [n]);
    if first { LiveConcat(q, [n], s); } else { LiveConcat(q, s, [n]); }
    var j := Joined(s, n, first);
    forall i | 0 <= i < |j| && Erased(q, j[i])
      ensures GoneOk(q, j[i])
    {
      assert Erased(p, s[if first then i - 1 else i]);
    }
  }

  lemma AddKeepsCall(p: Pred, first: bool, c: Call)
    requires ChainsOk(p) && OrderOk(p) && p.stamp < TIMESTAMP_RESET && StampOk(p, c) && ViewOk(p, c)
    ensures StampOk(AddIt(p, first), c) && ViewOk(AddIt(p, first), c)
  {
    var q, n, s := AddIt(p, first), |p.clauses|, p.chains[c.on];
    assert InRange(p, s);
    ChainHas(p, c);
    if p.indexed && c.on == |p.chains| - 1 {
      JoinedView(p, q, c, n, first);
    } else {
      SameView(p, q, c);
    }
    var j := q.chains[c.on];
    forall i | 0 <= i < |j| && !Erased(q, j[i])
      ensures c.stamp <= q.stamp
    {
      if j[i] != n {
        assert j[i] in s && !Erased(p, j[i]);
      }
    }
  }

  /** Retracting the last clause puts the stamp back to 0, except with threads; a call in progress then takes a clause
      that was asserted at stamp 0, and is still to come, for one retracted before it entered. */
  predicate Wipes(p: Pred, c: nat) {
    && !p.threads && p.last != Retract && Without(p.order, c) == [] && c < |p.clauses| && p.clauses[c].start == 0
    && exists i :: 0 <= i < |p.calls| && IsOpen(p, i) && c in From(p.chains[p.calls[i].on], p.calls[i].at)
  }

  lemma EraseKeepsOrder(p: Pred, c: nat)
    requires OrderOk(p) && p.stamp < TIMESTAMP_RESET && c in p.order && c < |p.clauses|
    ensures OrderOk(EraseIt(p, c))
  {
    WithoutIn(p.order, c);
  }

  lemma EraseKeepsChains(p: Pred, c: nat)
    requires ChainsOk(p) && c < |p.clauses|
    ensures ChainsOk(EraseIt(p, c))
  {
    var q := EraseIt(p, c);
    forall h | 0 <= h < |q.chains|
      ensures InRange(q, q.chains[h])
    {
      assert InRange(p, p.chains[h]);
      WithoutIn(p.chains[h], c);
      forall i | 0 <= i < |q.chains[h]|
        ensures q.chains[h][i] < |q.clauses|
      {
        assert q.chains[h][i] in p.chains[h];
      }
    }
  }

  lemma EraseKeepsChain(p: Pred, q: Pred, c: nat, s: seq<nat>, z: seq<nat>)
    requires ChainOf(p, s) && Distinct(s) && ThereOk(p, c) && (z == s || z == Without(s, c))
    requires q.clauses == p.clauses[c := Clause(p.clauses[c].start, q.stamp, true)] && q.order == Without(p.order, c)
    requires p.stamp <= q.stamp && q.last != Exec
    ensures ChainOf(q, z)
  {
    WithoutIn(s, c);
    LiveWithout(p, q, s, c);
    forall i | 0 <= i < |z| && Erased(q, z[i])
      ensures GoneOk(q, z[i])
    {
      assert z[i] in s;
      if z[i] != c { assert Erased(p, z[i]); }
    }
  }

  lemma EraseKeepsIndex(p: Pred, c: nat)
    requires OrderOk(p) && IndexOk(p) && ChainsOk(p) && p.stamp < TIMESTAMP_RESET && c in p.order && c < |p.clauses|
    ensures IndexOk(EraseIt(p, c))
  {
    hide InUse, ChainOf, ThereOk;
    var q, h := EraseIt(p, c), |p.chains| - 1;
    if q.indexed {
      assert InRange(p, p.chains[h]) && ThereOk(p, c);
      EraseKeepsChain(p, q, c, p.chains[h], q.chains[h]);
    }
  }

  lemma EraseKeepsStamp(p: Pred, c: nat, k: Call)
    requires OrderOk(p) && IndexOk(p) && ChainsOk(p) && p.stamp < TIMESTAMP_RESET && c in p.order && c < |p.clauses|
    requires StampOk(p, k) && InUse(p, k.on)
    ensures StampOk(EraseIt(p, c), k) && EraseIt(p, c).chains[k.on] == p.chains[k.on]
  {
    var q := EraseIt(p, c);
    EraseKeepsOrder(p, c);
    var s := p.chains[k.on];
    assert InRange(p, s);
    forall i | 0 <= i < |s| && !Erased(q, s[i])
      ensures k.stamp <= q.stamp
    {
      assert s[i] in q.order && !Erased(p, s[i]);
    }
  }

  /** The clause looks the same to a call that has it ahead, unless the stamp goes back and it was there at stamp 0. */
  lemma EraseSeen(p: Pred, c: nat, k: Call, d: nat)
    requires OrderOk(p) && ChainsOk(p) && p.stamp < TIMESTAMP_RESET && c in p.order && c < |p.clauses|
    requires StampOk(p, k) && d in p.chains[k.on]
    ensures
      var gone := d == c && !p.threads && p.last != Retract && Without(p.order, c) == [] && p.clauses[c].start == 0;
      if gone then Valid(p, d, k.stamp) && !Valid(EraseIt(p, c), d, k.stamp)
      else Valid(p, d, k.stamp) <==> Valid(EraseIt(p, c), d, k.stamp)
  {
    if d == c {
      assert ThereOk(p, c) && k.stamp <= p.stamp;
    }
  }

  lemma EraseKeepsView(p: Pred, c: nat, i: nat)
    requires Inv(p) && p.stamp < TIMESTAMP_RESET && c in p.order && c < |p.clauses| && IsOpen(p, i)
    requires !Wipes(p, c)
    ensures CallOk(EraseIt(p, c), p.calls[i])
  {
    var q, k := EraseIt(p, c), p.calls[i];
    assert CallOk(p, k);
    EraseKeepsStamp(p, c, k);
    EraseKeepsChains(p, c);
    ChainHas(p, k);
    forall d: nat | d in From(p.chains[k.on], k.at)
      ensures Valid(p, d, k.stamp) <==> Valid(q, d, k.stamp)
    {
      EraseSeen(p, c, k, d);
    }
    SameView(p, q, k);
  }

  lemma EraseLosesView(p: Pred, c: nat, i: nat)
    requires Inv(p) && p.stamp < TIMESTAMP_RESET && c in p.order && c < |p.clauses| && IsOpen(p, i)
    requires c in From(p.chains[p.calls[i].on], p.calls[i].at)
    requires !p.threads && p.last != Retract && Without(p.order, c) == [] && p.clauses[c].start == 0
    ensures p.calls[i].on < |EraseIt(p, c).chains| && Outcome(EraseIt(p, c), p.calls[i]) != p.calls[i].entry
  {
    var q, k := EraseIt(p, c), p.calls[i];
    assert CallOk(p, k);
    EraseKeepsStamp(p, c, k);
    ChainHas(p, k);
    var s := From(p.chains[k.on], k.at);
    forall d: nat | d in s
      ensures if d == c then Valid(p, d, k.stamp) && !Valid(q, d, k.stamp) else Valid(p, d, k.stamp) <==>
        Valid(q, d, k.stamp)
    {
      EraseSeen(p, c, k, d);
    }
    SeenLoses(p, q, s, c, k.stamp);
  }

  /** Every call in progress still ends with what was there when it entered, exactly when the retract does not wipe. */
  lemma EraseIff(p: Pred, c: nat)
    requires Inv(p) && Enabled(p, Erase(c))
    ensures
      var q := Do(p, Erase(c));
      (forall i :: 0 <= i < |p.calls| && IsOpen(p, i) ==>
          q.calls[i] == p.calls[i] && IsOpen(q, i) && Outcome(q, q.calls[i]) == q.calls[i].entry)
      <==> !Wipes(p, c)
  {
    var q := Do(p, Erase(c));
    if Wipes(p, c) {
      var i :| 0 <= i < |p.calls| && IsOpen(p, i) && c in From(p.chains[p.calls[i].on], p.calls[i].at);
      EraseLosesView(p, c, i);
    } else {
      forall i | 0 <= i < |p.calls| && IsOpen(p, i)
        ensures q.calls[i] == p.calls[i] && IsOpen(q, i) && Outcome(q, q.calls[i]) == q.calls[i].entry
      {
        EraseKeepsView(p, c, i);
      }
    }
  }

  lemma EraseKeeps(p: Pred, c: nat)
    requires Inv(p) && Enabled(p, Erase(c)) && !Wipes(p, c)
    ensures Inv(Do(p, Erase(c)))
  {
    EraseKeepsOrder(p, c);
    EraseKeepsChains(p, c);
    EraseKeepsIndex(p, c);
    forall i | 0 <= i < |p.calls|
      ensures CallOk(EraseIt(p, c), p.calls[i])
    {
      assert CallOk(p, p.calls[i]);
      if IsOpen(p, i) { EraseKeepsView(p, c, i); }
    }
  }

  lemma AddKeeps(p: Pred, first: bool)
    requires Inv(p) && p.stamp < TIMESTAMP_RESET
    ensures Inv(AddIt(p, first))
  {
    AddKeepsOrder(p, first);
    AddKeepsChains(p, first);
    if p.indexed { AddKeepsIndex(p, first); }
    forall i | 0 <= i < |p.calls|
      ensures CallOk(AddIt(p, first), p.calls[i])
    {
      assert CallOk(p, p.calls[i]);
      if IsOpen(p, i) { AddKeepsCall(p, first, p.calls[i]); }
    }
  }

  lemma OrderIsChain(p: Pred, q: Pred)
    requires OrderOk(p) && q == p.(chains := q.chains, dirty := q.dirty)
    ensures InRange(q, q.order) && ChainOf(q, q.order)
  {
    assert forall i :: 0 <= i < |p.order| ==> ThereOk(p, p.order[i]) && !Erased(q, q.order[i]);
    LiveAll(q, q.order);
  }

  lemma ChainsAlone(p: Pred, q: Pred, s: seq<nat>)
    requires q == p.(chains := q.chains, dirty := q.dirty)
    ensures OrderOk(p) ==> OrderOk(q)
    ensures ChainOf(p, s) ==> ChainOf(q, s)
    ensures InRange(p, s) ==> InRange(q, s)
  {
    LiveSame(p, q, s);
  }

  lemma LetGoKeepsChains(p: Pred, h: nat)
    requires OrderOk(p) && IndexOk(p) && ChainsOk(p) && h < |p.chains|
    ensures OrderOk(LetGo(p, h)) && IndexOk(LetGo(p, h)) && ChainsOk(LetGo(p, h))
  {
    hide InUse, ChainOf, OrderOk, InRange, Live;
    var q, last := LetGo(p, h), |p.chains| - 1;
    OrderIsChain(p, q);
    EmptyInRange(q);
    ChainsAlone(p, q, p.chains[last]);
    if p.indexed { LiveOfChain(p, p.chains[last]); }
    forall g | 0 <= g < |q.chains|
      ensures InRange(q, q.chains[g])
    {
      ChainsAlone(p, q, p.chains[g]);
    }
  }

  lemma EmptyInRange(p: Pred)
    ensures InRange(p, [])
  {
  }

  lemma LiveOfChain(p: Pred, s: seq<nat>)
    requires ChainOf(p, s)
    ensures Live(p, s) == p.order
  {
  }

  lemma LetGoKeeps(p: Pred, h: nat)
    requires Inv(p) && h < |p.chains|
    ensures Inv(LetGo(p, h))
  {
    hide OrderOk, IndexOk, ChainsOk, StampOk, ViewOk;
    LetGoKeepsChains(p, h);
    var q := LetGo(p, h);
    forall i | 0 <= i < |p.calls|
      ensures CallOk(q, p.calls[i])
    {
      assert CallOk(p, p.calls[i]);
      if p.calls[i].status == Open { LetGoCall(p, h, i); }
    }
  }

  lemma LetGoCall(p: Pred, h: nat, i: nat)
    requires i < |p.calls| && p.calls[i].status == Open && StampOk(p, p.calls[i]) && ViewOk(p, p.calls[i]) &&
      h < |p.chains|
    requires ChainsOk(p) && ChainsOk(LetGo(p, h))
    ensures StampOk(LetGo(p, h), p.calls[i]) && ViewOk(LetGo(p, h), p.calls[i])
  {
    hide ChainsOk;
    if InUse(p, h) { return; }
    assert p.calls[i].on != h;
    OtherChain(p, LetGo(p, h), p.calls[i]);
  }

  lemma OtherChain(p: Pred, q: Pred, c: Call)
    requires q == p.(chains := q.chains, dirty := q.dirty) && |q.chains| == |p.chains| && StampOk(p, c) && ViewOk(p, c)
    requires q.chains[c.on] == p.chains[c.on] && ChainsOk(p) && ChainsOk(q)
    ensures StampOk(q, c) && ViewOk(q, c)
  {
    ChainHas(p, c);
    SameView(p, q, c);
  }

  lemma IndexedKeeps(p: Pred)
    requires Inv(p) && |p.order| > 1
    ensures Inv(Indexed(p)) && Indexed(p).indexed
  {
    var q := Indexed(p);
    if !p.indexed {
      LiveAll(q, q.order);
      assert forall i :: 0 <= i < |p.order| ==> ThereOk(p, p.order[i]) && !Erased(q, q.order[i]);
      forall g | 0 <= g < |q.chains|
        ensures InRange(q, q.chains[g])
      {
        if g < |p.chains| { assert InRange(p, p.chains[g]); }
      }
      forall i | 0 <= i < |p.calls|
        ensures CallOk(q, p.calls[i])
      {
        assert CallOk(p, p.calls[i]);
        if p.calls[i].status == Open {
          ChainHas(p, p.calls[i]);
          SameView(p, q, p.calls[i]);
        }
      }
    }
  }

  lemma BumpKeeps(p: Pred)
    requires Inv(p) && p.stamp < TIMESTAMP_RESET
    ensures Inv(Bumped(p, Exec))
  {
    var q := Bumped(p, Exec);
    if p.indexed { LiveSame(p, q, p.chains[|p.chains| - 1]); }
    forall i | 0 <= i < |p.calls|
      ensures CallOk(q, p.calls[i])
    {
      assert CallOk(p, p.calls[i]);
      if p.calls[i].status == Open {
        ChainHas(p, p.calls[i]);
        SameView(p, q, p.calls[i]);
      }
    }
  }

  /** In the predicate's chain, a call that enters now can see what is not erased, and nothing else. */
  lemma NewCallSees(p: Pred, c: nat)
    requires OrderOk(p) && p.last == Exec && c < |p.clauses| && (Erased(p, c) ==> GoneOk(p, c))
    ensures Valid(p, c, p.stamp) <==> !Erased(p, c)
  {
    if !Erased(p, c) {
      assert c in p.order;
      var j :| 0 <= j < |p.order| && p.order[j] == c;
      assert ThereOk(p, p.order[j]);
    }
  }

  lemma NewCallSeen(p: Pred, s: seq<nat>)
    requires OrderOk(p) && p.last == Exec && InRange(p, s) && ChainOf(p, s)
    ensures Seen(p, s, p.stamp) == p.order
  {
    hide Valid, OrderOk, GoneOk, Live, Seen;
    forall i | 0 <= i < |s|
      ensures Valid(p, s[i], p.stamp) <==> !Erased(p, s[i])
    {
      NewCallSees(p, s[i]);
    }
    SeenLive(p, s, p.stamp);
  }

  lemma NewCallStamp(p: Pred, k: Call)
    requires OrderOk(p) && p.order != [] && p.last == Exec && k.stamp == p.stamp && k.on < |p.chains|
    ensures StampOk(p, k)
  {
    assert ThereOk(p, p.order[0]);
  }

  lemma LiveOfSome(p: Pred, s: seq<nat>)
    requires ChainOf(p, s) && p.order != []
    ensures s != []
  {
  }

  lemma NewCallOk(p: Pred)
    requires OrderOk(p) && ChainsOk(p) && IndexOk(p) && p.indexed && p.last == Exec
    ensures p.chains[|p.chains| - 1] != []
    ensures CallOk(p, Call(p.stamp, |p.chains| - 1, p.chains[|p.chains| - 1][0], Open, [], p.order))
  {
    hide OrderOk, ChainOf, InRange, StampOk, Seen;
    var s := p.chains[|p.chains| - 1];
    LiveOfSome(p, s);
    NewCallSeen(p, s);
    NewCallStamp(p, Call(p.stamp, |p.chains| - 1, s[0], Open, [], p.order));
    assert From(s, s[0]) == s;
  }

  lemma CallsAlone(p: Pred, q: Pred, c: Call)
    requires q == p.(calls := q.calls) && CallOk(p, c)
    ensures CallOk(q, c)
  {
    if c.status == Open {
      ChainHas(p, c);
      SameView(p, q, c);
    }
  }

  lemma IndexAlone(p: Pred, q: Pred)
    requires q == p.(calls := q.calls) && OrderOk(p) && IndexOk(p) && ChainsOk(p)
    ensures OrderOk(q) && IndexOk(q) && ChainsOk(q)
  {
    if p.indexed { LiveSame(p, q, p.chains[|p.chains| - 1]); }
    forall g | 0 <= g < |q.chains|
      ensures InRange(q, q.chains[g])
    {
      assert InRange(p, p.chains[g]);
    }
  }

  lemma EnterKeeps(p: Pred)
    requires Inv(p) && Enabled(p, Enter)
    ensures Inv(Do(p, Enter)) && |Do(p, Enter).calls| == |p.calls| + 1 && Do(p, Enter).calls[|p.calls|].entry == p.order
  {
    hide OrderOk, IndexOk, ChainsOk, CallOk;
    var q, r := Bumped(Indexed(p), Exec), Do(p, Enter);
    IndexedKeeps(p);
    BumpKeeps(Indexed(p));
    NewCallOk(q);
    IndexAlone(q, r);
    forall i | 0 <= i < |r.calls|
      ensures CallOk(r, r.calls[i])
    {
      assert i < |p.calls| ==> CallOk(q, q.calls[i]);
      CallsAlone(q, r, r.calls[i]);
    }
  }

  lemma MovedOk(p: Pred, c: Call)
    requires ChainsOk(p) && StampOk(p, c) && ViewOk(p, c) && c.status == Open
    ensures CallOk(p, Moved(p, c))
  {
    hide Seen, From, Valid, Distinct;
    assert InRange(p, p.chains[c.on]);
    MovedOutcome(p, c);
  }

  lemma TryKeeps(p: Pred, i: nat)
    requires Inv(p) && IsOpen(p, i)
    ensures Inv(TryIt(p, i))
  {
    var q := p.(calls := p.calls[i := Moved(p, p.calls[i])]);
    assert CallOk(p, p.calls[i]);
    MovedOk(p, p.calls[i]);
    ReplaceKeeps(p, i, Moved(p, p.calls[i]));
    LetGoKeeps(q, p.calls[i].on);
  }

  lemma ReplaceKeeps(p: Pred, i: nat, c: Call)
    requires Inv(p) && i < |p.calls| && CallOk(p, c)
    ensures Inv(p.(calls := p.calls[i := c]))
  {
    var q := p.(calls := p.calls[i := c]);
    IndexAlone(p, q);
    forall j | 0 <= j < |q.calls|
      ensures CallOk(q, q.calls[j])
    {
      assert j != i ==> CallOk(p, p.calls[j]);
      CallsAlone(p, q, q.calls[j]);
    }
  }

  // ---------------------------------------------------------------- cleaning up under a call

  lemma {:induction false} FromLive(p: Pred, s: seq<nat>, c: nat)
    requires c in s && !Erased(p, c)
    ensures From(Live(p, s), c) == Live(p, From(s, c)) && c in Live(p, s)
  {
    var l := Live(p, s[1..]);
    assert ([s[0]] + l)[1..] == l && [] + l == l;
    if s[0] != c {
      FromLive(p, s[1..], c);
      if Erased(p, s[0]) { assert Live(p, s) == l; } else { assert From([s[0]] + l, c) == From(l, c); }
    } else {
      assert Live(p, s) == [c] + l;
    }
  }

  lemma {:induction false} SeenOfLive(p: Pred, s: seq<nat>, t: nat)
    ensures |Seen(p, Live(p, s), t)| <= |Seen(p, s, t)|
    ensures (exists i :: 0 <= i < |s| && Erased(p, s[i]) && Valid(p, s[i], t)) ==>
      |Seen(p, Live(p, s), t)| < |Seen(p, s, t)|
    ensures (forall i :: 0 <= i < |s| && Erased(p, s[i]) ==> !Valid(p, s[i], t)) ==>
      Seen(p, Live(p, s), t) == Seen(p, s, t)
  {
    if s != [] {
      SeenOfLive(p, s[1..], t);
      var l := Live(p, s[1..]);
      assert ([s[0]] + l)[1..] == l && [] + l == l;
      if Erased(p, s[0]) { assert Live(p, s) == l; } else { assert Live(p, s) == [s[0]] + l; }
      assert forall i :: 0 < i < |s| ==> s[i] == s[1..][i - 1];
      assert forall i :: 0 <= i < |s| - 1 ==> s[1..][i] == s[i + 1];
    }
  }

  /** Call c is at an erased clause of its chain, or still has one to come that it can see. */
  predicate Needs(p: Pred, c: Call)
    requires c.on < |p.chains|
  {
    Erased(p, c.at) || SeesErased(p, From(p.chains[c.on], c.at), c.stamp)
  }

  predicate SeesErased(p: Pred, s: seq<nat>, t: nat) {
    exists i :: 0 <= i < |s| && Erased(p, s[i]) && Valid(p, s[i], t)
  }

  lemma CleanUpIff(p: Pred, c: Call)
    requires c.on < |p.chains| && c.at in p.chains[c.on] && Distinct(p.chains[c.on])
    ensures
      var q := CleanedUp(p, c.on);
      (c.at in q.chains[c.on] && Outcome(q, c) == Outcome(p, c)) <==> !Needs(p, c)
  {
    var s, q := p.chains[c.on], CleanedUp(p, c.on);
    LiveIn(p, s);
    if !Erased(p, c.at) {
      FromLive(p, s, c.at);
      SeenOfLive(p, From(s, c.at), c.stamp);
      SeenSame(p, q, Live(p, From(s, c.at)), c.stamp);
    }
  }

  lemma CleanUpKeepsChains(p: Pred, h: nat)
    requires OrderOk(p) && IndexOk(p) && ChainsOk(p) && h < |p.chains|
    ensures OrderOk(CleanedUp(p, h)) && IndexOk(CleanedUp(p, h)) && ChainsOk(CleanedUp(p, h))
  {
    hide ChainOf, OrderOk, InRange, Live;
    var q, last := CleanedUp(p, h), |p.chains| - 1;
    OrderIsChain(p, q);
    ChainsAlone(p, q, p.chains[last]);
    if p.indexed { LiveOfChain(p, p.chains[last]); }
    LiveInRange(p, p.chains[h]);
    ChainsAlone(p, q, Live(p, p.chains[h]));
    forall g | 0 <= g < |q.chains|
      ensures InRange(q, q.chains[g])
    {
      ChainsAlone(p, q, p.chains[g]);
    }
  }

  lemma LiveInRange(p: Pred, s: seq<nat>)
    requires InRange(p, s)
    ensures InRange(p, Live(p, s))
  {
    LiveIn(p, s);
    forall i | 0 <= i < |Live(p, s)|
      ensures Live(p, s)[i] < |p.clauses|
    {
      assert Live(p, s)[i] in s;
    }
  }

  lemma CleanUpKeepsStamp(p: Pred, h: nat, c: Call)
    requires StampOk(p, c) && h < |p.chains| && ChainsOk(p)
    ensures StampOk(CleanedUp(p, h), c)
  {
    var q := CleanedUp(p, h);
    assert InRange(p, p.chains[h]);
    LiveIn(p, p.chains[h]);
    forall i | 0 <= i < |q.chains[c.on]| && !Erased(q, q.chains[c.on][i])
      ensures c.stamp <= q.stamp
    {
      assert q.chains[c.on][i] in p.chains[c.on] && !Erased(p, q.chains[c.on][i]);
    }
  }

  /** Dropping call i makes the fail loop clean up a chain that another call still needs as it is. */
  predicate Cuts(p: Pred, i: nat)
    requires IsOpen(p, i)
  {
    && p.threads && p.calls[i].on in p.dirty
    && exists j :: 0 <= j < |p.calls| && j != i && IsOpen(p, j) && p.calls[j].on == p.calls[i].on &&
        Needs(p, p.calls[j])
  }

  function Marked(p: Pred, i: nat): Pred
    requires i < |p.calls|
  {
    p.(calls := p.calls[i := p.calls[i].(status := Dropped)])
  }

  lemma MarkedKeeps(p: Pred, i: nat)
    requires Inv(p) && IsOpen(p, i)
    ensures Inv(Marked(p, i))
  {
    assert CallOk(p, p.calls[i]);
    ReplaceKeeps(p, i, p.calls[i].(status := Dropped));
  }

  lemma CleanUpCall(p: Pred, h: nat, c: Call)
    requires OrderOk(p) && IndexOk(p) && ChainsOk(p) && h < |p.chains| && CallOk(p, c)
    requires c.status == Open && c.on == h ==> !Needs(p, c)
    ensures CallOk(CleanedUp(p, h), c)
  {
    hide IndexOk, OrderOk, Needs, Valid, Erased;
    var q := CleanedUp(p, h);
    CleanUpKeepsChains(p, h);
    if c.status == Open {
      CleanUpKeepsStamp(p, h, c);
      if c.on == h {
        assert InRange(p, p.chains[h]);
        CleanUpIff(p, c);
      } else {
        OtherChain(p, q, c);
      }
    }
  }

  lemma NeedsAlone(p: Pred, q: Pred, c: Call)
    requires q == p.(calls := q.calls) && c.on < |p.chains|
    ensures Needs(p, c) <==> Needs(q, c)
  {
    var s := From(p.chains[c.on], c.at);
    assert forall i :: 0 <= i < |s| ==>
      (Erased(p, s[i]) <==> Erased(q, s[i])) && (Valid(p, s[i], c.stamp) <==> Valid(q, s[i], c.stamp));
  }

  lemma NoOneNeeds(p: Pred, i: nat, j: nat)
    requires IsOpen(p, i) && !Cuts(p, i) && p.threads && p.calls[i].on in p.dirty
    requires j < |p.calls| && j != i && IsOpen(p, j) && p.calls[j].on == p.calls[i].on
    ensures !Needs(p, p.calls[j])
  {
  }

  lemma DropKeeps(p: Pred, i: nat)
    requires Inv(p) && IsOpen(p, i) && !Cuts(p, i)
    ensures Inv(DropIt(p, i))
  {
    hide OrderOk, IndexOk, ChainsOk, CallOk, Needs, Cuts;
    var q, h := Marked(p, i), p.calls[i].on;
    MarkedKeeps(p, i);
    LetGoKeeps(q, h);
    if p.threads && InUse(q, h) && h in p.dirty {
      CleanUpKeepsChains(q, h);
      forall j | 0 <= j < |q.calls|
        ensures CallOk(CleanedUp(q, h), q.calls[j])
      {
        if q.calls[j].status == Open && q.calls[j].on == h {
          NoOneNeeds(p, i, j);
          NeedsAlone(p, q, q.calls[j]);
        }
        CleanUpCall(q, h, q.calls[j]);
      }
    }
  }

  /** After a call is dropped, every other call in progress is still at an instruction that is there, and on its way to
      what it should try, exactly when no clean-up cuts into it. */
  lemma DropIff(p: Pred, i: nat)
    requires Inv(p) && Enabled(p, Drop(i))
    ensures
      var q := Do(p, Drop(i));
      (forall j :: 0 <= j < |p.calls| && j != i && IsOpen(p, j) ==>
         && q.calls[j] == p.calls[j] && IsOpen(q, j) && q.calls[j].at in q.chains[q.calls[j].on]
         && Outcome(q, q.calls[j]) == q.calls[j].entry)
      <==> !Cuts(p, i)
  {
    hide OrderOk, IndexOk, StampOk, Needs;
    var q, m := Do(p, Drop(i)), Marked(p, i);
    if Cuts(p, i) {
      var j :| 0 <= j < |p.calls| && j != i && IsOpen(p, j) && p.calls[j].on == p.calls[i].on && Needs(p, p.calls[j]);
      assert m.calls[j] == p.calls[j];
      assert InUse(m, p.calls[i].on);
      assert CallOk(p, p.calls[j]) && InRange(p, p.chains[p.calls[j].on]);
      NeedsAlone(p, m, p.calls[j]);
      SameOutcome(p, m, p.calls[j]);
      CleanUpIff(m, p.calls[j]);
    } else {
      DropKeeps(p, i);
      assert forall j :: 0 <= j < |p.calls| && j != i && IsOpen(p, j) ==>
             q.calls[j] == p.calls[j] && CallOk(q, q.calls[j]);
    }
  }

  // ---------------------------------------------------------------- runs

  predicate Legal(p: Pred, ops: seq<Op>)
    decreases |ops|
  {
    ops == [] || (Enabled(p, ops[0]) && Legal(Do(p, ops[0]), ops[1..]))
  }

  function Run(p: Pred, ops: seq<Op>): Pred
    requires Legal(p, ops)
    decreases |ops|
  {
    if ops == [] then p else Run(Do(p, ops[0]), ops[1..])
  }

  predicate Harmless(p: Pred, op: Op)
    requires Enabled(p, op)
  {
    match op
    case Erase(c) => !Wipes(p, c)
    case Drop(i) => !Cuts(p, i)
    case _ => true
  }

  /** No retract of the run takes the stamp back under a call that still has the retracted clause, asserted at stamp 0,
      to come, and no failure cleans up a chain under a call. */
  predicate Safe(p: Pred, ops: seq<Op>)
    requires Legal(p, ops)
    decreases |ops|
  {
    ops == [] || (Harmless(p, ops[0]) && Safe(Do(p, ops[0]), ops[1..]))
  }

  /** A predicate as it is made: no clauses, and waiting for asserts. */
  function Fresh(threads: bool): Pred {
    Pred(threads, 0, Assert, [], [], false, [], {}, [])
  }

  lemma UnindexKeeps(p: Pred)
    requires Inv(p)
    ensures Inv(p.(indexed := false))
  {
    var q := p.(indexed := false);
    forall i | 0 <= i < |p.calls|
      ensures CallOk(q, p.calls[i])
    {
      assert CallOk(p, p.calls[i]);
      if p.calls[i].status == Open {
        ChainHas(p, p.calls[i]);
        SameView(p, q, p.calls[i]);
      }
    }
  }

  lemma StepKeeps(p: Pred, op: Op)
    requires Inv(p) && Enabled(p, op) && Harmless(p, op)
    ensures Inv(Do(p, op))
  {
    hide Inv, LetGo, Popped, Bumped, StampAt, Wipes, Cuts;
    match op
    case Assertz => AddKeeps(p, false);
    case Asserta => AddKeeps(p, true);
    case Erase(c) => EraseKeeps(p, c);
    case Unindex => UnindexKeeps(p);
    case Enter => EnterKeeps(p);
    case Try(i) => TryKeeps(p, i);
    case Drop(i) => DropKeeps(p, i);
  }

  lemma {:induction false} RunKeeps(p: Pred, ops: seq<Op>)
    requires Inv(p) && Legal(p, ops) && Safe(p, ops)
    ensures Inv(Run(p, ops))
    decreases |ops|
  {
    hide Inv, Do, Harmless;
    if ops != [] {
      StepKeeps(p, ops[0]);
      RunKeeps(Do(p, ops[0]), ops[1..]);
    }
  }

  lemma CallStays(p: Pred, op: Op, i: nat)
    requires Enabled(p, op) && i < |p.calls|
    ensures
      var q := Do(p, op);
      i < |q.calls| && q.calls[i].entry == p.calls[i].entry && q.calls[i].stamp == p.calls[i].stamp
  {
  }

  lemma {:induction false} CallsStay(p: Pred, ops: seq<Op>, i: nat)
    requires Legal(p, ops) && i < |p.calls|
    ensures
      var q := Run(p, ops);
      i < |q.calls| && q.calls[i].entry == p.calls[i].entry && q.calls[i].stamp == p.calls[i].stamp
    decreases |ops|
  {
    hide Do, Enabled;
    if ops != [] {
      CallStays(p, ops[0], i);
      CallsStay(Do(p, ops[0]), ops[1..], i);
    }
  }

  lemma {:induction false} LegalSplit(p: Pred, a: seq<Op>, b: seq<Op>)
    requires Legal(p, a + b)
    ensures Legal(p, a) && Legal(Run(p, a), b) && Run(p, a + b) == Run(Run(p, a), b)
    ensures Safe(p, a + b) <==> Safe(p, a) && Safe(Run(p, a), b)
    decreases |a|
  {
    hide Do, Enabled, Harmless;
    if a == [] {
      assert a + b == b;
    } else {
      assert (a + b)[0] == a[0] && (a + b)[1..] == a[1..] + b;
      LegalSplit(Do(p, a[0]), a[1..], b);
    }
  }

  lemma FreshOk(threads: bool)
    ensures Inv(Fresh(threads))
  {
  }

  lemma ReadCall(p: Pred, i: nat)
    requires Inv(p) && i < |p.calls|
    ensures p.calls[i].status == Through ==> p.calls[i].tried == p.calls[i].entry
    ensures p.calls[i].tried <= p.calls[i].entry
  {
    assert CallOk(p, p.calls[i]);
  }

  /** Whatever is asserted, retracted and called before a call enters and after, when it is through it has tried
      exactly the clauses the predicate had as it entered, in that order; before that, and if it is cut off, the
      first of them. */
  lemma CallSeesItsEntry(threads: bool, before: seq<Op>, after: seq<Op>)
    requires Legal(Fresh(threads), before + ([Enter] + after)) && Safe(Fresh(threads), before + ([Enter] + after))
    ensures Legal(Fresh(threads), before)
    ensures
      var p, q := Run(Fresh(threads), before), Run(Fresh(threads), before + ([Enter] + after));
      var i := |p.calls|;
      && i < |q.calls|
      && (q.calls[i].status == Through ==> q.calls[i].tried == p.order)
      && q.calls[i].tried <= p.order
  {
    hide Inv, Do, Enabled, Harmless;
    LegalSplit(Fresh(threads), before, [Enter] + after);
    FreshOk(threads);
    var p := Run(Fresh(threads), before);
    RunKeeps(Fresh(threads), before);
    RunKeeps(Fresh(threads), before + ([Enter] + after));
    assert ([Enter] + after)[0] == Enter && ([Enter] + after)[1..] == after;
    EnterKeeps(p);
    CallsStay(Do(p, Enter), after, |p.calls|);
    ReadCall(Run(Fresh(threads), before + ([Enter] + after)), |p.calls|);
  }

  // ---------------------------------------------------------------- what the program is after a run

  function IndexOf(s: seq<nat>, c: nat): (k: nat)
    requires c in s
    ensures k < |s| && s[k] == c
  {
    if s[0] == c then 0 else 1 + IndexOf(s[1..], c)
  }

  lemma {:induction false} WithoutAt(s: seq<nat>, c: nat)
    requires Distinct(s) && c in s
    ensures Without(s, c) == s[..IndexOf(s, c)] + s[IndexOf(s, c) + 1..]
  {
    if s[0] == c {
      assert forall i :: 0 <= i < |s[1..]| ==> s[1..][i] == s[i + 1];
      WithoutNone(s[1..], c);
      assert [] + s[1..] == s[1..];
    } else {
      var k := IndexOf(s[1..], c);
      assert forall i :: 0 <= i < |s[1..]| ==> s[1..][i] == s[i + 1];
      WithoutAt(s[1..], c);
      assert s[..k + 1] == [s[0]] + s[1..][..k] && s[1..][k + 1..] == s[k + 2..];
    }
  }

  lemma {:induction false} WithoutNone(s: seq<nat>, c: nat)
    requires c !in s
    ensures Without(s, c) == s
  {
    if s != [] { WithoutNone(s[1..], c); }
  }

  /** What a step does to the order of the predicate: asserta puts the new clause first, assertz last, a retract takes
      its clause out, and nothing else changes it. */
  lemma OrderAfter(p: Pred, op: Op)
    requires Inv(p) && Enabled(p, op)
    ensures
      var q, n := Do(p, op), |p.clauses|;
      && (op.Asserta? ==> q.order == [n] + p.order)
      && (op.Assertz? ==> q.order == p.order + [n])
      && (op.Erase? ==> q.order == p.order[..IndexOf(p.order, op.clause)] + p.order[IndexOf(p.order, op.clause) + 1..])
      && (!op.Asserta? && !op.Assertz? && !op.Erase? ==> q.order == p.order)
  {
    hide InUse, Without, Live, From, IndexOk, ChainsOk, CallOk, Seen;
    if op.Erase? { WithoutAt(p.order, op.clause); }
  }

  /** Only an assert adds a clause, only a retract erases one, and none changes when one began. */
  lemma ClausesAfter(p: Pred, op: Op)
    requires Enabled(p, op)
    ensures
      var q, n := Do(p, op), |p.clauses|;
      && |q.clauses| == (if op.Asserta? || op.Assertz? then n + 1 else n)
      && (forall c :: 0 <= c < n ==> q.clauses[c].start == p.clauses[c].start)
      && (forall c :: 0 <= c < n ==> (q.clauses[c].erased <==> p.clauses[c].erased || op == Erase(c)))
      && (op.Asserta? || op.Assertz? ==> !q.clauses[n].erased)
  {
    hide InUse, Without, Live, From;
  }

  /** Entering adds a call, trying moves one on, failing past one ends it; nothing else touches them. */
  lemma CallsAfter(p: Pred, op: Op)
    requires Inv(p) && Enabled(p, op)
    ensures
      var q, n := Do(p, op), |p.calls|;
      && |q.calls| == (if op.Enter? then n + 1 else n)
      && (op.Enter? ==> q.calls[n].status == Open && q.calls[n].tried == [] && q.calls[n].entry == p.order)
      && (forall i :: 0 <= i < n && op != Try(i) && op != Drop(i) ==> q.calls[i] == p.calls[i])
      && (op.Drop? ==> q.calls[op.call] == p.calls[op.call].(status := Dropped))
      && (op.Try? ==>
            var c, d := p.calls[op.call], q.calls[op.call];
            && d.stamp == c.stamp && d.on == c.on && d.entry == c.entry
            && d.tried == (if Valid(p, c.at, c.stamp) then c.tried + [c.at] else c.tried))
      && (op.Unindex? ==> !q.indexed && q.chains == p.chains)
  {
    hide InUse, Without, Live, From, ChainsOk, CallOk, Seen;
    if op.Enter? {
      EnterKeeps(p);
      EnterOpens(p);
    }
  }

  lemma EnterOpens(p: Pred)
    requires Inv(p) && Enabled(p, Enter)
    ensures
      var q := EnterIt(p);
      |q.calls| == |p.calls| + 1 ==>
        q.calls[..|p.calls|] == p.calls && q.calls[|p.calls|].status == Open && q.calls[|p.calls|].tried == []
  {
    hide Inv;
  }

  /** The index in use names no erased clause unless it is marked dirty, and that it is only while a call is in it. */
  ghost predicate IndexClean(p: Pred) {
    && (forall h :: h in p.dirty ==> h < |p.chains|)
    && (p.indexed && |p.chains| > 0 && |p.chains| - 1 !in p.dirty ==> p.chains[|p.chains| - 1] == p.order)
    && (p.indexed && |p.chains| > 0 && |p.chains| - 1 in p.dirty ==> InUse(p, |p.chains| - 1))
  }

  lemma UseOfAdded(p: Pred, q: Pred, h: nat)
    requires InUse(p, h) && p.calls <= q.calls
    ensures InUse(q, h)
  {
    var i :| 0 <= i < |p.calls| && p.calls[i].status == Open && p.calls[i].on == h;
    assert q.calls[i] == p.calls[i];
  }

  /** A call that moves or ends leaves the chains of the others in use. */
  lemma UseOfOthers(p: Pred, i: nat, c: Call, h: nat)
    requires i < |p.calls| && InUse(p, h) && h != p.calls[i].on
    ensures InUse(p.(calls := p.calls[i := c]), h)
  {
    var j :| 0 <= j < |p.calls| && p.calls[j].status == Open && p.calls[j].on == h;
    assert p.(calls := p.calls[i := c]).calls[j] == p.calls[j];
  }

  lemma LiveOrder(p: Pred)
    requires Inv(p) && p.indexed
    ensures |p.chains| > 0 && Live(p, p.chains[|p.chains| - 1]) == p.order
  {
  }

  lemma LetGoClean(p: Pred, h: nat)
    requires h < |p.chains| && (forall g :: g in p.dirty ==> g < |p.chains|)
    requires p.indexed && |p.chains| - 1 !in p.dirty ==> p.chains[|p.chains| - 1] == p.order
    requires p.indexed && |p.chains| - 1 in p.dirty && h != |p.chains| - 1 ==> InUse(p, |p.chains| - 1)
    requires p.indexed ==> Live(p, p.chains[|p.chains| - 1]) == p.order
    ensures IndexClean(LetGo(p, h)) && IndexClean(Popped(p, h))
  {
    hide Live, InUse;
    LetGoUses(p, h, |p.chains| - 1);
  }

  lemma LetGoUses(p: Pred, h: nat, g: nat)
    requires h < |p.chains|
    ensures InUse(LetGo(p, h), g) <==> InUse(p, g)
    ensures InUse(CleanedUp(p, h), g) <==> InUse(p, g)
  {
    hide Live;
    assert LetGo(p, h).calls == p.calls && CleanedUp(p, h).calls == p.calls;
    if InUse(p, g) {
      UseOfAdded(p, LetGo(p, h), g);
      UseOfAdded(p, CleanedUp(p, h), g);
    }
  }

  lemma StepIndexClean(p: Pred, op: Op)
    requires Inv(p) && IndexClean(p) && Enabled(p, op)
    ensures IndexClean(Do(p, op))
  {
    hide InUse, Live, Without, From, Valid, Inv;
    if p.indexed { LiveOrder(p); }
    if op.Try? || op.Drop? {
      var c := if op.Try? then Moved(p, p.calls[op.call]) else p.calls[op.call].(status := Dropped);
      var q := p.(calls := p.calls[op.call := c]);
      if p.indexed { LiveSame(p, q, p.chains[|p.chains| - 1]); }
      if p.indexed && |p.chains| - 1 in p.dirty && |p.chains| - 1 != p.calls[op.call].on {
        UseOfOthers(p, op.call, c, |p.chains| - 1);
      }
      LetGoClean(q, p.calls[op.call].on);
    } else if p.indexed && InUse(p, |p.chains| - 1) {
      UseOfAdded(p, Do(p, op), |p.chains| - 1);
    }
  }

  /** What the last call in a chain does as it goes: an index is rid of its erased clauses, a chain that is none any
      more goes with it. */
  lemma LastCallFrees(p: Pred, i: nat, op: Op)
    requires Inv(p) && IndexClean(p) && Enabled(p, op) && (op == Try(i) || op == Drop(i))
    requires !InUse(Do(p, op), p.calls[i].on)
    ensures
      var q, h := Do(p, op), p.calls[i].on;
      q.chains[h] == if q.indexed && h == |q.chains| - 1 then q.order else []
  {
    hide Live, InUse, From, Valid, Inv;
    var c := if op.Try? then Moved(p, p.calls[i]) else p.calls[i].(status := Dropped);
    var q := p.(calls := p.calls[i := c]);
    LetGoUses(q, p.calls[i].on, p.calls[i].on);
    StepIndexClean(p, op);
  }

  lemma {:induction false} RunIndexClean(p: Pred, ops: seq<Op>)
    requires Inv(p) && IndexClean(p) && Legal(p, ops) && Safe(p, ops)
    ensures IndexClean(Run(p, ops))
    decreases |ops|
  {
    hide Inv, Do, Harmless, IndexClean, Enabled;
    if ops != [] {
      StepIndexClean(p, ops[0]);
      StepKeeps(p, ops[0]);
      RunIndexClean(Do(p, ops[0]), ops[1..]);
    }
  }

  /** In every run: an index that is not marked dirty has exactly the clauses of the predicate, in its order, and one
      that is has a call in it. */
  lemma IndexIsProgram(threads: bool, ops: seq<Op>)
    requires Legal(Fresh(threads), ops) && Safe(Fresh(threads), ops)
    ensures
      var p := Run(Fresh(threads), ops);
      p.indexed && |p.chains| > 0 ==>
        if |p.chains| - 1 in p.dirty then InUse(p, |p.chains| - 1)
        else p.chains[|p.chains| - 1] == Program(ops).1
  {
    hide Inv, Run, InUse;
    FreshOk(threads);
    RunIndexClean(Fresh(threads), ops);
    ProgramIs(threads, ops);
  }

  /** The clauses in their order after a run, by its asserts and retracts alone. */
  function Program(ops: seq<Op>): (nat, seq<nat>) {
    if ops == [] then (0, [])
    else
      var (n, s) := Program(ops[..|ops| - 1]);
      match ops[|ops| - 1]
      case Asserta => (n + 1, [n] + s)
      case Assertz => (n + 1, s + [n])
      case Erase(c) => (n, if c in s then s[..IndexOf(s, c)] + s[IndexOf(s, c) + 1..] else s)
      case _ => (n, s)
  }

  lemma {:induction false} ProgramIs(threads: bool, ops: seq<Op>)
    requires Legal(Fresh(threads), ops) && Safe(Fresh(threads), ops)
    ensures Program(ops) == (|Run(Fresh(threads), ops).clauses|, Run(Fresh(threads), ops).order)
    decreases |ops|
  {
    hide Inv, Do, Enabled, Harmless;
    if ops != [] {
      var init, last := ops[..|ops| - 1], ops[|ops| - 1];
      assert ops == init + [last];
      LegalSplit(Fresh(threads), init, [last]);
      ProgramIs(threads, init);
      FreshOk(threads);
      RunKeeps(Fresh(threads), init);
      var p := Run(Fresh(threads), init);
      assert [last][1..] == [];
      OrderAfter(p, last);
      ClausesAfter(p, last);
      EraseHas(p, last);
    }
  }

  lemma EraseHas(p: Pred, op: Op)
    requires Enabled(p, op)
    ensures op.Erase? ==> op.clause in p.order
  {
  }

  /** A call that is through has tried the program as the asserts and retracts before it left it, in its order. */
  lemma CallTriesProgram(threads: bool, before: seq<Op>, after: seq<Op>)
    requires Legal(Fresh(threads), before + ([Enter] + after)) && Safe(Fresh(threads), before + ([Enter] + after))
    ensures Legal(Fresh(threads), before)
    ensures
      var q := Run(Fresh(threads), before + ([Enter] + after));
      var i := |Run(Fresh(threads), before).calls|;
      && i < |q.calls|
      && (q.calls[i].status == Through ==> q.calls[i].tried == Program(before).1)
      && q.calls[i].tried <= Program(before).1
  {
    hide Inv, Do, Enabled, Harmless;
    CallSeesItsEntry(threads, before, after);
    LegalSplit(Fresh(threads), before, [Enter] + after);
    ProgramIs(threads, before);
  }

  // ---------------------------------------------------------------- what one operation does to the views

  /** Every call in progress but those is as it was, on its way to what was there when it entered. */
  ghost predicate ViewsKept(p: Pred, q: Pred, but: set<nat>) {
    && |p.calls| <= |q.calls|
    && forall i :: 0 <= i < |p.calls| && i !in but && IsOpen(p, i) ==>
         q.calls[i] == p.calls[i] && IsOpen(q, i) && Outcome(q, q.calls[i]) == q.calls[i].entry
  }

  lemma OpenView(p: Pred, i: nat)
    requires Inv(p) && i < |p.calls| && p.calls[i].status == Open
    ensures IsOpen(p, i) && Outcome(p, p.calls[i]) == p.calls[i].entry
  {
    assert CallOk(p, p.calls[i]);
  }

  lemma ViewsOf(p: Pred, q: Pred, but: set<nat>)
    requires Inv(q) && |p.calls| <= |q.calls|
    requires forall i :: 0 <= i < |p.calls| && i !in but ==> q.calls[i] == p.calls[i]
    ensures ViewsKept(p, q, but)
  {
    hide Inv;
    forall i | 0 <= i < |p.calls| && i !in but && IsOpen(p, i)
      ensures q.calls[i] == p.calls[i] && IsOpen(q, i) && Outcome(q, q.calls[i]) == q.calls[i].entry
    {
      OpenView(q, i);
    }
  }

  /** No call in progress sees a new clause; the calls to come do. */
  lemma AddViews(p: Pred, first: bool)
    requires Inv(p) && p.stamp < TIMESTAMP_RESET
    ensures
      var q := AddIt(p, first);
      && Inv(q) && q.order == Joined(p.order, |p.clauses|, first) && ViewsKept(p, q, {})
  {
    hide Inv;
    AddKeeps(p, first);
    ViewsOf(p, AddIt(p, first), {});
  }

  /** A retract keeps them too, unless it wipes. */
  lemma EraseViews(p: Pred, c: nat)
    requires Inv(p) && Enabled(p, Erase(c))
    ensures EraseIt(p, c).order == Without(p.order, c) && (ViewsKept(p, EraseIt(p, c), {}) <==> !Wipes(p, c))
  {
    hide Inv, Wipes;
    EraseIff(p, c);
  }

  /** The call that enters is on its way to the clauses that are there, the others as they were. */
  lemma EnterViews(p: Pred)
    requires Inv(p) && Enabled(p, Enter)
    ensures
      var q, n := EnterIt(p), |p.calls|;
      && Inv(q) && |q.calls| == n + 1 && q.order == p.order && ViewsKept(p, q, {})
      && IsOpen(q, n) && q.calls[n].entry == p.order && Outcome(q, q.calls[n]) == p.order
  {
    hide Inv;
    EnterKeeps(p);
    ViewsOf(p, EnterIt(p), {});
    OpenView(EnterIt(p), |p.calls|);
  }

  /** A step of a call goes into nothing but the next clause of its view, and ends the call when it has had them all. */
  lemma TryViews(p: Pred, i: nat)
    requires Inv(p) && IsOpen(p, i)
    ensures
      var q := TryIt(p, i);
      && Inv(q) && |q.calls| == |p.calls| && q.order == p.order && ViewsKept(p, q, {i})
      && q.calls[i].entry == p.calls[i].entry
      && (if q.calls[i].status == Open then IsOpen(q, i) && Outcome(q, q.calls[i]) == p.calls[i].entry
          else q.calls[i].status == Through && q.calls[i].tried == p.calls[i].entry)
  {
    hide Inv, Valid, From;
    TryKeeps(p, i);
    ViewsOf(p, TryIt(p, i), {i});
    TryStep(p, i);
    ReadCall(TryIt(p, i), i);
    if TryIt(p, i).calls[i].status == Open { OpenView(TryIt(p, i), i); }
  }

  /** Nor does failing past a call disturb the others, unless it cuts. */
  lemma DropViews(p: Pred, i: nat)
    requires Inv(p) && IsOpen(p, i) && !Cuts(p, i)
    ensures
      var q := DropIt(p, i);
      Inv(q) && |q.calls| == |p.calls| && q.order == p.order && ViewsKept(p, q, {i})
  {
    hide Inv, Cuts;
    DropKeeps(p, i);
    ViewsOf(p, DropIt(p, i), {i});
  }

  // ---------------------------------------------------------------- running out

  function Tries(i: nat, n: nat): (ops: seq<Op>) {
    if n == 0 then [] else [Try(i)] + Tries(i, n - 1)
  }

  lemma TryStep(p: Pred, i: nat)
    requires IsOpen(p, i)
    ensures |TryIt(p, i).calls| == |p.calls| && TryIt(p, i).calls[i] == Moved(p, p.calls[i])
    ensures TryIt(p, i).clauses == p.clauses && TryIt(p, i).stamp == p.stamp
    ensures |From(p.chains[p.calls[i].on], p.calls[i].at)| > 1 ==> TryIt(p, i).chains == p.chains
  {
    var r := p.(calls := p.calls[i := Moved(p, p.calls[i])]);
    assert r.calls[i] == Moved(p, p.calls[i]);
  }

  lemma SeenFirst(p: Pred, rest: seq<nat>, t: nat, tried: seq<nat>)
    requires rest != []
    ensures tried + Seen(p, rest, t) == (if Valid(p, rest[0], t) then tried + [rest[0]] else tried) + Seen(p,
      rest[1..], t)
  {
  }

  lemma MovedOutcome(p: Pred, c: Call)
    requires c.on < |p.chains| && Distinct(p.chains[c.on]) && c.at in p.chains[c.on] && c.status == Open
    ensures
      var m, rest := Moved(p, c), From(p.chains[c.on], c.at);
      && rest != []
      && if |rest| > 1 then m.at in p.chains[c.on] && From(p.chains[c.on], m.at) == rest[1..] &&
          Outcome(p, m) == Outcome(p, c)
         else m.tried == Outcome(p, c)
  {
    hide Distinct, Valid, From, Seen;
    var rest := From(p.chains[c.on], c.at);
    FromIn(p.chains[c.on], c.at);
    SeenFirst(p, rest, c.stamp, c.tried);
    if |rest| > 1 {
      FromNext(p.chains[c.on], c.at);
    } else {
      assert rest[1..] == [];
      SeenNone(p, c.stamp);
    }
  }

  lemma SeenNone(p: Pred, t: nat)
    ensures Seen(p, [], t) == []
  {
  }

  /** Left to itself, a call comes through with its outcome. */
  lemma {:induction false} RunsOut(p: Pred, i: nat)
    requires IsOpen(p, i) && Distinct(p.chains[p.calls[i].on]) && p.stamp < TIMESTAMP_RESET &&
      p.calls[i].at in p.chains[p.calls[i].on]
    ensures
      var n := |From(p.chains[p.calls[i].on], p.calls[i].at)|;
      && Legal(p, Tries(i, n))
      && var c := Run(p, Tries(i, n)).calls;
         i < |c| && c[i].status == Through && c[i].tried == Outcome(p, p.calls[i])
    decreases |From(p.chains[p.calls[i].on], p.calls[i].at)|
  {
    hide TryIt, Valid, Seen, Distinct;
    var k := p.calls[i];
    var rest, q := From(p.chains[k.on], k.at), TryIt(p, i);
    TryStep(p, i);
    MovedOutcome(p, k);
    assert Tries(i, |rest|)[1..] == Tries(i, |rest| - 1);
    if |rest| > 1 {
      SameOutcome(p, q, q.calls[i]);
      RunsOut(q, i);
    } else {
      assert Run(p, Tries(i, 1)) == Run(q, []);
    }
  }

  lemma SameOutcome(p: Pred, q: Pred, c: Call)
    requires p.chains == q.chains && p.clauses == q.clauses && c.on < |p.chains|
    ensures Outcome(p, c) == Outcome(q, c)
  {
    SeenSame(p, q, From(p.chains[c.on], c.at), c.stamp);
  }

  const TWO := [Clause(0, TIMESTAMP_EOT, false), Clause(0, TIMESTAMP_EOT, false)]
  const AWAITED := Call(1, 0, 1, Open, [0], [0, 1])
  const ASSERTED := Pred(false, 0, Assert, TWO, [0, 1], false, [], {}, [])
  const ENTERED := Pred(false, 1, Exec, TWO, [0, 1], true, [[0, 1]], {}, [Call(1, 0, 0, Open, [], [0, 1])])
  const TRIED := Pred(false, 1, Exec, TWO, [0, 1], true, [[0, 1]], {}, [AWAITED])
  const ONE := Pred(false, 1, Assert, [Clause(0, 1, true), TWO[1]], [1], false, [[0, 1]], {}, [AWAITED])
  const NONE := Pred(false, 0, Assert, [Clause(0, 1, true), Clause(0, 0, true)], [], false, [[0, 1]], {}, [AWAITED])

  lemma TwoAsserted()
    ensures Legal(Fresh(false), [Assertz, Assertz]) && Run(Fresh(false), [Assertz, Assertz]) == ASSERTED
  {
    assert Do(Fresh(false), Assertz) == Pred(false, 0, Assert, [TWO[0]], [0], false, [], {}, []);
    assert Do(Do(Fresh(false), Assertz), Assertz) == ASSERTED;
    assert [Assertz, Assertz][1..] == [Assertz];
  }

  lemma OneTried()
    ensures Enabled(ENTERED, Try(0)) && Do(ENTERED, Try(0)) == TRIED
  {
    assert From([0, 1], 0) == [0, 1];
    assert Moved(ENTERED, ENTERED.calls[0]) == AWAITED;
    assert TRIED.calls[0].status == Open;
    assert InUse(TRIED, 0);
  }

  lemma BothRetracted()
    ensures Enabled(TRIED, Erase(0)) && Do(TRIED, Erase(0)) == ONE
    ensures Enabled(ONE, Erase(1)) && Do(ONE, Erase(1)) == NONE
    ensures Wipes(ONE, 1) && !Harmless(ONE, Erase(1))
  {
    assert [0, 1][1..] == [1] && Without([1], 0) == [1] && Without([0, 1], 0) == [1] && Without([1], 1) == [];
    assert From([1], 1) == [1] && From([0, 1], 1) == [1];
    assert IsOpen(ONE, 0);
  }

  lemma SecondMissed()
    ensures Enabled(NONE, Try(0)) && Do(NONE, Try(0)).calls == [Call(1, 0, 1, Through, [0], [0, 1])]
  {
    assert [0, 1][1..] == [1] && From([1], 1) == [1] && From([0, 1], 1) == [1];
    assert !Valid(NONE, 1, 1);
  }

  lemma {:induction false} FirstStep(p: Pred, op: Op, ops: seq<Op>)
    requires Enabled(p, op) && Legal(Do(p, op), ops)
    ensures Legal(p, [op] + ops) && Run(p, [op] + ops) == Run(Do(p, op), ops)
    ensures Safe(p, [op] + ops) ==> Harmless(p, op) && Safe(Do(p, op), ops)
  {
    assert ([op] + ops)[1..] == ops;
  }

  /** The view does fail without threads: with two clauses asserted and a call in its first, retracting both keeps the
      call from the second. */
  lemma WipeCounterexample()
    ensures Legal(ASSERTED, WIPE) && !Safe(ASSERTED, WIPE)
    ensures
      var c := Run(ASSERTED, WIPE).calls;
      |c| == 1 && c[0].status == Through && c[0].entry == [0, 1] && c[0].tried == [0]
  {
    hide Do, Harmless;
    OneTried();
    BothRetracted();
    SecondMissed();
    FirstEntered();
    assert [Try(0)] + [] == [Try(0)];
    FirstStep(NONE, Try(0), []);
    FirstStep(ONE, Erase(1), [Try(0)]);
    FirstStep(TRIED, Erase(0), [Erase(1)] + [Try(0)]);
    FirstStep(ENTERED, Try(0), [Erase(0)] + ([Erase(1)] + [Try(0)]));
    FirstStep(ASSERTED, Enter, [Try(0)] + ([Erase(0)] + ([Erase(1)] + [Try(0)])));
    assert WIPE == [Enter] + ([Try(0)] + ([Erase(0)] + ([Erase(1)] + [Try(0)])));
  }

  const WIPE: seq<Op> := [Enter, Try(0), Erase(0), Erase(1), Try(0)]

  const THREE := [TWO[0], TWO[0], TWO[0]]
  const LESS := [TWO[0], Clause(0, 2, true), TWO[0]]
  const FIRST := Call(1, 0, 1, Open, [0], [0, 1, 2])
  const SECOND := Call(3, 0, 0, Open, [], [0, 2])
  const BUSY := Pred(true, 1, Exec, THREE, [0, 1, 2], true, [[0, 1, 2]], {}, [FIRST])
  const DIRTY := Pred(true, 2, Retract, LESS, [0, 2], true, [[0, 1, 2]], {0}, [FIRST])
  const TWICE := Pred(true, 3, Exec, LESS, [0, 2], true, [[0, 1, 2]], {0}, [FIRST, SECOND])

  /** With threads it can fail too: while a call awaits the second of three clauses, that clause is retracted, another
      call enters and is failed over; the fail loop then frees the instruction the first call is to go on from. */
  lemma CutCounterexample()
    ensures Enabled(BUSY, Erase(1)) && Enabled(DIRTY, Enter) && Enabled(TWICE, Drop(1))
    ensures Do(BUSY, Erase(1)) == DIRTY && Do(DIRTY, Enter) == TWICE && !Harmless(TWICE, Drop(1))
    ensures var q := Do(TWICE, Drop(1)); IsOpen(q, 0) && q.calls[0].at == 1 && q.chains[0] == [0, 2]
  {
    hide Do, Harmless;
    Dirtied();
    SecondDropped();
  }

  lemma Dirtied()
    ensures Do(BUSY, Erase(1)) == DIRTY && Do(DIRTY, Enter) == TWICE
  {
    assert Without([2], 1) == [2] && Without([1, 2], 1) == [2] && Without([0, 1, 2], 1) == [0, 2];
    assert BUSY.calls[0].status == Open;
    assert InUse(BUSY, 0);
  }

  lemma SecondDropped()
    ensures !Harmless(TWICE, Drop(1))
    ensures var q := Do(TWICE, Drop(1)); IsOpen(q, 0) && q.calls[0].at == 1 && q.chains[0] == [0, 2]
  {
    assert Marked(TWICE, 1).calls[0].status == Open;
    assert InUse(Marked(TWICE, 1), 0);
    LiveOfThree();
    assert IsOpen(TWICE, 0) && Needs(TWICE, FIRST);
  }

  /** That state is one a run comes to. */
  lemma BusyReached()
    ensures Legal(Fresh(true), GETBUSY) && Run(Fresh(true), GETBUSY) == BUSY
  {
    hide Do, Enabled, Harmless, Fresh;
    BusySteps();
    FirstStep(ENTERED3, Try(0), []);
    FirstStep(ASSERTED3, Enter, [Try(0)]);
    FirstStep(Asserted(2), Assertz, [Enter] + [Try(0)]);
    FirstStep(Asserted(1), Assertz, [Assertz] + ([Enter] + [Try(0)]));
    FirstStep(Fresh(true), Assertz, [Assertz] + ([Assertz] + ([Enter] + [Try(0)])));
    assert [Try(0)] + [] == [Try(0)];
    assert GETBUSY == [Assertz] + ([Assertz] + ([Assertz] + ([Enter] + [Try(0)])));
  }

  const GETBUSY: seq<Op> := [Assertz, Assertz, Assertz, Enter, Try(0)]
  const ASSERTED3 := Pred(true, 0, Assert, THREE, [0, 1, 2], false, [], {}, [])
  const ENTERED3 := Pred(true, 1, Exec, THREE, [0, 1, 2], true, [[0, 1, 2]], {}, [Call(1, 0, 0, Open, [], [0, 1, 2])])

  function Asserted(n: nat): Pred
    requires n <= 2
  {
    Pred(true, 0, Assert, THREE[..n], [0, 1][..n], false, [], {}, [])
  }

  lemma BusySteps()
    ensures Enabled(Fresh(true), Assertz) && Do(Fresh(true), Assertz) == Asserted(1)
    ensures Enabled(Asserted(1), Assertz) && Do(Asserted(1), Assertz) == Asserted(2)
    ensures Enabled(Asserted(2), Assertz) && Do(Asserted(2), Assertz) == ASSERTED3
    ensures Enabled(ASSERTED3, Enter) && Do(ASSERTED3, Enter) == ENTERED3
    ensures Enabled(ENTERED3, Try(0)) && Do(ENTERED3, Try(0)) == BUSY
  {
    assert From([0, 1, 2], 0) == [0, 1, 2];
    assert Moved(ENTERED3, ENTERED3.calls[0]) == FIRST;
    assert BUSY.calls[0].status == Open;
    assert InUse(BUSY, 0);
  }

  lemma LiveOfThree()
    ensures Live(Marked(TWICE, 1), [0, 1, 2]) == [0, 2]
  {
    var p := Marked(TWICE, 1);
    assert [0, 1, 2][1..] == [1, 2] && [1, 2][1..] == [2];
    assert Live(p, [2]) == [2] && Live(p, [1, 2]) == [2];
  }

  lemma FirstEntered()
    ensures Enabled(ASSERTED, Enter) && Do(ASSERTED, Enter) == ENTERED
  {
  }
}
