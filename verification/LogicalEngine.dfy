/** The operations on a logical-update predicate as the system does them, in place. */
module LogicalEngine {
  import opened LogicalUpdate

  class LogUpdPred {
    const threads: bool
    var stamp: nat
    var last: Kind
    var clauses: seq<Clause>
    var order: seq<nat>
    var indexed: bool
    var chains: seq<seq<nat>>
    var dirty: set<nat>
    var calls: seq<Call>

    ghost function State(): Pred
      reads this
    {
      Pred(threads, stamp, last, clauses, order, indexed, chains, dirty, calls)
    }

    constructor (threads: bool)
      ensures State() == Fresh(threads)
    {
      this.threads := threads;
      stamp, last, clauses, order, indexed, chains, dirty, calls := 0, Assert, [], [], false, [], {}, [];
    }

    /** Whether a call is running through chain h. */
    method Running(h: nat) returns (b: bool)
      ensures b == InUse(State(), h)
    {
      var i := 0;
      while i < |calls|
        invariant i <= |calls|
        invariant forall j :: 0 <= j < i ==> !(calls[j].status == Open && calls[j].on == h)
      {
        if calls[i].status == Open && calls[i].on == h {
          assert State().calls[i].status == Open;
          return true;
        }
        i := i + 1;
      }
      assert forall j :: 0 <= j < |State().calls| ==> !(State().calls[j].status == Open && State().calls[j].on == h);
      return false;
    }

    /** remove_dirty_clauses_from_index. */
    method RemoveDirty(s: seq<nat>) returns (r: seq<nat>)
      ensures r == Live(State(), s)
    {
      hide Live;
      r := [];
      var i := 0;
      assert s[0..] == s;
      while i < |s|
        invariant i <= |s|
        invariant r + Live(State(), s[i..]) == Live(State(), s)
      {
        LiveStep(State(), s, i, r);
        if !(s[i] < |clauses| && clauses[s[i]].erased) { r := r + [s[i]]; }
        i := i + 1;
      }
      LiveEnd(State(), s, r);
    }

    method TakeOut(s: seq<nat>, c: nat) returns (r: seq<nat>)
      ensures r == Without(s, c)
    {
      hide Without;
      r := [];
      var i := 0;
      assert s[0..] == s;
      while i < |s|
        invariant i <= |s|
        invariant r + Without(s[i..], c) == Without(s, c)
      {
        WithoutStep(s, c, i, r);
        if s[i] != c { r := r + [s[i]]; }
        i := i + 1;
      }
      WithoutEnd(s, c, r);
    }

    /** Assert: the stamp moves if the last thing done was not an assert. */
    method AddClause(first: bool)
      modifies this
      ensures State() == AddIt(old(State()), first)
      ensures order == if first then [|old(clauses)|] + old(order) else old(order) + [|old(clauses)|]
      ensures Inv(old(State())) && old(stamp) < TIMESTAMP_RESET ==>
        Inv(State()) && ViewsKept(old(State()), State(), {})
    {
      hide Inv, ViewsKept;
      ghost var p := State();
      if Inv(p) && stamp < TIMESTAMP_RESET { AddViews(p, first); }
      if last != Assert {
        stamp := stamp + 1;
        last := Assert;
      }
      var n := |clauses|;
      clauses := clauses + [Clause(stamp, TIMESTAMP_EOT, false)];
      order := Joined(order, n, first);
      if indexed && |chains| > 0 { chains := chains[|chains| - 1 := Joined(chains[|chains| - 1], n, first)]; }
    }

    /** EraseLogUpdCl. */
    method EraseClause(c: nat)
      requires c < |clauses|
      modifies this
      ensures State() == EraseIt(old(State()), c)
      ensures Inv(old(State())) && Enabled(old(State()), Erase(c)) ==>
        (ViewsKept(old(State()), State(), {}) <==> !Wipes(old(State()), c))
    {
      hide Without, InUse, Inv, ViewsKept, Wipes;
      ghost var p := State();
      if Inv(p) && Enabled(p, Erase(c)) { EraseViews(p, c); }
      var rest := TakeOut(order, c);
      order := rest;
      if last != Retract {
        if |order| > 1 {
          stamp := stamp + 1;
          last := Retract;
        } else {
          if |order| == 0 && !threads { stamp := 0; }
          last := Assert;
        }
      }
      clauses := clauses[c := Clause(clauses[c].start, stamp, true)];
      indexed := indexed && |order| > 1;
      SameUse(old(State()), State());
      if indexed && |chains| > 0 {
        var busy := Running(|chains| - 1);
        if busy {
          dirty := dirty + {|chains| - 1};
        } else {
          var chain := TakeOut(chains[|chains| - 1], c);
          chains := chains[|chains| - 1 := chain];
        }
      }
    }

    /** enter_lu_pred, with the index made if there is none. */
    method EnterLuPred()
      modifies this
      ensures State() == EnterIt(old(State()))
      ensures Inv(old(State())) && Enabled(old(State()), Enter) ==>
        && Inv(State()) && |calls| == |old(calls)| + 1 && ViewsKept(old(State()), State(), {})
        && IsOpen(State(), |old(calls)|) && calls[|old(calls)|].entry == old(order)
        && Outcome(State(), calls[|old(calls)|]) == old(order)
    {
      hide Inv, ViewsKept;
      ghost var p := State();
      if Inv(p) && Enabled(p, Enter) { EnterViews(p); }
      if !indexed {
        indexed := true;
        chains := chains + [order];
      }
      if last != Exec {
        stamp := stamp + 1;
        last := Exec;
      }
      if |chains| > 0 && chains[|chains| - 1] != [] {
        calls := calls + [Call(stamp, |chains| - 1, chains[|chains| - 1][0], Open, [], order)];
      }
    }

    /** try_logical, retry_logical and, when nothing follows, trust_logical. */
    method Logical(i: nat)
      requires IsOpen(State(), i)
      modifies this
      ensures State() == TryIt(old(State()), i)
      ensures Inv(old(State())) ==>
        && Inv(State()) && |calls| == |old(calls)| && ViewsKept(old(State()), State(), {i})
        && calls[i].entry == old(calls)[i].entry
        && (if calls[i].status == Open then IsOpen(State(), i) && Outcome(State(), calls[i]) == calls[i].entry
            else calls[i].status == Through && calls[i].tried == calls[i].entry)
    {
      hide Inv, ViewsKept;
      ghost var p := State();
      if Inv(p) { TryViews(p, i); }
      var c := calls[i];
      var rest := From(chains[c.on], c.at);
      var tried := c.tried;
      if Unsigned(c.stamp - StartOf(c.at)) <= Unsigned(EndOf(c.at) - StartOf(c.at)) && c.at < |clauses| {
        tried := tried + [c.at];
      }
      if |rest| > 1 {
        calls := calls[i := c.(tried := tried, at := rest[1])];
      } else {
        calls := calls[i := c.(tried := tried, status := Through)];
      }
      assert State() == old(State()).(calls := old(State()).calls[i := Moved(old(State()), c)]);
      Release(c.on);
    }

    function StartOf(c: nat): nat
      reads this
    {
      if c < |clauses| then clauses[c].start else 0
    }

    function EndOf(c: nat): nat
      reads this
    {
      if c < |clauses| then clauses[c].end else 0
    }

    /** What the fail loop does with the trail entry of a call. */
    method Abandon(i: nat)
      requires IsOpen(State(), i)
      modifies this
      ensures State() == DropIt(old(State()), i)
      ensures Inv(old(State())) && !Cuts(old(State()), i) ==>
        Inv(State()) && |calls| == |old(calls)| && ViewsKept(old(State()), State(), {i})
    {
      hide Inv, ViewsKept, Cuts;
      ghost var p := State();
      if Inv(p) && !Cuts(p, i) { DropViews(p, i); }
      calls := calls[i := calls[i].(status := Dropped)];
      var h := calls[i].on;
      var busy := Running(h);
      if threads && busy && h in dirty {
        CleanUpIndex(h);
      } else {
        Release(h);
      }
    }

    method CleanUpIndex(h: nat)
      requires h < |chains|
      modifies this
      ensures State() == CleanedUp(old(State()), h)
    {
      var clean := RemoveDirty(chains[h]);
      chains := chains[h := clean];
      dirty := dirty - {h};
    }

    /** The end of a call: Yap_CleanUpIndex or Yap_ErLogUpdIndex when it was the last on its chain. */
    method Release(h: nat)
      requires h < |chains|
      modifies this
      ensures State() == LetGo(old(State()), h)
    {
      var busy := Running(h);
      if !busy {
        if !(indexed && h == |chains| - 1) {
          chains := chains[h := []];
        } else if h in dirty {
          CleanUpIndex(h);
        }
      }
    }
  }

  lemma LiveStep(p: Pred, s: seq<nat>, i: nat, r: seq<nat>)
    requires i < |s|
    ensures r + Live(p, s[i..]) == (if Erased(p, s[i]) then r else r + [s[i]]) + Live(p, s[i + 1..])
  {
    assert s[i..][1..] == s[i + 1..];
  }

  lemma LiveEnd(p: Pred, s: seq<nat>, r: seq<nat>)
    ensures r + Live(p, s[|s|..]) == r
  {
  }

  lemma WithoutStep(s: seq<nat>, c: nat, i: nat, r: seq<nat>)
    requires i < |s|
    ensures r + Without(s[i..], c) == (if s[i] == c then r else r + [s[i]]) + Without(s[i + 1..], c)
  {
    assert s[i..][1..] == s[i + 1..];
  }

  lemma WithoutEnd(s: seq<nat>, c: nat, r: seq<nat>)
    ensures r + Without(s[|s|..], c) == r
  {
  }

  lemma SameUse(p: Pred, q: Pred)
    requires p.calls == q.calls
    ensures forall h: nat :: InUse(p, h) <==> InUse(q, h)
  {
    forall h: nat
      ensures InUse(p, h) <==> InUse(q, h)
    {
      if InUse(p, h) {
        var i :| 0 <= i < |p.calls| && p.calls[i].status == Open && p.calls[i].on == h;
        assert q.calls[i].status == Open;
      }
      if InUse(q, h) {
        var i :| 0 <= i < |q.calls| && q.calls[i].status == Open && q.calls[i].on == h;
        assert p.calls[i].status == Open;
      }
    }
  }
}
