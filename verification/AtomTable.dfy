/** Interning atoms: many threads, a search under a read lock, and a second look at the head of the chain under the
    write lock before a new atom goes in front. Atoms are never released here. */
module AtomTable {

  /** Atoms are numbered from 1 as they are allocated; 0 is NIL. */
  datatype Atom = Atom(name: string, next: nat)

  /** Where a thread is in LookupAtom; a is the head it last read, at the atom its search has come to. */
  datatype Pc =
    | Idle
    | WantRead
    | Reading(a: nat, at: nat)
    | WantWrite(a: nat)
    | Checking(a: nat)
    | Searching(a: nat, at: nat)
    | Adding(a: nat)
    | Leaving(id: nat)

  datatype Thread = Thread(name: string, pc: Pc)

  datatype Lock = Lock(readers: set<nat>, writers: set<nat>)

  datatype Table = Table(atoms: seq<Atom>, heads: seq<nat>, locks: seq<Lock>, threads: seq<Thread>,
                         answers: set<(string, nat)>)

  type Hash = string -> nat

  function Bucket(h: Hash, t: Table, name: string): (b: nat)
    requires t.heads != []
    ensures b < |t.heads|
  {
    h(name) % |t.heads|
  }

  /** What a thread may do next. Acquiring is possible when the lock allows it; allocation may fail. */
  datatype Action = Start(name: string) | ReadLock | ReadStep | WriteLock | Recheck | WriteStep | Add | AddFails | Leave

  predicate Enabled(h: Hash, t: Table, i: nat, act: Action)
    requires t.heads != [] && |t.locks| == |t.heads|
  {
    && i < |t.threads|
    && var th := t.threads[i];
       var b := Bucket(h, t, th.name);
       match act
       case Start(_) => th.pc.Idle?
       case ReadLock => th.pc.WantRead? && t.locks[b].writers == {}
       case ReadStep => th.pc.Reading? && th.pc.at <= |t.atoms|
       case WriteLock => th.pc.WantWrite? && t.locks[b].writers == {} && t.locks[b].readers == {}
       case Recheck => th.pc.Checking?
       case WriteStep => th.pc.Searching? && th.pc.at <= |t.atoms|
       case Add => th.pc.Adding?
       case AddFails => th.pc.Adding?
       case Leave => th.pc.Leaving?
  }

  function Go(t: Table, i: nat, pc: Pc): Table
    requires i < |t.threads|
  {
    t.(threads := t.threads[i := t.threads[i].(pc := pc)])
  }

  function Unlock(t: Table, i: nat, b: nat): Table
    requires b < |t.locks|
  {
    t.(locks := t.locks[b := Lock(t.locks[b].readers - {i}, t.locks[b].writers - {i})])
  }

  /** One step of thread i. */
  function Act(h: Hash, t: Table, i: nat, act: Action): Table
    requires t.heads != [] && |t.locks| == |t.heads| && Enabled(h, t, i, act)
  {
    var th := t.threads[i];
    var b := Bucket(h, t, th.name);
    match act
    case Start(name) => t.(threads := t.threads[i := Thread(name, WantRead)])
    case ReadLock =>
      var lock := t.locks[b].(readers := t.locks[b].readers + {i});
      Go(t, i, Reading(t.heads[b], t.heads[b])).(locks := t.locks[b := lock])
    case ReadStep =>
      if th.pc.at == 0 then Unlock(Go(t, i, WantWrite(th.pc.a)), i, b)
      else if t.atoms[th.pc.at - 1].name == th.name then Go(t, i, Leaving(th.pc.at))
      else Go(t, i, Reading(th.pc.a, t.atoms[th.pc.at - 1].next))
    case WriteLock => Go(t, i, Checking(th.pc.a)).(locks := t.locks[b := t.locks[b].(writers := {i})])
    case Recheck =>
      if th.pc.a != t.heads[b] then Go(t, i, Searching(t.heads[b], t.heads[b])) else Go(t, i, Adding(th.pc.a))
    case WriteStep =>
      if th.pc.at == 0 then Go(t, i, Adding(th.pc.a))
      else if t.atoms[th.pc.at - 1].name == th.name then Go(t, i, Leaving(th.pc.at))
      else Go(t, i, Searching(th.pc.a, t.atoms[th.pc.at - 1].next))
    case Add =>
      Go(t, i, Leaving(|t.atoms| + 1)).(atoms := t.atoms + [Atom(th.name, th.pc.a)],
          heads := t.heads[b := |t.atoms| + 1])
    case AddFails => Unlock(Go(t, i, Idle), i, b)
    case Leave => Unlock(Go(t, i, Idle), i, b).(answers := t.answers + {(th.name, th.pc.id)})
  }

  // ---------------------------------------------------------------- chains

  predicate Forward(atoms: seq<Atom>) {
    forall k :: 0 <= k < |atoms| ==> atoms[k].next <= k
  }

  /** id is met on the chain from a. */
  predicate OnChain(atoms: seq<Atom>, a: nat, id: nat)
    decreases a
  {
    a != 0 && a <= |atoms| && (a == id || (atoms[a - 1].next < a && OnChain(atoms, atoms[a - 1].next, id)))
  }

  function NameOf(atoms: seq<Atom>, id: nat): string {
    if 0 < id <= |atoms| then atoms[id - 1].name else []
  }

  ghost predicate Named(atoms: seq<Atom>, a: nat, name: string) {
    exists id: nat {:trigger OnChain(atoms, a, id)} :: OnChain(atoms, a, id) && NameOf(atoms, id) == name
  }

  lemma {:induction false} ChainBounds(atoms: seq<Atom>, a: nat, id: nat)
    requires OnChain(atoms, a, id)
    ensures 0 < id <= a <= |atoms|
    decreases a
  {
    if a != id { ChainBounds(atoms, atoms[a - 1].next, id); }
  }

  /** Chains never change: a new atom points into them. */
  lemma {:induction false} ChainGrows(atoms: seq<Atom>, x: Atom, a: nat, id: nat)
    requires a <= |atoms|
    ensures OnChain(atoms + [x], a, id) <==> OnChain(atoms, a, id)
    decreases a
  {
    if a != 0 && a != id {
      assert (atoms + [x])[a - 1] == atoms[a - 1];
      if atoms[a - 1].next < a { ChainGrows(atoms, x, atoms[a - 1].next, id); }
    }
  }

  // ---------------------------------------------------------------- what every run keeps

  /** Chains lead backwards, hold atoms of their bucket, and no name twice. */
  ghost predicate ChainsOk(h: Hash, atoms: seq<Atom>, heads: seq<nat>) {
    && heads != [] && Forward(atoms)
    && (forall b {:trigger heads[b]} :: 0 <= b < |heads| ==>
        heads[b] <= |atoms| && ChainOk(h, atoms, heads[b], b, |heads|))
  }

  ghost predicate ChainOk(h: Hash, atoms: seq<Atom>, head: nat, b: nat, n: nat)
    requires 0 < n
  {
    && (forall id: nat {:trigger OnChain(atoms, head, id)} :: OnChain(atoms, head, id) ==>
        h(NameOf(atoms, id)) % n == b)
    && (forall id: nat, id': nat {:trigger OnChain(atoms, head, id), OnChain(atoms, head, id')} ::
          (OnChain(atoms, head, id) && OnChain(atoms, head, id') && NameOf(atoms, id) == NameOf(atoms, id')) ==>
              id == id')
  }

  /** A search from a that has come to at has missed nothing of that name. */
  ghost predicate Searched(atoms: seq<Atom>, a: nat, at: nat, name: string) {
    && a <= |atoms| && at <= |atoms|
    && (forall id: nat {:trigger OnChain(atoms, a, id)} ::
          OnChain(atoms, a, id) && NameOf(atoms, id) == name ==> OnChain(atoms, at, id))
    && (forall id: nat {:trigger OnChain(atoms, at, id)} :: OnChain(atoms, at, id) ==> OnChain(atoms, a, id))
  }

  predicate Holds(t: Table, i: nat, b: nat)
    requires b < |t.locks|
  {
    t.locks[b].writers == {i} && t.locks[b].readers == {}
  }

  ghost predicate ThreadOk(h: Hash, t: Table, i: nat)
    requires i < |t.threads| && t.heads != [] && |t.locks| == |t.heads|
  {
    var th := t.threads[i];
    var b := Bucket(h, t, th.name);
    var name, head := th.name, t.heads[b];
    match th.pc
    case Idle => true
    case WantRead => true
    case Reading(a, at) => Searched(t.atoms, a, at, name) && i in t.locks[b].readers && a == head
    case WantWrite(a) => a <= |t.atoms| && !Named(t.atoms, a, name)
    case Checking(a) => a <= |t.atoms| && !Named(t.atoms, a, name) && Holds(t, i, b)
    case Searching(a, at) => Searched(t.atoms, a, at, name) && Holds(t, i, b) && a == head
    case Adding(a) => a == head && !Named(t.atoms, a, name) && Holds(t, i, b)
    case Leaving(id) =>
      OnChain(t.atoms, head, id) && NameOf(t.atoms, id) == name && (i in t.locks[b].readers || Holds(t, i, b))
  }

  predicate LockOk(l: Lock) { |l.writers| <= 1 && (l.writers == {} || l.readers == {}) }

  ghost predicate AnswersOk(h: Hash, t: Table)
    requires t.heads != []
  {
    forall x {:trigger x in t.answers} :: x in t.answers ==>
      OnChain(t.atoms, t.heads[Bucket(h, t, x.0)], x.1) && NameOf(t.atoms, x.1) == x.0
  }

  ghost predicate Inv(h: Hash, t: Table) {
    && ChainsOk(h, t.atoms, t.heads) && |t.locks| == |t.heads| && AnswersOk(h, t)
    && (forall b {:trigger t.locks[b]} :: 0 <= b < |t.locks| ==> LockOk(t.locks[b]))
    && forall i {:trigger t.threads[i]} :: 0 <= i < |t.threads| ==> ThreadOk(h, t, i)
  }

  /** An empty table and idle threads. */
  predicate Init(t: Table) {
    && t.heads != [] && |t.locks| == |t.heads| && t.atoms == [] && t.answers == {}
    && (forall b :: 0 <= b < |t.heads| ==> t.heads[b] == 0 && t.locks[b] == Lock({}, {}))
    && forall i :: 0 <= i < |t.threads| ==> t.threads[i].pc == Idle
  }

  lemma InitOk(h: Hash, t: Table)
    requires Init(t)
    ensures Inv(h, t)
  {
    forall i | 0 <= i < |t.threads|
      ensures ThreadOk(h, t, i)
    {
      assert t.threads[i].pc == Idle;
    }
  }

  // ---------------------------------------------------------------- a step, seen by the other threads

  /** Thread j still holds what it held. */
  ghost predicate KeepsLocks(t: Table, u: Table, j: nat) {
    && |u.locks| == |t.locks|
    && forall b {:trigger u.locks[b]} :: 0 <= b < |t.locks| ==>
         (j in t.locks[b].readers ==> j in u.locks[b].readers) && (Holds(t, j, b) ==> Holds(u, j, b))
  }

  lemma LocksStep(h: Hash, t: Table, i: nat, act: Action, b: nat)
    requires Inv(h, t) && Enabled(h, t, i, act) && b < |t.locks|
    ensures LockOk(Act(h, t, i, act).locks[b])
  {
    assert LockOk(t.locks[b]) && ThreadOk(h, t, i);
  }

  lemma OthersLocks(h: Hash, t: Table, i: nat, act: Action, j: nat)
    requires Inv(h, t) && Enabled(h, t, i, act) && j != i && j < |t.threads|
    ensures KeepsLocks(t, Act(h, t, i, act), j)
  {
    var u := Act(h, t, i, act);
    forall b | 0 <= b < |t.locks|
      ensures (j in t.locks[b].readers ==> j in u.locks[b].readers) && (Holds(t, j, b) ==> Holds(u, j, b))
    {
      assert LockOk(t.locks[b]) && ThreadOk(h, t, i);
    }
  }

  /** Nothing a thread knows depends on more than its locks, when the table is left alone. */
  lemma OthersOk(h: Hash, t: Table, u: Table, j: nat)
    requires t.heads != [] && |t.locks| == |t.heads| == |u.locks| && j < |t.threads| == |u.threads|
    requires ThreadOk(h, t, j) && KeepsLocks(t, u, j)
    requires u.atoms == t.atoms && u.heads == t.heads && u.threads[j] == t.threads[j]
    ensures ThreadOk(h, u, j)
  {
  }

  // ---------------------------------------------------------------- a step, seen by its own thread

  lemma SearchOn(atoms: seq<Atom>, a: nat, at: nat, name: string)
    requires Forward(atoms) && Searched(atoms, a, at, name)
    ensures at == 0 ==> !Named(atoms, a, name)
    ensures at != 0 ==> OnChain(atoms, a, at)
    ensures at != 0 && NameOf(atoms, at) != name ==> Searched(atoms, a, atoms[at - 1].next, name)
  {
    if at != 0 {
      assert OnChain(atoms, at, at);
      var n := atoms[at - 1].next;
      assert n < at;
      forall id: nat
        ensures OnChain(atoms, n, id) ==> OnChain(atoms, at, id)
        ensures OnChain(atoms, at, id) ==> id == at || OnChain(atoms, n, id)
      {
      }
    }
  }

  lemma SearchStarts(atoms: seq<Atom>, a: nat, name: string)
    requires a <= |atoms|
    ensures Searched(atoms, a, a, name)
  {
  }

  lemma OwnOk(h: Hash, t: Table, i: nat, act: Action)
    requires Inv(h, t) && Enabled(h, t, i, act) && !act.Add?
    ensures ThreadOk(h, Act(h, t, i, act), i)
  {
    hide OnChain, Named, Searched, AnswersOk, ChainOk;
    assert ThreadOk(h, t, i);
    var th := t.threads[i];
    var b := Bucket(h, t, th.name);
    assert t.heads[b] <= |t.atoms|;
    SearchStarts(t.atoms, t.heads[b], th.name);
    match th.pc
    case Reading(a, at) => SearchOn(t.atoms, a, at, th.name);
    case Searching(a, at) => SearchOn(t.atoms, a, at, th.name);
    case _ =>
  }

  // ---------------------------------------------------------------- a new atom

  /** A new atom in front of the chain of its bucket, nobody of that name on it. */
  lemma AddChains(h: Hash, atoms: seq<Atom>, heads: seq<nat>, b: nat, name: string)
    requires ChainsOk(h, atoms, heads) && b < |heads| && h(name) % |heads| == b && !Named(atoms, heads[b], name)
    ensures ChainsOk(h, atoms + [Atom(name, heads[b])], heads[b := |atoms| + 1])
  {
    var x := Atom(name, heads[b]);
    var m, hs := atoms + [x], heads[b := |atoms| + 1];
    forall c | 0 <= c < |hs|
      ensures hs[c] <= |m| && ChainOk(h, m, hs[c], c, |hs|)
    {
      assert heads[c] <= |atoms| && ChainOk(h, atoms, heads[c], c, |heads|);
      if c == b { AddFront(h, atoms, heads[b], b, |heads|, name); }
          else { ChainOkGrows(h, atoms, x, heads[c], c, |heads|); }
    }
  }

  lemma NameGrows(atoms: seq<Atom>, x: Atom, a: nat, id: nat)
    requires a <= |atoms| && OnChain(atoms, a, id)
    ensures NameOf(atoms + [x], id) == NameOf(atoms, id)
  {
    ChainBounds(atoms, a, id);
  }

  lemma ChainOkGrows(h: Hash, atoms: seq<Atom>, x: Atom, head: nat, b: nat, n: nat)
    requires 0 < n && head <= |atoms| && ChainOk(h, atoms, head, b, n)
    ensures ChainOk(h, atoms + [x], head, b, n)
  {
    var m := atoms + [x];
    forall id: nat | OnChain(m, head, id)
      ensures OnChain(atoms, head, id) && NameOf(m, id) == NameOf(atoms, id)
    {
      ChainGrows(atoms, x, head, id);
      NameGrows(atoms, x, head, id);
    }
  }

  lemma AddFront(h: Hash, atoms: seq<Atom>, head: nat, b: nat, n: nat, name: string)
    requires 0 < n && head <= |atoms| && ChainOk(h, atoms, head, b, n) && h(name) % n == b && !Named(atoms, head, name)
    ensures ChainOk(h, atoms + [Atom(name, head)], |atoms| + 1, b, n)
  {
    var x := Atom(name, head);
    var m, fresh_ := atoms + [x], |atoms| + 1;
    forall id: nat | OnChain(m, fresh_, id)
      ensures id == fresh_ || (OnChain(atoms, head, id) && NameOf(m, id) == NameOf(atoms, id) && NameOf(m, id) != name)
    {
      if id != fresh_ {
        assert m[fresh_ - 1] == x;
        ChainGrows(atoms, x, head, id);
        NameGrows(atoms, x, head, id);
      }
    }
  }

  /** What was on a chain stays on it. */
  lemma ChainExtends(atoms: seq<Atom>, heads: seq<nat>, b: nat, name: string, c: nat, id: nat)
    requires b < |heads| && c < |heads| && heads[b] <= |atoms| && heads[c] <= |atoms| && OnChain(atoms, heads[c], id)
    ensures OnChain(atoms + [Atom(name, heads[b])], heads[b := |atoms| + 1][c], id)
    ensures NameOf(atoms + [Atom(name, heads[b])], id) == NameOf(atoms, id)
  {
    var m := atoms + [Atom(name, heads[b])];
    ChainGrows(atoms, Atom(name, heads[b]), heads[c], id);
    NameGrows(atoms, Atom(name, heads[b]), heads[c], id);
    assert m[|atoms|] == Atom(name, heads[b]);
  }

  lemma NamedGrows(atoms: seq<Atom>, x: Atom, a: nat, name: string)
    requires a <= |atoms| && !Named(atoms, a, name)
    ensures !Named(atoms + [x], a, name)
  {
    var m := atoms + [x];
    forall id: nat | OnChain(m, a, id)
      ensures NameOf(m, id) != name
    {
      ChainGrows(atoms, x, a, id);
      NameGrows(atoms, x, a, id);
    }
  }

  lemma SearchedGrows(atoms: seq<Atom>, x: Atom, a: nat, at: nat, name: string)
    requires Searched(atoms, a, at, name)
    ensures Searched(atoms + [x], a, at, name)
  {
    var m := atoms + [x];
    forall id: nat | OnChain(m, a, id) && NameOf(m, id) == name
      ensures OnChain(m, at, id)
    {
      ChainGrows(atoms, x, a, id);
      NameGrows(atoms, x, a, id);
      ChainGrows(atoms, x, at, id);
    }
    forall id: nat | OnChain(m, at, id)
      ensures OnChain(m, a, id)
    {
      ChainGrows(atoms, x, a, id);
      ChainGrows(atoms, x, at, id);
    }
  }

  /** Only the thread under the write lock of the bucket knows its head; the others' searches go on in the old chain. */
  lemma OthersAdd(h: Hash, t: Table, i: nat, j: nat)
    requires Inv(h, t) && Enabled(h, t, i, Add) && j < |t.threads| && j != i
    ensures ThreadOk(h, Act(h, t, i, Add), j)
  {
    hide OnChain, Named, Searched, AnswersOk, ChainOk;
    assert ThreadOk(h, t, i) && ThreadOk(h, t, j);
    var u := Act(h, t, i, Add);
    var th := t.threads[j];
    var b, c := Bucket(h, t, t.threads[i].name), Bucket(h, t, th.name);
    assert Bucket(h, u, th.name) == c;
    assert t.heads[b] <= |t.atoms| && t.heads[c] <= |t.atoms| && LockOk(t.locks[b]);
    var x := Atom(t.threads[i].name, t.heads[b]);
    match th.pc
    case Reading(a, at) => SearchedGrows(t.atoms, x, a, at, th.name);
    case Searching(a, at) => SearchedGrows(t.atoms, x, a, at, th.name);
    case WantWrite(a) => NamedGrows(t.atoms, x, a, th.name);
    case Checking(a) => NamedGrows(t.atoms, x, a, th.name);
    case Adding(a) => NamedGrows(t.atoms, x, a, th.name);
    case Leaving(id) => ChainExtends(t.atoms, t.heads, b, x.name, c, id);
    case _ =>
  }

  lemma OwnAdd(h: Hash, t: Table, i: nat)
    requires Inv(h, t) && Enabled(h, t, i, Add)
    ensures ThreadOk(h, Act(h, t, i, Add), i)
  {
    assert ThreadOk(h, t, i);
  }

  lemma AnswersStep(h: Hash, t: Table, i: nat, act: Action)
    requires Inv(h, t) && Enabled(h, t, i, act)
    ensures AnswersOk(h, Act(h, t, i, act))
  {
    hide OnChain;
    var u := Act(h, t, i, act);
    assert ThreadOk(h, t, i);
    forall x | x in u.answers
      ensures OnChain(u.atoms, u.heads[Bucket(h, u, x.0)], x.1) && NameOf(u.atoms, x.1) == x.0
    {
      var b, c := Bucket(h, t, t.threads[i].name), Bucket(h, t, x.0);
      assert t.heads[b] <= |t.atoms| && t.heads[c] <= |t.atoms|;
      if act.Add? { ChainExtends(t.atoms, t.heads, b, t.threads[i].name, c, x.1); }
    }
  }

  /** Every step of every thread keeps the invariant. */
  lemma StepKeeps(h: Hash, t: Table, i: nat, act: Action)
    requires Inv(h, t) && Enabled(h, t, i, act)
    ensures Inv(h, Act(h, t, i, act))
  {
    hide ThreadOk, AnswersOk, ChainsOk, LockOk, KeepsLocks;
    var u := Act(h, t, i, act);
    AnswersStep(h, t, i, act);
    ChainsStep(h, t, i, act);
    forall b | 0 <= b < |u.locks|
      ensures LockOk(u.locks[b])
    {
      LocksStep(h, t, i, act, b);
    }
    forall j | 0 <= j < |u.threads|
      ensures ThreadOk(h, u, j)
    {
      if act.Add? {
        if j == i { OwnAdd(h, t, i); } else { OthersAdd(h, t, i, j); }
      } else if j == i {
        OwnOk(h, t, i, act);
      } else {
        assert t.threads[j] == u.threads[j] && ThreadOk(h, t, j);
        OthersLocks(h, t, i, act, j);
        OthersOk(h, t, u, j);
      }
    }
  }

  lemma ChainsStep(h: Hash, t: Table, i: nat, act: Action)
    requires Inv(h, t) && Enabled(h, t, i, act)
    ensures var u := Act(h, t, i, act); ChainsOk(h, u.atoms, u.heads) && |u.locks| == |u.heads|
  {
    assert ThreadOk(h, t, i);
    if act.Add? { AddChains(h, t.atoms, t.heads, Bucket(h, t, t.threads[i].name), t.threads[i].name); }
  }

  // ---------------------------------------------------------------- runs

  type Run = seq<(nat, Action)>

  predicate Legal(h: Hash, t: Table, run: Run)
    decreases |run|
  {
    && t.heads != [] && |t.locks| == |t.heads|
    && (run == [] ||
        (Enabled(h, t, run[0].0, run[0].1) && Legal(h, Act(h, t, run[0].0, run[0].1), run[1..])))
  }

  function After(h: Hash, t: Table, run: Run): (u: Table)
    requires Legal(h, t, run)
    ensures |u.heads| == |t.heads| == |u.locks|
    decreases |run|
  {
    if run == [] then t else After(h, Act(h, t, run[0].0, run[0].1), run[1..])
  }

  lemma {:induction false} RunKeeps(h: Hash, t: Table, run: Run)
    requires Inv(h, t) && Legal(h, t, run)
    ensures Inv(h, After(h, t, run))
    decreases |run|
  {
    hide Inv;
    if run != [] {
      StepKeeps(h, t, run[0].0, run[0].1);
      RunKeeps(h, Act(h, t, run[0].0, run[0].1), run[1..]);
    }
  }

  // ---------------------------------------------------------------- what a lookup gives

  /** A lookup that ends without running out of room ends with an answer: an atom of its name that is in the table. */
  lemma EndsWithAnswer(h: Hash, t: Table, i: nat, act: Action)
    requires Inv(h, t) && Enabled(h, t, i, act)
    requires Act(h, t, i, act).threads[i].pc.Idle? && !act.AddFails?
    ensures
      var u, name := Act(h, t, i, act), t.threads[i].name;
      exists id: nat {:trigger (name, id) in u.answers} ::
        && (name, id) in u.answers && OnChain(u.atoms, u.heads[Bucket(h, u, name)], id)
        && NameOf(u.atoms, id) == name
  {
    hide OnChain;
    assert ThreadOk(h, t, i);
    assert (t.threads[i].name, t.threads[i].pc.id) in Act(h, t, i, act).answers;
  }

  /** The lookup of thread i is on its way to atom id. */
  predicate Bound(t: Table, i: nat, name: string, id: nat) {
    && i < |t.threads| && t.threads[i].name == name && 0 < id <= |t.atoms| && NameOf(t.atoms, id) == name
    && match t.threads[i].pc
       case Reading(_, at) => OnChain(t.atoms, at, id)
       case Leaving(found) => found == id
       case _ => false
  }

  /** What is in its chain when a thread gets the read lock it will find. */
  lemma BoundAtLock(h: Hash, t: Table, i: nat, id: nat)
    requires Inv(h, t) && Enabled(h, t, i, ReadLock)
    requires OnChain(t.atoms, t.heads[Bucket(h, t, t.threads[i].name)], id) && NameOf(t.atoms, id) == t.threads[i].name
    ensures Bound(Act(h, t, i, ReadLock), i, t.threads[i].name, id)
  {
    ChainBounds(t.atoms, t.heads[Bucket(h, t, t.threads[i].name)], id);
  }

  /** No step of any thread keeps it from that, until it is the answer. */
  lemma BoundStep(h: Hash, t: Table, i: nat, name: string, id: nat, j: nat, act: Action)
    requires Inv(h, t) && Enabled(h, t, j, act) && Bound(t, i, name, id)
    ensures
      var u := Act(h, t, j, act);
      && t.answers <= u.answers
      && (Bound(u, i, name, id) || (j == i && act.Leave? && (name, id) in u.answers))
  {
    hide Searched, AnswersOk, Named;
    assert ThreadOk(h, t, j) && ThreadOk(h, t, i);
    if j == i {
      if act.ReadStep? { ReachesOrPasses(h, t, i, name, id); }
    } else if act.Add? {
      BoundGrows(t, i, name, id, Atom(t.threads[j].name, t.heads[Bucket(h, t, t.threads[j].name)]));
    }
  }

  lemma ReachesOrPasses(h: Hash, t: Table, i: nat, name: string, id: nat)
    requires Inv(h, t) && Enabled(h, t, i, ReadStep) && Bound(t, i, name, id)
    ensures Bound(Act(h, t, i, ReadStep), i, name, id)
  {
    hide Searched, AnswersOk, Named;
    var at, b := t.threads[i].pc.at, Bucket(h, t, name);
    assert ThreadOk(h, t, i);
    ChainBounds(t.atoms, at, id);
    if t.atoms[at - 1].name == name {
      assert OnChain(t.atoms, at, at);
      SearchedOn(t.atoms, t.threads[i].pc.a, at, name, at);
      SearchedOn(t.atoms, t.threads[i].pc.a, at, name, id);
      assert t.heads[b] <= |t.atoms| && ChainOk(h, t.atoms, t.heads[b], b, |t.heads|);
    }
  }

  lemma SearchedOn(atoms: seq<Atom>, a: nat, at: nat, name: string, id: nat)
    requires Searched(atoms, a, at, name) && OnChain(atoms, at, id)
    ensures OnChain(atoms, a, id)
  {
  }

  lemma BoundGrows(t: Table, i: nat, name: string, id: nat, x: Atom)
    requires Bound(t, i, name, id)
    ensures Bound(t.(atoms := t.atoms + [x]), i, name, id)
  {
    if t.threads[i].pc.Reading? {
      ChainBounds(t.atoms, t.threads[i].pc.at, id);
      ChainGrows(t.atoms, x, t.threads[i].pc.at, id);
    }
  }

  lemma {:induction false} BoundRun(h: Hash, t: Table, run: Run, i: nat, name: string, id: nat)
    requires Inv(h, t) && Legal(h, t, run) && (Bound(t, i, name, id) || (name, id) in t.answers)
    ensures Bound(After(h, t, run), i, name, id) || (name, id) in After(h, t, run).answers
    decreases |run|
  {
    hide Inv, Bound, Act, Enabled;
    if run != [] {
      StepKeeps(h, t, run[0].0, run[0].1);
      AnswersStay(h, t, run[0].0, run[0].1);
      if Bound(t, i, name, id) { BoundStep(h, t, i, name, id, run[0].0, run[0].1); }
      BoundRun(h, Act(h, t, run[0].0, run[0].1), run[1..], i, name, id);
    }
  }

  lemma AnswersStay(h: Hash, t: Table, i: nat, act: Action)
    requires t.heads != [] && |t.locks| == |t.heads| && Enabled(h, t, i, act)
    ensures
      var u := Act(h, t, i, act);
      u.answers == t.answers + if act.Leave? then {(t.threads[i].name, t.threads[i].pc.id)} else {}
  {
  }

  /** In every run: a name in its chain when a thread gets the read lock is what that thread answers, whatever the
      others do in the meantime; until it has, it is on its way there. */
  lemma InternedIsFound(h: Hash, t: Table, before: Run, i: nat, id: nat, after: Run)
    requires Init(t) && Legal(h, t, before) && Enabled(h, After(h, t, before), i, ReadLock)
    requires Legal(h, Act(h, After(h, t, before), i, ReadLock), after)
    requires
      var u := After(h, t, before);
      OnChain(u.atoms, u.heads[Bucket(h, u, u.threads[i].name)], id) && NameOf(u.atoms, id) == u.threads[i].name
    ensures
      var u := After(h, t, before);
      var name, w := u.threads[i].name, After(h, Act(h, u, i, ReadLock), after);
      (name, id) in w.answers || Bound(w, i, name, id)
  {
    hide Act, Bound;
    InitOk(h, t);
    RunKeeps(h, t, before);
    var u := After(h, t, before);
    BoundAtLock(h, u, i, id);
    StepKeeps(h, u, i, ReadLock);
    BoundRun(h, Act(h, u, i, ReadLock), after, i, u.threads[i].name, id);
  }

  // ---------------------------------------------------------------- locks are not left behind, and lookups end

  predicate Reader(h: Hash, t: Table, j: nat, b: nat)
    requires t.heads != []
  {
    j < |t.threads| && Bucket(h, t, t.threads[j].name) == b && (t.threads[j].pc.Reading? || t.threads[j].pc.Leaving?)
  }

  predicate Writer(h: Hash, t: Table, j: nat, b: nat)
    requires t.heads != []
  {
    && j < |t.threads| && Bucket(h, t, t.threads[j].name) == b
    && (t.threads[j].pc.Checking? || t.threads[j].pc.Searching? || t.threads[j].pc.Adding? || t.threads[j].pc.Leaving?)
  }

  /** Who has a lock is where it is needed. */
  ghost predicate Owned(h: Hash, t: Table) {
    && t.heads != [] && |t.locks| == |t.heads|
    && (forall b, j {:trigger j in t.locks[b].readers} :: 0 <= b < |t.locks| && j in t.locks[b].readers ==>
          Reader(h, t, j, b))
    && (forall b, j {:trigger j in t.locks[b].writers} :: 0 <= b < |t.locks| && j in t.locks[b].writers ==>
          Writer(h, t, j, b))
  }

  lemma OwnedStep(h: Hash, t: Table, i: nat, act: Action)
    requires Owned(h, t) && Enabled(h, t, i, act)
    ensures Owned(h, Act(h, t, i, act))
  {
    var u := Act(h, t, i, act);
    var b := Bucket(h, t, t.threads[i].name);
    forall c, j | 0 <= c < |u.locks|
      ensures j in u.locks[c].readers ==> Reader(h, u, j, c)
      ensures j in u.locks[c].writers ==> Writer(h, u, j, c)
    {
      assert c != b ==> u.locks[c] == t.locks[c];
      assert j in t.locks[c].readers ==> Reader(h, t, j, c);
      assert j in t.locks[c].writers ==> Writer(h, t, j, c);
    }
  }

  lemma {:induction false} OwnedRun(h: Hash, t: Table, run: Run)
    requires Owned(h, t) && Legal(h, t, run)
    ensures Owned(h, After(h, t, run))
    decreases |run|
  {
    hide Owned, Act, Enabled;
    if run != [] {
      OwnedStep(h, t, run[0].0, run[0].1);
      OwnedRun(h, Act(h, t, run[0].0, run[0].1), run[1..]);
    }
  }

  /** No other thread has a lock. */
  predicate Alone(t: Table, i: nat) {
    forall j :: 0 <= j < |t.threads| && j != i ==>
      t.threads[j].pc.Idle? || t.threads[j].pc.WantRead? || t.threads[j].pc.WantWrite?
  }

  /** The one thing a thread can do next, if there is room. */
  function Next(pc: Pc): Action
    requires !pc.Idle?
  {
    match pc
    case WantRead => ReadLock
    case Reading(_, _) => ReadStep
    case WantWrite(_) => WriteLock
    case Checking(_) => Recheck
    case Searching(_, _) => WriteStep
    case Adding(_) => Add
    case Leaving(_) => Leave
  }

  function Left(pc: Pc): (nat, nat) {
    match pc
    case Idle => (0, 0)
    case Leaving(_) => (1, 0)
    case Adding(_) => (2, 0)
    case Searching(_, at) => (3, at)
    case Checking(_) => (4, 0)
    case WantWrite(_) => (5, 0)
    case Reading(_, at) => (6, at)
    case WantRead => (7, 0)
  }

  predicate Less(x: (nat, nat), y: (nat, nat)) { x.0 < y.0 || (x.0 == y.0 && x.1 < y.1) }

  /** A lookup that no other thread keeps from a lock can go on, in one way only, ... */
  lemma NextStep(h: Hash, t: Table, i: nat, act: Action)
    requires Inv(h, t) && Owned(h, t) && Alone(t, i) && i < |t.threads| && !t.threads[i].pc.Idle?
    ensures t.heads != [] && |t.locks| == |t.heads|
    ensures Enabled(h, t, i, act) <==> act == Next(t.threads[i].pc) || (act.AddFails? && t.threads[i].pc.Adding?)
  {
    hide OnChain, Named, AnswersOk, ChainOk, Owned, Alone;
    assert ThreadOk(h, t, i);
    NoneHolds(h, t, i, Bucket(h, t, t.threads[i].name));
  }

  /** ... and comes nearer to its end. */
  lemma NextNearer(h: Hash, t: Table, i: nat, act: Action)
    requires Inv(h, t) && i < |t.threads| && Enabled(h, t, i, act) && !act.Start?
    ensures Less(Left(Act(h, t, i, act).threads[i].pc), Left(t.threads[i].pc))
    ensures |Act(h, t, i, act).threads| == |t.threads| && Act(h, t, i, act).threads[i].name == t.threads[i].name
    ensures Alone(t, i) ==> Alone(Act(h, t, i, act), i)
  {
    hide OnChain, Named, AnswersOk, ChainOk;
    assert ThreadOk(h, t, i);
  }

  lemma NoneHolds(h: Hash, t: Table, i: nat, b: nat)
    requires Owned(h, t) && Alone(t, i) && i < |t.threads| && b < |t.locks|
    ensures t.threads[i].pc.WantRead? || t.threads[i].pc.WantWrite? ==>
      t.locks[b].readers == {} && t.locks[b].writers == {}
  {
    if t.threads[i].pc.WantRead? || t.threads[i].pc.WantWrite? {
      forall j
        ensures j !in t.locks[b].readers && j !in t.locks[b].writers
      {
        assert j in t.locks[b].readers ==> Reader(h, t, j, b);
        assert j in t.locks[b].writers ==> Writer(h, t, j, b);
      }
    }
  }

  /** So it ends: with an answer, or for want of room. */
  lemma {:induction false} LookupEnds(h: Hash, t: Table, i: nat, room: bool) returns (run: Run)
    requires Inv(h, t) && Owned(h, t) && Alone(t, i) && i < |t.threads| && !t.threads[i].pc.Idle?
    ensures run != [] && Legal(h, t, run) && forall k :: 0 <= k < |run| ==> run[k].0 == i
    ensures |After(h, t, run).threads| == |t.threads| && After(h, t, run).threads[i].pc.Idle?
    ensures
      var u, name := After(h, t, run), t.threads[i].name;
      || (!room && run[|run| - 1].1.AddFails?)
      || exists id: nat {:trigger (name, id) in u.answers} ::
           && (name, id) in u.answers && OnChain(u.atoms, u.heads[Bucket(h, u, name)], id)
           && NameOf(u.atoms, id) == name
    decreases Left(t.threads[i].pc).0, Left(t.threads[i].pc).1
  {
    hide Inv, Owned, Alone, Act, Enabled, Left, OnChain;
    var act := if t.threads[i].pc.Adding? && !room then AddFails else Next(t.threads[i].pc);
    NextStep(h, t, i, act);
    NextNearer(h, t, i, act);
    StepKeeps(h, t, i, act);
    OwnedStep(h, t, i, act);
    var u := Act(h, t, i, act);
    if u.threads[i].pc.Idle? {
      run := [(i, act)];
      OneStep(h, t, i, act, []);
      if !act.AddFails? { EndsWithAnswer(h, t, i, act); }
    } else {
      var rest := LookupEnds(h, u, i, room);
      run := [(i, act)] + rest;
      OneStep(h, t, i, act, rest);
    }
  }

  /** After any run from an empty table, a lookup under way that is left alone ends so. */
  lemma EveryLookupEnds(h: Hash, t: Table, before: Run, i: nat, room: bool) returns (run: Run)
    requires Init(t) && Legal(h, t, before) && i < |After(h, t, before).threads|
    requires !After(h, t, before).threads[i].pc.Idle? && Alone(After(h, t, before), i)
    ensures Legal(h, After(h, t, before), run) && forall k :: 0 <= k < |run| ==> run[k].0 == i
    ensures
      var w, name := After(h, After(h, t, before), run), After(h, t, before).threads[i].name;
      && run != [] && i < |w.threads| && w.threads[i].pc.Idle?
      && ((!room && run[|run| - 1].1.AddFails?) ||
          exists id: nat {:trigger (name, id) in w.answers} :: (name, id) in w.answers && NameOf(w.atoms, id) == name)
  {
    hide Inv, Owned, Act, Enabled, OnChain, Alone;
    InitOk(h, t);
    InitOwned(h, t);
    RunKeeps(h, t, before);
    OwnedRun(h, t, before);
    run := LookupEnds(h, After(h, t, before), i, room);
  }

  lemma InitOwned(h: Hash, t: Table)
    requires Init(t)
    ensures Owned(h, t)
  {
  }

  lemma {:induction false} OneStep(h: Hash, t: Table, i: nat, act: Action, rest: Run)
    requires Inv(h, t) && Enabled(h, t, i, act) && Legal(h, Act(h, t, i, act), rest)
    ensures Legal(h, t, [(i, act)] + rest)
    ensures After(h, t, [(i, act)] + rest) == After(h, Act(h, t, i, act), rest)
  {
    hide Act, Enabled;
    assert ([(i, act)] + rest)[1..] == rest;
  }

  /** Whatever the interleaving, all lookups of a name get the same atom, and it has that name. */
  lemma LookupsAgree(h: Hash, t: Table, run: Run, name: string, id: nat, id': nat)
    requires Init(t) && Legal(h, t, run)
    requires (name, id) in After(h, t, run).answers && (name, id') in After(h, t, run).answers
    ensures id == id' && NameOf(After(h, t, run).atoms, id) == name
  {
    InitOk(h, t);
    RunKeeps(h, t, run);
    var u := After(h, t, run);
    var b := Bucket(h, u, name);
    assert u.heads[b] <= |u.atoms| && ChainOk(h, u.atoms, u.heads[b], b, |u.heads|);
  }

  /** A thread that finds, under the write lock, the head it searched from may add its atom: nobody has since. */
  lemma UnchangedHead(h: Hash, t: Table, run: Run, i: nat)
    requires Init(t) && Legal(h, t, run) && i < |After(h, t, run).threads|
    requires
      var u := After(h, t, run);
      u.threads[i].pc.Checking? && u.threads[i].pc.a == u.heads[Bucket(h, u, u.threads[i].name)]
    ensures
      var u := After(h, t, run);
      !Named(u.atoms, u.heads[Bucket(h, u, u.threads[i].name)], u.threads[i].name)
  {
    InitOk(h, t);
    RunKeeps(h, t, run);
    assert ThreadOk(h, After(h, t, run), i);
  }

  /** No chain ever holds two atoms of one name. */
  lemma NamesUnique(h: Hash, t: Table, run: Run, b: nat, id: nat, id': nat)
    requires Init(t) && Legal(h, t, run) && b < |After(h, t, run).heads|
    requires
      var u := After(h, t, run);
      OnChain(u.atoms, u.heads[b], id) && OnChain(u.atoms, u.heads[b], id') &&
          NameOf(u.atoms, id) == NameOf(u.atoms, id')
    ensures id == id'
  {
    InitOk(h, t);
    RunKeeps(h, t, run);
    var u := After(h, t, run);
    assert u.heads[b] <= |u.atoms| && ChainOk(h, u.atoms, u.heads[b], b, |u.heads|);
  }
}
