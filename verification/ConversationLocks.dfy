/**
 * Lock order of the conversation store. Every operation takes its conversation locks in ascending order
 * of id and the storage transaction last, so no set of processes can ever be stuck on one another.
 */
module ConversationLocks {
  import opened Ordering

  datatype Lock = Conversation(id: string) | Storage

  predicate Precedes(a: Lock, b: Lock) {
    a.Conversation? && (b.Storage? || Less(a.id, b.id))
  }

  lemma PrecedesTransitive(a: Lock, b: Lock, c: Lock)
    requires Precedes(a, b) && Precedes(b, c)
    ensures Precedes(a, c)
  {
    if c.Conversation? {
      LessTransitive(a.id, b.id, c.id);
    }
  }

  lemma PrecedesTotal(a: Lock, b: Lock)
    ensures Precedes(a, b) || a == b || Precedes(b, a)
    ensures !Precedes(a, a)
  {
    if a.Conversation? {
      LessTrichotomy(a.id, a.id);
      if b.Conversation? {
        LessTrichotomy(a.id, b.id);
      }
    }
  }

  // ---------------------------------------------------------------- what each operation does with locks

  datatype Action = Acquire(lock: Lock) | Release(lock: Lock)

  /** `Locked` is rename and branch (two ids), archive, restore, delete and save (one id): the locks of
      `sorted(set(ids))`, then one transaction. `Update` holds its lock across the callback, which may run
      transactions of its own but takes no conversation lock. */
  datatype Operation =
    | Locked(ids: seq<string>)
    | Update(id: string, begins: bool, callbackTransactions: nat)

  const TRANSACTION := [Acquire(Storage), Release(Storage)]

  function Transactions(n: nat): seq<Action> {
    if n == 0 then [] else TRANSACTION + Transactions(n - 1)
  }

  function AcquireAll(ids: seq<string>): seq<Action> {
    if ids == [] then [] else [Acquire(Conversation(ids[0]))] + AcquireAll(ids[1..])
  }

  /** The exit stack releases in reverse order. */
  function ReleaseAll(ids: seq<string>): seq<Action> {
    if ids == [] then [] else ReleaseAll(ids[1..]) + [Release(Conversation(ids[0]))]
  }

  function Script(op: Operation): seq<Action> {
    match op
    case Locked(ids) => AcquireAll(ids) + TRANSACTION + ReleaseAll(ids)
    case Update(id, begins, n) =>
      [Acquire(Conversation(id))]
      + (if begins then TRANSACTION else []) + Transactions(n) + TRANSACTION
      + [Release(Conversation(id))]
  }

  /** `_locked_many`: the ids to lock, without repetition, in ascending order. */
  method LockedMany(ids: seq<string>) returns (op: Operation)
    ensures op.Locked? && Ascending(op.ids) && forall id :: id in op.ids <==> id in ids
  {
    var distinct := set id | id in ids;
    var sorted := Sorted(distinct);
    op := Locked(sorted);
  }

  /** Locks are only taken above those already held, only held ones are released, and none is kept. */
  ghost predicate Disciplined(held: set<Lock>, rest: seq<Action>)
    decreases |rest|
  {
    if rest == [] then held == {}
    else match rest[0]
      case Acquire(l) => (forall h :: h in held ==> Precedes(h, l)) && Disciplined(held + {l}, rest[1..])
      case Release(l) => l in held && Disciplined(held - {l}, rest[1..])
  }

  lemma TransactionDisciplined(held: set<Lock>, rest: seq<Action>)
    requires (forall h :: h in held ==> h.Conversation?) && Disciplined(held, rest)
    ensures Disciplined(held, TRANSACTION + rest)
  {
    var actions := TRANSACTION + rest;
    assert actions[1..] == [Release(Storage)] + rest && actions[1..][1..] == rest;
    assert held + {Storage} - {Storage} == held;
  }

  lemma {:induction false} TransactionsDisciplined(n: nat, held: set<Lock>, rest: seq<Action>)
    requires (forall h :: h in held ==> h.Conversation?) && Disciplined(held, rest)
    ensures Disciplined(held, Transactions(n) + rest)
  {
    if n == 0 {
      assert Transactions(n) + rest == rest;
    } else {
      TransactionsDisciplined(n - 1, held, rest);
      TransactionDisciplined(held, Transactions(n - 1) + rest);
      assert Transactions(n) + rest == TRANSACTION + (Transactions(n - 1) + rest);
    }
  }

  function Locks(ids: seq<string>): set<Lock> {
    set id | id in ids :: Conversation(id)
  }

  lemma {:induction false} ReleaseAllDisciplined(held: set<Lock>, ids: seq<string>, rest: seq<Action>)
    requires Locks(ids) !! held && Ascending(ids) && Disciplined(held, rest)
    ensures Disciplined(held + Locks(ids), ReleaseAll(ids) + rest)
    decreases |ids|
  {
    if ids == [] {
      assert ReleaseAll(ids) + rest == rest && held + Locks(ids) == held;
    } else {
      var l := Conversation(ids[0]);
      var rest' := [Release(l)] + rest;
      ReleaseFirst(held, l, rest);
      FirstApart(ids);
      hide Disciplined;
      assert Conversation(ids[0]) in Locks(ids);
      ReleaseAllDisciplined(held + {l}, ids[1..], rest');
      assert ReleaseAll(ids) + rest == ReleaseAll(ids[1..]) + rest';
      assert held + {l} + Locks(ids[1..]) == held + Locks(ids);
    }
  }

  lemma ReleaseFirst(held: set<Lock>, l: Lock, rest: seq<Action>)
    requires l !in held && Disciplined(held, rest)
    ensures Disciplined(held + {l}, [Release(l)] + rest)
  {
    assert ([Release(l)] + rest)[1..] == rest && held + {l} - {l} == held;
  }

  lemma FirstApart(ids: seq<string>)
    requires ids != [] && Ascending(ids)
    ensures Locks(ids) == {Conversation(ids[0])} + Locks(ids[1..]) && Conversation(ids[0]) !in Locks(ids[1..])
  {
    forall j | 1 <= j < |ids| ensures ids[j] != ids[0] {
      LessTrichotomy(ids[0], ids[j]);
    }
  }

  lemma {:induction false} AcquireAllDisciplined(held: set<Lock>, ids: seq<string>, rest: seq<Action>)
    requires Ascending(ids) && (forall h, id :: h in held && id in ids ==> Precedes(h, Conversation(id)))
    requires Disciplined(held + Locks(ids), rest)
    ensures Disciplined(held, AcquireAll(ids) + rest)
    decreases |ids|
  {
    if ids == [] {
      assert AcquireAll(ids) + rest == rest && held + Locks(ids) == held;
    } else {
      var l := Conversation(ids[0]);
      assert Locks(ids) == {l} + Locks(ids[1..]);
      assert held + {l} + Locks(ids[1..]) == held + Locks(ids);
      forall id | id in ids[1..] ensures Precedes(l, Conversation(id)) {
        var j :| 1 <= j < |ids| && ids[j] == id;
      }
      AcquireAllDisciplined(held + {l}, ids[1..], rest);
      assert (AcquireAll(ids) + rest)[1..] == AcquireAll(ids[1..]) + rest;
    }
  }

  lemma NothingHeld()
    ensures Disciplined({}, [])
  {
  }

  lemma LockedDisciplined(ids: seq<string>)
    requires Ascending(ids)
    ensures Disciplined({}, Script(Locked(ids)))
  {
    hide Disciplined;
    NothingHeld();
    ReleaseAllDisciplined({}, ids, []);
    assert ReleaseAll(ids) + [] == ReleaseAll(ids) && {} + Locks(ids) == Locks(ids);
    TransactionDisciplined(Locks(ids), ReleaseAll(ids));
    AcquireAllDisciplined({}, ids, TRANSACTION + ReleaseAll(ids));
    assert Script(Locked(ids)) == AcquireAll(ids) + (TRANSACTION + ReleaseAll(ids));
  }

  /** Taking a lock first and giving it back last. */
  lemma LastReleased(l: Lock)
    ensures Disciplined({l}, [Release(l)])
  {
    assert {l} - {l} == {} && [Release(l)][1..] == [];
    assert Disciplined({}, []);
  }

  lemma UpdateDisciplined(id: string, begins: bool, n: nat)
    ensures Disciplined({}, Script(Update(id, begins, n)))
  {
    hide Disciplined;
    var l := Conversation(id);
    var release := [Release(l)];
    LastReleased(l);
    var body := (if begins then TRANSACTION else []) + (Transactions(n) + (TRANSACTION + release));
    assert Disciplined({l}, body) by {
      TransactionDisciplined({l}, release);
      TransactionsDisciplined(n, {l}, TRANSACTION + release);
      TransactionDisciplined({l}, Transactions(n) + (TRANSACTION + release));
      assert [] + (Transactions(n) + (TRANSACTION + release)) == Transactions(n) + (TRANSACTION + release);
    }
    HeldAcross(l, body);
    assert Script(Update(id, begins, n)) == [Acquire(l)] + body;
  }

  lemma HeldAcross(l: Lock, body: seq<Action>)
    ensures Disciplined({l}, body) ==> Disciplined({}, [Acquire(l)] + body)
  {
    assert ([Acquire(l)] + body)[1..] == body && {} + {l} == {l};
  }

  /** Every operation of the store is disciplined. */
  lemma ScriptsAreDisciplined(op: Operation)
    requires op.Locked? ==> Ascending(op.ids)
    ensures Disciplined({}, Script(op))
  {
    match op
    case Locked(ids) => LockedDisciplined(ids);
    case Update(id, begins, n) => UpdateDisciplined(id, begins, n);
  }

  // ---------------------------------------------------------------- what is held while an operation writes

  /** The conversations that an operation is about. */
  function Ids(op: Operation): seq<string> {
    match op
    case Locked(ids) => ids
    case Update(id, _, _) => [id]
  }

  /** Its transactions: one, or for an update the commit, the start if the turn begins, and the callback's. */
  function Count(op: Operation): nat {
    match op
    case Locked(_) => 1
    case Update(_, begins, n) => n + if begins then 2 else 1
  }

  /** Before action `i` the lock has been taken and not given back since. */
  ghost predicate HeldAt(actions: seq<Action>, i: int, l: Lock) {
    exists j :: 0 <= j < i <= |actions| && actions[j] == Acquire(l)
                && forall k :: j < k < i ==> actions[k] != Release(l)
  }

  lemma {:induction false} AcquireAllAt(ids: seq<string>)
    ensures |AcquireAll(ids)| == |ids|
    ensures forall m :: 0 <= m < |ids| ==> AcquireAll(ids)[m] == Acquire(Conversation(ids[m]))
  {
    if ids != [] {
      AcquireAllAt(ids[1..]);
    }
  }

  lemma {:induction false} ReleaseAllOnly(ids: seq<string>)
    ensures |ReleaseAll(ids)| == |ids|
    ensures forall a :: a in ReleaseAll(ids) ==> a.Release? && a.lock != Storage
  {
    if ids != [] {
      ReleaseAllOnly(ids[1..]);
    }
  }

  lemma {:induction false} TransactionsAt(n: nat)
    ensures |Transactions(n)| == 2 * n
    ensures forall m :: 0 <= m < 2 * n ==>
              Transactions(n)[m] == if m % 2 == 0 then Acquire(Storage) else Release(Storage)
  {
    if n > 0 {
      TransactionsAt(n - 1);
      assert forall m :: 2 <= m < 2 * n ==> Transactions(n)[m] == Transactions(n - 1)[m - 2];
    }
  }

  lemma {:induction false} TransactionAtTheEnd(n: nat)
    ensures Transactions(n + 1) == Transactions(n) + TRANSACTION
  {
    if n == 0 {
      assert Transactions(1) == TRANSACTION + [] && Transactions(0) == [];
    } else {
      TransactionAtTheEnd(n - 1);
      assert TRANSACTION + (Transactions(n - 1) + TRANSACTION) == TRANSACTION + Transactions(n - 1) + TRANSACTION;
    }
  }

  lemma OneLock(id: string)
    ensures AcquireAll([id]) == [Acquire(Conversation(id))] && ReleaseAll([id]) == [Release(Conversation(id))]
  {
    assert AcquireAll([id]) == [Acquire(Conversation(id))] + AcquireAll([]);
    assert ReleaseAll([id]) == ReleaseAll([]) + [Release(Conversation(id))];
  }

  lemma FirstTransactions(n: nat)
    ensures Transactions(1) == TRANSACTION && Transactions(n + 1) == TRANSACTION + Transactions(n)
  {
    assert Transactions(1) == TRANSACTION + Transactions(0);
  }

  lemma ScriptParts(op: Operation)
    ensures Script(op) == AcquireAll(Ids(op)) + Transactions(Count(op)) + ReleaseAll(Ids(op))
  {
    hide Transactions, AcquireAll, ReleaseAll;
    match op
    case Locked(ids) => FirstTransactions(0);
    case Update(id, begins, n) =>
      OneLock(id);
      TransactionAtTheEnd(n);
      FirstTransactions(n + 1);
      var begin := if begins then TRANSACTION else [];
      assert Transactions(Count(op)) == begin + Transactions(n + 1);
      assert begin + (Transactions(n) + TRANSACTION) == begin + Transactions(n) + TRANSACTION;
      SameScript([Acquire(Conversation(id))], begin, Transactions(n), [Release(Conversation(id))]);
  }

  lemma SameScript(a: seq<Action>, begin: seq<Action>, middle: seq<Action>, z: seq<Action>)
    ensures a + begin + middle + TRANSACTION + z == a + (begin + (middle + TRANSACTION)) + z
  {
  }

  /** Every operation takes the locks of its conversations, runs its transactions, each begun and ended by
      consecutive actions, and gives the locks back. */
  lemma ScriptAt(op: Operation, i: nat)
    requires i < |Script(op)|
    ensures var locks, a := |Ids(op)|, Script(op)[i];
            && |Script(op)| == 2 * locks + 2 * Count(op)
            && (i < locks ==> a == Acquire(Conversation(Ids(op)[i])))
            && (locks <= i < locks + 2 * Count(op) ==>
                  a == if (i - locks) % 2 == 0 then Acquire(Storage) else Release(Storage))
            && (locks + 2 * Count(op) <= i ==> a.Release? && a.lock != Storage)
  {
    ScriptParts(op);
    var ids, n := Ids(op), Count(op);
    AcquireAllAt(ids);
    TransactionsAt(n);
    ReleaseAllOnly(ids);
    if |ids| <= i < |ids| + 2 * n {
      assert Script(op)[i] == Transactions(n)[i - |ids|];
    }
    hide Script, Transactions, ReleaseAll, AcquireAll;
    assert |ids| + 2 * n <= i ==> Script(op)[i] in ReleaseAll(ids);
  }

  /** From the beginning of its first transaction to the end of its last an operation holds the locks of all
      its conversations, across the callback of an update too. */
  lemma HeldThroughout(op: Operation, id: string, i: nat, j: nat, k: nat)
    requires id in Ids(op) && i <= j <= k < |Script(op)|
    requires Script(op)[i] == Acquire(Storage) && Script(op)[k] == Release(Storage)
    ensures HeldAt(Script(op), j, Conversation(id))
  {
    hide Script, Ids, Count;
    ScriptAt(op, i);
    ScriptAt(op, k);
    var m :| 0 <= m < |Ids(op)| && Ids(op)[m] == id;
    ScriptAt(op, m);
    forall x | m < x < j ensures Script(op)[x] != Release(Conversation(id)) {
      ScriptAt(op, x);
    }
  }

  /** Whenever a transaction begins, the conversation locks `own` are held. */
  ghost predicate Guarded(own: seq<string>, held: set<Lock>, rest: seq<Action>)
    decreases |rest|
  {
    rest != [] ==>
      match rest[0]
      case Acquire(l) =>
        && (l == Storage ==> forall id :: id in own ==> Conversation(id) in held)
        && Guarded(own, held + {l}, rest[1..])
      case Release(l) => Guarded(own, held - {l}, rest[1..])
  }

  lemma {:induction false} GuardedFrom(own: seq<string>, script: seq<Action>, i: nat, held: set<Lock>)
    requires i <= |script| && forall l :: HeldAt(script, i, l) ==> l in held
    requires forall j, id :: 0 <= j < |script| && script[j] == Acquire(Storage) && id in own ==>
                               HeldAt(script, j, Conversation(id))
    ensures Guarded(own, held, script[i..])
    decreases |script| - i
  {
    if i < |script| {
      var held' := if script[i].Acquire? then held + {script[i].lock} else held - {script[i].lock};
      forall l | HeldAt(script, i + 1, l) ensures l in held' {
        var j :| 0 <= j < i + 1 && script[j] == Acquire(l) && forall k :: j < k < i + 1 ==> script[k] != Release(l);
        assert j < i ==> HeldAt(script, i, l) && script[i] != Release(l);
      }
      GuardedFrom(own, script, i + 1, held');
      assert script[i..][1..] == script[i + 1..];
    }
  }

  lemma ScriptsAreGuarded(op: Operation)
    ensures Guarded(Ids(op), {}, Script(op))
  {
    hide Script, Ids, Count, Guarded;
    var script := Script(op);
    forall j, id | 0 <= j < |script| && script[j] == Acquire(Storage) && id in Ids(op)
      ensures HeldAt(script, j, Conversation(id))
    {
      ScriptAt(op, j);
      ScriptAt(op, j + 1);
      HeldThroughout(op, id, j, j, j + 1);
    }
    GuardedFrom(Ids(op), script, 0, {});
    assert script[0..] == script;
  }

  lemma {:induction false} ReleasesAreGuarded(own: seq<string>, held: set<Lock>, rest: seq<Action>)
    requires forall a :: a in rest ==> a.Release?
    ensures Guarded(own, held, rest)
    decreases |rest|
  {
    if rest != [] {
      assert rest[0] in rest;
      ReleasesAreGuarded(own, held - {rest[0].lock}, rest[1..]);
    }
  }

  // ---------------------------------------------------------------- processes

  /** A process with the conversations it works on, the locks it holds and what is left of its script. */
  datatype Process = Process(own: seq<string>, held: set<Lock>, rest: seq<Action>)

  type System = map<nat, Process>

  datatype Event =
    | Spawn(pid: nat, op: Operation)
    | Advance(pid: nat)
    | Unwind(pid: nat, rest: seq<Action>)
    | Die(pid: nat)

  predicate Free(s: System, pid: nat, l: Lock) {
    forall q :: q in s && q != pid ==> l !in s[q].held
  }

  /** A process starts an operation, takes its next action (a lock must be free), unwinds after an error by
      releasing what it holds, or dies, in which case the system releases its locks. */
  ghost predicate Next(s: System, e: Event, s': System) {
    match e
    case Spawn(pid, op) =>
      pid !in s && (op.Locked? ==> Ascending(op.ids)) && s' == s[pid := Process(Ids(op), {}, Script(op))]
    case Advance(pid) =>
      && pid in s && s[pid].rest != []
      && var p := s[pid];
         (match p.rest[0]
          case Acquire(l) => Free(s, pid, l) && s' == s[pid := p.(held := p.held + {l}, rest := p.rest[1..])]
          case Release(l) => s' == s[pid := p.(held := p.held - {l}, rest := p.rest[1..])])
    case Unwind(pid, rest) =>
      && pid in s && Disciplined(s[pid].held, rest) && (forall a :: a in rest ==> a.Release?)
      && s' == s[pid := s[pid].(rest := rest)]
    case Die(pid) => pid in s && s' == s - {pid}
  }

  ghost predicate Run(s: System, es: seq<Event>, s': System)
    decreases |es|
  {
    if es == [] then s == s' else exists m :: Next(s, es[0], m) && Run(m, es[1..], s')
  }

  /** Every process is disciplined and guards its transactions, and no lock is held twice. */
  ghost predicate Inv(s: System) {
    && (forall p :: p in s ==> Disciplined(s[p].held, s[p].rest) && Guarded(s[p].own, s[p].held, s[p].rest))
    && (forall p, q :: p in s && q in s && p != q ==> s[p].held !! s[q].held)
  }

  lemma StepKeepsInv(s: System, e: Event, s': System)
    requires Inv(s) && Next(s, e, s')
    ensures Inv(s')
  {
    match e
    case Spawn(pid, op) =>
      ScriptsAreDisciplined(op);
      ScriptsAreGuarded(op);
    case Unwind(pid, rest) => ReleasesAreGuarded(s[pid].own, s[pid].held, rest);
    case _ =>
  }

  lemma {:induction false} RunKeepsInv(s: System, es: seq<Event>, s': System)
    requires Inv(s) && Run(s, es, s')
    ensures Inv(s')
    decreases |es|
  {
    if es != [] {
      hide Inv, Next;
      var m :| Next(s, es[0], m) && Run(m, es[1..], s');
      StepKeepsInv(s, es[0], m);
      RunKeepsInv(m, es[1..], s');
    }
  }

  /** In every reachable state, a process about to begin a transaction holds the locks of all its
      conversations, and no other process holds one of them or is about to write to one of them. */
  lemma WritersAreAlone(es: seq<Event>, s: System, pid: nat, id: string, other: nat)
    requires Run(map[], es, s) && pid in s && s[pid].rest != [] && s[pid].rest[0] == Acquire(Storage)
    requires id in s[pid].own && other in s && other != pid
    ensures Conversation(id) in s[pid].held && Conversation(id) !in s[other].held
    ensures !(id in s[other].own && s[other].rest != [] && s[other].rest[0] == Acquire(Storage))
  {
    RunKeepsInv(map[], es, s);
    hide Disciplined;
    assert Guarded(s[pid].own, s[pid].held, s[pid].rest);
    assert Guarded(s[other].own, s[other].held, s[other].rest);
  }

  // ---------------------------------------------------------------- no deadlock

  predicate Unfinished(s: System, pid: nat) {
    pid in s && s[pid].rest != []
  }

  predicate Waits(s: System, pid: nat) {
    Unfinished(s, pid) && s[pid].rest[0].Acquire?
  }

  function Awaited(s: System, pid: nat): Lock
    requires Waits(s, pid)
  {
    s[pid].rest[0].lock
  }

  /** Among waiting processes, one that waits for a lock that no other one waits above. */
  lemma {:induction false} HighestWait(s: System, waiting: set<nat>) returns (top: nat)
    requires waiting != {} && forall p :: p in waiting ==> Waits(s, p)
    ensures top in waiting && Waits(s, top)
    ensures forall p :: p in waiting && Waits(s, p) ==> !Precedes(Awaited(s, top), Awaited(s, p))
    decreases |waiting|
  {
    var p :| p in waiting;
    var others := waiting - {p};
    PrecedesTotal(Awaited(s, p), Awaited(s, p));
    if others == {} {
      assert waiting == {p};
      return p;
    }
    var best := HighestWait(s, others);
    var a, b := Awaited(s, p), Awaited(s, best);
    PrecedesTotal(a, b);
    if Precedes(b, a) {
      top := p;
      forall q | q in waiting ensures !Precedes(a, Awaited(s, q)) {
        if Precedes(a, Awaited(s, q)) {
          PrecedesTransitive(b, a, Awaited(s, q));
        }
      }
    } else {
      top := best;
    }
  }

  /** In every reachable state with an unfinished process, some unfinished process can take its next action. */
  lemma NoDeadlock(es: seq<Event>, s: System, pid: nat)
    requires Run(map[], es, s) && Unfinished(s, pid)
    ensures exists p, s' :: Unfinished(s, p) && Next(s, Advance(p), s')
  {
    RunKeepsInv(map[], es, s);
    if exists p :: Unfinished(s, p) && s[p].rest[0].Release? {
      var p :| Unfinished(s, p) && s[p].rest[0].Release?;
      assert Next(s, Advance(p), s[p := s[p].(held := s[p].held - {s[p].rest[0].lock}, rest := s[p].rest[1..])]);
    } else {
      var waiting := set p | p in s && Unfinished(s, p);
      assert pid in waiting;
      var top := HighestWait(s, waiting);
      var l := Awaited(s, top);
      TopIsFree(s, top, waiting);
      assert Next(s, Advance(top), s[top := s[top].(held := s[top].held + {l}, rest := s[top].rest[1..])]);
    }
  }

  /** Whoever held the highest awaited lock would be waiting for a higher one. */
  lemma TopIsFree(s: System, top: nat, waiting: set<nat>)
    requires Inv(s) && top in waiting && (forall p :: p in waiting ==> Waits(s, p))
    requires forall p :: p in s && s[p].rest != [] ==> p in waiting
    requires forall p :: p in waiting && Waits(s, p) ==> !Precedes(Awaited(s, top), Awaited(s, p))
    ensures Free(s, top, Awaited(s, top))
  {
    forall q | q in s && q != top ensures Awaited(s, top) !in s[q].held {
      assert Disciplined(s[q].held, s[q].rest);
    }
  }
}
