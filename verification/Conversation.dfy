/** Conversations and their store: index and pending-turn rules, and the two-phase turn attempt. */
module Conversation {
  import opened Wrappers

  // ---------------------------------------------------------------- model

  datatype Role = User | Assistant

  datatype Message = Message(role: Role, content: string, turnId: Option<string>)

  /** Evidence that one turn began execution: its id and a digest of the user's input. */
  datatype PendingTurn = PendingTurn(turnId: string, digest: string)

  datatype State = State(id: string, summary: string, messages: seq<Message>, start: int, next: int,
                         archived: bool, pending: seq<PendingTurn>)
  {
    predicate Indexed() {
      start >= 0 && next == start + |messages|
    }

    predicate Valid() {
      Indexed() && UniqueTurns(pending)
    }

    /** A stored record with an empty pending turn id cannot be decoded any more. */
    predicate Readable() {
      forall p :: p in pending ==> p.turnId != ""
    }

    /** An assistant message answers the turn. */
    predicate Replied(turnId: string) {
      exists m :: m in messages && m.role == Assistant && m.turnId == Some(turnId)
    }
  }

  predicate UniqueTurns(pending: seq<PendingTurn>) {
    forall i, j :: 0 <= i < j < |pending| ==> pending[i].turnId != pending[j].turnId
  }

  datatype Error =
    | InvalidId
    | MismatchedTurn
    | Unreadable
    | TurnConflict
    | TurnIncomplete
    | CallbackRaised
    | IdentityChanged
    | ChangedConcurrently
    | InvalidState
    | NotFound
    | AlreadyExists
    | IndexOutOfRange
    | ArchiveUnchanged

  /** The constructor: it completes an index left at the start, then validates. */
  function Construct(s: State): Result<State, Error> {
    var completed := if s.next == s.start && s.messages != [] then s.(next := s.start + |s.messages|) else s;
    if completed.Valid() then Ok(completed) else Err(InvalidState)
  }

  function Empty(id: string): State {
    State(id, "", [], 0, 0, false, [])
  }

  // ---------------------------------------------------------------- turn attempts

  function FindTurn(pending: seq<PendingTurn>, turnId: string): Option<PendingTurn> {
    if pending == [] then None
    else if pending[0].turnId == turnId then Some(pending[0])
    else FindTurn(pending[1..], turnId)
  }

  function Without(pending: seq<PendingTurn>, turnId: string): seq<PendingTurn> {
    if pending == [] then []
    else (if pending[0].turnId != turnId then [pending[0]] else []) + Without(pending[1..], turnId)
  }

  lemma {:induction false} FindTurnFinds(pending: seq<PendingTurn>, turnId: string)
    ensures FindTurn(pending, turnId).Some? ==>
              FindTurn(pending, turnId).value in pending && FindTurn(pending, turnId).value.turnId == turnId
    ensures FindTurn(pending, turnId).None? ==> forall p :: p in pending ==> p.turnId != turnId
  {
    if pending != [] {
      FindTurnFinds(pending[1..], turnId);
    }
  }

  lemma {:induction false} WithoutKeepsOthers(pending: seq<PendingTurn>, turnId: string)
    ensures forall p :: p in Without(pending, turnId) <==> p in pending && p.turnId != turnId
    ensures UniqueTurns(pending) ==> UniqueTurns(Without(pending, turnId))
  {
    if pending != [] {
      var rest := Without(pending[1..], turnId);
      WithoutKeepsOthers(pending[1..], turnId);
      assert pending == [pending[0]] + pending[1..];
      if UniqueTurns(pending) {
        assert forall p :: p in pending[1..] ==> p.turnId != pending[0].turnId;
        assert forall i :: 0 <= i < |rest| ==> rest[i] in rest;
      }
    }
  }

  /** Bind the turn to its input: resume the same attempt, refuse another one, or record a new one. */
  function BeginTurn(s: State, turnId: string, digest: string, resume: bool): Result<State, Error> {
    match FindTurn(s.pending, turnId)
    case Some(p) => if p.digest != digest then Err(TurnConflict) else if resume then Ok(s) else Err(TurnIncomplete)
    case None => Ok(s.(pending := s.pending + [PendingTurn(turnId, digest)]))
  }

  method BeginTurnAttempt(s: State, turnId: string, digest: string, resume: bool) returns (r: Result<State, Error>)
    ensures r == BeginTurn(s, turnId, digest, resume)
  {
    for i := 0 to |s.pending|
      invariant FindTurn(s.pending, turnId) == FindTurn(s.pending[i..], turnId)
    {
      if s.pending[i].turnId != turnId {
        continue;
      }
      if s.pending[i].digest != digest {
        return Err(TurnConflict);
      }
      return if resume then Ok(s) else Err(TurnIncomplete);
    }
    r := Ok(s.(pending := s.pending + [PendingTurn(turnId, digest)]));
  }

  function FinishTurn(s: State, turnId: Option<string>): Result<State, Error> {
    if turnId.None? then (if s.Valid() then Ok(s) else Err(InvalidState))
    else Construct(s.(pending := Without(s.pending, turnId.value)))
  }

  // ---------------------------------------------------------------- what the operations do to the collection

  type Collection = map<string, State>

  datatype Turn = Turn(id: string, digest: string)

  predicate ValidId(id: string) {
    id != "" && '/' !in id && '\\' !in id && id != "." && id != ".."
  }

  function Get(coll: Collection, id: string): Option<State> {
    if id in coll then Some(coll[id]) else None
  }

  function StateOf(coll: Collection, id: string): State {
    if id in coll then coll[id] else Empty(id)
  }

  /** What the first phase of an update leaves behind: the stored record it will insist on at commit, and
      the state it hands to the callback. */
  datatype Started = Started(coll: Collection, original: Option<State>, state: State)

  /** The first phase: load, and persist the pending turn unless it already has its reply. */
  function StartUpdate(coll: Collection, id: string, turn: Option<Turn>, resume: bool): Result<Started, Error> {
    var s := StateOf(coll, id);
    if !s.Readable() then Err(Unreadable)
    else if turn.None? || s.Replied(turn.value.id) then Ok(Started(coll, Get(coll, id), s))
    else
      var begun := BeginTurn(s, turn.value.id, turn.value.digest, resume);
      if begun.Err? then Err(begun.error)
      else Ok(Started(coll[id := begun.value], Some(begun.value), begun.value))
  }

  /** The second phase: the record must still be the one that the callback saw. */
  function CommitUpdate(coll: Collection, id: string, original: Option<State>, updated: State, turn: Option<Turn>)
    : Result<Collection, Error>
  {
    if updated.id != id then Err(IdentityChanged)
    else if Get(coll, id) != original then Err(ChangedConcurrently)
    else
      var finished := FinishTurn(updated, if turn.Some? then Some(turn.value.id) else None);
      if finished.Err? then Err(InvalidState) else Ok(coll[id := finished.value])
  }

  function Renamed(coll: Collection, from: string, to: string): Result<Collection, Error> {
    if from == to then Ok(coll)
    else if !ValidId(from) || !ValidId(to) then Err(InvalidId)
    else if from !in coll then Err(NotFound)
    else if to in coll then Err(AlreadyExists)
    else if !coll[from].Readable() then Err(Unreadable)
    else Ok(coll[to := coll[from].(id := to)] - {from})
  }

  function Branched(coll: Collection, source: string, to: string, index: Option<int>): Result<Collection, Error> {
    if !ValidId(source) || !ValidId(to) then Err(InvalidId)
    else if source !in coll then Err(NotFound)
    else if to in coll then Err(AlreadyExists)
    else if !coll[source].Readable() then Err(Unreadable)
    else
      var s := coll[source];
      var at := if index.None? then |s.messages| else index.value;
      if at < 0 || at > |s.messages| then Err(IndexOutOfRange)
      else Ok(coll[to := State(to, s.summary, s.messages[..at], s.start, s.start + at, false, [])])
  }

  /** Archive (`archived` true) or restore (`archived` false). */
  function Archived(coll: Collection, id: string, archived: bool): Result<Collection, Error> {
    if !ValidId(id) then Err(InvalidId)
    else if id !in coll then Err(NotFound)
    else if !coll[id].Readable() then Err(Unreadable)
    else if coll[id].archived == archived then Err(ArchiveUnchanged)
    else Ok(coll[id := coll[id].(archived := archived)])
  }

  function Deleted(coll: Collection, id: string): Result<Collection, Error> {
    if !ValidId(id) then Err(InvalidId) else if id !in coll then Err(NotFound) else Ok(coll - {id})
  }

  function Saved(coll: Collection, s: State): Result<Collection, Error> {
    if !ValidId(s.id) then Err(InvalidId) else if !s.Valid() then Err(InvalidState) else Ok(coll[s.id := s])
  }

  // ---------------------------------------------------------------- the store

  datatype Reply = Returned(state: State) | Raised

  /** Every stored record satisfies the index rule, has unique pending turns and is filed under its id. */
  ghost predicate ValidCollection(coll: Collection) {
    forall id :: id in coll ==> coll[id].Valid() && coll[id].id == id
  }

  lemma StartKeepsValid(coll: Collection, id: string, turn: Option<Turn>, resume: bool)
    requires ValidCollection(coll)
    ensures StartUpdate(coll, id, turn, resume).Ok? ==>
              var r := StartUpdate(coll, id, turn, resume).value;
              ValidCollection(r.coll) && r.state.Valid() && r.original == Get(r.coll, id)
  {
    if turn.Some? {
      FindTurnFinds(StateOf(coll, id).pending, turn.value.id);
    }
  }

  lemma CommitKeepsValid(coll: Collection, id: string, original: Option<State>, updated: State, turn: Option<Turn>)
    requires ValidCollection(coll)
    ensures CommitUpdate(coll, id, original, updated, turn).Ok? ==>
              ValidCollection(CommitUpdate(coll, id, original, updated, turn).value)
  {
  }

  // ---------------------------------------------------------------- the operations, field by field

  /** Some message is an assistant's reply to the turn. */
  ghost predicate HasReply(messages: seq<Message>, turnId: string) {
    exists i :: 0 <= i < |messages| && messages[i].role == Assistant && messages[i].turnId == Some(turnId)
  }

  /** When the callback runs it is given the stored conversation, or a blank one, with this turn added at the
      end of the pending ones exactly if it was given, is not pending yet and has no reply. A turn without
      reply has that state on record; otherwise nothing is written. No other record is touched. */
  lemma CallbackSeesTheRecord(coll: Collection, id: string, turn: Option<Turn>, resume: bool)
    requires StartUpdate(coll, id, turn, resume).Ok?
    ensures var started := StartUpdate(coll, id, turn, resume).value;
            var state := started.state;
            var stored := if id in coll then coll[id].pending else [];
            var begins := turn.Some? && (id in coll ==> !HasReply(coll[id].messages, turn.value.id));
            && (id in coll ==>
                  && state.id == coll[id].id && state.summary == coll[id].summary
                  && state.messages == coll[id].messages && state.start == coll[id].start
                  && state.next == coll[id].next && state.archived == coll[id].archived)
            && (id !in coll ==> state == State(id, "", [], 0, 0, false, state.pending))
            && state.pending == (if begins && forall p :: p in stored ==> p.turnId != turn.value.id
                                 then stored + [PendingTurn(turn.value.id, turn.value.digest)]
                                 else stored)
            && (begins ==> id in started.coll && started.coll[id] == state && started.original == Some(state))
            && (!begins ==> started.coll == coll)
            && (!begins && id in coll ==> started.original == Some(coll[id]))
            && (!begins && id !in coll ==> started.original == None)
            && started.coll - {id} == coll - {id}
  {
    if turn.Some? {
      RepliedIsHasReply(StateOf(coll, id), turn.value.id);
      FindTurnFinds(StateOf(coll, id).pending, turn.value.id);
    }
  }

  lemma RepliedIsHasReply(s: State, turnId: string)
    ensures s.Replied(turnId) <==> HasReply(s.messages, turnId)
  {
    if s.Replied(turnId) {
      var m :| m in s.messages && m.role == Assistant && m.turnId == Some(turnId);
      var i :| 0 <= i < |s.messages| && s.messages[i] == m;
    }
  }

  /** When an update is refused, and why: an unreadable record first, then a turn that is pending with other
      input, then one that is pending with the same input and may not be continued. */
  lemma WhenAnUpdateIsRefused(coll: Collection, id: string, turn: Option<Turn>, resume: bool)
    requires ValidCollection(coll)
    ensures var r := StartUpdate(coll, id, turn, resume);
            var stored := if id in coll then coll[id].pending else [];
            var unreadable := exists p :: p in stored && p.turnId == "";
            var begins := turn.Some? && (id in coll ==> !HasReply(coll[id].messages, turn.value.id));
            var conflict := begins && exists p :: p in stored && p.turnId == turn.value.id
                                                  && p.digest != turn.value.digest;
            var waits := begins && !resume && PendingTurn(turn.value.id, turn.value.digest) in stored;
            && (r.Err? <==> unreadable || conflict || waits)
            && (unreadable ==> r == Err(Unreadable))
            && (!unreadable && conflict ==> r == Err(TurnConflict))
            && (!unreadable && waits ==> r == Err(TurnIncomplete))
  {
    var s := StateOf(coll, id);
    if turn.Some? {
      RepliedIsHasReply(s, turn.value.id);
      FindTurnFinds(s.pending, turn.value.id);
      forall p | p in s.pending && p.turnId == turn.value.id
        ensures FindTurn(s.pending, turn.value.id) == Some(p)
      {
        FindTurnUnique(s.pending, turn.value.id, p);
      }
    }
  }

  lemma {:induction false} WithoutKeepsAll(pending: seq<PendingTurn>, turnId: string)
    requires forall i :: 0 <= i < |pending| ==> pending[i].turnId != turnId
    ensures Without(pending, turnId) == pending
  {
    if pending != [] {
      WithoutKeepsAll(pending[1..], turnId);
    }
  }

  /** Of unique pending turns the one with the id is taken out of its place. */
  lemma {:induction false} WithoutTakesOut(pending: seq<PendingTurn>, turnId: string, k: nat)
    requires UniqueTurns(pending) && k < |pending| && pending[k].turnId == turnId
    ensures Without(pending, turnId) == pending[..k] + pending[k + 1..]
  {
    if k == 0 {
      WithoutKeepsAll(pending[1..], turnId);
    } else {
      WithoutTakesOut(pending[1..], turnId, k - 1);
      assert [pending[0]] + (pending[1..][..k - 1] + pending[1..][k..]) == pending[..k] + pending[k + 1..];
    }
  }

  /** `after` is `before` without the one turn that has this id, if there is one. */
  ghost predicate TakenOut(before: seq<PendingTurn>, after: seq<PendingTurn>, turnId: string) {
    if exists k :: 0 <= k < |before| && before[k].turnId == turnId then
      exists k :: 0 <= k < |before| && before[k].turnId == turnId && after == before[..k] + before[k + 1..]
    else
      after == before
  }

  lemma WithoutIsTakenOut(pending: seq<PendingTurn>, turnId: string)
    requires UniqueTurns(pending)
    ensures TakenOut(pending, Without(pending, turnId), turnId)
    ensures UniqueTurns(Without(pending, turnId))
  {
    WithoutKeepsOthers(pending, turnId);
    if k :| 0 <= k < |pending| && pending[k].turnId == turnId {
      WithoutTakesOut(pending, turnId, k);
    } else {
      WithoutKeepsAll(pending, turnId);
    }
  }

  /** What a commit stores: what the callback returned, with its own turn taken out of the pending ones. It is
      refused for another id, then for a record that is not the one the callback saw. */
  lemma CommitStoresTheResult(coll: Collection, id: string, original: Option<State>, updated: State,
                              turn: Option<Turn>)
    requires updated.Valid()
    ensures var r := CommitUpdate(coll, id, original, updated, turn);
            var same := if id in coll then original == Some(coll[id]) else original == None;
            && (r.Ok? <==> updated.id == id && same)
            && (updated.id != id ==> r == Err(IdentityChanged))
            && (updated.id == id && !same ==> r == Err(ChangedConcurrently))
            && (r.Ok? ==>
                  && r.value - {id} == coll - {id} && id in r.value
                  && var s := r.value[id];
                     && s.id == updated.id && s.summary == updated.summary && s.messages == updated.messages
                     && s.start == updated.start && s.next == updated.next && s.archived == updated.archived
                     && (turn.None? ==> s.pending == updated.pending)
                     && (turn.Some? ==> TakenOut(updated.pending, s.pending, turn.value.id)))
  {
    hide TakenOut, UniqueTurns, Without;
    if turn.Some? {
      WithoutIsTakenOut(updated.pending, turn.value.id);
    }
  }

  /** A rename to another id moves the readable record, which changes in its id alone. */
  lemma RenameMoves(coll: Collection, from: string, to: string)
    requires from != to
    ensures var r := Renamed(coll, from, to);
            var readable := from in coll && forall p :: p in coll[from].pending ==> p.turnId != "";
            && (r.Ok? <==> ValidId(from) && ValidId(to) && readable && to !in coll)
            && (!ValidId(from) || !ValidId(to) ==> r == Err(InvalidId))
            && (ValidId(from) && ValidId(to) ==>
                  && (from !in coll ==> r == Err(NotFound))
                  && (from in coll && to in coll ==> r == Err(AlreadyExists))
                  && (from in coll && to !in coll && !readable ==> r == Err(Unreadable)))
            && (r.Ok? ==>
                  && from !in r.value && r.value - {to} == coll - {from} && to in r.value
                  && var s, was := r.value[to], coll[from];
                     && s.id == to && s.summary == was.summary && s.messages == was.messages
                     && s.start == was.start && s.next == was.next && s.archived == was.archived
                     && s.pending == was.pending)
    ensures Renamed(coll, from, from) == Ok(coll)
  {
  }

  /** A branch is a new conversation with the summary and the first messages of its source: all of them if no
      index was given. It is not archived, has no pending turn, and nothing else changes. */
  lemma BranchCopies(coll: Collection, source: string, to: string, index: Option<int>)
    ensures var r := Branched(coll, source, to, index);
            var readable := source in coll && forall p :: p in coll[source].pending ==> p.turnId != "";
            var inRange := source in coll && (index.Some? ==> 0 <= index.value <= |coll[source].messages|);
            && (r.Ok? <==> ValidId(source) && ValidId(to) && readable && to !in coll && inRange)
            && (!ValidId(source) || !ValidId(to) ==> r == Err(InvalidId))
            && (ValidId(source) && ValidId(to) ==>
                  && (source !in coll ==> r == Err(NotFound))
                  && (source in coll && to in coll ==> r == Err(AlreadyExists))
                  && (source in coll && to !in coll && !readable ==> r == Err(Unreadable))
                  && (to !in coll && readable && !inRange ==> r == Err(IndexOutOfRange)))
            && (r.Ok? ==>
                  && r.value - {to} == coll && to in r.value
                  && var s, was := r.value[to], coll[source];
                     && s.id == to && s.summary == was.summary && s.start == was.start
                     && s.messages <= was.messages && s.next == s.start + |s.messages|
                     && |s.messages| == (if index.Some? then index.value else |was.messages|)
                     && !s.archived && s.pending == [])
  {
    if Branched(coll, source, to, index).Ok? {
      assert Branched(coll, source, to, index).value - {to} == coll;
    }
  }

  /** Archiving and restoring change the mark and nothing else, and only if it was the other one. */
  lemma ArchiveMarks(coll: Collection, id: string, archived: bool)
    ensures var r := Archived(coll, id, archived);
            var readable := id in coll && forall p :: p in coll[id].pending ==> p.turnId != "";
            && (r.Ok? <==> ValidId(id) && readable && coll[id].archived != archived)
            && (!ValidId(id) ==> r == Err(InvalidId))
            && (ValidId(id) ==>
                  && (id !in coll ==> r == Err(NotFound))
                  && (id in coll && !readable ==> r == Err(Unreadable))
                  && (readable && coll[id].archived == archived ==> r == Err(ArchiveUnchanged)))
            && (r.Ok? ==>
                  && r.value - {id} == coll - {id} && id in r.value
                  && var s, was := r.value[id], coll[id];
                     && s.archived == archived && s.id == was.id && s.summary == was.summary
                     && s.messages == was.messages && s.start == was.start && s.next == was.next
                     && s.pending == was.pending)
  {
  }

  // ---------------------------------------------------------------- the store's methods

  class ConversationStore {
    var collection: Collection

    constructor ()
      ensures collection == map[]
    {
      collection := map[];
    }

    ghost predicate Valid()
      reads this
    {
      ValidCollection(collection)
    }

    /** Serialize one turn. `callback` is the model run, made outside any transaction; `meanwhile` is what
        everybody else does to the collection while it runs; `ran` says whether it ran at all. */
    method Update(id: string, turnId: Option<string>, digest: Option<string>, resume: bool,
                  callback: State -> Reply, meanwhile: Collection -> Collection)
      returns (r: Result<(), Error>, ran: bool)
      requires Valid()
      requires forall coll :: ValidCollection(coll) ==> ValidCollection(meanwhile(coll))
      modifies this
      ensures Valid()
      ensures !ValidId(id) ==> r == Err(InvalidId) && !ran && collection == old(collection)
      ensures ValidId(id) && turnId.Some? != digest.Some? ==>
                r == Err(MismatchedTurn) && !ran && collection == old(collection)
      ensures ValidId(id) && turnId.Some? == digest.Some? ==>
                var turn := if turnId.Some? then Some(Turn(turnId.value, digest.value)) else None;
                match StartUpdate(old(collection), id, turn, resume)
                case Err(error) => r == Err(error) && !ran && collection == old(collection)
                case Ok(started) =>
                  && ran
                  && var after := meanwhile(started.coll);
                     match callback(started.state)
                     case Raised => r == Err(CallbackRaised) && collection == after
                     case Returned(updated) =>
                       match CommitUpdate(after, id, started.original, updated, turn)
                       case Err(error) => r == Err(error) && collection == after
                       case Ok(committed) => r == Ok(()) && collection == committed
    {
      ran := false;
      if !ValidId(id) {
        return Err(InvalidId), ran;
      }
      if turnId.Some? != digest.Some? {
        return Err(MismatchedTurn), ran;
      }
      var turn := if turnId.Some? then Some(Turn(turnId.value, digest.value)) else None;
      StartKeepsValid(collection, id, turn, resume);
      var original := Get(collection, id);
      var state := StateOf(collection, id);
      if !state.Readable() {
        return Err(Unreadable), ran;
      }
      if turn.Some? && !state.Replied(turn.value.id) {
        var begun := BeginTurnAttempt(state, turn.value.id, turn.value.digest, resume);
        if begun.Err? {
          return Err(begun.error), ran;
        }
        state := begun.value;
        collection := collection[id := state];
        original := Get(collection, id);
      }
      ran := true;
      var reply := callback(state);
      collection := meanwhile(collection);
      if reply.Raised? {
        return Err(CallbackRaised), ran;
      }
      CommitKeepsValid(collection, id, original, reply.state, turn);
      if reply.state.id != id {
        return Err(IdentityChanged), ran;
      }
      if Get(collection, id) != original {
        return Err(ChangedConcurrently), ran;
      }
      var finished := FinishTurn(reply.state, if turn.Some? then Some(turn.value.id) else None);
      if finished.Err? {
        return Err(InvalidState), ran;
      }
      collection := collection[id := finished.value];
      r := Ok(());
    }

    method Rename(from: string, to: string) returns (r: Result<(), Error>)
      requires Valid()
      modifies this
      ensures Valid()
      ensures r.Ok? <==> Renamed(old(collection), from, to).Ok?
      ensures collection == if r.Ok? then Renamed(old(collection), from, to).value else old(collection)
      ensures r.Err? ==> r.error == Renamed(old(collection), from, to).error
    {
      if from == to {
        return Ok(());
      }
      if !ValidId(from) || !ValidId(to) {
        return Err(InvalidId);
      }
      if from !in collection {
        return Err(NotFound);
      }
      if to in collection {
        return Err(AlreadyExists);
      }
      if !collection[from].Readable() {
        return Err(Unreadable);
      }
      collection := collection[to := collection[from].(id := to)];
      collection := collection - {from};
      r := Ok(());
    }

    method Branch(source: string, to: string, index: Option<int>) returns (r: Result<State, Error>)
      requires Valid()
      modifies this
      ensures Valid()
      ensures r.Ok? <==> Branched(old(collection), source, to, index).Ok?
      ensures collection == if r.Ok? then Branched(old(collection), source, to, index).value else old(collection)
      ensures r.Ok? ==> to in collection && r.value == collection[to]
      ensures r.Err? ==> r.error == Branched(old(collection), source, to, index).error
    {
      if !ValidId(source) || !ValidId(to) {
        return Err(InvalidId);
      }
      if source !in collection {
        return Err(NotFound);
      }
      if to in collection {
        return Err(AlreadyExists);
      }
      var s := collection[source];
      if !s.Readable() {
        return Err(Unreadable);
      }
      var at := if index.None? then |s.messages| else index.value;
      if at < 0 || at > |s.messages| {
        return Err(IndexOutOfRange);
      }
      var branched := Construct(State(to, s.summary, s.messages[..at], s.start, s.start + at, false, []));
      collection := collection[to := branched.value];
      r := branched;
    }

    method SetArchived(id: string, archived: bool) returns (r: Result<(), Error>)
      requires Valid()
      modifies this
      ensures Valid()
      ensures r.Ok? <==> Archived(old(collection), id, archived).Ok?
      ensures collection == if r.Ok? then Archived(old(collection), id, archived).value else old(collection)
      ensures r.Err? ==> r.error == Archived(old(collection), id, archived).error
    {
      if !ValidId(id) {
        return Err(InvalidId);
      }
      if id !in collection {
        return Err(NotFound);
      }
      if !collection[id].Readable() {
        return Err(Unreadable);
      }
      if collection[id].archived == archived {
        return Err(ArchiveUnchanged);
      }
      collection := collection[id := collection[id].(archived := archived)];
      r := Ok(());
    }
  }

  // ---------------------------------------------------------------- pending turns are not re-run silently

  /** While a turn is pending, an update for it runs the callback if and only if the turn already has its
      reply, or the input is the same and the caller asked to continue. Otherwise it raises, and the
      collection is as it was. */
  lemma PendingTurnGuard(coll: Collection, id: string, turn: Turn, resume: bool, p: PendingTurn)
    requires ValidCollection(coll) && id in coll && coll[id].Readable()
    requires p in coll[id].pending && p.turnId == turn.id
    ensures var r := StartUpdate(coll, id, Some(turn), resume);
            && (r.Ok? <==> coll[id].Replied(turn.id) || (p.digest == turn.digest && resume))
            && (r.Ok? ==> r.value.coll == coll)
            && (r.Err? ==> r.error == if p.digest != turn.digest then TurnConflict else TurnIncomplete)
  {
    FindTurnFinds(coll[id].pending, turn.id);
    FindTurnUnique(coll[id].pending, turn.id, p);
    assert coll[id := coll[id]] == coll;
  }

  lemma {:induction false} FindTurnUnique(pending: seq<PendingTurn>, turnId: string, p: PendingTurn)
    requires UniqueTurns(pending) && p in pending && p.turnId == turnId
    ensures FindTurn(pending, turnId) == Some(p)
  {
    if pending[0].turnId == turnId {
      var i :| 0 <= i < |pending| && pending[i] == p;
    } else {
      FindTurnUnique(pending[1..], turnId, p);
    }
  }

  /** The exception is real: with its reply already stored, a pending turn is run again without `resume`. */
  lemma RepliedPendingTurnRunsAgain(id: string, turn: Turn)
    requires turn.id != ""
    ensures var s := State(id, "", [Message(Assistant, "", Some(turn.id))], 0, 1, false,
                           [PendingTurn(turn.id, turn.digest)]);
            && ValidCollection(map[id := s])
            && StartUpdate(map[id := s], id, Some(turn), false) == Ok(Started(map[id := s], Some(s), s))
  {
    var m := Message(Assistant, "", Some(turn.id));
    assert m in [m];
  }

  /** An update that got as far as its callback leaves the turn on record, whatever the callback does. */
  lemma StartedTurnIsPending(coll: Collection, id: string, turn: Turn, resume: bool)
    requires ValidCollection(coll) && StartUpdate(coll, id, Some(turn), resume).Ok?
    requires !StateOf(coll, id).Replied(turn.id)
    ensures var after := StartUpdate(coll, id, Some(turn), resume).value.coll;
            && Waiting(after, id, PendingTurn(turn.id, turn.digest))
            && (after[id].Readable() <==> turn.id != "")
  {
    FindTurnFinds(StateOf(coll, id).pending, turn.id);
    var before, after := StateOf(coll, id).pending, StartUpdate(coll, id, Some(turn), resume).value.coll[id].pending;
    if FindTurn(before, turn.id).None? {
      assert after[|before|] == PendingTurn(turn.id, turn.digest);
      assert forall p :: p in after <==> p in before || p == PendingTurn(turn.id, turn.digest);
    }
  }

  /** An update that nothing disturbs commits what the callback returned, forgets its own turn and no other,
      and leaves every other conversation alone. */
  lemma UndisturbedUpdateCommits(coll: Collection, id: string, turn: Turn, resume: bool, updated: State)
    requires ValidCollection(coll) && StartUpdate(coll, id, Some(turn), resume).Ok? && updated.id == id
             && updated.Valid()
    ensures var started := StartUpdate(coll, id, Some(turn), resume).value;
            var r := CommitUpdate(started.coll, id, started.original, updated, Some(turn));
            && r.Ok? && id in r.value && r.value - {id} == coll - {id}
            && r.value[id] == updated.(pending := r.value[id].pending)
            && forall p :: p in r.value[id].pending <==> p in updated.pending && p.turnId != turn.id
  {
    var started := StartUpdate(coll, id, Some(turn), resume).value;
    WithoutKeepsOthers(updated.pending, turn.id);
    assert Get(started.coll, id) == started.original;
  }

  /** Renaming back, restoring what was archived and deleting a branch give back the collection. */
  lemma OperationsUndone(coll: Collection, from: string, to: string, index: Option<int>, archived: bool)
    requires ValidCollection(coll) && from in coll && coll[from].id == from
    ensures Renamed(coll, from, to).Ok? ==> Renamed(Renamed(coll, from, to).value, to, from) == Ok(coll)
    ensures Branched(coll, from, to, index).Ok? ==> Deleted(Branched(coll, from, to, index).value, to) == Ok(coll)
    ensures Archived(coll, from, archived).Ok?
            ==> Archived(Archived(coll, from, archived).value, from, !archived) == Ok(coll)
  {
    if Renamed(coll, from, to).Ok? && from != to {
      assert Renamed(coll, from, to).value[from := coll[from]] - {to} == coll;
    }
    if Branched(coll, from, to, index).Ok? {
      assert Branched(coll, from, to, index).value - {to} == coll;
    }
    if Archived(coll, from, archived).Ok? {
      var after := Archived(coll, from, archived).value;
      assert after[from].(archived := !archived) == coll[from];
      assert after[from := coll[from]] == coll;
    }
  }

  /** Branching off a branch gives what branching off the source at the same place gives. */
  lemma BranchOfBranch(coll: Collection, source: string, middle: string, to: string, i: int, j: int)
    requires ValidCollection(coll) && Branched(coll, source, middle, Some(i)).Ok? && middle != to && 0 <= j <= i
    ensures var first, both := Branched(coll, source, to, Some(j)),
                               Branched(Branched(coll, source, middle, Some(i)).value, middle, to, Some(j));
            && (both.Ok? <==> first.Ok?)
            && (both.Ok? ==> both.value[to] == first.value[to])
  {
    assert coll[source].messages[..i][..j] == coll[source].messages[..j];
  }

  /** An update with an empty turn id, started on a new conversation: unless it commits, every later operation
      that has to read the record fails. Only deleting or overwriting it helps. */
  lemma EmptyTurnIdLocksTheConversation(id: string, digest: string, turn: Option<Turn>, resume: bool, to: string,
                                        index: Option<int>, archived: bool)
    requires ValidId(id) && ValidId(to) && to != id
    ensures var started := StartUpdate(map[], id, Some(Turn("", digest)), false);
            && started.Ok?
            && var after := started.value.coll;
            && ValidCollection(after)
            && StartUpdate(after, id, turn, resume) == Err(Unreadable)
            && Renamed(after, id, to) == Err(Unreadable)
            && Branched(after, id, to, index) == Err(Unreadable)
            && Archived(after, id, archived) == Err(Unreadable)
            && Deleted(after, id) == Ok(map[])
  {
    var after := StartUpdate(map[], id, Some(Turn("", digest)), false).value.coll;
    assert PendingTurn("", digest) in after[id].pending;
  }

  /** The turn has begun and has no reply yet. */
  ghost predicate Waiting(coll: Collection, at: string, p: PendingTurn) {
    at in coll && p in coll[at].pending && !coll[at].Replied(p.turnId)
  }

  /** The atomic steps that any number of processes interleave. */
  datatype Step =
    | Start(id: string, turn: Option<Turn>, resume: bool)
    | Commit(id: string, original: Option<State>, updated: State, turn: Option<Turn>)
    | Rename(from: string, to: string)
    | Branch(source: string, to: string, index: Option<int>)
    | SetArchived(id: string, archived: bool)
    | Delete(id: string)
    | Save(state: State)

  function OrSame(coll: Collection, r: Result<Collection, Error>): Collection {
    if r.Ok? then r.value else coll
  }

  function Apply(coll: Collection, step: Step): Collection {
    match step
    case Start(id, turn, resume) =>
      var r := StartUpdate(coll, id, turn, resume);
      if r.Ok? then r.value.coll else coll
    case Commit(id, original, updated, turn) => OrSame(coll, CommitUpdate(coll, id, original, updated, turn))
    case Rename(from, to) => OrSame(coll, Renamed(coll, from, to))
    case Branch(source, to, index) => OrSame(coll, Branched(coll, source, to, index))
    case SetArchived(id, archived) => OrSame(coll, Archived(coll, id, archived))
    case Delete(id) => OrSame(coll, Deleted(coll, id))
    case Save(state) => OrSame(coll, Saved(coll, state))
  }

  /** Whatever the processes do, the index rule and the uniqueness of pending turns are kept. */
  lemma ApplyKeepsValid(coll: Collection, step: Step)
    requires ValidCollection(coll)
    ensures ValidCollection(Apply(coll, step))
  {
    match step
    case Start(id, turn, resume) => StartKeepsValid(coll, id, turn, resume);
    case Commit(id, original, updated, turn) => CommitKeepsValid(coll, id, original, updated, turn);
    case _ =>
  }

  /** The conversation goes by a new id after it was renamed. */
  function Follow(coll: Collection, step: Step, at: string): string {
    if step.Rename? && step.from == at && Renamed(coll, step.from, step.to).Ok? then step.to else at
  }

  /** The step runs the callback of this turn. */
  predicate Runs(coll: Collection, step: Step, at: string, turnId: string) {
    && step.Start? && step.id == at && step.turn.Some? && step.turn.value.id == turnId
    && StartUpdate(coll, at, step.turn, step.resume).Ok?
  }

  /** Steps after which the turn's record is expected to be there still: the conversation is not deleted or
      overwritten, nobody continues this attempt with its own input, and callbacks keep the other pending
      turns and add no reply but their own. */
  predicate Quiet(coll: Collection, step: Step, at: string, p: PendingTurn) {
    match step
    case Start(id, turn, resume) => !(id == at && turn == Some(Turn(p.turnId, p.digest)) && resume)
    case Commit(id, original, updated, turn) =>
      id == at ==>
        && (turn.Some? ==> turn.value.id != p.turnId)
        && (at in coll && p in coll[at].pending ==> p in updated.pending)
        && (at in coll && !coll[at].Replied(p.turnId) ==> !updated.Replied(p.turnId))
    case Delete(id) => id != at
    case Save(state) => state.id != at
    case _ => true
  }

  lemma QuietStepKeepsWaiting(coll: Collection, step: Step, at: string, p: PendingTurn)
    requires ValidCollection(coll) && Waiting(coll, at, p) && Quiet(coll, step, at, p)
    ensures Waiting(Apply(coll, step), Follow(coll, step, at), p)
    ensures !Runs(coll, step, at, p.turnId)
  {
    match step
    case Start(id, turn, resume) =>
      if id == at && turn.Some? {
        if turn.value.id == p.turnId && coll[at].Readable() {
          PendingTurnGuard(coll, at, turn.value, resume, p);
        }
      }
    case Commit(id, original, updated, turn) =>
      if id == at && turn.Some? {
        WithoutKeepsOthers(updated.pending, turn.value.id);
      }
    case _ =>
  }

  function ApplyAll(coll: Collection, steps: seq<Step>): Collection
    decreases |steps|
  {
    if steps == [] then coll else ApplyAll(Apply(coll, steps[0]), steps[1..])
  }

  function FollowAll(coll: Collection, steps: seq<Step>, at: string): string
    decreases |steps|
  {
    if steps == [] then at else FollowAll(Apply(coll, steps[0]), steps[1..], Follow(coll, steps[0], at))
  }

  predicate AllQuiet(coll: Collection, steps: seq<Step>, at: string, p: PendingTurn)
    decreases |steps|
  {
    steps != [] ==>
      Quiet(coll, steps[0], at, p) && AllQuiet(Apply(coll, steps[0]), steps[1..], Follow(coll, steps[0], at), p)
  }

  predicate SomeRuns(coll: Collection, steps: seq<Step>, at: string, turnId: string)
    decreases |steps|
  {
    && steps != []
    && (Runs(coll, steps[0], at, turnId)
        || SomeRuns(Apply(coll, steps[0]), steps[1..], Follow(coll, steps[0], at), turnId))
  }

  /** A turn whose callback failed is never silently re-run: through any interleaving of other steps, under
      whatever id the conversation is renamed to, it stays pending and its callback does not run. */
  lemma {:induction false} NeverSilentlyRerun(coll: Collection, steps: seq<Step>, at: string, p: PendingTurn)
    requires ValidCollection(coll) && Waiting(coll, at, p) && AllQuiet(coll, steps, at, p)
    ensures !SomeRuns(coll, steps, at, p.turnId)
    ensures Waiting(ApplyAll(coll, steps), FollowAll(coll, steps, at), p)
    ensures ValidCollection(ApplyAll(coll, steps))
    decreases |steps|
  {
    if steps != [] {
      QuietStepKeepsWaiting(coll, steps[0], at, p);
      ApplyKeepsValid(coll, steps[0]);
      NeverSilentlyRerun(Apply(coll, steps[0]), steps[1..], Follow(coll, steps[0], at), p);
    }
  }
}
