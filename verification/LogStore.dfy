/**
 * The files of one component log: the active file and its numbered backups, rotation steps that can each
 * fail, and an append that rolls back. Index 0 is the active path, index k the backup with suffix `.k`.
 */
module LogStore {
  import opened Wrappers

  type Line = seq<byte>

  /** `inode` is the identity that a rename keeps. */
  datatype File = File(inode: nat, bytes: seq<byte>)

  type Files = map<nat, File>

  datatype Policy = Policy(maxBytes: nat, backupCount: nat) {
    predicate Valid() {
      maxBytes >= 1 && backupCount >= 1
    }
  }

  // ---------------------------------------------------------------- renaming a chain of slots

  /** Every slot above `from` has moved up by one; the top slot `top` was emptied first. */
  function Shift<T>(slots: map<nat, T>, from: int, top: nat): map<nat, T> {
    map k: nat | k in Targets(slots, from, top) :: if k <= from then slots[k] else slots[k - 1]
  }

  function Targets<T>(slots: map<nat, T>, from: int, top: nat): (r: set<nat>)
    ensures forall k :: k in r <==> if k <= from then k in slots else from + 2 <= k <= top && k - 1 in slots
  {
    (set k | k in slots && k <= from) + (set k | k in slots && from < k < top :: k + 1)
  }

  /** The contents of the slots, from `n` down to 0. */
  function Gather<T>(slots: map<nat, seq<T>>, n: int): seq<T>
    decreases n
  {
    if n < 0 then [] else (if n in slots then slots[n] else []) + Gather(slots, n - 1)
  }

  lemma {:induction false} GatherSame<T>(a: map<nat, seq<T>>, b: map<nat, seq<T>>, n: int)
    requires forall k: nat :: k <= n ==> (k in a <==> k in b) && (k in a ==> a[k] == b[k])
    ensures Gather(a, n) == Gather(b, n)
    decreases n
  {
    if n >= 0 {
      GatherSame(a, b, n - 1);
    }
  }

  /** Moving up every slot above `from` keeps the order of everything but the slot that was emptied. */
  lemma {:induction false} GatherShifted<T>(slots: map<nat, seq<T>>, from: int, n: int, top: nat)
    requires -1 <= from < n <= top
    ensures Gather(Shift(slots, from, top), n) == Gather(slots, n - 1)
    decreases n
  {
    var shifted := Shift(slots, from, top);
    if n == from + 1 {
      assert n !in shifted;
      GatherSame(shifted, slots, from);
    } else {
      GatherShifted(slots, from, n - 1, top);
    }
  }

  ghost predicate IsSuffix<T>(a: seq<T>, b: seq<T>) {
    |a| <= |b| && a == b[|b| - |a|..]
  }

  lemma SuffixOfSuffix<T>(x: seq<T>, a: seq<T>, b: seq<T>)
    requires IsSuffix(x + a, b)
    ensures IsSuffix(a, b)
  {
    assert (x + a)[|x|..] == a;
  }

  lemma SuffixGrows<T>(a: seq<T>, b: seq<T>, x: seq<T>)
    requires IsSuffix(a, b)
    ensures IsSuffix(a + x, b + x)
  {
  }

  // ---------------------------------------------------------------- contents

  function Flatten(chunks: seq<Line>): seq<byte> {
    if chunks == [] then [] else chunks[0] + Flatten(chunks[1..])
  }

  lemma {:induction false} FlattenConcat(a: seq<Line>, b: seq<Line>)
    ensures Flatten(a + b) == Flatten(a) + Flatten(b)
  {
    if a == [] {
      assert a + b == b;
    } else {
      assert (a + b)[0] == a[0] && (a + b)[1..] == a[1..] + b;
      FlattenConcat(a[1..], b);
      assert a[0] + (Flatten(a[1..]) + Flatten(b)) == (a[0] + Flatten(a[1..])) + Flatten(b);
    }
  }

  /** The paths of a log, oldest backup first and the active path last. */
  method ComponentLogPaths(files: Files) returns (paths: seq<nat>)
    ensures paths != [] && paths[|paths| - 1] == 0
    ensures forall i, j :: 0 <= i < j < |paths| ==> paths[i] > paths[j]
    ensures forall k :: k in paths <==> k == 0 || k in files
  {
    paths := [];
    var rest := files.Keys - {0};
    while rest != {}
      invariant rest <= files.Keys - {0}
      invariant forall i, j :: 0 <= i < j < |paths| ==> paths[i] > paths[j]
      invariant forall k :: k in paths <==> k in files.Keys - {0} - rest
      invariant forall k, l :: k in paths && l in rest ==> k > l
    {
      var top := Highest(rest);
      assert forall i :: 0 <= i < |paths| ==> paths[i] in paths;
      paths := paths + [top];
      rest := rest - {top};
    }
    assert forall i :: 0 <= i < |paths| ==> paths[i] in paths;
    paths := paths + [0];
  }

  method Highest(indices: set<nat>) returns (top: nat)
    requires indices != {}
    ensures top in indices && forall k :: k in indices ==> k <= top
  {
    top :| top in indices;
    var rest := indices - {top};
    while rest != {}
      invariant rest <= indices && top in indices
      invariant forall k :: k in indices && k !in rest ==> k <= top
    {
      var next :| next in rest;
      rest := rest - {next};
      top := if next > top then next else top;
    }
  }

  function ReadAll(files: Files, paths: seq<nat>): seq<byte> {
    if paths == [] then [] else (if paths[0] in files then files[paths[0]].bytes else []) + ReadAll(files, paths[1..])
  }

  // ---------------------------------------------------------------- faults and outcomes

  /** Which step of a rotation raises, if any: removing the oldest backup, or renaming index `source`. */
  datatype Fault = NoFault | UnlinkFails | RenameFails(source: nat)

  datatype Persistence = NotPersisted | Persisted | Uncertain

  /** What the operating system does during one append. Making sure that the active file exists, and is
      private, comes first; then it is opened; `writes(k)` is the count returned by the k-th write
      (not positive: no progress); it raises instead when `writes(k)` is `None`. */
  datatype Weather = Weather(createFails: bool, openFails: bool, writes: nat -> Option<int>, syncFails: bool,
                             truncateFails: bool, resyncFails: bool, closeFails: bool) {
    ghost predicate WritesGoOn() {
      forall k: nat :: writes(k).Some? && writes(k).value > 0
    }

    ghost predicate Calm() {
      WritesGoOn() && !createFails && !openFails && !syncFails && !closeFails
    }
  }

  // ---------------------------------------------------------------- what one write does to the files

  predicate Rotates(policy: Policy, files: Files, incoming: nat) {
    0 in files && |files[0].bytes| != 0 && |files[0].bytes| + incoming > policy.maxBytes
  }

  /** A rotation is tried and gets past removing the oldest backup. */
  predicate Drops(policy: Policy, files: Files, incoming: nat, fault: Fault) {
    Rotates(policy, files, incoming) && fault != UnlinkFails
  }

  /** The highest slot that does not move: the one whose rename fails, or -1. */
  function Stop(files: Files, fault: Fault, top: nat): int {
    if fault.RenameFails? && fault.source < top && fault.source in files then fault.source else -1
  }

  /** The slots after a rotation of `files`, if there is one. */
  function AfterRotation<T>(policy: Policy, files: Files, incoming: nat, fault: Fault, slots: map<nat, T>)
    : map<nat, T>
  {
    var top := policy.backupCount;
    if Drops(policy, files, incoming, fault) then Shift(slots - {top}, Stop(files, fault, top), top) else slots
  }

  function ActiveContent(files: Files): seq<byte> {
    if 0 in files then files[0].bytes else []
  }

  function Bytes(files: Files): map<nat, seq<byte>> {
    map k | k in files :: files[k].bytes
  }

  /** The active file gained `piece`, or was created with it, and nothing else changed. */
  ghost predicate Grown(before: Files, after: Files, piece: seq<byte>) {
    && (forall k: nat :: k != 0 ==> (k in after <==> k in before) && (k in before ==> after[k] == before[k]))
    && (0 in before ==> 0 in after && after[0].inode == before[0].inode)
    && ActiveContent(after) == ActiveContent(before) + piece
  }

  function AsChunks(piece: seq<byte>): seq<Line> {
    if piece == [] then [] else [piece]
  }

  /** One write: what was to be written, what went wrong with a rotation, and what was left in the file. */
  datatype Write = Write(line: Line, fault: Fault, piece: seq<byte>)

  ghost predicate Writes(policy: Policy, before: Files, w: Write, after: Files) {
    Grown(AfterRotation(policy, before, |w.line|, w.fault, before), after, w.piece) && w.piece <= w.line
  }

  /** The highest slot whose contents survive a write: a rotation gives up the oldest backup and no other. */
  function Surviving(policy: Policy, files: Files, incoming: nat, fault: Fault): int {
    if Drops(policy, files, incoming, fault) then policy.backupCount - 1 else policy.backupCount
  }

  lemma RotationLosesTheOldest<T>(policy: Policy, files: Files, incoming: nat, fault: Fault, slots: map<nat, seq<T>>)
    requires policy.Valid()
    ensures var after := AfterRotation(policy, files, incoming, fault, slots);
            Gather(after, policy.backupCount) == Gather(slots, Surviving(policy, files, incoming, fault))
  {
    var top := policy.backupCount;
    if Drops(policy, files, incoming, fault) {
      GatherShifted(slots - {top}, Stop(files, fault, top), top, top);
      GatherSame(slots - {top}, slots, top - 1);
    }
  }

  lemma BytesAfterRotation(policy: Policy, files: Files, incoming: nat, fault: Fault)
    ensures Bytes(AfterRotation(policy, files, incoming, fault, files))
         == AfterRotation(policy, files, incoming, fault, Bytes(files))
  {
    var top := policy.backupCount;
    var a, b := Bytes(AfterRotation(policy, files, incoming, fault, files)),
                AfterRotation(policy, files, incoming, fault, Bytes(files));
    if Drops(policy, files, incoming, fault) {
      var stop := Stop(files, fault, top);
      forall k: nat ensures (k in a <==> k in b) && (k in a ==> a[k] == b[k]) {
        ShiftAt(files - {top}, stop, top, k);
        ShiftAt(Bytes(files) - {top}, stop, top, k);
      }
    }
  }

  lemma {:induction false} GrownGathers(before: Files, after: Files, piece: seq<byte>, n: int)
    requires Grown(before, after, piece) && n >= 0
    ensures Gather(Bytes(after), n) == Gather(Bytes(before), n) + piece
    decreases n
  {
    if n > 0 {
      GrownGathers(before, after, piece, n - 1);
      var top := if n in before then before[n].bytes else [];
      assert top + (Gather(Bytes(before), n - 1) + piece) == (top + Gather(Bytes(before), n - 1)) + piece;
    } else {
      assert Gather(Bytes(after), 0) == ActiveContent(after) + []
             && Gather(Bytes(before), 0) == ActiveContent(before) + [];
      assert ActiveContent(after) + [] == ActiveContent(after) && ActiveContent(before) + [] == ActiveContent(before);
    }
  }

  /** After a write the files, oldest first, hold what they held before and the new piece; if a rotation got
      past its first step, without the oldest backup. */
  lemma WriteLosesOnlyTheOldest(policy: Policy, before: Files, w: Write, after: Files)
    requires policy.Valid() && Writes(policy, before, w, after)
    ensures Gather(Bytes(after), policy.backupCount)
         == Gather(Bytes(before), Surviving(policy, before, |w.line|, w.fault)) + w.piece
  {
    hide Drops, Shift, Gather;
    BytesAfterRotation(policy, before, |w.line|, w.fault);
    RotationLosesTheOldest(policy, before, |w.line|, w.fault, Bytes(before));
    GrownGathers(AfterRotation(policy, before, |w.line|, w.fault, before), after, w.piece, policy.backupCount);
  }

  // ---------------------------------------------------------------- when a write rotates

  /** Without an active file, with an empty one, or while the line still fits, a write changes no other slot and
      gives nothing up. */
  lemma FittingWriteKeepsAll(policy: Policy, before: Files, w: Write, after: Files)
    requires Writes(policy, before, w, after)
    requires 0 !in before || before[0].bytes == [] || |before[0].bytes| + |w.line| <= policy.maxBytes
    ensures forall k: nat :: k != 0 ==> (k in after <==> k in before) && (k in before ==> after[k] == before[k])
    ensures ActiveContent(after) == ActiveContent(before) + w.piece
    ensures policy.Valid() ==>
              Gather(Bytes(after), policy.backupCount) == Gather(Bytes(before), policy.backupCount) + w.piece
  {
    if policy.Valid() {
      WriteLosesOnlyTheOldest(policy, before, w, after);
    }
  }

  /** When the active file is not empty and the line does not fit, a write without a fault moves every file up
      by one and leaves the piece alone in the active file; the oldest backup is gone. */
  lemma FullWriteStartsAFile(policy: Policy, before: Files, w: Write, after: Files)
    requires policy.Valid() && Writes(policy, before, w, after) && w.fault == NoFault
    requires 0 in before && before[0].bytes != [] && |before[0].bytes| + |w.line| > policy.maxBytes
    ensures ActiveContent(after) == w.piece
    ensures forall k: nat :: 1 <= k <= policy.backupCount ==>
              (k in after <==> k - 1 in before) && (k in after ==> after[k] == before[k - 1])
  {
    var top := policy.backupCount;
    var moved := AfterRotation(policy, before, |w.line|, w.fault, before);
    forall k: nat | k <= top
      ensures if k == 0 then k !in moved
              else (k in moved <==> k - 1 in before) && (k in moved ==> moved[k] == before[k - 1])
    {
      ShiftAt(before - {top}, -1, top, k);
    }
    hide AfterRotation;
    assert [] + w.piece == w.piece;
  }

  /** A rotation that cannot remove the oldest backup moves nothing; one whose rename of slot `fault.source`
      fails leaves that slot and those below where they are, and moves those above. */
  lemma FaultyWriteStops(policy: Policy, before: Files, w: Write, after: Files, k: nat)
    requires policy.Valid() && Writes(policy, before, w, after)
    requires 0 in before && before[0].bytes != [] && |before[0].bytes| + |w.line| > policy.maxBytes
    ensures w.fault == UnlinkFails && k != 0 ==>
              (k in after <==> k in before) && (k in before ==> after[k] == before[k])
    ensures w.fault.RenameFails? && w.fault.source in before && w.fault.source < policy.backupCount ==>
              && (0 < k <= w.fault.source ==>
                    (k in after <==> k in before) && (k in before ==> after[k] == before[k]))
              && (w.fault.source + 1 < k <= policy.backupCount ==>
                    (k in after <==> k - 1 in before) && (k in after ==> after[k] == before[k - 1]))
              && ActiveContent(after) == before[0].bytes + w.piece
    ensures w.fault == UnlinkFails ==> ActiveContent(after) == before[0].bytes + w.piece
  {
    var top := policy.backupCount;
    if w.fault != UnlinkFails {
      ShiftAt(before - {top}, Stop(before, w.fault, top), top, k);
      ShiftAt(before - {top}, Stop(before, w.fault, top), top, 0);
    }
  }

  /** The two cases together. */
  lemma WhenItRotates(policy: Policy, before: Files, w: Write, after: Files)
    requires policy.Valid() && Writes(policy, before, w, after)
    ensures 0 !in before || before[0].bytes == [] || |before[0].bytes| + |w.line| <= policy.maxBytes ==>
              && (forall k: nat :: k != 0 ==>
                    (k in after <==> k in before) && (k in after ==> after[k] == before[k]))
              && ActiveContent(after) == ActiveContent(before) + w.piece
    ensures 0 in before && before[0].bytes != [] && |before[0].bytes| + |w.line| > policy.maxBytes ==>
              w.fault == NoFault && w.piece != [] ==> 0 in after && after[0].bytes == w.piece
  {
    hide Writes;
    if 0 !in before || before[0].bytes == [] || |before[0].bytes| + |w.line| <= policy.maxBytes {
      FittingWriteKeepsAll(policy, before, w, after);
    } else if w.fault == NoFault {
      FullWriteStartsAFile(policy, before, w, after);
    }
  }

  function LengthOf(writes: seq<Write>): nat {
    if writes == [] then 0 else LengthOf(writes[..|writes| - 1]) + |writes[|writes| - 1].line|
  }

  /** As long as what is written fits into one file together with what is there, nothing is ever given up. */
  lemma {:induction false} NothingLostWhileItFits(policy: Policy, trace: seq<Files>, writes: seq<Write>)
    requires policy.Valid() && WriteRun(policy, trace, writes)
    requires |ActiveContent(trace[0])| + LengthOf(writes) <= policy.maxBytes
    ensures |ActiveContent(trace[|writes|])| <= |ActiveContent(trace[0])| + LengthOf(writes)
    ensures Gather(Bytes(trace[|writes|]), policy.backupCount)
         == Gather(Bytes(trace[0]), policy.backupCount) + Written(writes)
  {
    hide Gather, Writes;
    if writes == [] {
      assert Gather(Bytes(trace[0]), policy.backupCount) + [] == Gather(Bytes(trace[0]), policy.backupCount);
    } else {
      var n := |writes| - 1;
      var before, w := Gather(Bytes(trace[0]), policy.backupCount), writes[n];
      forall i | 0 <= i < n ensures Writes(policy, trace[..n + 1][i], writes[..n][i], trace[..n + 1][i + 1]) {
        assert Writes(policy, trace[i], writes[i], trace[i + 1]);
      }
      NothingLostWhileItFits(policy, trace[..n + 1], writes[..n]);
      assert Writes(policy, trace[n], w, trace[n + 1]);
      FittingWriteKeepsAll(policy, trace[n], w, trace[n + 1]);
      PieceFits(policy, trace[n], w, trace[n + 1]);
      assert before + Written(writes[..n]) + w.piece == before + (Written(writes[..n]) + w.piece);
    }
  }

  lemma PieceFits(policy: Policy, before: Files, w: Write, after: Files)
    requires Writes(policy, before, w, after)
    ensures |w.piece| <= |w.line|
  {
  }

  // ---------------------------------------------------------------- how long a line can be read

  ghost predicate WriteRun(policy: Policy, trace: seq<Files>, writes: seq<Write>) {
    && |trace| == |writes| + 1
    && forall i :: 0 <= i < |writes| ==> Writes(policy, trace[i], writes[i], trace[i + 1])
  }

  /** How many of the writes from `i` to `n` gave up an oldest backup. */
  ghost function DropCount(policy: Policy, trace: seq<Files>, writes: seq<Write>, i: nat, n: nat): nat
    requires |trace| == |writes| + 1 && i <= n <= |writes|
    decreases n
  {
    if n == i then 0
    else
      DropCount(policy, trace, writes, i, n - 1)
      + if Drops(policy, trace[n - 1], |writes[n - 1].line|, writes[n - 1].fault) then 1 else 0
  }

  function Written(writes: seq<Write>): seq<byte> {
    if writes == [] then [] else Written(writes[..|writes| - 1]) + writes[|writes| - 1].piece
  }

  lemma {:induction false} GatherMore<T>(slots: map<nat, seq<T>>, m: int, n: int)
    requires -1 <= m <= n
    ensures IsSuffix(Gather(slots, m), Gather(slots, n))
    decreases n - m
  {
    if m < n {
      GatherMore(slots, m, n - 1);
      SuffixBehind(Gather(slots, m), Gather(slots, n - 1), if n in slots then slots[n] else []);
    }
  }

  lemma SuffixBehind<T>(a: seq<T>, b: seq<T>, x: seq<T>)
    requires IsSuffix(a, b)
    ensures IsSuffix(a, x + b)
  {
  }

  /** A rotation moves what is in the newest files up by one slot at most. */
  lemma MovesUpByOne<T>(slots: map<nat, seq<T>>, stop: int, n: nat, top: nat)
    requires -1 <= stop < top && n < top
    ensures IsSuffix(Gather(slots, n), Gather(Shift(slots - {top}, stop, top), n + 1))
  {
    var rest := slots - {top};
    GatherSame(rest, slots, n);
    if stop < n + 1 {
      GatherShifted(rest, stop, n + 1, top);
    } else {
      forall k: nat | k <= n + 1 ensures (k in Shift(rest, stop, top) <==> k in rest)
                                         && (k in rest ==> Shift(rest, stop, top)[k] == rest[k]) {
        ShiftAt(rest, stop, top, k);
      }
      GatherSame(Shift(rest, stop, top), rest, n + 1);
      GatherMore(rest, n, n + 1);
    }
  }

  /** One write: what was at the end of the files up to slot `n` is still there, followed by the new piece. */
  lemma WriteKeepsTheEnd(policy: Policy, before: Files, w: Write, after: Files, end: seq<byte>, n: nat)
    requires policy.Valid() && Writes(policy, before, w, after) && IsSuffix(end, Gather(Bytes(before), n))
    requires n + (if Drops(policy, before, |w.line|, w.fault) then 1 else 0) <= policy.backupCount
    ensures var m := n + if Drops(policy, before, |w.line|, w.fault) then 1 else 0;
            IsSuffix(end + w.piece, Gather(Bytes(after), m))
  {
    hide Gather, Shift, Rotates;
    var top, m := policy.backupCount, n + if Drops(policy, before, |w.line|, w.fault) then 1 else 0;
    var moved := AfterRotation(policy, before, |w.line|, w.fault, before);
    BytesAfterRotation(policy, before, |w.line|, w.fault);
    if Drops(policy, before, |w.line|, w.fault) {
      MovesUpByOne(Bytes(before), Stop(before, w.fault, top), n, top);
      SuffixTwice(end, Gather(Bytes(before), n), Gather(Bytes(moved), m));
    }
    GrownGathers(moved, after, w.piece, m);
    SuffixGrows(end, Gather(Bytes(moved), m), w.piece);
  }

  lemma SuffixTwice<T>(a: seq<T>, b: seq<T>, c: seq<T>)
    requires IsSuffix(a, b) && IsSuffix(b, c)
    ensures IsSuffix(a, c)
  {
  }

  /** Whatever was written from write `i` on can be read back, complete and in order, as long as no more than
      `backupCount` rotations have followed that write. */
  lemma {:induction false} KeptThroughRotations(policy: Policy, trace: seq<Files>, writes: seq<Write>, i: nat, n: nat)
    requires policy.Valid() && WriteRun(policy, trace, writes) && i < n <= |writes|
    requires DropCount(policy, trace, writes, i + 1, n) <= policy.backupCount
    ensures IsSuffix(Written(writes[i..n]), Gather(Bytes(trace[n]), DropCount(policy, trace, writes, i + 1, n)))
    ensures IsSuffix(Written(writes[i..n]), Gather(Bytes(trace[n]), policy.backupCount))
    decreases n
  {
    hide Gather, IsSuffix, Writes, Drops;
    var w, drops := writes[n - 1], DropCount(policy, trace, writes, i + 1, n);
    assert Writes(policy, trace[n - 1], w, trace[n]);
    assert writes[i..n][..n - i - 1] == writes[i..n - 1];
    if n == i + 1 {
      FirstPiece(policy, trace[i], w, trace[n]);
      assert Written(writes[i..n - 1]) + w.piece == w.piece;
    } else {
      KeptThroughRotations(policy, trace, writes, i, n - 1);
      WriteKeepsTheEnd(policy, trace[n - 1], w, trace[n], Written(writes[i..n - 1]),
                       DropCount(policy, trace, writes, i + 1, n - 1));
    }
    GatherMore(Bytes(trace[n]), drops, policy.backupCount);
    SuffixTwice(Written(writes[i..n]), Gather(Bytes(trace[n]), drops), Gather(Bytes(trace[n]), policy.backupCount));
  }

  lemma FirstPiece(policy: Policy, before: Files, w: Write, after: Files)
    requires Writes(policy, before, w, after)
    ensures IsSuffix(w.piece, Gather(Bytes(after), 0))
  {
    assert Gather(Bytes(after), 0) == ActiveContent(after) + Gather(Bytes(after), -1) == ActiveContent(after);
  }

  // ---------------------------------------------------------------- the invariant

  /** A file is its chunks, none of them empty; unless some rotation failed it is within the bound or a
      single chunk. */
  ghost predicate SlotOk(policy: Policy, file: File, parts: seq<Line>, failed: bool) {
    && file.bytes == Flatten(parts)
    && (forall i :: 0 <= i < |parts| ==> parts[i] != [])
    && (!failed ==> |file.bytes| <= policy.maxBytes || |parts| <= 1)
  }

  /** What the class invariant says of the two maps, the ledger and the flag. */
  ghost predicate Consistent(policy: Policy, files: Files, chunks: map<nat, seq<Line>>, ledger: seq<Line>,
                             failed: bool) {
    && policy.Valid() && chunks.Keys == files.Keys
    && (forall k :: k in files ==> k <= policy.backupCount && SlotOk(policy, files[k], chunks[k], failed))
    && IsSuffix(Gather(chunks, policy.backupCount), ledger)
  }

  lemma PolicyIsValid(policy: Policy, files: Files, chunks: map<nat, seq<Line>>, ledger: seq<Line>, failed: bool)
    requires Consistent(policy, files, chunks, ledger, failed)
    ensures policy.Valid()
  {
  }

  lemma {:induction false} NothingGathered<T>(slots: map<nat, seq<T>>, n: int)
    requires slots == map[]
    ensures Gather(slots, n) == []
    decreases n
  {
    if n >= 0 {
      NothingGathered(slots, n - 1);
    }
  }

  lemma DropTop(policy: Policy, files: Files, chunks: map<nat, seq<Line>>, ledger: seq<Line>, failed: bool)
    requires Consistent(policy, files, chunks, ledger, failed)
    ensures Consistent(policy, files - {policy.backupCount}, chunks - {policy.backupCount}, ledger, failed)
    ensures policy.backupCount >= 1 && files.Keys == chunks.Keys
    ensures forall k :: k in files && k != policy.backupCount ==> k < policy.backupCount
  {
    var top := policy.backupCount;
    GatherSame(chunks, chunks - {top}, top - 1);
    SuffixOfSuffix(if top in chunks then chunks[top] else [], Gather(chunks, top - 1), ledger);
    assert [] + Gather(chunks - {top}, top - 1) == Gather(chunks - {top}, top - 1);
  }

  /** Before the first rename nothing has moved. */
  lemma ShiftNone<T>(slots: map<nat, T>, top: nat)
    requires top >= 1 && forall k :: k in slots ==> k < top
    ensures Shift(slots, top - 1, top) == slots
  {
  }

  /** Renaming slot `index`, if it is there, moves the boundary down by one. */
  lemma ShiftStep<T>(slots: map<nat, T>, index: nat, top: nat)
    requires index < top && forall k :: k in slots ==> k < top
    ensures var before := Shift(slots, index, top);
            Shift(slots, index - 1, top)
              == if index in before then before[index + 1 := before[index]] - {index} else before
  {
    hide Shift;
    var before, after := Shift(slots, index, top), Shift(slots, index - 1, top);
    ShiftAt(slots, index, top, index);
    ShiftAt(slots, index, top, index + 1);
    var expected := if index in before then before[index + 1 := before[index]] - {index} else before;
    forall k: nat ensures (k in after <==> k in expected) && (k in after ==> after[k] == expected[k]) {
      ShiftAt(slots, index, top, k);
      ShiftAt(slots, index - 1, top, k);
    }
  }

  lemma ShiftAt<T>(slots: map<nat, T>, from: int, top: nat, k: nat)
    ensures var shifted := Shift(slots, from, top);
            if k <= from then (k in shifted <==> k in slots) && (k in shifted ==> shifted[k] == slots[k])
            else (k in shifted <==> from + 2 <= k <= top && k - 1 in slots)
                 && (k in shifted ==> shifted[k] == slots[k - 1])
  {
  }

  lemma ShiftKeepsValid(policy: Policy, files: Files, chunks: map<nat, seq<Line>>, ledger: seq<Line>, from: int,
                        failed: bool)
    requires Consistent(policy, files, chunks, ledger, failed)
    requires -1 <= from < policy.backupCount && policy.backupCount !in files
    ensures Consistent(policy, Shift(files, from, policy.backupCount), Shift(chunks, from, policy.backupCount), ledger,
                       failed)
  {
    var top := policy.backupCount;
    GatherShifted(chunks, from, top, top);
    assert Gather(chunks, top) == [] + Gather(chunks, top - 1) == Gather(chunks, top - 1);
    hide Gather, IsSuffix, SlotOk, Shift;
    var f, c := Shift(files, from, top), Shift(chunks, from, top);
    forall k: nat
      ensures k in f <==> k in c
      ensures k in f ==> k <= top && SlotOk(policy, f[k], c[k], failed)
    {
      ShiftAt(files, from, top, k);
      ShiftAt(chunks, from, top, k);
    }
  }

  lemma CreateKeepsValid(policy: Policy, files: Files, chunks: map<nat, seq<Line>>, ledger: seq<Line>, failed: bool,
                         inode: nat)
    requires Consistent(policy, files, chunks, ledger, failed) && 0 !in files
    ensures Consistent(policy, files[0 := File(inode, [])], chunks[0 := []], ledger, failed)
    ensures Gather(chunks[0 := []], policy.backupCount) == Gather(chunks, policy.backupCount)
  {
    hide IsSuffix;
    var none: seq<Line> := [];
    GatherAdded(chunks, none, policy.backupCount);
    assert none + none == none;
    assert Gather(chunks, policy.backupCount) + [] == Gather(chunks, policy.backupCount);
  }

  /** What is added to slot 0 is added to the end of everything. */
  lemma {:induction false} GatherAdded<T>(slots: map<nat, seq<T>>, more: seq<T>, n: int)
    requires n >= 0
    ensures Gather(slots[0 := (if 0 in slots then slots[0] else []) + more], n) == Gather(slots, n) + more
    decreases n
  {
    var here := if 0 in slots then slots[0] else [];
    var slots' := slots[0 := here + more];
    if n > 0 {
      GatherAdded(slots, more, n - 1);
      var top := if n in slots then slots[n] else [];
      assert top + (Gather(slots, n - 1) + more) == (top + Gather(slots, n - 1)) + more;
    } else {
      assert Gather(slots, -1) == Gather(slots', -1) == [];
      assert here + [] == here && here + more + [] == here + more;
    }
  }

  /** Adding a chunk to the active file: `more` fits, or the file is empty, or the bound is already off. */
  lemma AppendKeepsValid(policy: Policy, files: Files, chunks: map<nat, seq<Line>>, ledger: seq<Line>, failed: bool,
                         more: Line)
    requires Consistent(policy, files, chunks, ledger, failed) && 0 in files && more != []
    requires failed || files[0].bytes == [] || |files[0].bytes| + |more| <= policy.maxBytes
    ensures Consistent(policy, files[0 := File(files[0].inode, files[0].bytes + more)], chunks[0 := chunks[0] + [more]],
                       ledger + [more], failed)
    ensures Gather(chunks[0 := chunks[0] + [more]], policy.backupCount) == Gather(chunks, policy.backupCount) + [more]
  {
    GatherAdded(chunks, [more], policy.backupCount);
    SuffixGrows(Gather(chunks, policy.backupCount), ledger, [more]);
    hide Gather, IsSuffix;
    FlattenConcat(chunks[0], [more]);
    assert Flatten([more]) == more + [] == more;
  }

  // ---------------------------------------------------------------- what a reader finds

  /** Reading the paths oldest first gives the chunks in the order they were appended. */
  lemma {:induction false} ReadAllIsGather(files: Files, chunks: map<nat, seq<Line>>, paths: seq<nat>, n: int)
    requires chunks.Keys == files.Keys && forall k :: k in files ==> files[k].bytes == Flatten(chunks[k])
    requires forall i, j :: 0 <= i < j < |paths| ==> paths[i] > paths[j]
    requires forall i :: 0 <= i < |paths| ==> paths[i] <= n
    requires forall k :: k in files && k <= n ==> k in paths
    ensures ReadAll(files, paths) == Flatten(Gather(chunks, n)) == Gather(Bytes(files), n)
    decreases n
  {
    if n >= 0 {
      var here: seq<Line> := if n in chunks then chunks[n] else [];
      FlattenConcat(here, Gather(chunks, n - 1));
      if paths != [] && paths[0] == n {
        ReadAllIsGather(files, chunks, paths[1..], n - 1);
      } else {
        assert forall i :: 0 < i < |paths| ==> paths[0] > paths[i];
        ReadAllIsGather(files, chunks, paths, n - 1);
      }
    }
  }

  lemma {:induction false} ChunkIsGathered(chunks: map<nat, seq<Line>>, n: int, k: nat, i: nat)
    requires k <= n && k in chunks && i < |chunks[k]|
    ensures chunks[k][i] in Gather(chunks, n)
    decreases n
  {
    if k < n {
      ChunkIsGathered(chunks, n - 1, k, i);
    } else {
      assert Gather(chunks, n)[i] == chunks[k][i];
    }
  }

  ghost predicate EndsLine(bytes: seq<byte>) {
    bytes != [] && bytes[|bytes| - 1] == NEWLINE
  }

  lemma {:induction false} FlattenEndsLine(parts: seq<Line>)
    requires parts != [] && forall i :: 0 <= i < |parts| ==> EndsLine(parts[i])
    ensures EndsLine(Flatten(parts))
  {
    if |parts| == 1 {
      assert Flatten(parts) == parts[0] + [];
    } else {
      FlattenEndsLine(parts[1..]);
    }
  }

  /** No file starts or stops inside a line, and while no rotation failed each is within the bound or holds a
      single line. */
  lemma FilesAreLines(policy: Policy, files: Files, chunks: map<nat, seq<Line>>, ledger: seq<Line>, failed: bool,
                      k: nat)
    requires Consistent(policy, files, chunks, ledger, failed) && k in files
    ensures (forall line :: line in ledger ==> EndsLine(line)) ==> files[k].bytes == [] || EndsLine(files[k].bytes)
    ensures !failed ==> |files[k].bytes| <= policy.maxBytes || files[k].bytes in ledger
  {
    hide Gather;
    var parts := chunks[k];
    forall i: nat | i < |parts| ensures parts[i] in ledger {
      ChunkIsGathered(chunks, policy.backupCount, k, i);
    }
    if parts != [] && forall line :: line in ledger ==> EndsLine(line) {
      FlattenEndsLine(parts);
    }
    assert |parts| == 1 ==> Flatten(parts) == parts[0] + [] == parts[0];
  }

  // ---------------------------------------------------------------- the log

  class ComponentLog {
    const policy: Policy
    var files: Files
    /** The chunks that each file is made of, and everything that appends ever left behind, in order. */
    ghost var chunks: map<nat, seq<Line>>
    ghost var ledger: seq<Line>
    ghost var rotationFailed: bool
    /** The lines whose append reported "persisted", and whether any append ended "uncertain". */
    ghost var persisted: seq<Line>
    ghost var everUncertain: bool

    /** The files in path order are the most recent part of everything ever left behind. */
    ghost predicate Valid()
      reads this
    {
      && Consistent(policy, files, chunks, ledger, rotationFailed)
      && (!everUncertain ==> ledger == persisted)
    }

    constructor (policy: Policy)
      requires policy.Valid()
      ensures Valid() && files == map[] && ledger == [] && !rotationFailed && this.policy == policy
    {
      this.policy := policy;
      files, chunks, ledger, rotationFailed, persisted, everUncertain := map[], map[], [], false, [], false;
      new;
      assert Gather(chunks, policy.backupCount) == [] by {
        NothingGathered(chunks, policy.backupCount);
      }
    }

    predicate NeedsRotation(incoming: nat)
      reads this
    {
      Rotates(policy, files, incoming)
    }

    /** Make room: drop the oldest backup and rename every other file up by one, newest last. A step that
        fails leaves the slots below it, and itself, where they are. */
    method RotateIfNeeded(incoming: nat, fault: Fault) returns (ok: bool)
      requires Valid()
      modifies this`files, this`chunks, this`rotationFailed
      ensures Valid()
      ensures rotationFailed == (old(rotationFailed) || !ok)
      ensures files == AfterRotation(policy, old(files), incoming, fault, old(files))
      ensures chunks == AfterRotation(policy, old(files), incoming, fault, old(chunks))
      ensures ok <==> !old(NeedsRotation(incoming))
                      || (fault != UnlinkFails && Stop(old(files), fault, policy.backupCount) == -1)
    {
      hide Shift;
      ok := true;
      if !NeedsRotation(incoming) {
        return;
      }
      if fault == UnlinkFails {
        rotationFailed, ok := true, false;
        return;
      }
      hide Consistent;
      var from := MoveAll(fault);
      ok := from == -1;
      if !ok {
        rotationFailed := true;
      }
    }

    /** Rename slot `index` one up, if it is there. */
    method RenameUp(ghost files0: Files, ghost chunks0: map<nat, seq<Line>>, index: nat, fault: Fault)
      returns (ok: bool)
      requires index < policy.backupCount
      requires (forall k :: k in files0 ==> k < policy.backupCount) && files0.Keys == chunks0.Keys
      requires files == Shift(files0, index, policy.backupCount) && chunks == Shift(chunks0, index, policy.backupCount)
      modifies this`files, this`chunks
      ensures ok <==> !(index in files0 && fault == RenameFails(index))
      ensures ok ==> files == Shift(files0, index - 1, policy.backupCount)
      ensures ok ==> chunks == Shift(chunks0, index - 1, policy.backupCount)
      ensures !ok ==> files == old(files) && chunks == old(chunks)
    {
      hide Shift;
      ShiftAt(files0, index, policy.backupCount, index);
      ShiftAt(chunks0, index, policy.backupCount, index);
      ShiftStep(files0, index, policy.backupCount);
      ShiftStep(chunks0, index, policy.backupCount);
      ok := true;
      if index in files {
        if fault == RenameFails(index) {
          return false;
        }
        files := files[index + 1 := files[index]] - {index};
        chunks := chunks[index + 1 := chunks[index]] - {index};
      }
    }

    /** Remove the oldest backup and rename the others. */
    method MoveAll(fault: Fault) returns (from: int)
      requires Valid() && 0 in files
      modifies this`files, this`chunks
      ensures Valid() && from == Stop(old(files), fault, policy.backupCount)
      ensures files == Shift(old(files) - {policy.backupCount}, from, policy.backupCount)
      ensures chunks == Shift(old(chunks) - {policy.backupCount}, from, policy.backupCount)
    {
      hide Consistent, Shift;
      DropTop(policy, files, chunks, ledger, rotationFailed);
      files, chunks := files - {policy.backupCount}, chunks - {policy.backupCount};
      ghost var files0, chunks0 := files, chunks;
      from := RenameAll(fault);
      ShiftKeepsValid(policy, files0, chunks0, ledger, from, rotationFailed);
    }

    /** The renames, oldest first; a failing one stops them. */
    method RenameAll(fault: Fault) returns (from: int)
      requires policy.backupCount >= 1 && files.Keys == chunks.Keys
      requires forall k :: k in files ==> k < policy.backupCount
      modifies this`files, this`chunks
      ensures from == Stop(old(files), fault, policy.backupCount)
      ensures files == Shift(old(files), from, policy.backupCount)
      ensures chunks == Shift(old(chunks), from, policy.backupCount)
    {
      hide Shift;
      var top := policy.backupCount;
      ghost var files0, chunks0 := files, chunks;
      ShiftNone(files0, top);
      ShiftNone(chunks0, top);
      from := top - 1;
      while from >= 0
        invariant -1 <= from < top
        invariant files == Shift(files0, from, top) && chunks == Shift(chunks0, from, top)
        invariant fault.RenameFails? && from < fault.source < top ==> fault.source !in files0
      {
        var ok := RenameUp(files0, chunks0, from, fault);
        if !ok {
          return;
        }
        from := from - 1;
      }
    }

    /** Write the line in as many writes as it takes; stop when one raises or makes no progress. */
    method WriteBytes(line: Line, writes: nat -> Option<int>) returns (written: nat)
      requires 0 in files
      modifies this`files
      ensures written <= |line|
      ensures files == old(files)[0 := File(old(files)[0].inode, old(files)[0].bytes + line[..written])]
      ensures written < |line| ==> exists k: nat :: writes(k).None? || writes(k).value <= 0
    {
      written := 0;
      var call := 0;
      ghost var start := files[0].bytes;
      assert start + line[..0] == start;
      while written < |line|
        invariant written <= |line|
        invariant files == old(files)[0 := File(old(files)[0].inode, old(files)[0].bytes + line[..written])]
      {
        var count := writes(call);
        if count.None? || count.value <= 0 {
          return;
        }
        var n := if count.value < |line| - written then count.value else |line| - written;
        files := files[0 := File(files[0].inode, files[0].bytes + line[written..written + n])];
        assert (start + line[..written]) + line[written..written + n] == start + line[..written + n];
        written, call := written + n, call + 1;
      }
    }

    /** Write and sync; on failure cut the file back to where the record began. */
    method WriteOrRollBack(line: Line, weather: Weather) returns (outcome: Persistence, kept: nat)
      requires 0 in files
      modifies this`files
      ensures kept <= |line|
      ensures files == old(files)[0 := File(old(files)[0].inode, old(files)[0].bytes + line[..kept])]
      ensures outcome == Persisted ==> kept == |line| && !weather.syncFails
      ensures outcome == NotPersisted ==> kept == 0
      ensures outcome == Uncertain ==> weather.truncateFails || weather.resyncFails
      ensures weather.WritesGoOn() && !weather.syncFails ==> outcome == Persisted
    {
      ghost var start := files[0].bytes;
      var boundary := |files[0].bytes|;
      var written := WriteBytes(line, weather.writes);
      assert (start + line[..written])[..boundary] == start + line[..0];
      if written == |line| && !weather.syncFails {
        return Persisted, written;
      }
      if weather.truncateFails {
        return Uncertain, written;
      }
      files := files[0 := File(files[0].inode, files[0].bytes[..boundary])];
      return if weather.resyncFails then Uncertain else NotPersisted, 0;
    }

    /** Before it is opened the active file is created, empty, when it is missing. */
    method EnsureActiveFile(inode: nat)
      requires Valid()
      modifies this`files, this`chunks
      ensures Valid()
      ensures files == if 0 in old(files) then old(files) else old(files)[0 := File(inode, [])]
      ensures Gather(chunks, policy.backupCount) == old(Gather(chunks, policy.backupCount))
    {
      hide Flatten, Gather, IsSuffix, SlotOk;
      if 0 !in files {
        CreateKeepsValid(policy, files, chunks, ledger, rotationFailed, inode);
        files, chunks := files[0 := File(inode, [])], chunks[0 := []];
      }
    }

    /** Append one encoded line to the active file, creating it with identity `inode` if need be. */
    method AppendEncodedLine(line: Line, weather: Weather, inode: nat)
      returns (outcome: Persistence, raised: bool, ghost piece: seq<byte>)
      requires Valid() && line != []
      requires rotationFailed || !NeedsRotation(|line|)
      modifies this`files, this`chunks, this`ledger, this`persisted, this`everUncertain
      ensures Valid() && piece <= line
      ensures Grown(old(files), files, piece)
      ensures Gather(chunks, policy.backupCount) == old(Gather(chunks, policy.backupCount)) + AsChunks(piece)
      ensures ledger == old(ledger) + AsChunks(piece)
      ensures persisted == if outcome == Persisted then old(persisted) + [line] else old(persisted)
      ensures outcome == Persisted ==> piece == line
      ensures outcome == NotPersisted ==> piece == []
      ensures outcome == Uncertain ==> everUncertain && (weather.truncateFails || weather.resyncFails)
      ensures outcome != Uncertain ==> everUncertain == old(everUncertain)
      ensures weather.createFails ==> files == old(files) && outcome == NotPersisted
      ensures !raised ==> outcome == Persisted
      ensures weather.Calm() ==> !raised
    {
      hide Consistent, Gather;
      piece := [];
      if weather.createFails {
        outcome, raised := NotPersisted, true;
        return;
      }
      EnsureActiveFile(inode);
      if weather.openFails {
        outcome, raised := NotPersisted, true;
        return;
      }
      ghost var files0 := files;
      var kept: nat;
      outcome, kept := WriteOrRollBack(line, weather);
      raised := outcome != Persisted || weather.closeFails;
      everUncertain := everUncertain || outcome == Uncertain;
      piece := line[..kept];
      RecordKept(files0, line, outcome, kept);
    }

    /** Bookkeeping: what an append left behind is now part of the active file and of the ledger. */
    ghost method RecordKept(files0: Files, line: Line, outcome: Persistence, kept: nat)
      requires Consistent(policy, files0, chunks, ledger, rotationFailed) && 0 in files0 && kept <= |line| && line != []
      requires files == files0[0 := File(files0[0].inode, files0[0].bytes + line[..kept])]
      requires rotationFailed || files0[0].bytes == [] || |files0[0].bytes| + |line| <= policy.maxBytes
      requires outcome == Persisted ==> kept == |line|
      requires !everUncertain ==> ledger == persisted && (outcome == Persisted || kept == 0)
      modifies this`chunks, this`ledger, this`persisted
      ensures Valid()
      ensures ledger == old(ledger) + AsChunks(line[..kept])
      ensures Gather(chunks, policy.backupCount) == old(Gather(chunks, policy.backupCount)) + AsChunks(line[..kept])
      ensures persisted == if outcome == Persisted then old(persisted) + [line] else old(persisted)
    {
      hide Flatten, Gather, IsSuffix, SlotOk;
      assert kept == 0 ==> files0[0].bytes + line[..kept] == files0[0].bytes;
      assert kept == |line| ==> line[..kept] == line;
      if kept > 0 {
        AppendKeepsValid(policy, files0, chunks, ledger, rotationFailed, line[..kept]);
        chunks := chunks[0 := chunks[0] + [line[..kept]]];
        ledger := ledger + [line[..kept]];
      } else {
        assert files == files0;
      }
      if outcome == Persisted {
        persisted := persisted + [line];
      }
    }

    /** A reader going through the files oldest first finds all that they hold: whole chunks, and of all that was
        left behind the most recent part; of the persisted lines, unless some append ended uncertain. */
    method ReadBack() returns (content: seq<byte>, ghost recent: seq<Line>)
      requires Valid()
      ensures content == Gather(Bytes(files), policy.backupCount)
      ensures recent == Gather(chunks, policy.backupCount) && content == Flatten(recent)
      ensures IsSuffix(recent, ledger) && (!everUncertain ==> IsSuffix(recent, persisted))
    {
      hide Gather, IsSuffix, Flatten, ReadAll;
      var paths := ComponentLogPaths(files);
      recent := Gather(chunks, policy.backupCount);
      assert forall i :: 0 <= i < |paths| ==> paths[i] in paths;
      ReadAllIsGather(files, chunks, paths, policy.backupCount);
      content := ReadAll(files, paths);
    }

    /** One event: make room if needed, whatever comes of it, then append. */
    method WriteEvent(line: Line, fault: Fault, weather: Weather, inode: nat)
      returns (outcome: Persistence, raised: bool, ghost piece: seq<byte>)
      requires Valid() && line != []
      modifies this
      ensures Valid() && Writes(policy, old(files), Write(line, fault, piece), files)
      ensures 0 !in old(files) || old(files)[0].bytes == [] || |old(files)[0].bytes| + |line| <= policy.maxBytes ==>
                && (forall k: nat :: k != 0 ==>
                      (k in files <==> k in old(files)) && (k in files ==> files[k] == old(files)[k]))
                && ActiveContent(files) == ActiveContent(old(files)) + piece
      ensures 0 in old(files) && old(files)[0].bytes != [] && |old(files)[0].bytes| + |line| > policy.maxBytes ==>
                fault == NoFault && weather.Calm() ==> 0 in files && files[0].bytes == line
      ensures var survives := Surviving(policy, old(files), |line|, fault);
              && Gather(Bytes(files), policy.backupCount) == Gather(Bytes(old(files)), survives) + piece
              && Gather(chunks, policy.backupCount) == Gather(old(chunks), survives) + AsChunks(piece)
      ensures ledger == old(ledger) + AsChunks(piece)
      ensures persisted == if outcome == Persisted then old(persisted) + [line] else old(persisted)
      ensures outcome == Persisted ==> piece == line
      ensures outcome == NotPersisted ==> piece == []
      ensures outcome == Uncertain ==> everUncertain
      ensures outcome != Uncertain ==> everUncertain == old(everUncertain)
      ensures fault == NoFault ==> rotationFailed == old(rotationFailed)
      ensures !raised ==> outcome == Persisted
      ensures weather.Calm() ==> !raised
    {
      hide Consistent, Shift, Gather, Bytes, Grown;
      PolicyIsValid(policy, files, chunks, ledger, rotationFailed);
      ghost var files0, chunks0, top := files, chunks, policy.backupCount;
      var ok := RotateIfNeeded(|line|, fault);
      ShiftAt(files0 - {top}, -1, top, 0);
      RotationLosesTheOldest(policy, files0, |line|, fault, chunks0);
      outcome, raised, piece := AppendEncodedLine(line, weather, inode);
      WriteLosesOnlyTheOldest(policy, files0, Write(line, fault, piece), files);
      WhenItRotates(policy, files0, Write(line, fault, piece), files);
    }
  }
}
