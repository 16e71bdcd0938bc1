/**
 * The incremental log reader. It takes no lock: the log grows and rotates between its polls, and grows even
 * between the two looks at the active file that one poll takes.
 */
module LogCursor {
  import opened Wrappers
  import opened LogStore

  // ---------------------------------------------------------------- complete lines

  /** The byte boundary after the last newline. */
  function CompleteLength(content: seq<byte>): (n: nat)
    ensures n <= |content|
    ensures n > 0 ==> content[n - 1] == NEWLINE
    ensures forall i :: n <= i < |content| ==> content[i] != NEWLINE
  {
    if content == [] then 0
    else if content[|content| - 1] == NEWLINE then |content|
    else CompleteLength(content[..|content| - 1])
  }

  function Complete(content: seq<byte>): seq<byte> {
    content[..CompleteLength(content)]
  }

  predicate AtLineStart(before: seq<byte>) {
    before == [] || before[|before| - 1] == NEWLINE
  }

  /** After whole lines, or when a line ends later, the complete part of what follows can be found without
      what came before. */
  lemma {:induction false} CompleteAfterLines(lines: seq<byte>, rest: seq<byte>)
    requires AtLineStart(lines) || CompleteLength(rest) > 0
    ensures CompleteLength(lines + rest) == |lines| + CompleteLength(rest)
    ensures Complete(lines + rest) == lines + Complete(rest)
  {
    if rest == [] {
      assert lines + rest == lines;
    } else if rest[|rest| - 1] != NEWLINE {
      assert (lines + rest)[..|lines + rest| - 1] == lines + rest[..|rest| - 1];
      CompleteAfterLines(lines, rest[..|rest| - 1]);
    }
    assert (lines + rest)[..|lines| + CompleteLength(rest)] == lines + Complete(rest);
  }

  /** Seeking beyond the end of a file reads nothing. */
  function From(content: seq<byte>, offset: nat): seq<byte> {
    if offset <= |content| then content[offset..] else []
  }

  // ---------------------------------------------------------------- one poll

  datatype Cursor = Cursor(offset: nat, identity: Option<nat>)

  /** The cursor of a reader that starts now. */
  function FromProject(files: Files): Cursor {
    if 0 in files then Cursor(|files[0].bytes|, Some(files[0].inode)) else Cursor(0, None)
  }

  /** `found` is the oldest backup with the identity, if there is one. */
  ghost predicate IsBackup(files: Files, identity: nat, found: Option<nat>) {
    match found
    case None => forall k :: k in files && k != 0 ==> files[k].inode != identity
    case Some(k) =>
      k != 0 && k in files && files[k].inode == identity
      && forall j :: j in files && j > k ==> files[j].inode != identity
  }

  /** What one poll makes of a cursor: `atStat` are the files when the active one is looked at, `atRead` when
      it is opened. It fails, changing nothing, when the active file vanished in between. */
  ghost predicate IsPoll(cursor: Cursor, atStat: Files, atRead: Files, next: Cursor, out: Option<seq<byte>>) {
    if 0 !in atStat then
      next == Cursor(0, None) && out == Some([])
    else if 0 !in atRead then
      next == cursor && out == None
    else
      var current := Some(atStat[0].inode);
      var changed := cursor.identity.Some? && cursor.identity != current;
      var offset := if changed || |atStat[0].bytes| < cursor.offset then 0 else cursor.offset;
      var tail := Complete(From(atRead[0].bytes, offset));
      && next == Cursor(offset + |tail|, current)
      && if changed then
           exists found :: IsBackup(atRead, cursor.identity.value, found)
             && out == Some(Remainder(atRead, found, cursor.offset) + tail)
         else
           out == Some(tail)
  }

  function Remainder(files: Files, found: Option<nat>, offset: nat): seq<byte> {
    if found.Some? && found.value in files then Complete(From(files[found.value].bytes, offset)) else []
  }

  /** The complete part of a text is its longest prefix of whole lines. */
  lemma LongestIsComplete(content: seq<byte>, lines: seq<byte>)
    requires lines <= content && AtLineStart(lines)
    requires forall more :: more <= content && AtLineStart(more) ==> more <= lines
    ensures lines == Complete(content)
  {
    assert Complete(content) <= content && AtLineStart(Complete(content));
    assert lines != [] ==> content[|lines| - 1] == NEWLINE;
  }

  class InteractiveLogCursor {
    var offset: nat
    var identity: Option<nat>

    ghost function Value(): Cursor
      reads this
    {
      Cursor(offset, identity)
    }

    constructor (files: Files)
      ensures Value() == FromProject(files)
    {
      offset := if 0 in files then |files[0].bytes| else 0;
      identity := if 0 in files then Some(files[0].inode) else None;
    }

    method ReadComponent(atStat: Files, atRead: Files) returns (out: Option<seq<byte>>)
      modifies this
      ensures IsPoll(old(Value()), atStat, atRead, Value(), out)
    {
      hide Complete, From;
      if 0 !in atStat {
        offset, identity := 0, None;
        return Some([]);
      }
      var current := Some(atStat[0].inode);
      var start, rest, found := offset, [], None;
      if identity.Some? && identity != current {
        found := FindLogWithIdentity(atRead, identity.value);
        if found.Some? {
          rest := ReadLogPath(atRead[found.value], offset);
          LongestIsComplete(From(atRead[found.value].bytes, offset), rest);
        }
        assert rest == Remainder(atRead, found, offset);
        start := 0;
      } else if |atStat[0].bytes| < offset {
        start := 0;
      }
      if 0 !in atRead {
        return None;
      }
      var tail := ReadLogPath(atRead[0], start);
      LongestIsComplete(From(atRead[0].bytes, start), tail);
      offset, identity := start + |tail|, current;
      out := Some(rest + tail);
      assert rest == [] ==> rest + tail == tail;
      assert old(identity).Some? && old(identity) != current ==>
               IsBackup(atRead, old(identity).value, found)
                 && out == Some(Remainder(atRead, found, old(offset)) + tail);
    }

    /** The longest part of what follows the offset that consists of whole lines. */
    method ReadLogPath(file: File, from: nat) returns (lines: seq<byte>)
      ensures lines <= From(file.bytes, from) && AtLineStart(lines)
      ensures forall more :: more <= From(file.bytes, from) && AtLineStart(more) ==> more <= lines
    {
      var appended := From(file.bytes, from);
      lines := appended[..CompleteLength(appended)];
      forall more | more <= appended && AtLineStart(more) ensures more <= lines {
        assert more != [] ==> appended[|more| - 1] == NEWLINE;
      }
    }

    method FindLogWithIdentity(files: Files, wanted: nat) returns (found: Option<nat>)
      ensures IsBackup(files, wanted, found)
    {
      var paths := ComponentLogPaths(files);
      var i := 0;
      while i < |paths|
        invariant 0 <= i <= |paths|
        invariant forall j :: 0 <= j < i && paths[j] != 0 && paths[j] in files ==> files[paths[j]].inode != wanted
      {
        if paths[i] != 0 && paths[i] in files && files[paths[i]].inode == wanted {
          return Some(paths[i]);
        }
        i := i + 1;
      }
      return None;
    }
  }

  // ---------------------------------------------------------------- runs

  /** Where the file is that the reader was reading: still active, rotated away into a slot, or dropped. */
  datatype Place = Active | Backup(slot: nat) | Dropped

  /** A log and its reader. `total` is everything in the log's life, of which the active file holds what is
      from `base` on; the reader started at `start` and has returned `consumed`. */
  datatype Reading = Reading(files: Files, cursor: Cursor, total: seq<byte>, base: nat, start: nat,
                             consumed: seq<byte>, place: Place)

  datatype Event =
    | Append(more: seq<byte>, inode: nat)
    | RollBack(size: nat)
    | Rotate
    | RotateInPart(from: nat)
    | Poll(growth: seq<byte>)
    | PollAcross(inode: nat, more: seq<byte>)

  function Grow(files: Files, more: seq<byte>): Files
    requires 0 in files
  {
    files[0 := File(files[0].inode, files[0].bytes + more)]
  }

  predicate IsNew(files: Files, inode: nat) {
    forall k :: k in files ==> files[k].inode != inode
  }

  /** The backups after a rotation that stopped at slot `from`, or went through when `from` is -1. */
  function Moved(files: Files, from: int, top: nat): Files {
    Shift(files - {top}, from, top)
  }

  /** The files after a rotation and the first write to the new active file. */
  function Rotated(files: Files, inode: nat, more: seq<byte>, top: nat): Files {
    Moved(files, -1, top)[0 := File(inode, more)]
  }

  function Position(s: Reading): nat {
    s.start + |s.consumed|
  }

  /** Where a rotation that stopped at slot `from` leaves the file that was at `place`. */
  function PlaceAfter(place: Place, from: nat, top: nat): Place {
    if place.Backup? && place.slot == top then Dropped
    else if place.Backup? && place.slot > from then Backup(place.slot + 1)
    else place
  }

  /** One step, with backups kept up to slot `top`. The conditions on a step are those without which a reader
      does lose or repeat something: `LogCursorLimits` has the proofs. */
  ghost predicate Step(s: Reading, event: Event, t: Reading, top: nat) {
    match event
    case Append(more, inode) =>
      if 0 in s.files then
        t == s.(files := Grow(s.files, more), total := s.total + more)
      else
        IsNew(s.files, inode) && t == s.(files := s.files[0 := File(inode, more)], total := s.total + more)
    case RollBack(size) =>
      && 0 in s.files && size <= |s.files[0].bytes| && Position(s) <= s.base + size <= |s.total|
      && t == s.(files := s.files[0 := File(s.files[0].inode, s.files[0].bytes[..size])],
                 total := s.total[..s.base + size])
    case Rotate =>
      && CanRotate(s) && s.cursor.identity.Some?
      && t == s.(files := Moved(s.files, -1, top), base := |s.total|, place := Backup(1))
    case RotateInPart(from) =>
      && 0 in s.files && from < top && (s.place == Backup(top) ==> Position(s) == s.base)
      && t == s.(files := Moved(s.files, from, top), place := PlaceAfter(s.place, from, top))
    case Poll(growth) =>
      && (0 in s.files || (growth == [] && (s.place == Active || Position(s) == s.base)))
      && var atRead := if 0 in s.files then Grow(s.files, growth) else s.files;
         exists out ::
           && IsPoll(s.cursor, s.files, atRead, t.cursor, Some(out))
           && t == s.(files := atRead, cursor := t.cursor, total := s.total + growth, consumed := s.consumed + out,
                      place := Active)
    case PollAcross(inode, more) =>
      && CanRotate(s) && IsNew(s.files, inode)
      && var atRead := Rotated(s.files, inode, more, top);
         exists out ::
           && IsPoll(s.cursor, s.files, atRead, t.cursor, Some(out))
           && out <= From(s.files[0].bytes, s.cursor.offset)
           && t == s.(files := atRead, cursor := t.cursor, total := s.total + more, base := |s.total|,
                      consumed := s.consumed + out, place := Backup(1))
  }

  /** The reader is reading the active file, and what it has not read of it are whole lines. */
  predicate CanRotate(s: Reading) {
    0 in s.files && s.place == Active && AtLineStart(From(s.files[0].bytes, s.cursor.offset))
  }

  /** A reader created now has returned nothing. */
  function Fresh(files: Files, past: seq<byte>): Reading {
    var active := if 0 in files then files[0].bytes else [];
    Reading(files, FromProject(files), past + active, |past|, |past| + |active|, [], Active)
  }

  /** The files, and which part of `total` the active one holds. */
  ghost predicate FilesInv(files: Files, total: seq<byte>, base: nat, top: nat) {
    && top >= 1
    && (forall k :: k in files ==> k <= top)
    && (forall j, k :: j in files && k in files && files[j].inode == files[k].inode ==> j == k)
    && base <= |total|
    && (if 0 in files then files[0].bytes == total[base..] else base == |total|)
  }

  /** Where the cursor stands: `position` bytes of `total` are behind it. */
  ghost predicate CursorInv(files: Files, cursor: Cursor, total: seq<byte>, base: nat, position: nat, place: Place) {
    && position <= |total|
    && match place
       case Active =>
         if cursor.identity.None? then cursor.offset == 0 && position == base
         else 0 in files && files[0].inode == cursor.identity.value && position == base + cursor.offset
       case Backup(slot) =>
         && cursor.identity.Some? && slot != 0 && slot in files
         && files[slot].inode == cursor.identity.value
         && var former := files[slot].bytes;
         && cursor.offset <= |former| && position + |former| - cursor.offset == base <= |total|
         && former[cursor.offset..] == total[position..base] && AtLineStart(former[cursor.offset..])
       case Dropped =>
         0 in files && cursor.identity.Some? && IsNew(files, cursor.identity.value) && position == base
  }

  ghost predicate Inv(s: Reading, top: nat) {
    && FilesInv(s.files, s.total, s.base, top)
    && CursorInv(s.files, s.cursor, s.total, s.base, Position(s), s.place)
    && Position(s) <= |s.total|
    && s.consumed == s.total[s.start..Position(s)]
    && AtLineStart(s.consumed)
  }

  lemma FreshKeepsInv(files: Files, past: seq<byte>, top: nat)
    requires var s := Fresh(files, past); FilesInv(files, s.total, s.base, top)
    ensures Inv(Fresh(files, past), top)
  {
  }

  // ---------------------------------------------------------------- polls

  lemma CompleteTwice(total: seq<byte>, start: nat, middle: nat)
    requires start <= middle <= |total| && AtLineStart(total[start..middle])
    ensures Complete(total[start..]) == total[start..middle] + Complete(total[middle..])
  {
    assert total[start..] == total[start..middle] + total[middle..];
    CompleteAfterLines(total[start..middle], total[middle..]);
  }

  /** A poll returns the complete lines behind the cursor, and the cursor moves to their end. */
  lemma PollReadsOn(files: Files, cursor: Cursor, total: seq<byte>, base: nat, position: nat, place: Place, top: nat,
                    growth: seq<byte>, next: Cursor, out: seq<byte>)
    requires FilesInv(files, total, base, top) && CursorInv(files, cursor, total, base, position, place)
    requires 0 in files && IsPoll(cursor, files, Grow(files, growth), next, Some(out))
    ensures out == Complete((total + growth)[position..])
    ensures CursorInv(Grow(files, growth), next, total + growth, base, position + |out|, Active)
  {
    hide CompleteLength, Complete;
    var atRead, all := Grow(files, growth), total + growth;
    assert atRead[0].bytes == all[base..];
    CompleteIsPrefix(all[position..]);
    match place {
      case Active =>
        assert From(atRead[0].bytes, cursor.offset) == all[position..];
      case Backup(slot) =>
        var found :| IsBackup(atRead, cursor.identity.value, found)
                     && out == Remainder(atRead, found, cursor.offset) + Complete(From(atRead[0].bytes, 0));
        assert atRead[slot] == files[slot];
        assert found == Some(slot);
        assert files[slot].bytes[cursor.offset..] == all[position..base];
        LinesAreComplete(all[position..base]);
        CompleteTwice(all, position, base);
        CompleteIsPrefix(all[base..]);
      case Dropped =>
        var found :| IsBackup(atRead, cursor.identity.value, found)
                     && out == Remainder(atRead, found, cursor.offset) + Complete(From(atRead[0].bytes, 0));
        assert found == None;
        assert out == Complete(From(atRead[0].bytes, 0));
    }
  }

  /** A poll that a rotation crosses: what it returns, if it is part of what the reader should read next,
      leaves the reader in the rotated file. */
  lemma PollAcrossReadsOn(files: Files, cursor: Cursor, total: seq<byte>, base: nat, position: nat, top: nat,
                          inode: nat, more: seq<byte>, next: Cursor, out: seq<byte>)
    requires FilesInv(files, total, base, top) && CursorInv(files, cursor, total, base, position, Active)
    requires 0 in files && IsNew(files, inode) && AtLineStart(From(files[0].bytes, cursor.offset))
    requires IsPoll(cursor, files, Rotated(files, inode, more, top), next, Some(out))
    requires out <= From(files[0].bytes, cursor.offset)
    ensures out <= total[position..] && AtLineStart(out)
    ensures CursorInv(Rotated(files, inode, more, top), next, total + more, |total|, position + |out|, Backup(1))
  {
    hide CompleteLength, Complete, Rotated, FilesInv, IsPoll;
    FilesFit(files, total, base, top);
    PollAcrossSees(files, cursor, inode, more, top, next, out);
    RotatedAt(files, inode, more, top);
    CompleteIsPrefix(From(more, cursor.offset));
    LeftUnread(files[0].bytes, cursor.offset, total, position, more, |out|);
  }

  /** What a file still holds after `n` more bytes, in terms of the whole text. */
  lemma LeftUnread(bytes: seq<byte>, offset: nat, total: seq<byte>, position: nat, more: seq<byte>, n: nat)
    requires offset + n <= |bytes| && position <= |total| && bytes[offset..] == total[position..]
    ensures position + n <= |total|
    ensures bytes[offset + n..] == (total + more)[position + n..|total|]
  {
    var unread := bytes[offset..];
    assert |unread| == |total| - position;
    assert unread[n..] == total[position + n..] == (total + more)[position + n..|total|];
    assert bytes[offset + n..] == unread[n..];
  }

  lemma RotatedAt(files: Files, inode: nat, more: seq<byte>, top: nat)
    requires top >= 1 && 0 in files
    ensures var after := Rotated(files, inode, more, top);
            0 in after && after[0] == File(inode, more) && 1 in after && after[1] == files[0]
  {
    hide Moved;
    MovedAt(files, -1, top, 1);
  }

  /** The poll looked at the old file but opened the new one, at the old offset. */
  lemma PollAcrossSees(files: Files, cursor: Cursor, inode: nat, more: seq<byte>, top: nat, next: Cursor,
                       out: seq<byte>)
    requires top >= 1 && 0 in files && cursor.offset <= |files[0].bytes|
    requires cursor.identity.None? || cursor.identity == Some(files[0].inode)
    requires IsPoll(cursor, files, Rotated(files, inode, more, top), next, Some(out))
    ensures out == Complete(From(more, cursor.offset)) && next == Cursor(cursor.offset + |out|, Some(files[0].inode))
  {
    hide Complete, From, Moved;
  }

  lemma LinesAreComplete(lines: seq<byte>)
    requires AtLineStart(lines)
    ensures Complete(lines) == lines
  {
    CompleteAfterLines(lines, []);
    assert lines + [] == lines;
  }

  lemma CompleteIsPrefix(content: seq<byte>)
    ensures Complete(content) <= content && |Complete(content)| == CompleteLength(content)
    ensures AtLineStart(Complete(content))
  {
  }

  // ---------------------------------------------------------------- every step keeps the invariant

  lemma MovedAt(files: Files, from: int, top: nat, k: nat)
    requires top >= 1 && -1 <= from < top
    ensures var moved := Moved(files, from, top);
            && (k <= from ==> (k in moved <==> k in files) && (k in moved ==> moved[k] == files[k]))
            && (k > from ==> (k in moved <==> from + 2 <= k <= top && k - 1 in files)
                             && (k in moved ==> moved[k] == files[k - 1]))
  {
    ShiftAt(files - {top}, from, top, k);
  }

  /** A rotation, whole or in part, leaves the identities distinct. */
  lemma MovedKeepsIdentities(files: Files, from: int, top: nat)
    requires top >= 1 && -1 <= from < top
    requires forall j, k :: j in files && k in files && files[j].inode == files[k].inode ==> j == k
    ensures var moved := Moved(files, from, top);
            && (forall k :: k in moved ==> k <= top)
            && (forall j, k :: j in moved && k in moved && moved[j].inode == moved[k].inode ==> j == k)
            && forall inode :: IsNew(files, inode) ==> IsNew(moved, inode)
  {
    hide Moved;
    var moved := Moved(files, from, top);
    forall k | k in moved ensures k <= top {
      MovedAt(files, from, top, k);
    }
    forall j, k | j in moved && k in moved && moved[j].inode == moved[k].inode ensures j == k {
      MovedAt(files, from, top, j);
      MovedAt(files, from, top, k);
    }
    forall inode, k | IsNew(files, inode) && k in moved ensures moved[k].inode != inode {
      MovedAt(files, from, top, k);
    }
  }

  lemma SameBehind(s: Reading, t: Reading)
    requires Position(s) <= |s.total| && Position(s) <= |t.total|
    requires s.total[..Position(s)] == t.total[..Position(s)]
    ensures s.total[s.start..Position(s)] == t.total[s.start..Position(s)]
  {
    var position := Position(s);
    assert s.total[s.start..position] == s.total[..position][s.start..];
    assert t.total[s.start..position] == t.total[..position][s.start..];
  }

  /** Only the active file and the end of the text change: the cursor keeps its place. */
  lemma CursorKeeps(files: Files, files': Files, cursor: Cursor, total: seq<byte>, total': seq<byte>, base: nat,
                    position: nat, place: Place)
    requires CursorInv(files, cursor, total, base, position, place) && position <= |total'|
    requires forall k :: k != 0 ==> (k in files' <==> k in files) && (k in files ==> files'[k] == files[k])
    requires 0 in files' && (if 0 in files then files'[0].inode == files[0].inode else IsNew(files, files'[0].inode))
    requires base <= |total'| && base <= |total| && total'[..base] == total[..base]
    ensures CursorInv(files', cursor, total', base, position, place)
  {
    hide AtLineStart;
    if place.Backup? {
      assert position <= base;
      assert total'[position..base] == total'[..base][position..];
      assert total[position..base] == total[..base][position..];
    }
  }

  lemma ActiveKeepsFiles(files: Files, active: File, total: seq<byte>, total': seq<byte>, base: nat, top: nat)
    requires FilesInv(files, total, base, top)
    requires if 0 in files then active.inode == files[0].inode else IsNew(files, active.inode)
    requires base <= |total'| && active.bytes == total'[base..]
    ensures FilesInv(files[0 := active], total', base, top)
  {
  }

  lemma AppendKeepsInv(s: Reading, event: Event, t: Reading, top: nat)
    requires Inv(s, top) && event.Append? && Step(s, event, t, top)
    ensures Inv(t, top)
  {
    FilesFit(s.files, s.total, s.base, top);
    hide FilesInv, CursorInv, AtLineStart, IsNew;
    SameBehind(s, t);
    assert t.total[s.base..] == s.total[s.base..] + event.more && t.total[..s.base] == s.total[..s.base];
    ActiveKeepsFiles(s.files, t.files[0], s.total, t.total, s.base, top);
    CursorKeeps(s.files, t.files, s.cursor, s.total, t.total, s.base, Position(s), s.place);
  }

  lemma RollBackKeepsInv(s: Reading, event: Event, t: Reading, top: nat)
    requires Inv(s, top) && event.RollBack? && Step(s, event, t, top)
    ensures Inv(t, top)
  {
    FilesFit(s.files, s.total, s.base, top);
    hide FilesInv, CursorInv, AtLineStart, IsNew;
    SameBehind(s, t);
    assert t.total[s.base..] == s.total[s.base..][..event.size] && t.total[..s.base] == s.total[..s.base];
    ActiveKeepsFiles(s.files, t.files[0], s.total, t.total, s.base, top);
    CursorKeeps(s.files, t.files, s.cursor, s.total, t.total, s.base, Position(s), s.place);
  }

  lemma RotateKeepsInv(s: Reading, event: Event, t: Reading, top: nat)
    requires Inv(s, top) && event.Rotate? && Step(s, event, t, top)
    ensures Inv(t, top)
  {
    hide Moved, FilesInv;
    RotationKeepsFiles(s.files, s.total, s.base, top);
    FilesFit(s.files, s.total, s.base, top);
    MovedAt(s.files, -1, top, 1);
    SameBehind(s, t);
    var position := Position(s);
    assert s.files[0].bytes[s.cursor.offset..] == s.total[position..] == t.total[position..t.base];
  }

  lemma RotationKeepsFiles(files: Files, total: seq<byte>, base: nat, top: nat)
    requires FilesInv(files, total, base, top) && 0 in files
    ensures FilesInv(Moved(files, -1, top), total, |total|, top)
  {
    hide Moved;
    MovedKeepsIdentities(files, -1, top);
    MovedAt(files, -1, top, 0);
  }

  lemma CreationKeepsFiles(files: Files, total: seq<byte>, top: nat, inode: nat, more: seq<byte>)
    requires FilesInv(files, total, |total|, top) && 0 !in files && IsNew(files, inode)
    ensures FilesInv(files[0 := File(inode, more)], total + more, |total|, top)
  {
    assert (total + more)[|total|..] == more;
  }

  lemma RotateInPartKeepsInv(s: Reading, event: Event, t: Reading, top: nat)
    requires Inv(s, top) && event.RotateInPart? && Step(s, event, t, top)
    ensures Inv(t, top)
  {
    hide Moved, FilesInv, AtLineStart;
    MovedKeepsFiles(s.files, s.total, s.base, event.from, top);
    FilesFit(s.files, s.total, s.base, top);
    MovedAt(s.files, event.from, top, 0);
    if t.place.Backup? {
      MovedAt(s.files, event.from, top, t.place.slot);
    } else if t.place.Dropped? {
      DroppedIsGone(s.files, s.cursor.identity.value, event.from, top);
    }
  }

  /** A rotation drops the file in the top slot and no other, and brings no identity back. */
  lemma DroppedIsGone(files: Files, identity: nat, from: nat, top: nat)
    requires top >= 1 && from < top
    requires forall k :: k in files && files[k].inode == identity ==> k == top
    ensures IsNew(Moved(files, from, top), identity)
  {
    hide Moved;
    forall k | k in Moved(files, from, top) ensures Moved(files, from, top)[k].inode != identity {
      MovedAt(files, from, top, k);
    }
  }

  lemma FilesFit(files: Files, total: seq<byte>, base: nat, top: nat)
    requires FilesInv(files, total, base, top)
    ensures top >= 1 && forall k :: k in files ==> k <= top
    ensures base <= |total| && (0 in files ==> files[0].bytes == total[base..])
    ensures forall j, k :: j in files && k in files && files[j].inode == files[k].inode ==> j == k
  {
  }

  /** A rotation in part leaves the active file alone. */
  lemma MovedKeepsFiles(files: Files, total: seq<byte>, base: nat, from: nat, top: nat)
    requires FilesInv(files, total, base, top) && from < top
    ensures FilesInv(Moved(files, from, top), total, base, top)
  {
    hide Moved;
    MovedKeepsIdentities(files, from, top);
    MovedAt(files, from, top, 0);
  }

  lemma PollKeepsInv(s: Reading, event: Event, t: Reading, top: nat)
    requires Inv(s, top) && event.Poll? && Step(s, event, t, top)
    ensures Inv(t, top)
    ensures t.consumed == Complete(t.total[t.start..])
  {
    hide CompleteLength, Complete, CursorInv, FilesInv, IsPoll, AtLineStart;
    var position := Position(s);
    var atRead := if 0 in s.files then Grow(s.files, event.growth) else s.files;
    var out :| IsPoll(s.cursor, s.files, atRead, t.cursor, Some(out)) && t.consumed == s.consumed + out;
    GrowthKeepsFiles(s.files, event.growth, s.total, s.base, top);
    if 0 in s.files {
      PollReadsOn(s.files, s.cursor, s.total, s.base, position, s.place, top, event.growth, t.cursor, out);
    } else {
      assert t.total == s.total;
      NothingToPoll(s.files, s.cursor, s.total, s.base, position, s.place, top, t.cursor, out);
    }
    PollAdds(s.total, event.growth, s.start, s.consumed, out);
  }

  /** What a poll adds to what was returned before. */
  lemma PollAdds(total: seq<byte>, growth: seq<byte>, start: nat, consumed: seq<byte>, out: seq<byte>)
    requires start + |consumed| <= |total| && consumed == total[start..start + |consumed|] && AtLineStart(consumed)
    requires out == Complete((total + growth)[start + |consumed|..])
    ensures var all, now := total + growth, consumed + out;
            && now == Complete(all[start..])
            && start + |now| <= |all| && now == all[start..start + |now|] && AtLineStart(now)
  {
    hide CompleteLength;
    var all, position := total + growth, start + |consumed|;
    assert all[start..position] == consumed;
    CompleteTwice(all, start, position);
    CompleteIsPrefix(all[start..]);
  }

  lemma PollAcrossKeepsInv(s: Reading, event: Event, t: Reading, top: nat)
    requires Inv(s, top) && event.PollAcross? && Step(s, event, t, top)
    ensures Inv(t, top)
  {
    hide CompleteLength, Complete, CursorInv, FilesInv, IsPoll, Rotated;
    var atRead := Rotated(s.files, event.inode, event.more, top);
    var out :| IsPoll(s.cursor, s.files, atRead, t.cursor, Some(out)) && t.consumed == s.consumed + out
               && out <= From(s.files[0].bytes, s.cursor.offset);
    RotatedKeepsFiles(s.files, s.total, s.base, event.inode, event.more, top);
    PollAcrossReadsOn(s.files, s.cursor, s.total, s.base, Position(s), top, event.inode, event.more, t.cursor, out);
    assert t.total[s.start..Position(t)] == s.total[s.start..Position(s)] + s.total[Position(s)..][..|out|];
  }

  lemma RotatedKeepsFiles(files: Files, total: seq<byte>, base: nat, inode: nat, more: seq<byte>, top: nat)
    requires FilesInv(files, total, base, top) && 0 in files && IsNew(files, inode)
    ensures FilesInv(Rotated(files, inode, more, top), total + more, |total|, top)
  {
    hide Moved, FilesInv;
    FilesFit(files, total, base, top);
    RotationKeepsFiles(files, total, base, top);
    MovedKeepsIdentities(files, -1, top);
    MovedAt(files, -1, top, 0);
    CreationKeepsFiles(Moved(files, -1, top), total, top, inode, more);
  }

  lemma GrowthKeepsFiles(files: Files, growth: seq<byte>, total: seq<byte>, base: nat, top: nat)
    requires FilesInv(files, total, base, top) && (0 in files || growth == [])
    ensures FilesInv(if 0 in files then Grow(files, growth) else files, total + growth, base, top)
  {
    assert total + [] == total;
  }

  /** Without an active file there is nothing behind the cursor. */
  lemma NothingToPoll(files: Files, cursor: Cursor, total: seq<byte>, base: nat, position: nat, place: Place, top: nat,
                      next: Cursor, out: seq<byte>)
    requires FilesInv(files, total, base, top) && CursorInv(files, cursor, total, base, position, place)
    requires 0 !in files && (place == Active || position == base) && IsPoll(cursor, files, files, next, Some(out))
    ensures out == [] == Complete(total[position..])
    ensures CursorInv(files, next, total, base, position, Active)
  {
  }

  lemma StepKeepsInv(s: Reading, event: Event, t: Reading, top: nat)
    requires Inv(s, top) && Step(s, event, t, top)
    ensures Inv(t, top)
    ensures event.Poll? ==> t.consumed == Complete(t.total[t.start..])
  {
    hide Inv, Step;
    match event {
      case Append(_, _) => AppendKeepsInv(s, event, t, top);
      case RollBack(_) => RollBackKeepsInv(s, event, t, top);
      case Rotate => RotateKeepsInv(s, event, t, top);
      case RotateInPart(_) => RotateInPartKeepsInv(s, event, t, top);
      case Poll(_) => PollKeepsInv(s, event, t, top);
      case PollAcross(_, _) => PollAcrossKeepsInv(s, event, t, top);
    }
  }

  ghost predicate IsRun(trace: seq<Reading>, events: seq<Event>, top: nat) {
    && |trace| == |events| + 1
    && forall i :: 0 <= i < |events| ==> Step(trace[i], events[i], trace[i + 1], top)
  }

  /** Over every run from the reader's creation, what it has returned is at any time a part, from the first
      on, of the complete lines written since then: in order, none twice, no partial line. After each poll
      that no rotation crossed it is all of them: none is lost. */
  lemma {:induction false} PollsReturnExactlyTheCompleteLines(
      files: Files, past: seq<byte>, trace: seq<Reading>, events: seq<Event>, top: nat, i: nat)
    requires IsRun(trace, events, top) && trace[0] == Fresh(files, past)
             && FilesInv(files, trace[0].total, trace[0].base, top)
    requires i < |events|
    ensures Inv(trace[i + 1], top) && trace[i + 1].start == |trace[0].total|
    ensures trace[i + 1].consumed <= Complete(trace[i + 1].total[|trace[0].total|..])
            && AtLineStart(trace[i + 1].consumed)
    ensures events[i].Poll? ==> trace[i + 1].consumed == Complete(trace[i + 1].total[|trace[0].total|..])
  {
    hide Inv, Step, Fresh, FilesInv, Complete;
    if i == 0 {
      FreshKeepsInv(files, past, top);
    } else {
      PollsReturnExactlyTheCompleteLines(files, past, trace, events, top, i - 1);
    }
    assert Step(trace[i], events[i], trace[i + 1], top);
    StepKeepsInv(trace[i], events[i], trace[i + 1], top);
    StepKeepsStart(trace[i], events[i], trace[i + 1], top);
    ReturnedIsComplete(trace[i + 1], top);
    assert trace[0].start == |trace[0].total| by {
      StartIsNow(files, past);
    }
  }

  lemma ReturnedIsComplete(s: Reading, top: nat)
    requires Inv(s, top)
    ensures s.start <= |s.total| && s.consumed <= Complete(s.total[s.start..]) && AtLineStart(s.consumed)
  {
    hide CompleteLength, FilesInv, CursorInv;
    CompleteTwice(s.total, s.start, Position(s));
  }

  lemma StepKeepsStart(s: Reading, event: Event, t: Reading, top: nat)
    requires Step(s, event, t, top)
    ensures t.start == s.start
  {
  }

  lemma StartIsNow(files: Files, past: seq<byte>)
    ensures Fresh(files, past).start == |Fresh(files, past).total|
  {
  }
}
