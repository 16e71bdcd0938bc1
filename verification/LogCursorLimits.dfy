/**
 * Where the conditions on a run of the log reader come from: for each, exactly when the reader does well
 * without it, whatever is appended later, and an input where it does not.
 */
module LogCursorLimits {
  import opened Wrappers
  import opened LogStore
  import opened LogCursor

  /** Lines for the inputs below. */
  const AB: seq<byte> := [97, 98, NEWLINE]
  const CD: seq<byte> := [99, 100, NEWLINE]
  const WXYZ: seq<byte> := [119, 120, 121, 122, NEWLINE]

  ghost predicate Apart(files: Files) {
    forall j, k :: j in files && k in files && files[j].inode == files[k].inode ==> j == k
  }

  /** A poll is always possible, and never raises while there is an active file. */
  lemma PollOf(cursor: Cursor, atStat: Files, atRead: Files) returns (next: Cursor, out: seq<byte>)
    requires 0 in atStat && 0 in atRead
    ensures IsPoll(cursor, atStat, atRead, next, Some(out))
  {
    hide Complete, From;
    var changed := cursor.identity.Some? && cursor.identity != Some(atStat[0].inode);
    var offset := if changed || |atStat[0].bytes| < cursor.offset then 0 else cursor.offset;
    var tail := Complete(From(atRead[0].bytes, offset));
    next, out := Cursor(offset + |tail|, Some(atStat[0].inode)), tail;
    if changed {
      var found := OldestBackup(atRead, cursor.identity.value);
      out := Remainder(atRead, found, cursor.offset) + tail;
    }
  }

  lemma OldestBackup(files: Files, identity: nat) returns (found: Option<nat>)
    ensures IsBackup(files, identity, found)
  {
    found := None;
    var rest := files.Keys;
    while rest != {}
      invariant rest <= files.Keys
      invariant found.Some? ==> found.value != 0 && found.value in files && files[found.value].inode == identity
      invariant forall k :: k in files && k !in rest && k != 0 && files[k].inode == identity ==>
                  found.Some? && k <= found.value
    {
      var k :| k in rest;
      rest := rest - {k};
      if k != 0 && files[k].inode == identity && (found.None? || k > found.value) {
        found := Some(k);
      }
    }
  }

  // ---------------------------------------------------------------- right from now on

  /** The reader has returned `got` where `text` is what it should read. However the active file grows before
      and during the next poll, that poll makes up the complete lines of the text as it has grown. */
  ghost predicate StaysRight(files: Files, cursor: Cursor, got: seq<byte>, text: seq<byte>)
    requires 0 in files
  {
    forall seen, all, next, out ::
      seen <= all && IsPoll(cursor, Grow(files, seen), Grow(files, all), next, Some(out)) ==>
        got + out == Complete(text + all)
  }

  /** The active file from `offset` on. */
  function Tail(files: Files, offset: nat): seq<byte> {
    From(ActiveContent(files), offset)
  }

  /** The reader returned `first`, whole lines, and then those of the active file from `offset` on. */
  ghost predicate HasReturned(files: Files, cursor: Cursor, got: seq<byte>, first: seq<byte>, offset: nat) {
    && 0 in files && offset <= |files[0].bytes| && AtLineStart(first)
    && var lines := Complete(files[0].bytes[offset..]);
    && got == first + lines && cursor == Cursor(offset + |lines|, Some(files[0].inode))
  }

  /** The next poll reads on. */
  lemma NextPoll(files: Files, cursor: Cursor, got: seq<byte>, first: seq<byte>, offset: nat,
                 seen: seq<byte>, all: seq<byte>, next: Cursor, out: seq<byte>)
    requires HasReturned(files, cursor, got, first, offset) && seen <= all
    requires IsPoll(cursor, Grow(files, seen), Grow(files, all), next, Some(out))
    ensures got + out == first + Complete(From(files[0].bytes + all, offset))
    ensures HasReturned(Grow(files, all), next, got + out, first, offset)
  {
    hide CompleteLength, Complete, From;
    var bytes := files[0].bytes;
    TwoReads(bytes, all, offset, cursor.offset);
    assert first + Complete(bytes[offset..]) + out == first + (Complete(bytes[offset..]) + out);
  }

  /** Two reads, the second from where the first one ended, return what one read returns. */
  lemma TwoReads(bytes: seq<byte>, all: seq<byte>, offset: nat, middle: nat)
    requires offset <= |bytes| && middle == offset + |Complete(bytes[offset..])|
    ensures middle <= |bytes| && From(bytes + all, offset) == (bytes + all)[offset..]
    ensures Complete(From(bytes + all, offset)) == Complete(bytes[offset..]) + Complete(From(bytes + all, middle))
  {
    hide CompleteLength, Complete;
    var grown := bytes + all;
    CompleteIsPrefix(bytes[offset..]);
    assert bytes[offset..middle] == Complete(bytes[offset..]) == grown[offset..middle];
    CompleteTwice(grown, offset, middle);
  }

  /** A reader stays right exactly when the text is what it has returned first and the file from its offset. */
  lemma StaysRightIff(files: Files, cursor: Cursor, got: seq<byte>, first: seq<byte>, offset: nat, text: seq<byte>)
    requires 0 in files && HasReturned(files, cursor, got, first, offset)
    ensures StaysRight(files, cursor, got, text) <==> text == first + Tail(files, offset)
  {
    hide Complete, HasReturned;
    if text == first + Tail(files, offset) {
      forall seen, all, next, out
        | seen <= all && IsPoll(cursor, Grow(files, seen), Grow(files, all), next, Some(out))
        ensures got + out == Complete(text + all)
      {
        NextPoll(files, cursor, got, first, offset, seen, all, next, out);
        FirstLines(files, cursor, got, first, offset, all);
      }
    }
    if StaysRight(files, cursor, got, text) {
      var end: seq<byte> := [NEWLINE];
      FirstLines(files, cursor, got, first, offset, end);
      var next, out := PollOf(cursor, Grow(files, end), Grow(files, end));
      NextPoll(files, cursor, got, first, offset, end, end, next, out);
      LinesAreComplete(text + end);
      LinesAreComplete(first + Tail(files, offset) + end);
      assert (text + end)[..|text|] == text;
      assert (first + Tail(files, offset) + end)[..|first + Tail(files, offset)|] == first + Tail(files, offset);
    }
  }

  lemma FirstLines(files: Files, cursor: Cursor, got: seq<byte>, first: seq<byte>, offset: nat, all: seq<byte>)
    requires HasReturned(files, cursor, got, first, offset)
    ensures first + Complete(From(files[0].bytes + all, offset)) == Complete(first + Tail(files, offset) + all)
  {
    hide Complete;
    assert From(files[0].bytes + all, offset) == Tail(files, offset) + all;
    CompleteAfterLines(first, Tail(files, offset) + all);
    assert first + Tail(files, offset) + all == first + (Tail(files, offset) + all);
  }

  /** Being right for the next poll is being right for ever: after it, it holds again. */
  lemma RightForEver(files: Files, cursor: Cursor, got: seq<byte>, first: seq<byte>, offset: nat, text: seq<byte>,
                     seen: seq<byte>, all: seq<byte>, next: Cursor, out: seq<byte>)
    requires 0 in files && HasReturned(files, cursor, got, first, offset) && StaysRight(files, cursor, got, text)
    requires seen <= all && IsPoll(cursor, Grow(files, seen), Grow(files, all), next, Some(out))
    ensures StaysRight(Grow(files, all), next, got + out, text + all)
  {
    hide IsPoll, StaysRight, Complete, HasReturned, Tail;
    StaysRightIff(files, cursor, got, first, offset, text);
    NextPoll(files, cursor, got, first, offset, seen, all, next, out);
    TailGrows(files, cursor, got, first, offset, all);
    StaysRightIff(Grow(files, all), next, got + out, first, offset, text + all);
    assert first + Tail(files, offset) + all == first + (Tail(files, offset) + all);
  }

  lemma TailGrows(files: Files, cursor: Cursor, got: seq<byte>, first: seq<byte>, offset: nat, all: seq<byte>)
    requires 0 in files && HasReturned(files, cursor, got, first, offset)
    ensures Tail(Grow(files, all), offset) == Tail(files, offset) + all
  {
  }

  /** Where a poll starts in a file that it takes for the one it was reading. */
  function StartOf(files: Files, cursor: Cursor): nat {
    if |ActiveContent(files)| < cursor.offset then 0 else cursor.offset
  }

  /** Such a poll stays right exactly if the text is the file from there on. */
  lemma OwnPoll(files: Files, growth: seq<byte>, cursor: Cursor, next: Cursor, out: seq<byte>, text: seq<byte>)
    requires 0 in files && (cursor.identity.None? || cursor.identity == Some(files[0].inode))
    requires IsPoll(cursor, files, Grow(files, growth), next, Some(out))
    ensures var after, from := Grow(files, growth), StartOf(files, cursor);
            && from <= |after[0].bytes| && out == Complete(Tail(after, from))
            && (StaysRight(after, next, out, text) <==> text == Tail(after, from))
  {
    hide Complete, StaysRight;
    var after, from := Grow(files, growth), StartOf(files, cursor);
    assert [] + out == out && [] + Tail(after, from) == Tail(after, from);
    StaysRightIff(after, next, out, [], from, text);
  }

  // ---------------------------------------------------------------- the start of a reader

  /** The lines completed since the reader started are what it returns exactly when it did not start inside a
      line; otherwise the first thing it returns is the end of a line. */
  lemma {:induction false} WholeLinesIffStartedAtALine(total: seq<byte>, start: nat)
    requires start <= |total| && Complete(total[start..]) != []
    ensures CompleteLength(total[..start]) <= CompleteLength(total)
    ensures Complete(total[start..]) == Complete(total)[CompleteLength(total[..start])..]
            <==> AtLineStart(total[..start])
  {
    assert total == total[..start] + total[start..];
    CompleteAfterLines(total[..start], total[start..]);
    assert Complete(total)[start..] == Complete(total[start..]);
  }

  /** A reader that starts while a line is half written returns the other half as a line. */
  lemma StartedInsideALine() returns (next: Cursor, out: seq<byte>)
    ensures var before, after := map[0 := File(1, AB[..1])], map[0 := File(1, AB)];
            IsPoll(FromProject(before), after, after, next, Some(out))
    ensures out == [98, NEWLINE]
  {
    var before: Files, after: Files := map[0 := File(1, AB[..1])], map[0 := File(1, AB)];
    next, out := PollOf(FromProject(before), after, after);
    assert From(AB, 1) == [98, NEWLINE];
    LinesAreComplete([98, NEWLINE]);
  }

  // ---------------------------------------------------------------- rollbacks

  /** The file was cut back to `kept`, behind the cursor, and then grew by `seen` before the poll and by
      `growth` within it. From this poll on the reader returns the lines appended since the cut exactly if it
      starts over with a file that was emptied. */
  lemma CutBehindTheReader(inode: nat, kept: seq<byte>, seen: seq<byte>, growth: seq<byte>, offset: nat,
                           next: Cursor, out: seq<byte>)
    requires |kept| < offset
    requires var atStat, atRead := map[0 := File(inode, kept + seen)], map[0 := File(inode, kept + seen + growth)];
             IsPoll(Cursor(offset, Some(inode)), atStat, atRead, next, Some(out))
    ensures out == Complete(From(kept + seen + growth, if |kept + seen| < offset then 0 else offset))
    ensures StaysRight(map[0 := File(inode, kept + seen + growth)], next, out, seen + growth)
       <==> |kept + seen| < offset && kept == []
  {
    hide Complete, StaysRight;
    var atStat: Files := map[0 := File(inode, kept + seen)];
    assert Grow(atStat, growth) == map[0 := File(inode, kept + seen + growth)];
    OwnPoll(atStat, growth, Cursor(offset, Some(inode)), next, out, seen + growth);
    assert kept + seen + growth == kept + (seen + growth);
    assert From(kept + seen + growth, 0) == kept + (seen + growth);
    assert kept == [] ==> kept + (seen + growth) == seen + growth;
  }

  /** A line is written and returned, its sync fails and it is rolled back; a longer line follows before the
      next poll. The size does not give the cut away: the poll returns the end of that line only. */
  lemma CutAndRegrown() returns (next: Cursor, out: seq<byte>)
    ensures var files := map[0 := File(7, WXYZ)];
            IsPoll(Cursor(|AB|, Some(7)), files, files, next, Some(out))
    ensures out == [122, NEWLINE] && out != Complete(WXYZ)
  {
    var files: Files := map[0 := File(7, WXYZ)];
    next, out := PollOf(Cursor(|AB|, Some(7)), files, files);
    assert From(WXYZ, 3) == [122, NEWLINE];
    LinesAreComplete([122, NEWLINE]);
    LinesAreComplete(WXYZ);
  }

  /** The same, but the poll comes before the end of the longer line is written: it returns nothing, and the
      next one returns the end of the line. */
  lemma CutAndTornLater() returns (middle: Cursor, out: seq<byte>, next: Cursor, rest: seq<byte>)
    ensures var files, after := map[0 := File(7, WXYZ[..4])], map[0 := File(7, WXYZ)];
            && IsPoll(Cursor(|AB|, Some(7)), files, files, middle, Some(out))
            && IsPoll(middle, after, after, next, Some(rest))
    ensures out == [] && rest == [122, NEWLINE]
  {
    var files: Files, after: Files := map[0 := File(7, WXYZ[..4])], map[0 := File(7, WXYZ)];
    middle, out := PollOf(Cursor(|AB|, Some(7)), files, files);
    assert From(WXYZ[..4], 3) == [122];
    NoLineIn([122]);
    next, rest := PollOf(middle, after, after);
    assert From(WXYZ, 3) == [122, NEWLINE];
    LinesAreComplete([122, NEWLINE]);
  }

  lemma NoLineIn(content: seq<byte>)
    requires forall i :: 0 <= i < |content| ==> content[i] != NEWLINE
    ensures Complete(content) == []
  {
    assert CompleteLength(content) == 0;
  }

  /** Of two lines the second is rolled back behind the cursor: the poll returns the first one again. */
  lemma CutAndReadAgain() returns (next: Cursor, out: seq<byte>)
    ensures var files := map[0 := File(7, AB)];
            IsPoll(Cursor(|AB + CD|, Some(7)), files, files, next, Some(out))
    ensures out == AB
  {
    var files: Files := map[0 := File(7, AB)];
    next, out := PollOf(Cursor(|AB + CD|, Some(7)), files, files);
    LinesAreComplete(AB);
    assert From(AB, 0) == AB;
  }

  // ---------------------------------------------------------------- files that came and went

  /** What the backups in slots `n` down to 1 hold. */
  ghost function Between(files: Files, n: nat): seq<byte> {
    if n == 0 then [] else (if n in files then files[n].bytes else []) + Between(files, n - 1)
  }

  ghost predicate AllEmpty(files: Files, n: nat) {
    forall k :: 1 <= k <= n && k in files ==> files[k].bytes == []
  }

  lemma {:induction false} NothingBetween(files: Files, n: nat)
    ensures Between(files, n) == [] <==> AllEmpty(files, n)
  {
    if n > 0 {
      NothingBetween(files, n - 1);
    }
  }

  lemma LeftOut(front: seq<byte>, middle: seq<byte>, last: seq<byte>)
    ensures front + middle + last == last <==> front == [] && middle == []
  {
    assert |front + middle + last| == |front| + |middle| + |last|;
    if front == [] && middle == [] {
      assert front + middle + last == last;
    }
  }

  /** What a poll does that finds the active file changed: it returns the rest of the backup with the old
      identity, and from then on is right exactly if that rest is what was due before the active file. */
  lemma ChangedPoll(files: Files, cursor: Cursor, found: Option<nat>, due: seq<byte>, next: Cursor, out: seq<byte>)
    requires 0 in files && cursor.identity.Some? && cursor.identity != Some(files[0].inode)
    requires IsBackup(files, cursor.identity.value, found) && IsPoll(cursor, files, files, next, Some(out))
    ensures out == Remainder(files, found, cursor.offset) + Complete(files[0].bytes)
    ensures StaysRight(files, next, out, due + files[0].bytes) <==> due == Remainder(files, found, cursor.offset)
  {
    hide Complete;
    var first, bytes := Remainder(files, found, cursor.offset), files[0].bytes;
    var other :| IsBackup(files, cursor.identity.value, other)
                 && out == Remainder(files, other, cursor.offset) + Complete(From(bytes, 0));
    assert other == found;
    assert From(bytes, 0) == bytes == bytes[0..];
    if found.Some? {
      CompleteIsPrefix(From(files[found.value].bytes, cursor.offset));
    }
    StaysRightIff(files, next, out, first, 0, due + bytes);
    assert (due + bytes)[|due + bytes| - |bytes|..] == bytes && (first + bytes)[|first + bytes| - |bytes|..] == bytes;
    assert due + bytes == first + bytes ==> (due + bytes)[..|due|] == (first + bytes)[..|due|];
  }

  /** After any number of rotations the file of the reader is in slot `n`. A poll returns what is left of it
      and the active file. From then on the reader is right exactly if what was left ended at a line end, and
      all files in between are empty. */
  lemma FilesBetweenAreSkipped(files: Files, cursor: Cursor, n: nat, next: Cursor, out: seq<byte>)
    requires Apart(files) && 0 in files && n >= 1 && n in files && cursor.identity == Some(files[n].inode)
    requires IsPoll(cursor, files, files, next, Some(out))
    ensures var unread := From(files[n].bytes, cursor.offset);
            && out == Complete(unread) + Complete(files[0].bytes)
            && (StaysRight(files, next, out, unread + Between(files, n - 1) + files[0].bytes)
                <==> AtLineStart(unread) && AllEmpty(files, n - 1))
  {
    hide Complete, StaysRight, Between;
    var unread := From(files[n].bytes, cursor.offset);
    assert files[0].inode != files[n].inode;
    ChangedPoll(files, cursor, Some(n), unread + Between(files, n - 1), next, out);
    NothingBetween(files, n - 1);
    WholeRest(unread, Between(files, n - 1));
  }

  lemma WholeRest(unread: seq<byte>, skipped: seq<byte>)
    ensures unread + skipped == Complete(unread) <==> AtLineStart(unread) && skipped == []
  {
    CompleteIsPrefix(unread);
    if AtLineStart(unread) {
      LinesAreComplete(unread);
    }
    assert |unread + skipped| == |unread| + |skipped|;
    if skipped == [] {
      assert unread + skipped == unread;
    }
  }

  /** One rotation, when the active file ended inside a line: the reader stays right exactly if all that was
      left to read ended at a line end. */
  lemma RotationInsideALine(files: Files, cursor: Cursor, next: Cursor, out: seq<byte>)
    requires Apart(files) && 0 in files && 1 in files && cursor.identity == Some(files[1].inode)
    requires IsPoll(cursor, files, files, next, Some(out))
    ensures var unread := From(files[1].bytes, cursor.offset);
            StaysRight(files, next, out, unread + files[0].bytes) <==> AtLineStart(unread)
  {
    hide StaysRight;
    FilesBetweenAreSkipped(files, cursor, 1, next, out);
    var unread := From(files[1].bytes, cursor.offset);
    assert unread + Between(files, 0) == unread;
  }

  /** The file of the reader, of which it had not read `unread`, is gone, and slots `n` to 1 were filled since.
      A poll returns the active file. From then on it is right exactly if nothing was unread and the files in
      between are empty. */
  lemma DroppedFileIsSkipped(files: Files, cursor: Cursor, n: nat, unread: seq<byte>, next: Cursor, out: seq<byte>)
    requires 0 in files && cursor.identity.Some? && IsNew(files, cursor.identity.value)
    requires IsPoll(cursor, files, files, next, Some(out))
    ensures out == Complete(files[0].bytes)
    ensures StaysRight(files, next, out, unread + Between(files, n) + files[0].bytes)
       <==> unread == [] && AllEmpty(files, n)
  {
    hide Complete, StaysRight, Between;
    ChangedPoll(files, cursor, None, unread + Between(files, n), next, out);
    NothingBetween(files, n);
    assert [] + Complete(files[0].bytes) == Complete(files[0].bytes);
    assert |unread + Between(files, n)| == |unread| + |Between(files, n)|;
  }

  /** The file of the reader is gone, and its identity was given to the active file. The reader takes that for
      its own, and is right exactly if nothing was unread or in between, and the file is still too short to
      have been read so far, or nothing had been read. */
  lemma ActiveFileHasOldIdentity(files: Files, growth: seq<byte>, cursor: Cursor, n: nat, unread: seq<byte>,
                                 next: Cursor, out: seq<byte>)
    requires 0 in files && cursor.identity == Some(files[0].inode)
    requires IsPoll(cursor, files, Grow(files, growth), next, Some(out))
    ensures StaysRight(Grow(files, growth), next, out, unread + Between(files, n) + (files[0].bytes + growth))
       <==> unread == [] && AllEmpty(files, n) && (|files[0].bytes| < cursor.offset || cursor.offset == 0)
  {
    hide Complete, Between, StaysRight;
    var bytes, from := files[0].bytes + growth, StartOf(files, cursor);
    OwnPoll(files, growth, cursor, next, out, unread + Between(files, n) + bytes);
    NothingBetween(files, n);
    LeftOut(unread, Between(files, n), bytes);
    assert from > 0 ==> |From(bytes, from)| < |bytes| <= |unread + Between(files, n) + bytes|;
    assert From(bytes, 0) == bytes;
  }

  /** The file of the reader is gone, and its identity was given to a file that was then rotated into slot `k`.
      The reader reads that from its old offset on, and is right exactly if nothing was unread or skipped, and
      it does read the whole of that file. */
  lemma BackupHasOldIdentity(files: Files, cursor: Cursor, k: nat, unread: seq<byte>, next: Cursor, out: seq<byte>)
    requires Apart(files) && 0 in files && k >= 1 && k in files && cursor.identity == Some(files[k].inode)
    requires IsPoll(cursor, files, files, next, Some(out))
    ensures StaysRight(files, next, out, unread + files[k].bytes + Between(files, k - 1) + files[0].bytes)
       <==> unread == [] && AllEmpty(files, k - 1) && AtLineStart(files[k].bytes)
            && (cursor.offset == 0 || files[k].bytes == [])
  {
    hide Complete, StaysRight, Between;
    var bytes, read := files[k].bytes, Complete(From(files[k].bytes, cursor.offset));
    assert files[0].inode != files[k].inode;
    ChangedPoll(files, cursor, Some(k), unread + bytes + Between(files, k - 1), next, out);
    NothingBetween(files, k - 1);
    CompleteIsPrefix(From(bytes, cursor.offset));
    WholeOf(bytes, cursor.offset, unread, Between(files, k - 1));
  }

  lemma WholeOf(bytes: seq<byte>, offset: nat, before: seq<byte>, behind: seq<byte>)
    ensures before + bytes + behind == Complete(From(bytes, offset))
       <==> before == [] && behind == [] && AtLineStart(bytes) && (offset == 0 || bytes == [])
  {
    hide CompleteLength;
    CompleteIsPrefix(From(bytes, offset));
    assert |before + bytes + behind| == |before| + |bytes| + |behind|;
    if before == [] && behind == [] {
      assert before + bytes + behind == bytes;
      if offset == 0 || bytes == [] {
        assert From(bytes, offset) == bytes;
        if AtLineStart(bytes) {
          LinesAreComplete(bytes);
        }
      }
    }
  }

  /** The reader started without an active file, and slots `n` to 1 were filled before its first look. It
      returns the active file, and is right exactly if all backups are empty. */
  lemma RotationBeforeFirstLook(files: Files, n: nat, next: Cursor, out: seq<byte>)
    requires 0 in files && IsPoll(Cursor(0, None), files, files, next, Some(out))
    ensures out == Complete(files[0].bytes)
    ensures StaysRight(files, next, out, Between(files, n) + files[0].bytes) <==> AllEmpty(files, n)
  {
    hide Complete, Between, StaysRight;
    var bytes := files[0].bytes;
    assert bytes + [] == bytes && Grow(files, []) == files;
    OwnPoll(files, [], Cursor(0, None), next, out, Between(files, n) + bytes);
    assert Tail(files, 0) == bytes;
    NothingBetween(files, n);
    LeftOut([], Between(files, n), bytes);
    assert [] + Between(files, n) + bytes == Between(files, n) + bytes;
  }

  /** A reader that has read all there is sees two rotations at once: a line in the middle is lost. */
  lemma TwoRotationsLoseALine() returns (next: Cursor, out: seq<byte>)
    ensures var files := map[0 := File(3, WXYZ), 1 := File(2, CD), 2 := File(1, AB)];
            IsPoll(FromProject(map[0 := File(1, AB)]), files, files, next, Some(out))
    ensures out == WXYZ
  {
    var files: Files := map[0 := File(3, WXYZ), 1 := File(2, CD), 2 := File(1, AB)];
    var cursor := FromProject(map[0 := File(1, AB)]);
    next, out := PollOf(cursor, files, files);
    FilesBetweenAreSkipped(files, cursor, 2, next, out);
    assert From(AB, 3) == [];
    CompleteIsPrefix([]);
    LinesAreComplete(WXYZ);
    assert [] + WXYZ == WXYZ;
  }

  /** With one backup the second rotation drops the file of a reader that had not read all of it. */
  lemma OneBackupLosesTheRest() returns (next: Cursor, out: seq<byte>)
    ensures var files := map[0 := File(3, WXYZ), 1 := File(2, CD)];
            IsPoll(Cursor(0, Some(1)), files, files, next, Some(out))
    ensures out == WXYZ && out != AB + CD + WXYZ
  {
    var files: Files := map[0 := File(3, WXYZ), 1 := File(2, CD)];
    next, out := PollOf(Cursor(0, Some(1)), files, files);
    DroppedFileIsSkipped(files, Cursor(0, Some(1)), 0, [], next, out);
    LinesAreComplete(WXYZ);
  }

  /** One rotation, and a second that drops the only backup and then fails: the reader loses the rest. */
  lemma FailedRotationLosesTheRest() returns (next: Cursor, out: seq<byte>)
    ensures var files := Moved(map[0 := File(2, CD), 1 := File(1, AB)], 0, 1);
            IsPoll(Cursor(0, Some(1)), files, files, next, Some(out))
    ensures out == CD && out != AB + CD
  {
    var before: Files := map[0 := File(2, CD), 1 := File(1, AB)];
    var files := Moved(before, 0, 1);
    MovedAt(before, 0, 1, 0);
    DroppedIsGone(before, 1, 0, 1);
    next, out := PollOf(Cursor(0, Some(1)), files, files);
    DroppedFileIsSkipped(files, Cursor(0, Some(1)), 0, [], next, out);
    LinesAreComplete(CD);
  }

  /** With one backup, two rotations and an identity used again, a reader that had read everything takes the
      new active file for its own and returns the end of a line. */
  lemma OldIdentityTearsALine() returns (next: Cursor, out: seq<byte>)
    ensures var files := map[0 := File(1, WXYZ), 1 := File(2, CD)];
            IsPoll(FromProject(map[0 := File(1, AB)]), files, files, next, Some(out))
    ensures out == [122, NEWLINE]
  {
    var files: Files := map[0 := File(1, WXYZ), 1 := File(2, CD)];
    next, out := PollOf(FromProject(map[0 := File(1, AB)]), files, files);
    assert From(WXYZ, 3) == [122, NEWLINE];
    LinesAreComplete([122, NEWLINE]);
  }

  /** A log is created and rotated before a reader that started without it looks: its first line is lost. */
  lemma FirstFileIsLost() returns (next: Cursor, out: seq<byte>)
    ensures var files := map[0 := File(2, CD), 1 := File(1, AB)];
            IsPoll(FromProject(map[]), files, files, next, Some(out))
    ensures out == CD
  {
    var files: Files := map[0 := File(2, CD), 1 := File(1, AB)];
    next, out := PollOf(FromProject(map[]), files, files);
    RotationBeforeFirstLook(files, 1, next, out);
    LinesAreComplete(CD);
  }

  /** The first half of a line is rotated away, and a poll returns nothing: the second half, written later, comes
      out as a line. */
  lemma LineTornByRotation() returns (middle: Cursor, out: seq<byte>, next: Cursor, rest: seq<byte>)
    ensures var files, after := map[0 := File(2, []), 1 := File(1, AB[..1])],
                                map[0 := File(2, AB[1..]), 1 := File(1, AB[..1])];
            && IsPoll(Cursor(0, Some(1)), files, files, middle, Some(out))
            && IsPoll(middle, after, after, next, Some(rest))
    ensures out == [] && rest == [98, NEWLINE]
  {
    hide Complete, CompleteLength;
    var files: Files, after: Files := map[0 := File(2, []), 1 := File(1, AB[..1])],
                                      map[0 := File(2, AB[1..]), 1 := File(1, AB[..1])];
    middle, out := PollOf(Cursor(0, Some(1)), files, files);
    FilesBetweenAreSkipped(files, Cursor(0, Some(1)), 1, middle, out);
    assert From(AB[..1], 0) == [97];
    NoLineIn([97]);
    CompleteIsPrefix([]);
    next, rest := PollOf(middle, after, after);
    assert From(AB[1..], 0) == [98, NEWLINE];
    LinesAreComplete([98, NEWLINE]);
  }

  // ---------------------------------------------------------------- polls at a bad moment

  /** A poll that comes after the active file was renamed and before the next one is created. It forgets the
      file it was reading; from the next poll on it is right exactly if nothing of that was unread. */
  lemma PollInTheGap(files: Files, cursor: Cursor, unread: seq<byte>, inode: nat, more: seq<byte>,
                     middle: Cursor, out: seq<byte>, next: Cursor, rest: seq<byte>)
    requires 0 !in files && IsPoll(cursor, files, files, middle, Some(out))
    requires var after := files[0 := File(inode, more)]; IsPoll(middle, after, after, next, Some(rest))
    ensures out == [] && rest == Complete(more)
    ensures StaysRight(files[0 := File(inode, more)], next, out + rest, unread + more) <==> unread == []
  {
    hide Complete, StaysRight;
    var after := files[0 := File(inode, more)];
    assert more + [] == more && Grow(after, []) == after && [] + rest == rest;
    OwnPoll(after, [], middle, next, rest, unread + more);
    assert Tail(after, 0) == more;
    LeftOut(unread, [], more);
    assert unread + [] + more == unread + more;
  }

  /** A reader with a line left polls in the gap: the line is lost. */
  lemma LineLostInTheGap() returns (middle: Cursor, out: seq<byte>, next: Cursor, rest: seq<byte>)
    ensures var files, after := map[1 := File(1, AB)], map[0 := File(2, CD), 1 := File(1, AB)];
            IsPoll(Cursor(0, Some(1)), files, files, middle, Some(out))
              && IsPoll(middle, after, after, next, Some(rest))
    ensures out + rest == CD
  {
    var files: Files, after: Files := map[1 := File(1, AB)], map[0 := File(2, CD), 1 := File(1, AB)];
    assert after == files[0 := File(2, CD)];
    middle, out := Cursor(0, None), [];
    next, rest := PollOf(middle, after, after);
    PollInTheGap(files, Cursor(0, Some(1)), AB, 2, CD, middle, out, next, rest);
    LinesAreComplete(CD);
  }

  /** A rotation between the two looks of a poll. It returns the new file from the old offset on; with the next
      poll, and from then on, that is right exactly if this happens to be what was to be read next. For a
      reader that had read everything: exactly if the new file has no complete line beyond the old offset. */
  lemma RotationInsideAPoll(files: Files, cursor: Cursor, inode: nat, more: seq<byte>, top: nat,
                            middle: Cursor, out: seq<byte>, next: Cursor, rest: seq<byte>)
    requires top >= 1 && Apart(files) && 0 in files && IsNew(files, inode) && cursor.offset <= |files[0].bytes|
    requires cursor.identity.None? || cursor.identity == Some(files[0].inode)
    requires AtLineStart(From(files[0].bytes, cursor.offset))
    requires IsPoll(cursor, files, Rotated(files, inode, more, top), middle, Some(out))
    requires IsPoll(middle, Rotated(files, inode, more, top), Rotated(files, inode, more, top), next, Some(rest))
    ensures 0 in Rotated(files, inode, more, top)
    ensures var after, unread := Rotated(files, inode, more, top), From(files[0].bytes, cursor.offset);
            && out == Complete(From(more, cursor.offset))
            && (out + rest == Complete(unread + more) <==> out <= unread)
            && (StaysRight(after, next, out + rest, unread + more) <==> out <= unread)
            && (unread == [] ==> (out <= unread <==> CompleteLength(From(more, cursor.offset)) == 0))
  {
    hide CompleteLength, Complete, Rotated, IsPoll, Apart, IsNew, StaysRight;
    var after, unread := Rotated(files, inode, more, top), From(files[0].bytes, cursor.offset);
    PollAcrossSees(files, cursor, inode, more, top, middle, out);
    RotatedAt(files, inode, more, top);
    CompleteAfterLines(unread, more);
    CompleteIsPrefix(From(more, cursor.offset));
    var left := From(files[0].bytes, middle.offset);
    NextPollOf(files, inode, more, top, middle, next, rest);
    Resumed(files[0].bytes, cursor.offset, out, Complete(more));
    Resumed(files[0].bytes, cursor.offset, out, more);
    LinesAreComplete(left);
    AfterBoth(after, next, out, left, rest, more, unread + more);
  }

  lemma AfterBoth(after: Files, next: Cursor, out: seq<byte>, left: seq<byte>, rest: seq<byte>, more: seq<byte>,
                  text: seq<byte>)
    requires 0 in after && after[0].bytes == more && AtLineStart(out) && AtLineStart(left)
    requires rest == left + Complete(more) && next == Cursor(CompleteLength(more), Some(after[0].inode))
    ensures StaysRight(after, next, out + rest, text) <==> text == out + (left + more)
  {
    hide StaysRight, Complete, CompleteLength;
    assert more[0..] == more && Tail(after, 0) == more;
    CompleteIsPrefix(more);
    assert left == [] ==> out + left == out;
    assert out + rest == out + left + Complete(more) && out + (left + more) == out + left + more;
    StaysRightIff(after, next, out + rest, out + left, 0, text);
  }

  /** The poll after it reads on in the rotated file. */
  lemma NextPollOf(files: Files, inode: nat, more: seq<byte>, top: nat, middle: Cursor, next: Cursor, rest: seq<byte>)
    requires top >= 1 && Apart(files) && 0 in files && IsNew(files, inode) && middle.identity == Some(files[0].inode)
    requires IsPoll(middle, Rotated(files, inode, more, top), Rotated(files, inode, more, top), next, Some(rest))
    ensures rest == Complete(From(files[0].bytes, middle.offset)) + Complete(more)
    ensures next == Cursor(CompleteLength(more), Some(inode))
  {
    hide CompleteLength;
    var after := Rotated(files, inode, more, top);
    RotatedAt(files, inode, more, top);
    MovedKeepsIdentities(files, -1, top);
    assert Apart(after) by {
      hide Moved;
    }
    FilesBetweenAreSkipped(after, middle, 1, next, rest);
    assert From(more, 0) == more;
    CompleteIsPrefix(more);
  }

  /** Reading on `out` too far: right exactly when `out` is what was skipped. */
  lemma Resumed(bytes: seq<byte>, offset: nat, out: seq<byte>, tail: seq<byte>)
    requires offset <= |bytes| && AtLineStart(From(bytes, offset))
    ensures out + (Complete(From(bytes, offset + |out|)) + tail) == From(bytes, offset) + tail
            <==> out <= From(bytes, offset)
  {
    hide Complete;
    var unread, left := From(bytes, offset), From(bytes, offset + |out|);
    LinesAreComplete(left);
    if |out| <= |unread| {
      assert left == unread[|out|..];
      hide From;
      SameStart(out, unread, tail);
    } else {
      assert |out + (left + tail)| > |unread + tail|;
    }
  }

  lemma SameStart(out: seq<byte>, unread: seq<byte>, tail: seq<byte>)
    requires |out| <= |unread|
    ensures out + (unread[|out|..] + tail) == unread + tail <==> out <= unread
  {
    var left := unread[|out|..];
    assert (out + (left + tail))[..|out|] == out && (unread + tail)[..|out|] == unread[..|out|];
    if out == unread[..|out|] {
      assert unread == out + left;
      assert out + (left + tail) == out + left + tail;
    }
  }

  /** The poll looks at a file that the reader has read to its end, and opens its successor: it returns the
      end of a line, and stays with the old identity beyond the end of the old file. */
  lemma TornByTheRace() returns (middle: Cursor, out: seq<byte>)
    ensures var atStat, atRead := map[0 := File(1, AB)], map[0 := File(2, WXYZ), 1 := File(1, AB)];
            IsPoll(FromProject(atStat), atStat, atRead, middle, Some(out))
    ensures out == [122, NEWLINE] && middle == Cursor(5, Some(1))
  {
    var atStat: Files, atRead: Files := map[0 := File(1, AB)], map[0 := File(2, WXYZ), 1 := File(1, AB)];
    middle, out := PollOf(FromProject(atStat), atStat, atRead);
    assert From(WXYZ, 3) == [122, NEWLINE];
    LinesAreComplete([122, NEWLINE]);
  }
}
