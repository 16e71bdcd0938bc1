/** One-frame input and output on the daemon's newline-terminated transport. */
module Transport {
  import opened Wrappers

  const MAX_FRAME_BYTES: nat := 1024 * 1024

  /** What one `recv` does: it delivers some bytes, or it times out and the caller says whether to go on. */
  datatype Recv = Chunk(bytes: seq<byte>) | TimedOut(retry: bool)

  datatype Outcome =
    | Frame(bytes: seq<byte>)
    | PeerDisconnected
    | IncompleteFrame
    | FrameTooLarge
    | ExtraFrameData
    | TimeoutRaised

  /** `recv` never delivers an empty chunk before the end of the stream. */
  predicate Feasible(script: seq<Recv>) {
    forall i :: 0 <= i < |script| && script[i].Chunk? ==> script[i].bytes != []
  }

  // ---------------------------------------------------------------- what a reader should make of a stream

  /** Everything received up to the end of the stream, or to a timeout that is not retried. */
  function Received(script: seq<Recv>): seq<byte> {
    if script == [] then []
    else match script[0]
      case Chunk(bytes) => bytes + Received(script[1..])
      case TimedOut(retry) => if retry then Received(script[1..]) else []
  }

  predicate GivesUp(script: seq<Recv>) {
    script != [] && (script[0] == TimedOut(false) || GivesUp(script[1..]))
  }

  /** The index of the first newline, or the length if there is none. */
  function Find(s: seq<byte>): (p: nat)
    ensures p <= |s|
    ensures p < |s| ==> s[p] == NEWLINE
    ensures forall i :: 0 <= i < p ==> s[i] != NEWLINE
  {
    if s == [] then 0 else if s[0] == NEWLINE then 0 else 1 + Find(s[1..])
  }

  /** Some chunk ends exactly after the first `n` bytes. */
  predicate ChunkEndsAt(script: seq<Recv>, n: nat)
    decreases |script|
  {
    && script != []
    && match script[0]
       case TimedOut(retry) => retry && ChunkEndsAt(script[1..], n)
       case Chunk(bytes) => n == |bytes| || (n > |bytes| && ChunkEndsAt(script[1..], n - |bytes|))
  }

  /** The verdict on a whole stream: the only thing about the chunking that matters is whether the chunk
      that carries the first newline ends with it. */
  function Verdict(stream: seq<byte>, cutAfterNewline: bool, givesUp: bool): Outcome {
    var p := Find(stream);
    if p < |stream| then
      if p + 1 > MAX_FRAME_BYTES then FrameTooLarge
      else if !cutAfterNewline then ExtraFrameData
      else Frame(stream[..p + 1])
    else if |stream| >= MAX_FRAME_BYTES then FrameTooLarge
    else if givesUp then TimeoutRaised
    else if stream == [] then PeerDisconnected
    else IncompleteFrame
  }

  function ReadOutcome(script: seq<Recv>): Outcome {
    var stream := Received(script);
    Verdict(stream, ChunkEndsAt(script, Find(stream) + 1), GivesUp(script))
  }

  // ---------------------------------------------------------------- the reader

  lemma {:induction false} ReceivedSplit(script: seq<Recv>, i: nat)
    requires i <= |script| && !GivesUp(script[..i])
    ensures Received(script) == Received(script[..i]) + Received(script[i..])
    ensures GivesUp(script) == GivesUp(script[i..])
    ensures forall n: nat :: n > |Received(script[..i])| ==>
              ChunkEndsAt(script, n) == ChunkEndsAt(script[i..], n - |Received(script[..i])|)
    decreases i
  {
    if i == 0 {
      assert script[0..] == script;
    } else {
      assert script[..i][0] == script[0] && script[..i][1..] == script[1..][..i - 1]
             && script[i..] == script[1..][i - 1..];
      ReceivedSplit(script[1..], i - 1);
    }
  }

  lemma ReceivedSnoc(script: seq<Recv>, i: nat)
    requires i < |script| && !GivesUp(script[..i]) && script[i] != TimedOut(false)
    ensures !GivesUp(script[..i + 1])
    ensures Received(script[..i + 1]) == Received(script[..i]) + if script[i].Chunk? then script[i].bytes else []
  {
    var longer := script[..i + 1];
    assert longer[..i] == script[..i] && longer[i..] == [script[i]];
    ReceivedSplit(longer, i);
    assert Received([script[i]]) == if script[i].Chunk? then script[i].bytes else [];
  }

  lemma {:induction false} FindInConcat(a: seq<byte>, b: seq<byte>)
    ensures Find(a + b) == if Find(a) < |a| then Find(a) else |a| + Find(b)
  {
    if a == [] {
      assert a + b == b;
    } else {
      FindInConcat(a[1..], b);
      assert (a + b)[1..] == a[1..] + b;
    }
  }

  /** What the next thing the socket does decides, when nothing has been decided so far. */
  lemma NextDecides(script: seq<Recv>, i: nat)
    requires i < |script| && !GivesUp(script[..i])
    requires var buffer := Received(script[..i]); Find(buffer) == |buffer| < MAX_FRAME_BYTES
    ensures var buffer := Received(script[..i]);
            match script[i]
            case TimedOut(retry) => retry || ReadOutcome(script) == TimeoutRaised
            case Chunk(chunk) =>
              var n := Find(chunk) + 1;
              if n <= |chunk| then
                ReadOutcome(script) == if |buffer| + n > MAX_FRAME_BYTES then FrameTooLarge
                                       else if n < |chunk| then ExtraFrameData
                                       else Frame(buffer + chunk)
              else |buffer| + |chunk| >= MAX_FRAME_BYTES ==> ReadOutcome(script) == FrameTooLarge
  {
    hide Find;
    var buffer, rest := Received(script[..i]), script[i..];
    ReceivedSplit(script, i);
    FindInConcat(buffer, Received(rest));
    assert rest[0] == script[i];
    if script[i].Chunk? {
      var chunk := script[i].bytes;
      FindInConcat(chunk, Received(rest[1..]));
      if Find(chunk) + 1 == |chunk| {
        assert Received(script)[..|buffer| + |chunk|] == buffer + chunk;
      }
    }
  }

  lemma EndDecides(script: seq<Recv>)
    requires !GivesUp(script) && Find(Received(script)) == |Received(script)| < MAX_FRAME_BYTES
    ensures ReadOutcome(script) == if Received(script) == [] then PeerDisconnected else IncompleteFrame
  {
  }

  /** Receive one bounded frame; the script is what the socket does, its end is the end of the stream. */
  method ReadSocketFrame(script: seq<Recv>) returns (outcome: Outcome)
    requires Feasible(script)
    ensures outcome == ReadOutcome(script)
  {
    hide ReadOutcome;
    var buffer: seq<byte> := [];
    for i := 0 to |script|
      invariant !GivesUp(script[..i])
      invariant buffer == Received(script[..i]) && Find(buffer) == |buffer| < MAX_FRAME_BYTES
    {
      NextDecides(script, i);
      match script[i]
      case TimedOut(retry) =>
        if !retry {
          return TimeoutRaised;
        }
        ReceivedSnoc(script, i);
      case Chunk(chunk) =>
        var newline := Find(chunk);
        if newline < |chunk| {
          buffer := buffer + chunk[..newline + 1];
          if |buffer| > MAX_FRAME_BYTES {
            return FrameTooLarge;
          }
          if chunk[newline + 1..] != [] {
            return ExtraFrameData;
          }
          assert chunk[..newline + 1] == chunk;
          return Frame(buffer);
        }
        ReceivedSnoc(script, i);
        FindInConcat(buffer, chunk);
        buffer := buffer + chunk;
        if |buffer| >= MAX_FRAME_BYTES {
          return FrameTooLarge;
        }
    }
    assert script[..|script|] == script;
    EndDecides(script);
    return if buffer == [] then PeerDisconnected else IncompleteFrame;
  }

  // ---------------------------------------------------------------- chunking

  /** Nothing follows the first newline. */
  predicate OneFrame(stream: seq<byte>) {
    Find(stream) + 1 >= |stream|
  }

  lemma {:induction false} EndIsChunkEnd(script: seq<Recv>)
    requires !GivesUp(script) && Received(script) != []
    ensures ChunkEndsAt(script, |Received(script)|)
  {
    if script[0].Chunk? && Received(script[1..]) == [] {
      assert Received(script) == script[0].bytes;
    } else {
      EndIsChunkEnd(script[1..]);
    }
  }

  /** On a one-frame stream the outcome does not depend on how the bytes are cut into chunks, nor on how
      many timeouts are retried: it is the frame if and only if a newline comes within the bound. */
  lemma ChunkingIsIrrelevant(script: seq<Recv>)
    requires !GivesUp(script) && OneFrame(Received(script))
    ensures var stream := Received(script);
            && ReadOutcome(script) == Verdict(stream, true, false)
            && (ReadOutcome(script).Frame? <==> Find(stream) < |stream| <= MAX_FRAME_BYTES)
            && (ReadOutcome(script).Frame? ==> ReadOutcome(script).bytes == stream)
  {
    var stream := Received(script);
    if Find(stream) < |stream| {
      EndIsChunkEnd(script);
      assert stream[..Find(stream) + 1] == stream;
    }
  }

  /** With more than one frame on the wire the chunking does matter: a first frame that fits is returned if
      and only if its newline is the last byte of its chunk; otherwise the extra bytes are reported. */
  lemma ExtraDataDependsOnChunking(script: seq<Recv>)
    requires Find(Received(script)) < |Received(script)| && Find(Received(script)) < MAX_FRAME_BYTES
    ensures var n := Find(Received(script)) + 1;
            && (ReadOutcome(script) == Frame(Received(script)[..n]) <==> ChunkEndsAt(script, n))
            && (ReadOutcome(script) == ExtraFrameData <==> !ChunkEndsAt(script, n))
  {
  }

  /** What every other outcome says: the peer closed before a byte came or in the middle of a frame, a
      timeout was not retried, or the bound of 1 MiB was passed before the first newline was in. */
  lemma OutcomesMean(script: seq<Recv>)
    ensures var stream, r := Received(script), ReadOutcome(script);
            && (r == PeerDisconnected <==> stream == [] && !GivesUp(script))
            && (r == IncompleteFrame <==>
                  0 < |stream| < 1048576 && NEWLINE !in stream && !GivesUp(script))
            && (r == TimeoutRaised <==> |stream| < 1048576 && NEWLINE !in stream && GivesUp(script))
            && (r == FrameTooLarge <==> |stream| >= 1048576 && NEWLINE !in stream[..1048576])
  {
    var stream := Received(script);
    assert NEWLINE in stream <==> Find(stream) < |stream|;
    if |stream| >= 1048576 {
      assert NEWLINE in stream[..1048576] <==> Find(stream) < 1048576 by {
        if NEWLINE in stream[..1048576] {
          var i :| 0 <= i < 1048576 && stream[..1048576][i] == NEWLINE;
          assert stream[i] == NEWLINE;
        }
        if Find(stream) < 1048576 {
          assert stream[..1048576][Find(stream)] == NEWLINE;
        }
      }
    }
  }

  /** Two empty frames, received together and apart. */
  lemma TwoFramesTwoOutcomes()
    ensures Received([Chunk([NEWLINE, NEWLINE])]) == Received([Chunk([NEWLINE]), Chunk([NEWLINE])])
    ensures ReadOutcome([Chunk([NEWLINE, NEWLINE])]) == ExtraFrameData
    ensures ReadOutcome([Chunk([NEWLINE]), Chunk([NEWLINE])]) == Frame([NEWLINE])
  {
    var together, apart := [Chunk([NEWLINE, NEWLINE])], [Chunk([NEWLINE]), Chunk([NEWLINE])];
    assert together[1..] == [] && apart[1..] == [Chunk([NEWLINE])] && apart[1..][1..] == [];
    assert Received(together) == [NEWLINE, NEWLINE];
    assert Received(apart[1..]) == [NEWLINE];
    assert Received(apart) == [NEWLINE, NEWLINE];
    assert Find([NEWLINE, NEWLINE]) == 0;
    assert [NEWLINE, NEWLINE][..1] == [NEWLINE];
  }

  // ---------------------------------------------------------------- the writer

  /** The peer's end of a stream: the pieces it has taken so far, one per `write`. */
  class Stream {
    var pieces: seq<seq<byte>>
    var flushed: bool

    constructor ()
      ensures pieces == [] && !flushed
    {
      pieces, flushed := [], false;
    }

    /** A write takes at most what it is given. */
    method Write(data: seq<byte>, accepted: Option<int>) returns (written: Option<int>)
      modifies this
      ensures flushed == old(flushed)
      ensures accepted.None? || accepted.value <= 0 ==> written == accepted && pieces == old(pieces)
      ensures accepted.Some? && accepted.value > 0 ==>
                && written == Some(if accepted.value < |data| then accepted.value else |data|)
                && pieces == old(pieces) + [data[..written.value]]
    {
      written := accepted;
      if accepted.Some? && accepted.value > 0 {
        var n := if accepted.value < |data| then accepted.value else |data|;
        pieces := pieces + [data[..n]];
        written := Some(n);
      }
    }
  }

  function Concat(pieces: seq<seq<byte>>): seq<byte> {
    if pieces == [] then [] else Concat(pieces[..|pieces| - 1]) + pieces[|pieces| - 1]
  }

  /** Write a whole frame through any pattern of partial writes; `accepted(k)` is what the k-th write takes. */
  method WriteStreamFrame(stream: Stream, frame: seq<byte>, accepted: nat -> Option<int>) returns (ok: bool)
    modifies stream
    ensures ok ==> Concat(stream.pieces) == Concat(old(stream.pieces)) + frame && stream.flushed
    ensures !ok ==> stream.flushed == old(stream.flushed)
    ensures !ok ==> exists k: nat, n: nat ::
                      && (accepted(k).None? || accepted(k).value <= 0)
                      && n < |frame| && Concat(stream.pieces) == Concat(old(stream.pieces)) + frame[..n]
  {
    var offset, calls := 0, 0;
    while offset < |frame|
      invariant 0 <= offset <= |frame|
      invariant Concat(stream.pieces) == Concat(old(stream.pieces)) + frame[..offset]
      invariant stream.flushed == old(stream.flushed)
    {
      var written := stream.Write(frame[offset..], accepted(calls));
      if written.None? || written.value <= 0 {
        return false;
      }
      assert frame[..offset] + frame[offset..][..written.value] == frame[..offset + written.value];
      offset, calls := offset + written.value, calls + 1;
    }
    assert frame[..|frame|] == frame;
    stream.flushed := true;
    ok := true;
  }

  /** What the encoder produces: one line within the bound. */
  predicate EncodedFrame(frame: seq<byte>) {
    frame != [] && Find(frame) == |frame| - 1 && |frame| <= MAX_FRAME_BYTES
  }

  /** The reader recovers exactly what was written, however the bytes are cut on the way. */
  lemma WrittenFrameIsRead(pieces: seq<seq<byte>>, frame: seq<byte>, script: seq<Recv>)
    requires EncodedFrame(frame) && Concat(pieces) == frame
    requires Received(script) == Concat(pieces) && !GivesUp(script)
    ensures ReadOutcome(script) == Frame(frame)
  {
    ChunkingIsIrrelevant(script);
  }
}
