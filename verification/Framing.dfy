/** Newline framing with a length cap (`read_frame`). */
module Framing {
  import opened Sequences

  const NEWLINE: Byte := 10

  predicate NewlineFree(s: Bytes) {
    forall i | 0 <= i < |s| :: s[i] != NEWLINE
  }

  /** Non-empty, with exactly one newline and that one last. */
  predicate Terminated(frame: Bytes) {
    |frame| > 0 && frame[|frame| - 1] == NEWLINE && NewlineFree(frame[..|frame| - 1])
  }

  predicate LegalFrame(frame: Bytes, max: nat) {
    Terminated(frame) && |frame| <= max
  }

  /** How a byte source behaves once everything it will ever deliver has been read. */
  datatype Ending = EndOfInput | Broken

  datatype ReadResult = Frame(frame: Bytes) | Closed | InvalidData | IoFailure

  /** Position of the first newline, or the length if there is none. */
  function FirstNewline(s: Bytes): (n: nat)
    ensures n <= |s| && NewlineFree(s[..n])
    ensures n < |s| ==> s[n] == NEWLINE
  {
    if s == [] || s[0] == NEWLINE then 0
    else
      var n := 1 + FirstNewline(s[1..]);
      assert s[..n] == [s[0]] + s[1..][..n - 1];
      n
  }

  lemma {:induction false} FirstNewlineUnique(s: Bytes, n: nat)
    requires n <= |s| && NewlineFree(s[..n])
    requires n < |s| ==> s[n] == NEWLINE
    ensures FirstNewline(s) == n
  {
    if n > 0 {
      assert s[0] == s[..n][0];
      assert s[1..][..n - 1] == s[..n][1..];
      FirstNewlineUnique(s[1..], n - 1);
    }
  }

  lemma {:induction false} FirstNewlineBeyond(free: Bytes, s: Bytes)
    requires free <= s && NewlineFree(free)
    ensures FirstNewline(s) >= |free|
  {
    if free != [] {
      FirstNewlineBeyond(free[1..], s[1..]);
      assert s[0] == free[0];
    }
  }

  /** How many bytes a read up to a newline takes when it may take at most `limit`. */
  function UntilNewline(stream: Bytes, limit: nat): (used: nat)
    ensures used <= |stream| && used <= limit
  {
    var n := FirstNewline(stream);
    if n < |stream| && n < limit then n + 1 else if |stream| > limit then limit else |stream|
  }

  /** What one read of a stream yields, and the bytes it leaves unread, as a function of the stream
      alone: how the bytes were cut into arrivals does not matter. */
  function ReadNext(stream: Bytes, ending: Ending, max: nat): (ReadResult, Bytes) {
    var n := FirstNewline(stream);
    var result :=
      if n < |stream| && n < max then Frame(stream[..n + 1])
      else if |stream| > max then InvalidData
      else if ending == Broken then IoFailure
      else if stream == [] then Closed
      else InvalidData;
    (result, stream[UntilNewline(stream, max + 1)..])
  }

  /** Reading until something other than a frame comes back. */
  function ReadAll(stream: Bytes, ending: Ending, max: nat): (seq<Bytes>, ReadResult)
    decreases |stream|
  {
    var (result, rest) := ReadNext(stream, ending, max);
    if result.Frame? then
      var (frames, last) := ReadAll(rest, ending, max);
      ([result.frame] + frames, last)
    else ([], result)
  }

  lemma ReadNextFrame(stream: Bytes, ending: Ending, max: nat)
    ensures var (result, rest) := ReadNext(stream, ending, max);
            result.Frame? ==> LegalFrame(result.frame, max) && stream == result.frame + rest
  {
    var n := FirstNewline(stream);
    if n < |stream| {
      assert stream[..n + 1][..n] == stream[..n];
    }
  }

  /** A stream that begins with a legal frame yields that frame, whatever follows it. */
  lemma ReadNextLegal(frame: Bytes, rest: Bytes, ending: Ending, max: nat)
    requires LegalFrame(frame, max)
    ensures ReadNext(frame + rest, ending, max) == (Frame(frame), rest)
  {
    var n := |frame| - 1;
    var stream := frame + rest;
    assert stream[..n] == frame[..n];
    FirstNewlineUnique(stream, n);
    assert stream[..n + 1] == frame;
    assert stream[n + 1..] == rest;
  }

  /** Two lists of terminated frames, one stream a prefix of the other: so are the lists. Framing is
      therefore unambiguous, on complete and on truncated streams. */
  lemma {:induction false} FramingUnambiguous(a: seq<Bytes>, b: seq<Bytes>)
    requires forall f | f in a :: Terminated(f)
    requires forall f | f in b :: Terminated(f)
    requires Concat(a) <= Concat(b)
    ensures a <= b
  {
    if a != [] {
      var f := a[0];
      assert f in a && |Concat(a)| >= |f| > 0;
      var g, s := b[0], Concat(b);
      assert g in b;
      assert s == f + s[|f|..] by { assert Concat(a)[..|f|] == f; }
      ReadNextLegal(f, s[|f|..], EndOfInput, |f| + |g|);
      ReadNextLegal(g, Concat(b[1..]), EndOfInput, |f| + |g|);
      assert Concat(a[1..]) == Concat(a)[|f|..];
      FramingUnambiguous(a[1..], b[1..]);
    }
  }

  /** Soundness of repeated reading: every frame is legal, and together they are a prefix. */
  lemma {:induction false} ReadAllSound(stream: Bytes, ending: Ending, max: nat)
    ensures var frames := ReadAll(stream, ending, max).0;
            (forall f | f in frames :: LegalFrame(f, max)) && Concat(frames) <= stream
    decreases |stream|
  {
    var (result, rest) := ReadNext(stream, ending, max);
    if result.Frame? {
      ReadNextFrame(stream, ending, max);
      ReadAllSound(rest, ending, max);
      var tail := ReadAll(rest, ending, max).0;
      assert ([result.frame] + tail)[1..] == tail;
    }
  }

  /** Completeness: any legal frames that make up a prefix of the stream are read, in order. With
      soundness this fixes the frames: they are the longest such list. */
  lemma {:induction false} ReadAllMaximal(frames: seq<Bytes>, stream: Bytes, ending: Ending, max: nat)
    requires forall f | f in frames :: LegalFrame(f, max)
    requires Concat(frames) <= stream
    ensures frames <= ReadAll(stream, ending, max).0
  {
    if frames != [] {
      var f := frames[0];
      assert f in frames;
      assert stream == f + stream[|f|..] by { assert Concat(frames)[..|f|] == f; }
      ReadNextLegal(f, stream[|f|..], ending, max);
      assert Concat(frames[1..]) == Concat(frames)[|f|..];
      ReadAllMaximal(frames[1..], stream[|f|..], ending, max);
    }
  }

  /** What comes of bytes that begin with no frame. */
  function NoFrameResult(rest: Bytes, ending: Ending, max: nat): ReadResult {
    if |rest| > max then InvalidData
    else if ending == Broken then IoFailure
    else if rest == [] then Closed
    else InvalidData
  }

  lemma NoFrameNext(stream: Bytes, ending: Ending, max: nat)
    requires !ReadNext(stream, ending, max).0.Frame?
    ensures forall n | 0 < n <= |stream| :: !LegalFrame(stream[..n], max)
    ensures ReadNext(stream, ending, max).0 == NoFrameResult(stream, ending, max)
  {
    forall n | 0 < n <= |stream| ensures !LegalFrame(stream[..n], max) {
      if LegalFrame(stream[..n], max) {
        assert stream == stream[..n] + stream[n..];
        ReadNextLegal(stream[..n], stream[n..], ending, max);
      }
    }
  }

  /** How reading ends is decided by the bytes left after the frames read, which begin with no legal
      frame: too many of them, or a few without an end, are invalid data; a broken source is reported
      when it is met first; and only nothing at all is a clean end. */
  lemma {:induction false} ReadAllEnding(stream: Bytes, ending: Ending, max: nat)
    ensures Concat(ReadAll(stream, ending, max).0) <= stream
    ensures var (frames, last) := ReadAll(stream, ending, max);
            var rest := stream[|Concat(frames)|..];
            && (forall n | 0 < n <= |rest| :: !LegalFrame(rest[..n], max))
            && last == NoFrameResult(rest, ending, max)
    decreases |stream|
  {
    hide NewlineFree, ReadNext, NoFrameResult;
    var (result, rest) := ReadNext(stream, ending, max);
    if result.Frame? {
      ReadNextFrame(stream, ending, max);
      ReadAllEnding(rest, ending, max);
      var tail := ReadAll(rest, ending, max).0;
      assert ([result.frame] + tail)[1..] == tail;
      assert Concat([result.frame] + tail) == result.frame + Concat(tail);
      assert stream[|result.frame + Concat(tail)|..] == rest[|Concat(tail)|..];
    } else {
      NoFrameNext(stream, ending, max);
      assert stream[0..] == stream;
    }
  }

  /** Writing legal frames and reading them back gives exactly those frames, then end of input. */
  lemma {:induction false} ReadBackWhatWasWritten(frames: seq<Bytes>, max: nat)
    requires forall f | f in frames :: LegalFrame(f, max)
    ensures ReadAll(Concat(frames), EndOfInput, max) == (frames, Closed)
  {
    if frames != [] {
      assert frames[0] in frames;
      ReadNextLegal(frames[0], Concat(frames[1..]), EndOfInput, max);
      ReadBackWhatWasWritten(frames[1..], max);
      assert frames == [frames[0]] + frames[1..];
    }
  }

  /** Whoever re-frames a truncated stream of terminated frames, with whatever cap, sees only those
      frames. */
  lemma ReframingTruncated(bytes: Bytes, frames: seq<Bytes>, ending: Ending, max: nat)
    requires forall f | f in frames :: Terminated(f)
    requires bytes <= Concat(frames)
    ensures ReadAll(bytes, ending, max).0 <= frames
  {
    ReadAllSound(bytes, ending, max);
    FramingUnambiguous(ReadAll(bytes, ending, max).0, frames);
  }

  /** A buffered socket reader: bytes already buffered, and the non-empty arrivals still to come. */
  class BufferedReader {
    var buffer: Bytes
    var arrivals: seq<Bytes>
    const ending: Ending

    constructor (arrivals: seq<Bytes>, ending: Ending)
      requires [] !in arrivals
      ensures Valid() && Stream() == Concat(arrivals) && this.ending == ending
    {
      this.buffer, this.arrivals, this.ending := [], arrivals, ending;
    }

    ghost predicate Valid() reads this { [] !in arrivals }

    ghost function Stream(): Bytes reads this { buffer + Concat(arrivals) }

    /** Buffered bytes, refilled from the next arrival when there are none. An empty buffer without
        failure means end of input. */
    method FillBuf() returns (failed: bool)
      requires Valid()
      modifies this
      ensures Valid() && Stream() == old(Stream())
      ensures buffer == [] ==> Stream() == []
      ensures failed <==> buffer == [] && ending == Broken
    {
      if buffer == [] && arrivals != [] {
        assert arrivals[0] in arrivals;
        buffer, arrivals := arrivals[0], arrivals[1..];
      }
      failed := buffer == [] && ending == Broken;
    }

    method Consume(n: nat)
      requires Valid() && n <= |buffer|
      modifies this
      ensures Valid() && arrivals == old(arrivals) && buffer == old(buffer)[n..]
    {
      buffer := buffer[n..];
    }

    /** One turn of `read_until` behind a `take` with `room` bytes left: buffered bytes up to the
        first newline among those allowed, or all of them. */
    method TakePiece(room: nat) returns (failed: bool, piece: Bytes)
      requires Valid() && room > 0
      modifies this
      ensures Valid() && old(Stream()) == piece + Stream() && |piece| <= room
      ensures NewlineFree(piece) || Terminated(piece)
      ensures piece == [] ==> Stream() == []
      ensures failed <==> piece == [] && ending == Broken
    {
      failed := FillBuf();
      var window := if |buffer| > room then buffer[..room] else buffer;
      var n := FirstNewline(window);
      var used := if n < |window| then n + 1 else n;
      piece := window[..used];
      assert piece[..n] == window[..n];
      assert buffer == piece + buffer[used..];
      Consume(used);
    }
  }

  /** `read_until` behind `take(limit)`: bytes up to and including a newline, at most `limit`. */
  method ReadUntil(reader: BufferedReader, limit: nat) returns (failed: bool, frame: Bytes)
    requires reader.Valid()
    modifies reader
    ensures reader.Valid()
    ensures old(reader.Stream()) == frame + reader.Stream()
    ensures !failed ==> |frame| == UntilNewline(old(reader.Stream()), limit)
    ensures failed <==> reader.ending == Broken && NewlineFree(old(reader.Stream())) && |old(reader.Stream())| < limit
    ensures failed ==> reader.Stream() == []
  {
    hide Concat, UntilNewline, FirstNewline;
    ghost var stream := reader.Stream();
    frame, failed := [], false;
    while |frame| < limit
      invariant reader.Valid() && stream == frame + reader.Stream() && |frame| <= limit
      invariant NewlineFree(frame) && !failed
      decreases limit - |frame|
    {
      ghost var before := frame;
      var piece;
      failed, piece := reader.TakePiece(limit - |frame|);
      assert stream == before + (piece + reader.Stream()) == before + piece + reader.Stream();
      frame := frame + piece;
      if piece == [] || piece[|piece| - 1] == NEWLINE {
        UntilNewlineCases(stream, before, piece, limit);
        return;
      }
    }
    UntilNewlineCases(stream, frame, [], limit);
  }

  /** The two ways a read stops: with a newline at the end of the last piece, or without any. */
  lemma UntilNewlineCases(stream: Bytes, before: Bytes, piece: Bytes, limit: nat)
    requires before + piece <= stream && |before + piece| <= limit && NewlineFree(before)
    requires Terminated(piece) || (piece == [] && (|before| == limit || before == stream))
    ensures |before + piece| == UntilNewline(stream, limit)
    ensures Terminated(piece) ==> !NewlineFree(stream)
  {
    var frame := before + piece;
    if Terminated(piece) {
      assert stream[..|frame| - 1] == before + piece[..|piece| - 1];
      FirstNewlineUnique(stream, |frame| - 1);
    } else {
      FirstNewlineBeyond(before, stream);
    }
  }

  /** One frame of at most `max` bytes. */
  method ReadFrame(reader: BufferedReader, max: nat) returns (result: ReadResult)
    requires reader.Valid()
    modifies reader
    ensures reader.Valid()
    ensures (result, reader.Stream()) == ReadNext(old(reader.Stream()), reader.ending, max)
  {
    ghost var stream := reader.Stream();
    var failed, frame := ReadUntil(reader, max + 1);
    ReadNextFromUntil(stream, reader.ending, max);
    assert reader.Stream() == stream[|frame|..];
    if failed {
      return IoFailure;
    }
    assert frame == stream[..|frame|];
    if frame == [] {
      return Closed;
    }
    if |frame| > max || frame[|frame| - 1] != NEWLINE {
      return InvalidData;
    }
    return Frame(frame);
  }

  /** The tests `read_frame` makes on the bytes it got decide the same result as the definition. */
  lemma ReadNextFromUntil(stream: Bytes, ending: Ending, max: nat)
    ensures var used := UntilNewline(stream, max + 1);
            var frame := stream[..used];
            var (result, rest) := ReadNext(stream, ending, max);
            if ending == Broken && NewlineFree(stream) && |stream| < max + 1 then result == IoFailure && rest == []
            else if frame == [] then result == Closed
            else if used > max || frame[used - 1] != NEWLINE then result == InvalidData
            else result == Frame(frame)
  {
    var n := FirstNewline(stream);
    assert n == |stream| ==> stream[..n] == stream;
    assert n < |stream| ==> stream[n] == NEWLINE;
  }
}
