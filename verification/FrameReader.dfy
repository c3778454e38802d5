/** The Python client's reader: a byte stream in chunks, split into frames. */
module FrameReader {
  import opened Bytes
  import opened WhiteSpace
  import opened Framing

  /** What a stream of bytes contains: its complete frames up to the first that is too long, whether
      there is one that is too long, and the unfinished rest. */
  datatype Content = Content(frames: seq<Text>, oversize: bool, rest: Text)

  function Split(bytes: Text, limit: nat): Content
    decreases |bytes|
  {
    var n := LineLength(bytes);
    if n == |bytes| then Content([], n > limit, bytes)
    else if n > limit then Content([], true, bytes)
    else Prepend(bytes[..n], Split(bytes[n + 1..], limit))
  }

  /** bytes.strip leaves nothing of the line. */
  predicate Blank(line: Text) {
    forall i :: 0 <= i < |line| ==> IsAsciiSpace(line[i])
  }

  /** Blank lines are no frames. */
  function Prepend(line: Text, more: Content): Content {
    if Blank(line) then more else more.(frames := [line] + more.frames)
  }

  lemma SplitStep(bytes: Text, limit: nat)
    requires LineLength(bytes) < |bytes| && LineLength(bytes) <= limit
    ensures Split(bytes, limit) == Prepend(bytes[..LineLength(bytes)], Split(bytes[LineLength(bytes) + 1..], limit))
  {
    hide LineLength, Prepend;
  }

  lemma LongerLine(a: Text, b: Text)
    ensures LineLength(a) == |a| ==> LineLength(a + b) == |a| + LineLength(b)
    ensures LineLength(a) < |a| ==> LineLength(a + b) == LineLength(a)
  {
    var n, m := LineLength(a), LineLength(b);
    if n < |a| {
      assert (a + b)[..n] == a[..n];
      LineLengthIs(a + b, n);
    } else {
      assert a[..n] == a;
      forall i | 0 <= i < |a| + m ensures (a + b)[i] != NEWLINE {
        assert i >= |a| ==> (a + b)[i] == b[..m][i - |a|];
      }
      if m < |b| {
        LineLengthIs(a + b, |a| + m);
      } else {
        AllOneLine(a + b);
      }
    }
  }

  /** Bytes that come later do not change what has been split off; a frame too long stays too long. */
  lemma {:induction false} SplitMore(a: Text, b: Text, limit: nat)
    ensures var first, all := Split(a, limit), Split(a + b, limit);
      if first.oversize then all.oversize && all.frames == first.frames
      else
        var later := Split(first.rest + b, limit);
        all == later.(frames := first.frames + later.frames)
    decreases |a|
  {
    hide LineLength, Prepend;
    var n := LineLength(a);
    LongerLine(a, b);
    if n < |a| && n <= limit {
      hide Split;
      SplitMore(a[n + 1..], b, limit);
      SplitStep(a, limit);
      SplitStep(a + b, limit);
      LongerSlices(a, b, n);
      var first := Split(a[n + 1..], limit);
      PrependJoin(a[..n], first, Split(first.rest + b, limit));
    }
  }

  lemma LongerSlices(a: Text, b: Text, n: nat)
    requires n < |a|
    ensures (a + b)[n + 1..] == a[n + 1..] + b && (a + b)[..n] == a[..n]
  {
  }

  lemma PrependJoin(line: Text, first: Content, later: Content)
    ensures Prepend(line, later.(frames := first.frames + later.frames))
      == later.(frames := Prepend(line, first).frames + later.frames)
    ensures Prepend(line, first).oversize == first.oversize && Prepend(line, first).rest == first.rest
    ensures forall c: Content :: c.frames == first.frames ==>
      Prepend(line, c).frames == Prepend(line, first).frames && Prepend(line, c).oversize == c.oversize
  {
    hide Blank;
    assert [line] + (first.frames + later.frames) == ([line] + first.frames) + later.frames;
  }

  function Joined(chunks: seq<Text>): Text {
    if chunks == [] then [] else Joined(chunks[..|chunks| - 1]) + chunks[|chunks| - 1]
  }

  datatype Stopped = ConnectionClosed | FrameTooLong | FrameRefused

  /** How many frames are processed before one is refused; whether one is may depend on those before it. */
  function Processed(frames: seq<Text>, accepts: seq<Text> -> bool): (n: nat)
    ensures n <= |frames|
  {
    if frames == [] then 0
    else
      var n := Processed(frames[..|frames| - 1], accepts);
      if n == |frames| - 1 && accepts(frames) then |frames| else n
  }

  /** What comes after a refused frame does not matter. */
  lemma {:induction false} ProcessedMore(frames: seq<Text>, more: seq<Text>, accepts: seq<Text> -> bool)
    requires Processed(frames, accepts) < |frames|
    ensures Processed(frames + more, accepts) == Processed(frames, accepts)
    decreases |more|
  {
    var all := frames + more;
    if more != [] {
      assert all[..|all| - 1] == frames + more[..|more| - 1];
      ProcessedMore(frames, more[..|more| - 1], accepts);
    } else {
      assert all == frames;
    }
  }

  lemma ProcessedOne(frames: seq<Text>, frame: Text, accepts: seq<Text> -> bool)
    requires Processed(frames, accepts) == |frames|
    ensures Processed(frames + [frame], accepts) == |frames| + if accepts(frames + [frame]) then 1 else 0
  {
    assert (frames + [frame])[..|frames|] == frames;
  }

  /** What a reader makes of a content: the frames up to the first refused one, and why it stops. */
  ghost predicate Consumed(content: Content, accepts: seq<Text> -> bool, frames: seq<Text>, stopped: Stopped) {
    var n := Processed(content.frames, accepts);
    && frames == content.frames[..n]
    && stopped ==
       if n < |content.frames| then FrameRefused else if content.oversize then FrameTooLong else ConnectionClosed
  }

  /** _reader_loop: the frames that are processed, and why the loop stops, depend on the bytes only and
      not on how they are cut into chunks. `accepts` says of the last of some frames whether processing
      it raises nothing. */
  method ReaderLoop(chunks: seq<Text>, limit: nat, accepts: seq<Text> -> bool)
    returns (frames: seq<Text>, stopped: Stopped)
    ensures Consumed(Split(Joined(chunks), limit), accepts, frames, stopped)
    ensures var all := Split(Joined(chunks), limit);
      var n := Processed(all.frames, accepts);
      && frames == all.frames[..n]
      && (stopped == FrameRefused <==> n < |all.frames|)
      && (stopped == FrameTooLong <==> n == |all.frames| && all.oversize)
  {
    var buffer: Text := [];
    frames, stopped := [], ConnectionClosed;
    var k := 0;
    NothingYet(limit);
    while k < |chunks|
      invariant 0 <= k <= |chunks| && stopped == ConnectionClosed
      invariant Split(Joined(chunks[..k]), limit) == Content(frames, false, buffer)
      invariant Processed(frames, accepts) == |frames|
    {
      SplitMore(Joined(chunks[..k]), chunks[k], limit);
      assert chunks[..k + 1][..k] == chunks[..k];
      frames, stopped, buffer := SplitBuffer(buffer + chunks[k], limit, accepts, frames);
      if stopped != ConnectionClosed {
        JoinedMore(chunks, k + 1, limit);
        StoppedForGood(Split(Joined(chunks[..k + 1]), limit), Split(Joined(chunks), limit), accepts, frames, stopped);
        return;
      }
      k := k + 1;
    }
    assert chunks[..k] == chunks;
  }

  lemma NothingYet(limit: nat)
    ensures Split(Joined([]), limit) == Content([], false, [])
  {
  }

  /** A reader that has stopped would have stopped so on the whole stream. */
  lemma StoppedForGood(content: Content, all: Content, accepts: seq<Text> -> bool, frames: seq<Text>, stopped: Stopped)
    requires Consumed(content, accepts, frames, stopped) && stopped != ConnectionClosed
    requires content.frames <= all.frames
    requires content.oversize ==> all.oversize && all.frames == content.frames
    ensures Consumed(all, accepts, frames, stopped)
  {
    if stopped == FrameRefused {
      ProcessedMore(content.frames, all.frames[|content.frames|..], accepts);
      assert content.frames + all.frames[|content.frames|..] == all.frames;
    }
  }

  lemma {:induction false} JoinedMore(chunks: seq<Text>, k: nat, limit: nat)
    requires k <= |chunks|
    ensures var first, all := Split(Joined(chunks[..k]), limit), Split(Joined(chunks), limit);
      first.frames <= all.frames && (first.oversize ==> all.oversize && all.frames == first.frames)
    decreases |chunks|
  {
    hide Split;
    if k < |chunks| {
      var front := chunks[..|chunks| - 1];
      assert front[..k] == chunks[..k];
      JoinedMore(front, k, limit);
      SplitMore(Joined(front), chunks[|chunks| - 1], limit);
    } else {
      assert chunks[..k] == chunks;
    }
  }

  /** The inner loop over the lines that the buffer holds. */
  method SplitBuffer(buffered: Text, limit: nat, accepts: seq<Text> -> bool, before: seq<Text>)
    returns (frames: seq<Text>, stopped: Stopped, buffer: Text)
    requires Processed(before, accepts) == |before|
    ensures var content := Split(buffered, limit);
      Consumed(content.(frames := before + content.frames), accepts, frames, stopped)
    ensures stopped == ConnectionClosed ==> Split(buffered, limit).rest == buffer
  {
    hide LineLength, Blank, OneLine;
    buffer := buffered;
    frames := before;
    while true
      invariant Split(buffered, limit).oversize == Split(buffer, limit).oversize
      invariant Split(buffered, limit).rest == Split(buffer, limit).rest
      invariant before + Split(buffered, limit).frames == frames + Split(buffer, limit).frames
      invariant Processed(frames, accepts) == |frames|
      decreases |buffer|
    {
      var newline := LineLength(buffer);
      if newline == |buffer| {
        assert frames + [] == frames;
        return frames, if |buffer| > limit then FrameTooLong else ConnectionClosed, buffer;
      }
      var frame := buffer[..newline];
      ghost var later := Split(buffer[newline + 1..], limit);
      if |frame| > limit {
        assert frames + [] == frames;
        return frames, FrameTooLong, buffer;
      }
      buffer := buffer[newline + 1..];
      if !Blank(frame) {
        assert frames + ([frame] + later.frames) == (frames + [frame]) + later.frames;
        ProcessedOne(frames, frame, accepts);
        if !accepts(frames + [frame]) {
          ProcessedMore(frames + [frame], later.frames, accepts);
          return frames, FrameRefused, buffer;
        }
        frames := frames + [frame];
      }
    }
  }

  /** What the reader makes of one more line: nothing behind a line beyond the limit, nothing of a line of
      ASCII white space, and one frame of any other. */
  lemma SplitLine(line: Text, more: Text, limit: nat)
    requires forall i :: 0 <= i < |line| ==> line[i] != 10
    ensures Split(line + ([10] + more), limit) ==
      if |line| > limit then Content([], true, line + ([10] + more))
      else if forall i :: 0 <= i < |line| ==> line[i] in {9, 10, 11, 12, 13, 32} then Split(more, limit)
      else Split(more, limit).(frames := [line] + Split(more, limit).frames)
    ensures Split(line, limit) == Content([], |line| > limit, line)
  {
    hide LineLength, Blank, Split;
    var t := line + ([NEWLINE] + more);
    assert t[..|line|] == line && t[|line| + 1..] == more;
    LineLengthIs(t, |line|);
    AllOneLine(line);
    BlankMeans(line);
    SplitFirst(t, limit);
    SplitFirst(line, limit);
  }

  lemma BlankMeans(line: Text)
    ensures Blank(line) <==> forall i :: 0 <= i < |line| ==> line[i] in {9, 10, 11, 12, 13, 32}
  {
  }

  lemma SplitFirst(bytes: Text, limit: nat)
    ensures var n := LineLength(bytes);
      Split(bytes, limit) ==
        if n == |bytes| then Content([], n > limit, bytes)
        else if n > limit then Content([], true, bytes)
        else Prepend(bytes[..n], Split(bytes[n + 1..], limit))
  {
    hide LineLength, Prepend;
  }

  /** What one end writes, the other end's reader splits into the same frames. */
  lemma {:induction false} WrittenFramesAreSplit(frames: seq<Text>, limit: nat)
    requires forall f :: f in frames ==> IsEncoding(f) && Write(f, limit).Wrote?
    ensures Split(Stream(frames), limit) == Content(frames, false, [])
    decreases |frames|
  {
    hide Split, LineLength;
    if frames == [] {
      SplitFirst([], limit);
    } else {
      assert frames[0] in frames && frames[0][0] !in {9, 10, 11, 12, 13, 32};
      WrittenFramesAreSplit(frames[1..], limit);
      SplitLine(frames[0], Stream(frames[1..]), limit);
      assert frames == [frames[0]] + frames[1..];
    }
  }

  /** Frames are processed up to the first that is refused, each after all those before it. */
  lemma {:induction false} ProcessedUpToRefusal(frames: seq<Text>, accepts: seq<Text> -> bool, k: nat)
    requires k < |frames|
    ensures k < Processed(frames, accepts) ==> accepts(frames[..k + 1])
    ensures k == Processed(frames, accepts) ==> !accepts(frames[..k + 1])
    decreases |frames|
  {
    var front := frames[..|frames| - 1];
    if k < |front| {
      ProcessedUpToRefusal(front, accepts, k);
      assert front[..k + 1] == frames[..k + 1];
    } else {
      assert frames[..k + 1] == frames;
    }
  }
}
