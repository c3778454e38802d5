/** Newline-delimited frames with a size limit, and the transcript that mesh proofs are computed over. */
module Framing {
  import opened Bytes
  import opened WhiteSpace

  predicate OneLine(t: Text) {
    forall i :: 0 <= i < |t| ==> t[i] != NEWLINE
  }

  /** The length of the first line, or of the whole text when no line ends in it. */
  function LineLength(t: Text): (n: nat)
    ensures n <= |t| && OneLine(t[..n]) && (n < |t| ==> t[n] == NEWLINE)
  {
    if t == [] || t[0] == NEWLINE then 0
    else
      var n := LineLength(t[1..]);
      assert forall i :: 0 < i <= n ==> t[i] == t[1..][..n][i - 1];
      n + 1
  }

  lemma LineLengthIs(t: Text, n: nat)
    requires n < |t| && OneLine(t[..n]) && t[n] == NEWLINE
    ensures LineLength(t) == n
  {
    var m := LineLength(t);
    forall i | 0 <= i < n ensures t[i] != NEWLINE {
      assert t[..n][i] == t[i];
    }
    forall i | 0 <= i < m ensures t[i] != NEWLINE {
      assert t[..m][i] == t[i];
    }
  }

  lemma AllOneLine(t: Text)
    requires OneLine(t)
    ensures LineLength(t) == |t|
  {
  }

  /****** Reading ******/

  datatype Outcome = Frame(content: Text) | TooLong | Ended

  /** What reading one frame means: the first line if it is at most `limit` bytes long, however the
      bytes arrive. A stream that ends inside a line yields no frame. */
  function ReadOne(rest: Text, limit: nat): Outcome {
    var n := LineLength(rest);
    if n < |rest| then (if n <= limit then Frame(Trim(rest[..n])) else TooLong)
    else if n > limit + 1 then TooLong
    else Ended
  }

  datatype Slice = Line(bytes: Text) | Full(bytes: Text) | AtEnd(bytes: Text)

  /** A buffered reader over the bytes still to come. */
  class Reader {
    var rest: Text

    constructor (bytes: Text)
      ensures rest == bytes
    {
      rest := bytes;
    }

    /** bufio.Reader.ReadSlice: up to the newline, or as much as the buffer held. How much that is
        does not matter below, only that it is something. */
    method ReadSlice(held: nat) returns (slice: Slice)
      requires held > 0
      modifies this
      ensures |slice.bytes| <= |old(rest)| && slice.bytes == old(rest)[..|slice.bytes|]
      ensures rest == old(rest)[|slice.bytes|..]
      ensures slice.Line? <==> LineLength(old(rest)) < |old(rest)| && LineLength(old(rest)) < held
      ensures slice.Line? ==> |slice.bytes| == LineLength(old(rest)) + 1
      ensures slice.Full? ==> |slice.bytes| == held <= LineLength(old(rest))
      ensures slice.AtEnd? ==> rest == [] && |slice.bytes| == LineLength(old(rest)) == |old(rest)| < held
    {
      var n := LineLength(rest);
      var all := rest;
      if n >= held {
        slice := Full(all[..held]);
        rest := all[held..];
      } else if n < |all| {
        slice := Line(all[..n + 1]);
        rest := all[n + 1..];
      } else {
        slice := AtEnd(all);
        rest := [];
      }
    }
  }

  lemma LineLengthAfter(t: Text, k: nat)
    requires k <= LineLength(t)
    ensures LineLength(t[k..]) == LineLength(t) - k
  {
    var n := LineLength(t);
    if n < |t| {
      assert t[k..][..n - k] == t[..n][k..];
      LineLengthIs(t[k..], n - k);
    } else {
      forall i | 0 <= i < |t[k..]| ensures t[k..][i] != NEWLINE {
        assert t[..n][k + i] == t[k..][i];
      }
    }
  }

  lemma TrimLine(line: Text)
    ensures Trim(line + [NEWLINE]) == Trim(line)
  {
    TrimLeftLine(line);
    var left := TrimLeft(line);
    if TrimLeft(line + [NEWLINE]) == left + [NEWLINE] {
      assert (left + [NEWLINE])[..|left|] == left;
    }
  }

  lemma {:induction false} TrimLeftLine(line: Text)
    ensures TrimLeft(line + [NEWLINE]) == TrimLeft(line) + [NEWLINE]
      || (TrimLeft(line) == [] && TrimLeft(line + [NEWLINE]) == [])
    decreases |line|
  {
    var all := line + [NEWLINE];
    if line == [] {
      assert all[1..] == [];
    } else {
      var w := SpaceAhead(line);
      assert SpaceAhead(all) == w;
      if w > 0 {
        assert all[w..] == line[w..] + [NEWLINE];
        TrimLeftLine(line[w..]);
      }
    }
  }

  lemma LineCompleted(all: Text, k: nat, n: nat)
    requires k <= n < |all|
    ensures all[..k] + all[k..][..n - k + 1] == all[..n] + [all[n]]
    ensures all[k..][n - k + 1..] == all[n + 1..]
  {
  }

  lemma TakeMore(all: Text, k: nat, m: nat)
    requires k + m <= |all|
    ensures all[..k] + all[k..][..m] == all[..k + m] && all[k..][m..] == all[k + m..]
  {
  }

  /** readBoundedFrame: whatever sizes the buffer hands out, the outcome is that of ReadOne, and a
      frame leaves exactly what follows its line. */
  method ReadBoundedFrame(reader: Reader, limit: nat, sizes: nat -> nat) returns (r: Outcome)
    requires forall i :: sizes(i) > 0
    modifies reader
    ensures r == ReadOne(old(reader.rest), limit)
    ensures r.Frame? ==> reader.rest == old(reader.rest)[LineLength(old(reader.rest)) + 1..]
  {
    ghost var all := reader.rest;
    ghost var n := LineLength(all);
    hide LineLength, OneLine, Trim;
    var frame: Text := [];
    var i := 0;
    while true
      invariant |frame| <= n && |frame| <= limit + 1
      invariant frame == all[..|frame|] && reader.rest == all[|frame|..]
      decreases |reader.rest|
    {
      LineLengthAfter(all, |frame|);
      ghost var k := |frame|;
      var fragment := reader.ReadSlice(sizes(i));
      if |frame| + |fragment.bytes| > limit + 1 {
        return TooLong;
      }
      frame := frame + fragment.bytes;
      if fragment.Line? {
        LineCompleted(all, k, n);
        TrimLine(all[..n]);
        return Frame(Trim(frame));
      }
      if fragment.AtEnd? {
        return Ended;
      }
      TakeMore(all, k, |fragment.bytes|);
      i := i + 1;
    }
  }

  /****** Writing, and reading back ******/

  datatype Written = Wrote(bytes: Text) | Refused

  /** writeBoundedFrame on an encoded value. */
  function Write(encoded: Text, limit: nat): Written {
    if |encoded| > limit then Refused else Wrote(encoded + [NEWLINE])
  }

  /** Encoded JSON objects: no line break, and no white space at either end. */
  predicate IsEncoding(t: Text) {
    OneLine(t) && t != [] && SpaceAhead(t) == 0 && SpaceBehind(t) == 0
  }

  /** The bytes of a sequence of written frames. */
  function Stream(frames: seq<Text>): Text {
    if frames == [] then [] else frames[0] + ([NEWLINE] + Stream(frames[1..]))
  }

  /** Frames read until the stream ends or a line is too long. */
  function ReadAll(rest: Text, limit: nat): seq<Text>
    decreases |rest|
  {
    match ReadOne(rest, limit)
    case Frame(content) => [content] + ReadAll(rest[LineLength(rest) + 1..], limit)
    case _ => []
  }

  lemma WriteThenRead(frame: Text, more: Text, limit: nat)
    requires IsEncoding(frame) && Write(frame, limit).Wrote?
    ensures ReadOne(frame + ([NEWLINE] + more), limit) == Frame(frame)
    ensures LineLength(frame + ([NEWLINE] + more)) == |frame|
  {
    var t := frame + ([NEWLINE] + more);
    assert t[..|frame|] == frame;
    LineLengthIs(t, |frame|);
  }

  lemma NothingToRead(limit: nat)
    ensures ReadOne([], limit) == Ended
  {
  }

  /** Everything that is written arrives, in order, and nothing else. */
  lemma {:induction false} FramesRoundTrip(frames: seq<Text>, limit: nat)
    requires forall f :: f in frames ==> IsEncoding(f) && Write(f, limit).Wrote?
    ensures ReadAll(Stream(frames), limit) == frames
    decreases |frames|
  {
    hide Trim, LineLength, IsEncoding, OneLine;
    if frames != [] {
      var t := Stream(frames);
      assert frames[0] in frames;
      WriteThenRead(frames[0], Stream(frames[1..]), limit);
      forall f | f in frames[1..] ensures IsEncoding(f) && Write(f, limit).Wrote? {
        assert f in frames;
      }
      FramesRoundTrip(frames[1..], limit);
      assert t[|frames[0]| + 1..] == Stream(frames[1..]);
    } else {
      NothingToRead(limit);
    }
  }

  /** A line is accepted if and only if it is no longer than the limit, and then without the white space at
      its ends; the writer holds its frames to the same limit. A line that is cut off by the end of the
      stream is no frame, and one byte more than the limit of it is not yet too long. */
  lemma LineAcceptedIffShort(line: Text, more: Text, limit: nat)
    requires forall i :: 0 <= i < |line| ==> line[i] != 10
    ensures ReadOne(line + ([10] + more), limit) == if |line| <= limit then Frame(Trim(line)) else TooLong
    ensures Write(line, limit) == if |line| <= limit then Wrote(line + [10]) else Refused
    ensures ReadOne(line, limit) == if |line| <= limit + 1 then Ended else TooLong
  {
    var t := line + ([NEWLINE] + more);
    assert t[..|line|] == line;
    LineLengthIs(t, |line|);
    AllOneLine(line);
  }
}
