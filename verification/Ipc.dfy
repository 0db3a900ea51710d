/**
 Frames between processes: four bytes of length, least significant first, then the payload,
 over a byte stream whose every write and read may move fewer bytes than asked, or fail.
 */
module Ipc {
  import opened Layouts

  type Bytes = seq<Byte>

  const TWO32: nat := 0x1_0000_0000

  // ---- what a stream of bytes means ----

  /** A frame on the wire; the length is cast to 32 bits, the payload is not cut. */
  function Framed(frame: Bytes): Bytes { Little(|frame|, 4) + frame }

  function Stream(frames: seq<Bytes>): Bytes
  {
    if frames == [] then [] else Framed(frames[0]) + Stream(frames[1..])
  }

  /** The frames a receiver can take off a stream until it ends, is cut short or announces nothing. */
  function FramesIn(w: Bytes): seq<Bytes>
    decreases |w|
  {
    if |w| < 4 then []
    else
      var n := FromLittle(w[..4]);
      if n == 0 || |w| < 4 + n then [] else [w[4..4 + n]] + FramesIn(w[4 + n..])
  }

  ghost predicate Sendable(frame: Bytes) { 0 < |frame| < TWO32 }

  lemma FourByteLimit()
    ensures Limit(4) == TWO32
  {
    assert Limit(2) == 65536;
  }

  /** A stream that begins with a whole frame. */
  lemma FrameComesOff(frame: Bytes, rest: Bytes)
    requires Sendable(frame)
    ensures FramesIn(Framed(frame) + rest) == [frame] + FramesIn(rest)
  {
    var w := Framed(frame) + rest;
    FourByteLimit();
    LittleReadsBack(|frame|, 4);
    assert w[..4] == Little(|frame|, 4) && w[4..4 + |frame|] == frame && w[4 + |frame|..] == rest;
  }

  /** A frame cut anywhere is no frame at all. */
  lemma CutFrameIsNone(frame: Bytes, k: nat)
    requires Sendable(frame) && k < |Framed(frame)|
    ensures FramesIn(Framed(frame)[..k]) == []
  {
    var w := Framed(frame)[..k];
    FourByteLimit();
    LittleReadsBack(|frame|, 4);
    if k >= 4 {
      assert w[..4] == Little(|frame|, 4);
    }
  }

  lemma NoFramesInNothing()
    ensures FramesIn([]) == []
  {
  }

  /** How many of the frames lie whole within the first `k` bytes. */
  function WholeWithin(frames: seq<Bytes>, k: nat): (n: nat)
    ensures n <= |frames|
  {
    if frames == [] || k < |Framed(frames[0])| then 0 else 1 + WholeWithin(frames[1..], k - |Framed(frames[0])|)
  }

  /** A stream cut anywhere yields exactly the frames that got through whole, in order. */
  lemma {:induction false} CutStreamYieldsPrefix(frames: seq<Bytes>, k: nat)
    requires k <= |Stream(frames)| && forall i :: 0 <= i < |frames| ==> Sendable(frames[i])
    ensures FramesIn(Stream(frames)[..k]) == frames[..WholeWithin(frames, k)]
  {
    hide FramesIn, Framed;
    if frames != [] {
      var head, tail := Framed(frames[0]), Stream(frames[1..]);
      if k < |head| {
        assert (head + tail)[..k] == head[..k];
        CutFrameIsNone(frames[0], k);
      } else {
        assert (head + tail)[..k] == head + tail[..k - |head|];
        FrameComesOff(frames[0], tail[..k - |head|]);
        CutStreamYieldsPrefix(frames[1..], k - |head|);
        var n := WholeWithin(frames[1..], k - |head|);
        assert [frames[0]] + frames[1..][..n] == frames[..n + 1];
      }
    } else {
      NoFramesInNothing();
    }
  }

  lemma {:induction false} WholeStreamIsWhole(frames: seq<Bytes>)
    ensures WholeWithin(frames, |Stream(frames)|) == |frames|
  {
    if frames != [] {
      WholeStreamIsWhole(frames[1..]);
    }
  }

  lemma {:induction false} FramesInAreSendable(w: Bytes)
    ensures forall i :: 0 <= i < |FramesIn(w)| ==> Sendable(FramesIn(w)[i])
    decreases |w|
  {
    if |w| >= 4 {
      var n := FromLittle(w[..4]);
      FourByteLimit();
      FromLittleFits(w[..4]);
      if n != 0 && |w| >= 4 + n {
        FramesInAreSendable(w[4 + n..]);
      }
    }
  }

  /** A stream brings back its frames exactly when none is empty and every length fits 32 bits. */
  lemma StreamRoundTripIff(frames: seq<Bytes>)
    ensures FramesIn(Stream(frames)) == frames <==> forall i :: 0 <= i < |frames| ==> Sendable(frames[i])
  {
    FramesInAreSendable(Stream(frames));
    if forall i :: 0 <= i < |frames| ==> Sendable(frames[i]) {
      CutStreamYieldsPrefix(frames, |Stream(frames)|);
      WholeStreamIsWhole(frames);
      assert Stream(frames)[..|Stream(frames)|] == Stream(frames);
    }
  }

  // ---- the two ends ----

  /** At least `n` calls will each move something. */
  ghost predicate Steady(answers: seq<int>, n: int)
  {
    n <= |answers| && forall i :: 0 <= i < |answers| ==> answers[i] > 0
  }

  /** One direction of a connection. What the operating system answers to each call is given in advance. */
  class Pipe {
    var wire: Bytes               // every byte ever written
    var taken: nat                // how many of them have been read
    var answers: seq<int>         // how many bytes each coming call may move; 0 or less is a failure

    ghost predicate Valid()
      reads this
    {
      taken <= |wire|
    }

    constructor (answers: seq<int>)
      ensures Valid() && wire == [] && taken == 0 && this.answers == answers
    {
      wire, taken, this.answers := [], 0, answers;
    }

    /** The next answer, at most `limit`. */
    method Answer(limit: nat) returns (n: int)
      modifies this`answers
      ensures n <= limit
      ensures old(answers) != [] && old(answers)[0] > 0 && limit > 0 ==> n > 0
      ensures answers == if old(answers) == [] then [] else old(answers)[1..]
    {
      if answers == [] {
        return 0;
      }
      n := if answers[0] < limit then answers[0] else limit;
      answers := answers[1..];
    }

    /** 1 when all of the data went out; otherwise some proper prefix of it did. */
    method WriteAll(data: Bytes) returns (r: int, ghost done: nat)
      requires Valid()
      modifies this`wire, this`answers
      ensures Valid() && done <= |data| && wire == old(wire) + data[..done]
      ensures r == if done == |data| then 1 else 0
      ensures Steady(old(answers), |data|) ==> r == 1 && Steady(answers, |old(answers)| - |data|)
    {
      var at := 0;
      while at < |data|
        invariant at <= |data| && taken <= |wire| && wire == old(wire) + data[..at]
        invariant Steady(old(answers), |data|) ==> Steady(answers, |old(answers)| - at)
      {
        var n := Answer(|data| - at);
        if n <= 0 {
          return 0, at;
        }
        wire := wire + data[at..at + n];
        at := at + n;
      }
      return 1, at;
    }

    /** The next `size` bytes, all of them or a failure. */
    method ReadAll(size: nat) returns (buf: Bytes, r: int)
      requires Valid()
      modifies this`taken, this`answers
      ensures Valid() && old(taken) <= taken
      ensures r == 0 || r == 1
      ensures r == 1 ==> taken == old(taken) + size && buf == wire[old(taken)..taken]
      ensures Steady(old(answers), size) && size <= |wire| - old(taken) ==> r == 1 && Steady(answers, |old(answers)| - size)
    {
      buf := [];
      while |buf| < size
        invariant Valid() && |buf| <= size && taken == old(taken) + |buf| && buf == wire[old(taken)..taken]
        invariant Steady(old(answers), size) && size <= |wire| - old(taken) ==> Steady(answers, |old(answers)| - |buf|)
      {
        var want := size - |buf|;
        var n := Answer(if want < |wire| - taken then want else |wire| - taken);
        if n <= 0 {
          return buf, 0;
        }
        buf := buf + wire[taken..taken + n];
        taken := taken + n;
      }
      r := 1;
    }

    /** The payload length, or -1 when the peer is gone. */
    method Send(data: Bytes) returns (sent: int, ghost done: nat)
      requires Valid()
      modifies this`wire, this`answers
      ensures Valid() && done <= |Framed(data)| && wire == old(wire) + Framed(data)[..done]
      ensures sent == if done == |Framed(data)| then |data| else -1
      ensures Steady(old(answers), |Framed(data)|) ==> sent >= 0 && Steady(answers, |old(answers)| - |Framed(data)|)
    {
      var n := |data| % 0x1_0000_0000;
      var header := [(n % 256) as Byte, (n / 256 % 256) as Byte, (n / 65536 % 256) as Byte, (n / 0x100_0000 % 256) as Byte];
      HeaderIsLittle(|data|);
      ghost var start := wire;
      var r;
      r, done := WriteAll(header);
      if r == 0 {
        assert Framed(data)[..done] == header[..done];
        return -1, done;
      }
      assert header[..4] == header && Framed(data)[..4] == header;
      if |data| > 0 {
        ghost var more;
        r, more := WriteAll(data);
        done := 4 + more;
        assert Framed(data)[..done] == header + data[..more];
        if r == 0 {
          return -1, done;
        }
      }
      return |data|, done;
    }

    /** One whole frame, or nothing: the peer closed, stopped answering or was cut off. */
    method Receive() returns (frame: Bytes)
      requires Valid()
      modifies this`taken, this`answers
      ensures Valid()
      ensures frame != [] ==> FramesIn(wire[old(taken)..]) == [frame] + FramesIn(wire[taken..])
      ensures Steady(old(answers), |wire| - old(taken)) && FramesIn(wire[old(taken)..]) != [] ==>
        frame != [] && Steady(answers, |wire| - taken)
    {
      var header, r := ReadAll(4);
      if r == 0 {
        return [];
      }
      assert wire[old(taken)..][..4] == header;
      var n := header[0] as nat + 256 * header[1] as nat + 65536 * header[2] as nat + 0x100_0000 * header[3] as nat;
      FromFourBytes(header);
      if n > 0 {
        frame, r := ReadAll(n);
        if r == 0 {
          return [];
        }
        ghost var w := wire[old(taken)..];
        assert w[..4] == header && w[4..4 + n] == frame && w[4 + n..] == wire[taken..];
      } else {
        frame := [];
      }
    }
  }

  /** The cast to 32 bits drops what the four bytes cannot hold. */
  lemma HeaderIsLittle(length: nat)
    ensures
      var n := length % 0x1_0000_0000;
      Little(length, 4) == [(n % 256) as Byte, (n / 256 % 256) as Byte, (n / 65536 % 256) as Byte, (n / 0x100_0000 % 256) as Byte]
  {
    var q, n := length / 0x1_0000_0000, length % 0x1_0000_0000;
    NextByte(q * 0x100_0000, n, 4);
    NextByte(q * 0x1_0000, n / 256, 3);
    NextByte(q * 0x100, n / 65536, 2);
    NextByte(q, n / 0x100_0000, 1);
    assert n / 256 / 256 == n / 65536 && n / 65536 / 256 == n / 0x100_0000;
  }

  lemma NextByte(high: nat, n: nat, width: nat)
    requires width > 0
    ensures Little(256 * high + n, width) == [(n % 256) as Byte] + Little(high + n / 256, width - 1)
  {
    assert (256 * high + n) / 256 == high + n / 256 && (256 * high + n) % 256 == n % 256;
  }

  lemma FromFourBytes(s: Bytes)
    requires |s| == 4
    ensures FromLittle(s) == s[0] as nat + 256 * s[1] as nat + 65536 * s[2] as nat + 0x100_0000 * s[3] as nat
  {
    var t := s[1..];
    var u := t[1..];
    var v := u[1..];
    assert t[0] == s[1] && u[0] == s[2] && v[0] == s[3] && v[1..] == [];
    assert FromLittle(v) == s[3] as nat + 256 * FromLittle([]);
    assert FromLittle(u) == s[2] as nat + 256 * FromLittle(v);
    assert FromLittle(t) == s[1] as nat + 256 * FromLittle(u);
  }

  // ---- a session ----

  /** Send frames until one fails: what is on the wire is a prefix of the stream of all of them. */
  method SendEach(pipe: Pipe, frames: seq<Bytes>) returns (accepted: nat)
    requires pipe.Valid()
    modifies pipe`wire, pipe`answers
    ensures pipe.Valid() && accepted <= |frames|
    ensures old(pipe.wire) + Stream(frames[..accepted]) <= pipe.wire <= old(pipe.wire) + Stream(frames)
    ensures accepted == |frames| ==> pipe.wire == old(pipe.wire) + Stream(frames)
    ensures Steady(old(pipe.answers), |Stream(frames)|) ==> accepted == |frames|
  {
    hide Framed;
    ghost var start := pipe.wire;
    accepted := 0;
    while accepted < |frames|
      invariant pipe.Valid() && accepted <= |frames| && pipe.wire == start + Stream(frames[..accepted])
      invariant Steady(old(pipe.answers), |Stream(frames)|) ==>
        Steady(pipe.answers, |old(pipe.answers)| - |Stream(frames[..accepted])|)
    {
      StreamSplits(frames, accepted);
      ghost var before := pipe.wire;
      var sent;
      ghost var done;
      sent, done := pipe.Send(frames[accepted]);
      PartSent(start, Stream(frames[..accepted]), Framed(frames[accepted]), Stream(frames[accepted + 1..]), done);
      if sent < 0 {
        return;
      }
      accepted := accepted + 1;
    }
    assert frames[..accepted] == frames;
    assert start + Stream(frames) <= pipe.wire;
  }

  /** Part of a frame on the wire is part of the stream. */
  lemma PartSent(start: Bytes, before: Bytes, framed: Bytes, after: Bytes, done: nat)
    requires done <= |framed|
    ensures start + before <= start + before + framed[..done] <= start + (before + framed + after)
    ensures done == |framed| ==> start + before + framed[..done] == start + (before + framed)
  {
    assert start + (before + framed + after) == start + before + framed[..done] + (framed[done..] + after);
  }

  lemma {:induction false} StreamSplits(frames: seq<Bytes>, k: nat)
    requires k < |frames|
    ensures Stream(frames[..k + 1]) == Stream(frames[..k]) + Framed(frames[k])
    ensures Stream(frames) == Stream(frames[..k]) + Framed(frames[k]) + Stream(frames[k + 1..])
  {
    hide Framed;
    if k > 0 {
      var tail := frames[1..];
      StreamSplits(tail, k - 1);
      assert tail[..k] == frames[..k + 1][1..] && tail[..k - 1] == frames[..k][1..];
      assert tail[k - 1 + 1..] == frames[k + 1..] && tail[k - 1] == frames[k];
      var a, b, c, d := Framed(frames[0]), Stream(tail[..k - 1]), Framed(frames[k]), Stream(frames[k + 1..]);
      assert Stream(frames[..k]) == a + b;
      assert a + (b + c) == a + b + c && a + (b + c + d) == a + b + c + d;
    } else {
      assert frames[..1] == [frames[0]];
    }
  }

  /** Receive until there is nothing more: the frames are among those the wire holds, in order. */
  method ReceiveEach(pipe: Pipe, limit: nat) returns (frames: seq<Bytes>)
    requires pipe.Valid()
    modifies pipe`taken, pipe`answers
    ensures pipe.Valid() && frames <= FramesIn(pipe.wire[old(pipe.taken)..])
    ensures Steady(old(pipe.answers), |pipe.wire| - old(pipe.taken)) ==>
      |frames| >= limit || frames == FramesIn(pipe.wire[old(pipe.taken)..])
  {
    frames := [];
    ghost var all := FramesIn(pipe.wire[pipe.taken..]);
    while |frames| < limit
      invariant pipe.Valid() && all == frames + FramesIn(pipe.wire[pipe.taken..])
      invariant Steady(old(pipe.answers), |pipe.wire| - old(pipe.taken)) ==> Steady(pipe.answers, |pipe.wire| - pipe.taken)
    {
      var frame := pipe.Receive();
      if frame == [] {
        break;
      }
      frames := frames + [frame];
    }
  }

  /**
   However the stream is chopped, and wherever it breaks, a prefix of what was sent is received;
   when no call fails, all of it is.
   */
  method Exchange(frames: seq<Bytes>, writes: seq<int>, reads_: seq<int>, limit: nat) returns (received: seq<Bytes>)
    requires forall i :: 0 <= i < |frames| ==> Sendable(frames[i])
    ensures received <= frames
    ensures Steady(writes, |Stream(frames)|) && Steady(reads_, |Stream(frames)|) && limit > |frames| ==> received == frames
  {
    var pipe := new Pipe(writes);
    var accepted := SendEach(pipe, frames);
    pipe.answers := reads_;
    ghost var k := |pipe.wire|;
    assert pipe.wire == Stream(frames)[..k] && pipe.wire[0..] == pipe.wire;
    CutStreamYieldsPrefix(frames, k);
    WholeStreamIsWhole(frames);
    received := ReceiveEach(pipe, limit);
  }
}
