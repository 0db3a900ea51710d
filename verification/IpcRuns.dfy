/**
 A connection as a state machine: the sender's writes and the receiver's reads interleave one
 call at a time, each moves any number of bytes it may, and either end may fail at any moment.
 */
module IpcRuns {
  import opened Ipc
  import opened Layouts

  /** What the receiver is reading: a header, or a body of `n` bytes. */
  datatype Wanted = Header | Body(n: nat)

  /**
   `header` and `body` are what is still to be written of the frame being sent; `part` is what has
   been read of what is wanted. An end that has failed, or a receiver that was told of an empty
   frame, does nothing more.
   */
  datatype Link = Link(
    sent: seq<Bytes>, header: Bytes, body: Bytes, sending: bool,
    wire: Bytes, taken: nat,
    wanted: Wanted, part: Bytes, receiving: bool, received: seq<Bytes>)

  datatype Action =
    | Offer(frame: Bytes)       // the program sends another frame
    | Write(k: nat)             // one write call
    | Read(k: nat)              // one read call
    | SendFails
    | ReceiveFails              // the peer is gone, or the deadline has passed

  const Start := Link([], [], [], true, [], 0, Header, [], true, [])

  function Size(w: Wanted): nat { match w case Header => 4 case Body(n) => n }

  ghost predicate Enabled(l: Link, a: Action)
  {
    match a
    case Offer(_) => l.sending && l.header == [] && l.body == []
    case Write(k) => l.sending && 0 < k <= |if l.header != [] then l.header else l.body|
    case Read(k) => l.receiving && 0 < k && |l.part| + k <= Size(l.wanted) && l.taken + k <= |l.wire|
    case SendFails => l.sending
    case ReceiveFails => l.receiving
  }

  ghost function Apply(l: Link, a: Action): Link
    requires Enabled(l, a)
  {
    match a
    case Offer(frame) => l.(sent := l.sent + [frame], header := Little(|frame|, 4), body := frame)
    case Write(k) =>
      if l.header != [] then l.(wire := l.wire + l.header[..k], header := l.header[k..])
      else l.(wire := l.wire + l.body[..k], body := l.body[k..])
    case Read(k) => Took(l.(taken := l.taken + k), l.part + l.wire[l.taken..l.taken + k])
    case SendFails => l.(sending := false)
    case ReceiveFails => l.(receiving := false)
  }

  /** The receiver has read so much of what it wants. */
  ghost function Took(l: Link, part: Bytes): Link
  {
    if |part| < Size(l.wanted) then l.(part := part)
    else
      match l.wanted
      case Header =>
        var n := FromLittle(part);
        if n == 0 then l.(part := part, receiving := false) else l.(part := [], wanted := Body(n))
      case Body(_) => l.(part := [], wanted := Header, received := l.received + [part])
  }

  ghost predicate Runs(l: Link, acts: seq<Action>)
    decreases |acts|
  {
    acts != [] ==> Enabled(l, acts[0]) && Runs(Apply(l, acts[0]), acts[1..])
  }

  ghost function After(l: Link, acts: seq<Action>): Link
    requires Runs(l, acts)
    decreases |acts|
  {
    if acts == [] then l else After(Apply(l, acts[0]), acts[1..])
  }

  // ---- the invariant ----

  /** The bytes read of the frame that is being received. */
  ghost function Unfinished(l: Link): Bytes
  {
    match l.wanted case Header => l.part case Body(n) => Little(n, 4) + l.part
  }

  ghost predicate PartOk(wanted: Wanted, part: Bytes, receiving: bool)
  {
    match wanted
    case Header => |part| < 4 || (!receiving && |part| == 4 && FromLittle(part) == 0)
    case Body(n) => |part| < n < TWO32
  }

  ghost predicate Inv(l: Link)
  {
    && l.taken <= |l.wire|
    && Stream(l.sent) == l.wire + l.header + l.body
    && l.wire[..l.taken] == Stream(l.received) + Unfinished(l)
    && AllSendable(l.received)
    && PartOk(l.wanted, l.part, l.receiving)
  }

  ghost predicate AllSendable(frames: seq<Bytes>) { forall i :: 0 <= i < |frames| ==> Sendable(frames[i]) }

  lemma AddFrame(frames: seq<Bytes>, frame: Bytes)
    ensures Stream(frames + [frame]) == Stream(frames) + Framed(frame)
  {
    var all := frames + [frame];
    StreamSplits(all, |frames|);
    assert all[..|frames|] == frames && all[..|frames| + 1] == all;
  }

  lemma OfferKeeps(l: Link, frame: Bytes)
    requires Inv(l) && Enabled(l, Offer(frame))
    ensures Inv(Apply(l, Offer(frame)))
  {
    AddFrame(l.sent, frame);
    assert Stream(l.sent) == l.wire;
    assert l.wire + (Little(|frame|, 4) + frame) == l.wire + Little(|frame|, 4) + frame;
  }

  lemma Moved(wire: Bytes, from: Bytes, rest: Bytes, k: nat)
    requires k <= |from|
    ensures wire + from[..k] + from[k..] + rest == wire + from + rest
    ensures forall t :: 0 <= t <= |wire| ==> (wire + from[..k])[..t] == wire[..t]
  {
    assert from == from[..k] + from[k..];
  }

  lemma WriteKeeps(l: Link, k: nat)
    requires Inv(l) && Enabled(l, Write(k))
    ensures Inv(Apply(l, Write(k)))
  {
    hide Stream, Little;
    var r := Apply(l, Write(k));
    if l.header != [] {
      Moved(l.wire, l.header, l.body, k);
    } else {
      Moved(l.wire, l.body, [], k);
      assert l.wire + l.header + l.body == l.wire + l.body + [];
      assert r.wire + r.header + r.body == l.wire + l.body[..k] + l.body[k..] + [];
    }
    assert r.wire[..l.taken] == l.wire[..l.taken];
  }

  lemma Joined(before: Bytes, a: Bytes, b: Bytes, wire: Bytes, taken: nat, k: nat)
    requires taken + k <= |wire| && wire[..taken] == before + a && b == wire[taken..taken + k]
    ensures wire[..taken + k] == before + (a + b)
  {
    assert wire[..taken + k] == wire[..taken] + wire[taken..taken + k];
  }

  lemma ReadKeeps(l: Link, k: nat)
    requires Inv(l) && Enabled(l, Read(k))
    ensures Inv(Apply(l, Read(k)))
  {
    hide Stream, Little, FromLittle;
    var more := l.wire[l.taken..l.taken + k];
    var part := l.part + more;
    Joined(Stream(l.received), Unfinished(l), more, l.wire, l.taken, k);
    match l.wanted
    case Header => if |part| == 4 { HeaderRead(part); }
    case Body(n) =>
      assert Little(n, 4) + l.part + more == Little(n, 4) + part;
      if |part| == n {
        AddFrame(l.received, part);
        assert Stream(l.received + [part]) + [] == Stream(l.received + [part]);
      }
  }

  /** Four bytes are the header of the length they spell. */
  lemma HeaderRead(part: Bytes)
    requires |part| == 4
    ensures FromLittle(part) < TWO32 && Little(FromLittle(part), 4) + [] == part
  {
    FourByteLimit();
    FromLittleFits(part);
    LittleOfFromLittle(part);
  }

  lemma {:induction false} LittleOfFromLittle(s: Bytes)
    ensures Little(FromLittle(s), |s|) == s
  {
    if s != [] {
      LittleOfFromLittle(s[1..]);
      var rest := FromLittle(s[1..]);
      assert (s[0] as nat + 256 * rest) / 256 == rest && (s[0] as nat + 256 * rest) % 256 == s[0] as nat;
    }
  }

  lemma StepKeepsInvariant(l: Link, a: Action)
    requires Inv(l) && Enabled(l, a)
    ensures Inv(Apply(l, a))
  {
    match a
    case Offer(frame) => OfferKeeps(l, frame);
    case Write(k) => WriteKeeps(l, k);
    case Read(k) => ReadKeeps(l, k);
    case SendFails =>
    case ReceiveFails =>
  }

  lemma {:induction false} RunKeepsInvariant(l: Link, acts: seq<Action>)
    requires Inv(l) && Runs(l, acts)
    ensures Inv(After(l, acts))
    decreases |acts|
  {
    if acts != [] {
      StepKeepsInvariant(l, acts[0]);
      RunKeepsInvariant(Apply(l, acts[0]), acts[1..]);
    }
  }

  // ---- what every run promises ----

  lemma {:induction false} FramesThen(frames: seq<Bytes>, rest: Bytes)
    requires AllSendable(frames)
    ensures FramesIn(Stream(frames) + rest) == frames + FramesIn(rest)
  {
    hide FramesIn, Framed;
    if frames != [] {
      var tail := Stream(frames[1..]);
      assert Framed(frames[0]) + tail + rest == Framed(frames[0]) + (tail + rest);
      FrameComesOff(frames[0], tail + rest);
      FramesThen(frames[1..], rest);
      assert [frames[0]] + (frames[1..] + FramesIn(rest)) == frames + FramesIn(rest);
    } else {
      assert Stream(frames) + rest == rest;
    }
  }

  lemma UnfinishedIsNone(l: Link)
    requires PartOk(l.wanted, l.part, l.receiving)
    ensures FramesIn(Unfinished(l)) == []
  {
    match l.wanted
    case Header => if |l.part| == 4 { assert l.part[..4] == l.part; }
    case Body(n) =>
      FourByteLimit();
      LittleReadsBack(n, 4);
      assert Unfinished(l)[..4] == Little(n, 4);
  }

  /** What has been read is the beginning of what is sent, and spells the frames received. */
  lemma TakenSpells(l: Link)
    requires Inv(l)
    ensures l.taken <= |Stream(l.sent)| && l.wire <= Stream(l.sent) && Stream(l.sent)[..l.taken] == l.wire[..l.taken]
    ensures l.received == FramesIn(Stream(l.sent)[..l.taken])
  {
    hide Stream, FramesIn, Unfinished, PartOk;
    assert l.wire + l.header + l.body == l.wire + (l.header + l.body);
    UnfinishedIsNone(l);
    FramesThen(l.received, Unfinished(l));
    assert l.received + [] == l.received;
  }

  /** In every interleaving, whatever is sent: the frames received are those the bytes read so far spell. */
  lemma ReceivedIsWhatWasTaken(acts: seq<Action>)
    requires Runs(Start, acts)
    ensures
      var r := After(Start, acts);
      r.taken <= |r.wire| && r.wire <= Stream(r.sent) && r.received == FramesIn(Stream(r.sent)[..r.taken])
  {
    RunKeepsInvariant(Start, acts);
    TakenSpells(After(Start, acts));
  }

  /** The frames of a run, in the order they were offered. */
  function Offered(acts: seq<Action>): seq<Bytes>
  {
    if acts == [] then []
    else (if acts[0].Offer? then [acts[0].frame] else []) + Offered(acts[1..])
  }

  lemma StepSends(l: Link, a: Action)
    requires Enabled(l, a)
    ensures Apply(l, a).sent == l.sent + if a.Offer? then [a.frame] else []
  {
    hide FromLittle, Little;
    assert l.sent + [] == l.sent;
  }

  lemma {:induction false} SentIsOffered(l: Link, acts: seq<Action>)
    requires Runs(l, acts)
    ensures After(l, acts).sent == l.sent + Offered(acts)
    decreases |acts|
  {
    hide Apply, Enabled;
    if acts != [] {
      StepSends(l, acts[0]);
      SentIsOffered(Apply(l, acts[0]), acts[1..]);
      var one := if acts[0].Offer? then [acts[0].frame] else [];
      assert l.sent + one + Offered(acts[1..]) == l.sent + (one + Offered(acts[1..]));
    } else {
      assert l.sent + [] == l.sent;
    }
  }

  /** In every interleaving of frames that can be sent: received are exactly the frames that lie whole
      within the bytes read, in order. */
  lemma ReceivedAreWholeFrames(acts: seq<Action>)
    requires Runs(Start, acts) && AllSendable(Offered(acts))
    ensures
      var r := After(Start, acts);
      && r.received == Offered(acts)[..WholeWithin(Offered(acts), r.taken)]
      && (r.taken == |Stream(Offered(acts))| ==> r.received == Offered(acts))
  {
    var r := After(Start, acts);
    SentIsOffered(Start, acts);
    assert r.sent == Offered(acts);
    ReceivedIsWhatWasTaken(acts);
    CutStreamYieldsPrefix(r.sent, r.taken);
    WholeStreamIsWhole(r.sent);
  }

  /** Neither end has failed, and the receiver was told of no empty frame. */
  ghost predicate Alive(l: Link) { l.sending && l.receiving }

  lemma {:induction false} StaysAlive(l: Link, acts: seq<Action>)
    requires Inv(l) && Alive(l) && Runs(l, acts) && AllSendable(l.sent) && AllSendable(Offered(acts))
    requires forall i :: 0 <= i < |acts| ==> !acts[i].SendFails? && !acts[i].ReceiveFails?
    ensures Alive(After(l, acts))
    decreases |acts|
  {
    hide Inv, Sendable, Took;
    if acts != [] {
      StepSends(l, acts[0]);
      StepKeepsInvariant(l, acts[0]);
      OfferedParts(l.sent, acts);
      assert !acts[0].SendFails? && !acts[0].ReceiveFails?;
      if acts[0].Read? { ReadStaysAlive(l, acts[0].k); }
      assert forall i :: 0 <= i < |acts[1..]| ==> acts[1..][i] == acts[i + 1];
      StaysAlive(Apply(l, acts[0]), acts[1..]);
    }
  }

  lemma OfferedParts(sent: seq<Bytes>, acts: seq<Action>)
    requires acts != [] && AllSendable(sent) && AllSendable(Offered(acts))
    ensures AllSendable(Offered(acts[1..])) && (acts[0].Offer? ==> AllSendable(sent + [acts[0].frame]))
  {
    hide Sendable;
    var rest := Offered(acts[1..]);
    var d := if acts[0].Offer? then 1 else 0;
    assert forall i :: 0 <= i < |rest| ==> rest[i] == Offered(acts)[i + d];
    if acts[0].Offer? { assert Offered(acts)[0] == acts[0].frame; }
  }

  lemma ReadStaysAlive(l: Link, k: nat)
    requires Inv(l) && Alive(l) && Enabled(l, Read(k)) && AllSendable(l.sent)
    ensures Alive(Apply(l, Read(k))) && Apply(l, Read(k)).sent == l.sent
  {
    hide Stream, FromLittle, Little;
    ReadKeeps(l, k);
    HeaderSpeaksOfAFrame(Apply(l, Read(k)));
  }

  /** A receiver that stopped at a header was sent an empty frame. */
  lemma HeaderSpeaksOfAFrame(l: Link)
    requires Inv(l) && AllSendable(l.sent)
    ensures !(l.wanted.Header? && |l.part| == 4)
  {
    hide Stream, FramesIn, Framed, FromLittle, Little;
    if l.wanted.Header? && |l.part| == 4 {
      var w := Stream(l.sent);
      TakenSpells(l);
      CutStreamYieldsPrefix(l.sent, l.taken);
      var m := WholeWithin(l.sent, l.taken);
      TakeAll(l.sent, m);
      var before := Stream(l.sent[..m]);
      assert w[..l.taken] == before + l.part;
      assert |before| < |w|;
      StreamSplits(l.sent, m);
      HeaderAfter(before, l.sent[m], Stream(l.sent[m + 1..]), l.part);
      assert false;
    }
  }

  lemma TakeAll<T>(s: seq<T>, m: nat)
    ensures m == |s| ==> s[..m] == s
  {
  }

  /** The four bytes where a frame begins do not spell 0. */
  lemma HeaderAfter(before: Bytes, frame: Bytes, rest: Bytes, part: Bytes)
    requires Sendable(frame) && |part| == 4 && before + part <= before + Framed(frame) + rest
    ensures FromLittle(part) == |frame| != 0
  {
    var w := before + Framed(frame) + rest;
    assert part == w[|before|..|before| + 4] == Framed(frame)[..4] == Little(|frame|, 4);
    FourByteLimit();
    LittleReadsBack(|frame|, 4);
  }

  lemma QuietIsDrained(l: Link)
    requires Inv(l) && Alive(l) && !Enabled(l, Write(1)) && !Enabled(l, Read(1))
    ensures l.taken == |Stream(l.sent)|
  {
    hide Stream, Little;
  }

  /** Without failures nothing gets stuck: when no call can move a byte, everything sent has been received. */
  lemma QuietMeansAllReceived(acts: seq<Action>)
    requires Runs(Start, acts) && AllSendable(Offered(acts))
    requires forall i :: 0 <= i < |acts| ==> !acts[i].SendFails? && !acts[i].ReceiveFails?
    requires forall k :: !Enabled(After(Start, acts), Write(k)) && !Enabled(After(Start, acts), Read(k))
    ensures After(Start, acts).received == Offered(acts)
  {
    hide Stream, Enabled, Apply, Inv, Sendable;
    StartHoldsInvariant();
    StaysAlive(Start, acts);
    RunKeepsInvariant(Start, acts);
    SentIsOffered(Start, acts);
    var r := After(Start, acts);
    assert r.sent == Offered(acts);
    assert !Enabled(r, Write(1)) && !Enabled(r, Read(1));
    QuietIsDrained(r);
    ReceivedAreWholeFrames(acts);
  }

  lemma StartHoldsInvariant()
    ensures Inv(Start)
  {
  }
}
