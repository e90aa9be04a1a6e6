/** Multipart framing: a message is a list of frames, and the MORE flag on a part says that another
part of the same message follows. */
module Framing {
  import opened Basics

  type Msg = seq<string>

  datatype Part = Part(data: string, more: bool)

  /** The parts one message puts on the wire: every part but the last is flagged MORE. */
  function Flagged(frames: Msg): (parts: seq<Part>)
    ensures |parts| == |frames|
  {
    seq(|frames|, i requires 0 <= i < |frames| => Part(frames[i], i < |frames| - 1))
  }

  function Wire(msgs: seq<Msg>): seq<Part> {
    if msgs == [] then [] else Flagged(msgs[0]) + Wire(msgs[1..])
  }

  function Data(parts: seq<Part>): Msg {
    seq(|parts|, i requires 0 <= i < |parts| => parts[i].data)
  }

  /** The number of parts up to and including the first unflagged one; None when there is none. */
  function Boundary(wire: seq<Part>): (n: Option<nat>)
    ensures n.Some? ==> 1 <= n.value <= |wire| && !wire[n.value - 1].more
    ensures n.Some? ==> forall i | 0 <= i < n.value - 1 :: wire[i].more
    ensures n.None? ==> forall i | 0 <= i < |wire| :: wire[i].more
  {
    if wire == [] then None
    else if !wire[0].more then Some(1)
    else match Boundary(wire[1..])
      case None => None
      case Some(n) => Some(n + 1)
  }

  datatype RecvResult = Received(frames: Msg) | Retry

  /** One receive: the first whole message, or nothing and the loss of an unfinished one. */
  function RecvStep(wire: seq<Part>): (RecvResult, seq<Part>) {
    match Boundary(wire)
    case Some(n) => (Received(Data(wire[..n])), wire[n..])
    case None => (Retry, [])
  }

  /** Receiving again and again until a receive has to be retried. */
  function RecvAll(wire: seq<Part>): seq<Msg>
    decreases |wire|
  {
    match RecvStep(wire)
    case (Retry, _) => []
    case (Received(frames), rest) => [frames] + RecvAll(rest)
  }

  /** The parts behind the last whole message. */
  function Unfinished(wire: seq<Part>): (tail: seq<Part>)
    ensures forall i | 0 <= i < |tail| :: tail[i].more
    decreases |wire|
  {
    match Boundary(wire)
    case None => wire
    case Some(n) => Unfinished(wire[n..])
  }

  class ZSocket {
    /** Parts in the order they were sent, not yet received. */
    var wire: seq<Part>

    constructor ()
      ensures wire == []
    {
      wire := [];
    }

    /** Send: `accepts` is how many parts the transport takes before it refuses one; a refusal is
        thrown, leaving the parts already accepted on the wire. */
    method Send(frames: Msg, accepts: nat) returns (ok: bool)
      modifies this
      ensures ok <==> |frames| <= accepts
      ensures wire == old(wire) + Flagged(frames)[..if ok then |frames| else accepts]
    {
      var fleft := |frames|;
      if fleft == 0 {
        return true;
      }
      var it := 0;
      while it < |frames|
        invariant 0 <= it <= |frames| && it <= accepts
        invariant fleft == |frames| - it
        invariant wire == old(wire) + Flagged(frames)[..it]
      {
        if it == accepts {
          return false;
        }
        wire := wire + [Part(frames[it], fleft != 1)];
        it, fleft := it + 1, fleft - 1;
      }
      return true;
    }

    /** The loop shared by BlockingRecv and NonBlockingRecv.  Running out of parts is where the one
        blocks and the other throws RetryException; the parts read so far are gone either way. */
    method Recv() returns (r: RecvResult)
      modifies this
      ensures (r, wire) == RecvStep(old(wire))
    {
      var frames: Msg := [];
      var more := true;
      ghost var was := wire;
      while more
        invariant |frames| <= |was| && frames == Data(was[..|frames|])
        invariant wire == was[|frames|..]
        invariant forall i | 0 <= i < |frames| :: was[i].more == (more || i < |frames| - 1)
        invariant !more ==> frames != []
        decreases |wire|, more
      {
        if wire == [] {
          assert Boundary(was).None?;
          return Retry;
        }
        var msg := wire[0];
        wire := wire[1..];
        frames := frames + [msg.data];
        more := msg.more;
      }
      BoundaryAt(was, |frames|);
      return Received(frames);
    }
  }

  ghost predicate NonEmpty(msgs: seq<Msg>) {
    forall i | 0 <= i < |msgs| :: msgs[i] != []
  }

  lemma {:induction false} BoundaryAt(wire: seq<Part>, n: nat)
    requires 1 <= n <= |wire| && !wire[n - 1].more
    requires forall i | 0 <= i < n - 1 :: wire[i].more
    ensures Boundary(wire) == Some(n)
  {
    if n > 1 {
      BoundaryAt(wire[1..], n - 1);
    }
  }

  lemma {:induction false} WireCons(first: Msg, rest: seq<Msg>)
    ensures Wire([first] + rest) == Flagged(first) + Wire(rest)
  {
    assert ([first] + rest)[1..] == rest;
  }

  lemma {:induction false} FlaggedData(wire: seq<Part>, n: nat)
    requires Boundary(wire) == Some(n)
    ensures Flagged(Data(wire[..n])) == wire[..n]
  {
    forall i | 0 <= i < n
      ensures Flagged(Data(wire[..n]))[i] == wire[i]
    {
    }
  }

  /** The first message on the wire ends at its own last part, whatever follows. */
  lemma {:induction false} FirstMessage(msgs: seq<Msg>)
    requires msgs != [] && NonEmpty(msgs)
    ensures Boundary(Wire(msgs)) == Some(|msgs[0]|)
    ensures RecvStep(Wire(msgs)) == (Received(msgs[0]), Wire(msgs[1..]))
  {
    BoundaryAt(Wire(msgs), |msgs[0]|);
    assert Wire(msgs)[..|msgs[0]|] == Flagged(msgs[0]);
    assert Data(Flagged(msgs[0])) == msgs[0];
  }

  /** Whatever messages are sent, receiving returns exactly them, none merged, split or left over. */
  lemma {:induction false} SendThenReceive(msgs: seq<Msg>)
    requires NonEmpty(msgs)
    ensures RecvAll(Wire(msgs)) == msgs && Unfinished(Wire(msgs)) == []
  {
    if msgs != [] {
      FirstMessage(msgs);
      SendThenReceive(msgs[1..]);
    }
  }

  lemma {:induction false} NextMessage(wire: seq<Part>, n: nat)
    requires Boundary(wire) == Some(n)
    ensures RecvAll(wire) == [Data(wire[..n])] + RecvAll(wire[n..])
    ensures Unfinished(wire) == Unfinished(wire[n..])
  {
  }

  /** Conversely, any parts at all are the messages received from them and an unfinished tail. */
  lemma {:induction false} ReceiveExplainsWire(wire: seq<Part>)
    ensures NonEmpty(RecvAll(wire)) && wire == Wire(RecvAll(wire)) + Unfinished(wire)
    decreases |wire|
  {
    match Boundary(wire)
    case None =>
    case Some(n) =>
      ReceiveExplainsWire(wire[n..]);
      NextMessage(wire, n);
      FlaggedData(wire, n);
      Explain(wire, n, Data(wire[..n]), RecvAll(wire[n..]), Unfinished(wire));
  }

  lemma {:induction false} Explain(wire: seq<Part>, n: nat, first: Msg, rest: seq<Msg>, tail: seq<Part>)
    requires 1 <= n <= |wire| && Flagged(first) == wire[..n]
    requires NonEmpty(rest) && wire[n..] == Wire(rest) + tail
    ensures NonEmpty([first] + rest) && wire == Wire([first] + rest) + tail
  {
    WireCons(first, rest);
    assert wire == wire[..n] + wire[n..];
    assert |first| == n;
  }
}
