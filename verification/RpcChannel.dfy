/** The client channel.  Its socket and clock are the environment: a send may be refused, time passes
between any two readings of the clock, and replies arrive whenever the network delivers them. */
module RpcChannelClass {
  import opened Basics
  import opened LexicalCast
  import opened Framing
  import opened ChannelState

  class ZController {
    var reqno_: nat
    var rcode_: RespCode
    var zerror_: ZError
    var payload_: string

    constructor ()
      ensures Value() == FRESH_CONTROLLER
      ensures rcode_ == Unset && reqno_ == 0xFFFF_FFFF_FFFF_FFFF && zerror_ == ZError(0, "") && payload_ == ""
    {
      reqno_, rcode_, zerror_, payload_ := MAX_SIZET, Unset, ZError(ZEC_SUCCESS, ""), "";
    }

    ghost function Value(): Controller
      reads this
    {
      Controller(reqno_, rcode_, zerror_, payload_)
    }

    predicate Ok()
      reads this
      ensures Ok() <==> Value().rcode == Ready
    {
      rcode_ == Ready
    }
  }

  datatype Arrival = Arrival(time: nat, frames: Msg)

  datatype Wait = Wait(start: nat, length: nat)

  datatype Fault = NoFault | ZErrorFault | ZmqFault | OtherFault

  class DealerSocket {
    var now: nat
    var arrivals: seq<Arrival>
    var sent: seq<Msg>
    /** How the last send ended. */
    ghost var fault: Fault
    /** Every Poll so far: when it started and how long it might wait. */
    ghost var waits: seq<Wait>

    constructor (arrivals: seq<Arrival>)
      ensures this.arrivals == arrivals && sent == [] && waits == []
    {
      this.arrivals, sent := arrivals, [];
      now := 0;
      waits := [];
    }

    method MsTime() returns (t: nat)
      modifies this`now
      ensures old(now) <= now == t
    {
      var passed: nat :| true;
      now := now + passed;
      t := now;
    }

    method Send(frames: Msg) returns (fault: Fault)
      modifies this`sent, this`fault
      ensures sent == if fault.NoFault? then old(sent) + [frames] else old(sent)
      ensures this.fault == fault
    {
      fault := *;
      this.fault := fault;
      if fault.NoFault? {
        sent := sent + [frames];
      }
    }

    /** Wait until a message is there, but no longer than `timeout`. */
    method Poll(timeout: int) returns (ready: bool)
      requires timeout >= 0
      modifies this`now, this`waits
      ensures ready <==> arrivals != [] && arrivals[0].time <= old(now) + timeout
      ensures ready ==> arrivals[0].time <= now
      ensures old(now) <= now <= old(now) + timeout
      ensures !ready ==> now == old(now) + timeout
      ensures waits == old(waits) + [Wait(old(now), timeout)]
    {
      waits := waits + [Wait(now, timeout)];
      ready := arrivals != [] && arrivals[0].time <= now + timeout;
      if !ready {
        now := now + timeout;
      } else if arrivals[0].time > now {
        now := arrivals[0].time;
      }
    }

    method NonBlockingRecv() returns (r: RecvResult)
      modifies this`arrivals
      ensures r.Received? <==> old(arrivals) != [] && old(arrivals)[0].time <= now
      ensures r.Received? ==> r.frames == old(arrivals)[0].frames && arrivals == old(arrivals)[1..]
      ensures r.Retry? ==> arrivals == old(arrivals)
    {
      if arrivals != [] && arrivals[0].time <= now {
        r := Received(arrivals[0].frames);
        arrivals := arrivals[1..];
      } else {
        r := Retry;
      }
    }
  }

  function Messages(arrivals: seq<Arrival>): seq<Msg> {
    seq(|arrivals|, i requires 0 <= i < |arrivals| => arrivals[i].frames)
  }

  const DEFAULT_TIMEOUT: nat := 60000

  /** Every wait begins after the receive did and is cut so that it ends at the deadline. */
  ghost predicate WithinBudget(start: nat, budget: nat, earlier: seq<Wait>, waits: seq<Wait>) {
    && earlier <= waits
    && forall i | |earlier| <= i < |waits| ::
         waits[i].start >= start && waits[i].start + waits[i].length == start + budget
  }

  /** Every wait since then begins before this time and ends at it, unless a message comes. */
  ghost predicate EndsBy(deadline: nat, earlier: seq<Wait>, waits: seq<Wait>) {
    && earlier <= waits
    && forall i | |earlier| <= i < |waits| ::
         waits[i].start <= deadline && waits[i].start + waits[i].length == deadline
  }

  /** No message has arrived that was not read. */
  predicate NothingWaits(arrivals: seq<Arrival>, now: nat) {
    arrivals == [] || arrivals[0].time > now
  }

  /** The waiting budget of a receive: a timeout that is not positive means a minute. */
  function Budget(timeout: int): nat {
    if timeout <= 0 then DEFAULT_TIMEOUT else timeout
  }

  class RpcChannel {
    const socket: DealerSocket
    const textIndex: nat
    var nextreply_: SizeT
    var replylist_: map<nat, ZController>
    /** Every controller that was ever sent on this channel. */
    ghost var known: set<ZController>

    constructor (socket: DealerSocket, textIndex: nat)
      ensures this.socket == socket && this.textIndex == textIndex
      ensures Valid() && known == {} && State() == Channel(0, map[], map[])
      ensures Bijection(State())
    {
      this.socket, this.textIndex := socket, textIndex;
      nextreply_, replylist_, known := 0, map[], {};
    }

    ghost predicate Valid()
      reads this
    {
      replylist_.Values <= known
    }

    ghost function StateOver(cs: set<ZController>): Channel<ZController>
      reads this, cs
    {
      Channel(nextreply_, replylist_, map c | c in cs :: c.Value())
    }

    ghost function State(): Channel<ZController>
      reads this, known
    {
      StateOver(known)
    }

    /** The catch blocks of ZSendMethod. */
    method Fail(controller: ZController, code: int)
      modifies controller
      ensures controller.Value() == old(controller.Value()).(rcode := Error, zerror := ZError(code, ""))
    {
      controller.zerror_ := ZError(code, "");
      controller.rcode_ := Error;
    }

    /** The controller has been given this error code, and is otherwise as before. */
    ghost predicate Failed(controller: ZController, code: int, was: Controller)
      reads controller
    {
      controller.Value() == was.(rcode := Error, zerror := ZError(code, ""))
    }

    /** The end of the try block of ZSendMethod: the controller waits under the id just used. */
    method Enlist(controller: ZController)
      modifies this`replylist_, controller
      ensures controller.Value() == old(controller.Value()).(rcode := Working, reqno := |old(replylist_)|)
      ensures replylist_ == old(replylist_)[nextreply_ := controller]
    {
      controller.rcode_ := Working;
      controller.reqno_ := |replylist_|;
      replylist_ := replylist_[nextreply_ := controller];
    }

    /** Take an id and send the request under it. */
    method SendRequest(opcode: string, data: string) returns (fault: Fault)
      modifies this`nextreply_, socket`sent, socket`fault
      ensures nextreply_ == Increment(old(nextreply_)) && socket.fault == fault
      ensures socket.sent == if fault.NoFault?
                             then old(socket.sent) + [RequestFrames(nextreply_, opcode, data)]
                             else old(socket.sent)
    {
      nextreply_ := Increment(nextreply_);
      var nextid := ToDecimal(nextreply_);
      var frames := [""];
      frames := frames + [nextid];
      frames := frames + [opcode];
      frames := frames + [data];
      assert frames == RequestFrames(nextreply_, opcode, data);
      fault := socket.Send(frames);
    }

    /** The end of the try block and the catch blocks. */
    method Conclude(fault: Fault, controller: ZController) returns (ghost outcome: SendOutcome)
      modifies this`replylist_, controller
      ensures !outcome.NotSerialized? && outcome.TakesId()
      ensures outcome.Sent? <==> fault.NoFault?
      ensures Concluded(fault, controller, old(controller.Value()), old(replylist_), outcome)
    {
      match fault {
        case NoFault =>
          Enlist(controller);
          outcome := Sent;
        case ZErrorFault =>
          Fail(controller, ZEC_INVALIDHEADER);
          outcome := Refused;
        case ZmqFault =>
          Fail(controller, ZEC_CONNECTIONERROR);
          outcome := ConnectionFailed;
        case OtherFault =>
          Fail(controller, ZEC_CLIENTERROR);
          outcome := ClientFailed(true);
      }
    }

    /** How a send that got as far as the socket leaves controller and table. */
    ghost predicate Concluded(fault: Fault, controller: ZController, was: Controller, pending: map<nat, ZController>,
                              outcome: SendOutcome)
      reads this, controller
    {
      if fault.NoFault? then
        && replylist_ == pending[nextreply_ := controller]
        && controller.Value() == was.(rcode := Working, reqno := |pending|)
      else
        && replylist_ == pending
        && Failed(controller, if fault.ZErrorFault? then 1 else if fault.ZmqFault? then 5 else 7, was)
        && Failed(controller, outcome.Code(), was)
    }

    /** `data` is the serialised request, None when it cannot be serialised. */
    method ZSendMethod(opcode: string, data: Option<string>, controller: ZController)
      returns (ghost outcome: SendOutcome)
      requires Valid()
      modifies this`nextreply_, this`replylist_, this`known, socket`sent, socket`fault, controller
      ensures Valid() && known == old(known) + {controller}
      ensures outcome.NotSerialized? <==> data.None?
      ensures State() == SendStep(old(StateOver(known + {controller})), controller, outcome)
      ensures socket.sent == if outcome.Sent?
                             then old(socket.sent) + [RequestFrames(nextreply_, opcode, data.value)]
                             else old(socket.sent)
      ensures data.None? ==> Failed(controller, 1, old(controller.Value()))
      ensures data.None? ==> nextreply_ == old(nextreply_) && replylist_ == old(replylist_)
      ensures data.Some? ==> nextreply_ == (old(nextreply_) + 1) % 0x1_0000_0000_0000_0000
      ensures data.Some? ==>
                Concluded(socket.fault, controller, old(controller.Value()), old(replylist_), outcome)
    {
      known := known + {controller};
      if data.None? {
        Fail(controller, ZEC_INVALIDHEADER);
        outcome := NotSerialized;
      } else {
        var fault := SendRequest(opcode, data.value);
        outcome := Conclude(fault, controller);
      }
      OneController(controller);
      IsSendStep(old(StateOver(known + {controller})), controller, outcome, State());
    }

    lemma IsSendStep(s: Channel<ZController>, c: ZController, outcome: SendOutcome, t: Channel<ZController>)
      requires c in s.controllers
      requires t.next == if outcome.TakesId() then Increment(s.next) else s.next
      requires t.pending == if outcome.Sent? then s.pending[t.next := c] else s.pending
      requires t.controllers == s.controllers[c :=
                 if outcome.Sent? then s.controllers[c].(rcode := Working, reqno := |s.pending|)
                 else s.controllers[c].(rcode := Error, zerror := ZError(outcome.Code(), ""))]
      ensures t == SendStep(s, c, outcome)
    {
    }

    /** Only one controller changed, so the controllers are the old ones with that one replaced. */
    twostate lemma OneController(c: ZController)
      requires forall x: ZController | x in old(known) && x != c :: x.Value() == old(x.Value())
      requires known == old(known) + {c}
      ensures StateOver(known).controllers == old(StateOver(known + {c})).controllers[c := c.Value()]
    {
    }

    /** File one received message: the part of the receive loop behind NonBlockingRecv. */
    method FileReply(frames: Msg) returns (thrown: bool)
      requires Valid()
      modifies this`replylist_, known
      ensures Valid() && State().Closed() && old(State()).Closed()
      ensures State() == Deliver(textIndex, old(State()), frames)
      ensures thrown <==> Classify(textIndex, old(State()), frames).Throw?
    {
      if |frames| != 4 {
        return false;
      }
      var parsed := ParseSizeT(frames[1]);
      if parsed.None? {
        return true;
      }
      var nextid := parsed.value;
      if nextid > nextreply_ || nextid !in replylist_ {
        return false;
      }
      var othercon := replylist_[nextid];
      thrown := Settle(othercon, frames);
      if thrown {
        SameControllers();
        return;
      }
      replylist_ := replylist_ - {nextid};
      assert known == known + {othercon};
      OneController(othercon);
    }

    /** Give a controller its reply.  Looking for the error text behind the last frame throws. */
    method Settle(othercon: ZController, frames: Msg) returns (thrown: bool)
      requires |frames| == 4
      modifies othercon
      ensures thrown <==> Atoi(frames[2]) != 0 && textIndex >= |frames|
      ensures thrown ==> othercon.Value() == old(othercon.Value())
      ensures !thrown ==> othercon.Value() == Store(old(othercon.Value()),
                if Atoi(frames[2]) == 0 then Value(frames[3]) else Failure(ZError(Atoi(frames[2]), frames[textIndex])))
    {
      var error := Atoi(frames[2]);
      if error != 0 {
        if textIndex >= |frames| {
          return true;
        }
        othercon.zerror_ := ZError(error, frames[textIndex]);
        othercon.rcode_ := Error;
      } else {
        othercon.payload_ := frames[3];
        othercon.rcode_ := Ready;
      }
      return false;
    }

    /** Receive without blocking and file what came; without a message nothing changes. */
    method ReceiveOne() returns (got: bool, thrown: bool)
      requires Valid()
      modifies this`replylist_, known, socket`arrivals
      ensures Valid() && old(State()).Closed()
      ensures got <==> old(socket.arrivals) != [] && old(socket.arrivals)[0].time <= socket.now
      ensures got ==> socket.arrivals == old(socket.arrivals)[1..]
      ensures got ==> State() == Deliver(textIndex, old(State()), old(socket.arrivals)[0].frames)
      ensures got ==> (thrown <==> Classify(textIndex, old(State()), old(socket.arrivals)[0].frames).Throw?)
      ensures !got ==> !thrown && State() == old(State()) && socket.arrivals == old(socket.arrivals)
    {
      var r := socket.NonBlockingRecv();
      if r.Retry? {
        return false, false;
      }
      thrown := FileReply(r.frames);
      got := true;
    }

    /** The top of the receive loop: stop, or go on to receive with `toget` set. */
    method Await(controller: ZController, start: nat, budget: nat, toget: bool) returns (go: bool, ready: bool)
      requires start <= socket.now
      requires Valid()
      modifies socket`now, socket`waits
      ensures State() == old(State())
      ensures old(socket.now) <= socket.now
      ensures go ==> ready
      ensures go && !toget ==> socket.arrivals != [] && socket.arrivals[0].time <= socket.now
      ensures go ==> toget || controller.rcode_ == Working
      ensures !go ==> (!toget && controller.rcode_ != Working && socket.now == old(socket.now))
                      || socket.now >= start + budget
      ensures WithinBudget(start, budget, old(socket.waits), socket.waits)
    {
      if !toget && controller.rcode_ != Working {
        return false, false;
      }
      var t := socket.MsTime();
      var elapsed := t - start;
      if elapsed > budget {
        return false, toget;
      }
      ready := toget;
      if !ready {
        ready := socket.Poll(budget - elapsed);
      }
      return ready, ready;
    }

    /** The receive loop: file replies, whoever they are for, until this controller has its own and
        nothing more is waiting, or the time is spent, or a message makes the call throw. */
    method Drain(controller: ZController, start: nat, budget: nat) returns (thrown: bool, ghost taken: nat)
      requires Valid() && start <= socket.now
      modifies this`replylist_, known, socket`now, socket`arrivals, socket`waits
      ensures Valid()
      ensures Folded(textIndex, old(State()), old(socket.arrivals), taken, thrown, socket.arrivals, State())
      ensures !thrown ==> controller.rcode_ != Working || socket.now >= start + budget
      ensures old(controller.rcode_) != Working ==> taken == 0 && !thrown
      ensures old(controller.rcode_) == Working && !thrown && socket.now < start + budget ==>
                NothingWaits(socket.arrivals, socket.now)
      ensures WithinBudget(start, budget, old(socket.waits), socket.waits)
    {
      ghost var s0, a0 := State(), socket.arrivals;
      thrown, taken := false, 0;
      var toget := false;
      while true
        invariant Valid() && !thrown && start <= socket.now
        invariant Folded(textIndex, s0, a0, taken, false, socket.arrivals, State())
        invariant WithinBudget(start, budget, old(socket.waits), socket.waits)
        invariant old(controller.rcode_) != Working ==> taken == 0 && !toget && controller.rcode_ != Working
        invariant toget || NothingWaits(socket.arrivals, socket.now)
                  || (taken == 0 && controller.rcode_ == old(controller.rcode_))
        decreases |socket.arrivals|, toget
      {
        var waiting;
        waiting, toget := Await(controller, start, budget, toget);
        if !waiting {
          break;
        }
        toget, thrown := ReceiveOne();
        if !toget {
          continue;
        }
        FoldedOneMore(textIndex, s0, a0, taken);
        taken := taken + 1;
        if thrown {
          break;
        }
      }
    }

    /** `taken` messages are read in all; `parsed` is the payload handed to the response message. */
    method ZRecvMethod(controller: ZController, timeout: int)
      returns (thrown: bool, parsed: Option<string>, ghost taken: nat, ghost start: nat)
      requires Valid()
      modifies this`replylist_, known, socket`now, socket`arrivals, socket`waits
      ensures Valid()
      ensures Folded(textIndex, old(State()), old(socket.arrivals), taken, thrown, socket.arrivals, State())
      ensures !thrown ==> controller.rcode_ != Working || socket.now >= start + Budget(timeout)
      ensures old(controller.rcode_) != Working ==> taken == 0 && !thrown
      ensures old(controller.rcode_) == Working && !thrown && socket.now < start + Budget(timeout) ==>
                NothingWaits(socket.arrivals, socket.now)
      ensures parsed == if !thrown && controller.Ok() then Some(controller.payload_) else None
      ensures old(socket.now) <= start
      ensures WithinBudget(start, Budget(timeout), old(socket.waits), socket.waits)
      ensures EndsBy(start + if timeout > 0 then timeout else 60000, old(socket.waits), socket.waits)
      ensures !thrown && controller.rcode_ == Working ==> socket.now >= start + if timeout > 0 then timeout else 60000
    {
      var budget := if timeout <= 0 then DEFAULT_TIMEOUT else timeout;
      var begin := socket.MsTime();
      start := begin;
      SameControllers();
      thrown, taken := Drain(controller, begin, budget);
      parsed := if !thrown && controller.Ok() then Some(controller.payload_) else None;
    }

    twostate lemma SameControllers()
      requires unchanged(this) && known == old(known)
      requires forall x: ZController | x in known :: x.Value() == old(x.Value())
      ensures State() == old(State())
    {
    }
  }

  /** The state of the channel after the first n arrivals. */
  ghost function After(textIndex: nat, s: Channel<ZController>, arrivals: seq<Arrival>,
                       n: nat): (t: Channel<ZController>)
    requires s.Closed() && n <= |arrivals|
    ensures t.Closed()
  {
    DeliverAll(textIndex, s, Messages(arrivals[..n]))
  }

  /** Does the n-th arrival, when its turn comes, make the receive throw? */
  ghost predicate ThrowsAt(textIndex: nat, s: Channel<ZController>, arrivals: seq<Arrival>, n: nat)
    requires s.Closed() && n < |arrivals|
  {
    Classify(textIndex, After(textIndex, s, arrivals, n), arrivals[n].frames).Throw?
  }

  /** Of the arrivals the first `taken` were read and folded into the channel one at a time, the rest
      is still there, and no message made the receive throw, except the last one if it was `thrown`. */
  ghost predicate Folded(textIndex: nat, s: Channel<ZController>, arrivals: seq<Arrival>, taken: nat, thrown: bool,
                         rest: seq<Arrival>, t: Channel<ZController>)
  {
    && s.Closed()
    && taken <= |arrivals| && rest == arrivals[taken..]
    && t == After(textIndex, s, arrivals, taken)
    && (thrown ==> taken > 0)
    && forall j | 0 <= j < taken :: ThrowsAt(textIndex, s, arrivals, j) <==> thrown && j == taken - 1
  }

  lemma {:induction false} FoldedOneMore(textIndex: nat, s: Channel<ZController>, arrivals: seq<Arrival>, n: nat)
    requires n < |arrivals| && s.Closed()
    requires Folded(textIndex, s, arrivals, n, false, arrivals[n..], After(textIndex, s, arrivals, n))
    ensures var before := After(textIndex, s, arrivals, n);
            Folded(textIndex, s, arrivals, n + 1, Classify(textIndex, before, arrivals[n].frames).Throw?,
                   arrivals[n..][1..], Deliver(textIndex, before, arrivals[n].frames))
  {
    var msgs := Messages(arrivals[..n + 1]);
    assert msgs[..|msgs| - 1] == Messages(arrivals[..n]);
  }
}
