/** The worker: receive a request, run the method it names, send the answer back along the same
envelope, until told to terminate. */
module RpcWorkerClass {
  import opened Basics
  import opened LexicalCast
  import opened Framing
  import opened ChannelState

  datatype Message = Message(content: string)

  /** What a service method does with a parsed request: answer, or throw a ZError. */
  datatype CallResult = Returns(response: Message) | Throws(zerror: ZError)

  /** A registered method.  Parsing, the call and serialising are the application's. */
  datatype RpcMethod = RpcMethod(
    parse: string -> Option<Message>,
    call: Message -> CallResult,
    serialize: Message -> Option<string>)

  type MethodMap = map<string, RpcMethod>

  datatype Answer = Success(data: string) | ErrorAnswer(zerror: ZError)

  /** The meaning of a request, whatever carries it. */
  function Execute(methods: MethodMap, opcode: string, data: string): Answer {
    if opcode !in methods then ErrorAnswer(ZError(ZEC_NOSUCHMETHOD, ""))
    else
      var m := methods[opcode];
      match m.parse(data)
      case None => ErrorAnswer(ZError(ZEC_DATACORRUPTED, ""))
      case Some(request) =>
        match m.call(request)
        case Throws(zerror) => ErrorAnswer(zerror)
        case Returns(response) =>
          match m.serialize(response)
          case None => ErrorAnswer(ZError(ZEC_DATACORRUPTED, ""))
          case Some(buffer) => Success(buffer)
  }

  /** The two frames of an answer: error code and data. */
  function Encode(a: Answer): Msg {
    match a
    case Success(data) => ["0", data]
    case ErrorAnswer(zerror) => [IntToDecimal(zerror.code), zerror.text]
  }

  /** The two frames behind the id, said by the method's own parts: the response its call returned, in the
      bytes its own serialiser made of it, or what went wrong. */
  predicate TailByParts(methods: MethodMap, opcode: string, data: string, tail: Msg) {
    if opcode !in methods then tail == ["3", ""]
    else
      var f := methods[opcode];
      match f.parse(data)
      case None => tail == ["6", ""]
      case Some(request) =>
        match f.call(request)
        case Throws(zerror) => tail == [IntToDecimal(zerror.code), zerror.text]
        case Returns(response) =>
          match f.serialize(response)
          case None => tail == ["6", ""]
          case Some(buffer) => tail == ["0", buffer]
  }

  predicate IsTerminate(m: Msg) {
    |m| == 2 && m[1] == "TERMINATE"
  }

  /** The reply to one received message: none unless it has the five frames of a request.  Identity,
      blank and id come back as they were. */
  function ReplyTo(methods: MethodMap, m: Msg): Option<Msg> {
    if |m| != 5 then None else Some(m[..3] + Encode(Execute(methods, m[3], m[4])))
  }

  /** One return of BlockingRecv: a message, or an exception the loop survives. */
  datatype Incoming = Got(frames: Msg) | Interrupted

  predicate Terminates(r: Incoming) {
    r.Got? && IsTerminate(r.frames)
  }

  function Replies(methods: MethodMap, input: seq<Incoming>): seq<Msg> {
    if input == [] then []
    else
      var n := |input| - 1;
      var earlier := Replies(methods, input[..n]);
      if input[n].Got? && ReplyTo(methods, input[n].frames).Some?
      then earlier + [ReplyTo(methods, input[n].frames).value]
      else earlier
  }

  /** These are the requests among the messages received, by their places in the input. */
  ghost predicate RequestsAt(input: seq<Incoming>, at: seq<nat>) {
    && (forall j | 0 <= j < |at| :: at[j] < |input| && input[at[j]].Got? && |input[at[j]].frames| == 5)
    && (forall i, j | 0 <= i < j < |at| :: at[i] < at[j])
    && (forall i | 0 <= i < |input| && input[i].Got? && |input[i].frames| == 5 :: i in at)
  }

  /** This is the reply to that request: the same identity, blank and id, and the right answer. */
  predicate RightReply(methods: MethodMap, m: Msg, r: Msg) {
    |m| == 5 && |r| == 5 && r[..3] == m[..3] && TailByParts(methods, m[3], m[4], r[3..])
  }

  /** The output has one reply for each request of the input, in order, and nothing else. */
  ghost predicate RepliesAt(methods: MethodMap, input: seq<Incoming>, at: seq<nat>, output: seq<Msg>) {
    && RequestsAt(input, at) && |output| == |at|
    && forall j | 0 <= j < |at| :: RightReply(methods, input[at[j]].frames, output[j])
  }

  class RpcWorker {
    const methods: MethodMap
    const noreply: bool

    constructor (methods: MethodMap, noreply: bool)
      ensures this.methods == methods && this.noreply == noreply
    {
      this.methods, this.noreply := methods, noreply;
    }

    /** The worker loop over whatever the socket delivers.  `used` receives happen; without a
        TERMINATE the worker is left waiting for the next. */
    method Run(input: seq<Incoming>) returns (output: seq<Msg>, used: nat, isrunning: bool, ghost at: seq<nat>)
      ensures used <= |input|
      ensures isrunning <==> forall i | 0 <= i < |input| :: !Terminates(input[i])
      ensures isrunning ==> used == |input|
      ensures !isrunning ==> used > 0 && Terminates(input[used - 1])
      ensures forall i | 0 <= i < used - 1 :: !Terminates(input[i])
      ensures output == if noreply then [] else Replies(methods, input[..used])
      ensures RequestsAt(input[..used], at) && (!noreply ==> RepliesAt(methods, input[..used], at, output))
    {
      output, used, isrunning, at := [], 0, true, [];
      while isrunning && used < |input|
        invariant used <= |input|
        invariant !isrunning ==> used > 0 && Terminates(input[used - 1])
        invariant forall i | 0 <= i < used :: Terminates(input[i]) ==> !isrunning && i == used - 1
        invariant output == if noreply then [] else Replies(methods, input[..used])
        decreases |input| - used
      {
        var received := input[used];
        assert input[..used + 1][..used] == input[..used];
        used := used + 1;
        if received.Interrupted? {
          continue;
        }
        var frames := received.frames;
        if |frames| == 2 && frames[1] == "TERMINATE" {
          isrunning := false;
        } else if |frames| == 5 {
          frames := Answer(frames);
          if !noreply {
            output := output + [frames];
          }
        }
      }
      at := WhereRequests(methods, input[..used]);
    }

    /** The frames of a request with opcode and data popped and the answer pushed. */
    method Answer(request: Msg) returns (frames: Msg)
      requires |request| == 5
      ensures ReplyTo(methods, request) == Some(frames)
    {
      frames := request;
      var opcode, buffer := frames[3], frames[4];
      frames := frames[..|frames| - 1];
      frames := frames[..|frames| - 1];
      var tail := Handle(opcode, buffer);
      frames := frames + [tail[0]];
      frames := frames + [tail[1]];
      assert frames == request[..3] + tail;
    }

    /** The body of the try block and its ZError handler: what is pushed behind the id. */
    method Handle(opcode: string, buffer: string) returns (tail: Msg)
      ensures |tail| == 2 && tail == Encode(Execute(methods, opcode, buffer))
      ensures TailByParts(methods, opcode, buffer, tail)
    {
      if opcode !in methods {
        return [IntToDecimal(ZEC_NOSUCHMETHOD), ""];
      }
      var method_ := methods[opcode];
      var request := method_.parse(buffer);
      if request.None? {
        return [IntToDecimal(ZEC_DATACORRUPTED), ""];
      }
      var result := method_.call(request.value);
      if result.Throws? {
        return [IntToDecimal(result.zerror.code), result.zerror.text];
      }
      var response := method_.serialize(result.response);
      if response.None? {
        return [IntToDecimal(ZEC_DATACORRUPTED), ""];
      }
      return ["0", response.value];
    }
  }

  /** The worker's reply is the right one, and only requests have one. */
  lemma {:induction false} ReplyByParts(methods: MethodMap, m: Msg)
    ensures ReplyTo(methods, m).Some? <==> |m| == 5
    ensures |m| == 5 ==> RightReply(methods, m, ReplyTo(methods, m).value)
  {
    CodeText();
    if |m| == 5 {
      var tail := Encode(Execute(methods, m[3], m[4]));
      assert (m[..3] + tail)[..3] == m[..3] && (m[..3] + tail)[3..] == tail;
    }
  }

  lemma CodeText()
    ensures IntToDecimal(3) == "3" && IntToDecimal(6) == "6"
  {
  }

  /** A request whose method parses it, returns and can be serialised is answered with code 0 and the bytes
      of that response. */
  lemma {:induction false} OwnResponse(methods: MethodMap, m: Msg, request: Message, response: Message, buffer: string)
    requires |m| == 5 && m[3] in methods
    requires methods[m[3]].parse(m[4]) == Some(request) && methods[m[3]].call(request) == Returns(response)
    requires methods[m[3]].serialize(response) == Some(buffer)
    ensures ReplyTo(methods, m) == Some(m[..3] + ["0", buffer])
  {
  }

  /** The other four ends: no such method, unparsable, thrown, not serialisable. */
  lemma {:induction false} OtherEnds(methods: MethodMap, m: Msg)
    requires |m| == 5
    ensures m[3] !in methods ==> ReplyTo(methods, m) == Some(m[..3] + ["3", ""])
    ensures m[3] in methods && methods[m[3]].parse(m[4]) == None ==> ReplyTo(methods, m) == Some(m[..3] + ["6", ""])
    ensures m[3] in methods ==> forall q, z |
              methods[m[3]].parse(m[4]) == Some(q) && methods[m[3]].call(q) == Throws(z) ::
              ReplyTo(methods, m) == Some(m[..3] + [IntToDecimal(z.code), z.text])
    ensures m[3] in methods ==> forall q, r |
              methods[m[3]].parse(m[4]) == Some(q) && methods[m[3]].call(q) == Returns(r)
              && methods[m[3]].serialize(r) == None ::
              ReplyTo(methods, m) == Some(m[..3] + ["6", ""])
  {
    CodeText();
  }

  /** What the loop sends: one right reply for each request received, in order. */
  lemma {:induction false} WhereRequests(methods: MethodMap, input: seq<Incoming>) returns (at: seq<nat>)
    ensures RepliesAt(methods, input, at, Replies(methods, input))
  {
    if input == [] {
      at := [];
    } else {
      var n := |input| - 1;
      at := WhereRequests(methods, input[..n]);
      if input[n].Got? && |input[n].frames| == 5 {
        ReplyByParts(methods, input[n].frames);
        OneMoreRequest(methods, input, at, Replies(methods, input[..n]), ReplyTo(methods, input[n].frames).value);
        at := at + [n];
      } else {
        NoMoreRequest(methods, input, at, Replies(methods, input[..n]));
      }
    }
  }

  lemma {:induction false} OneMoreRequest(methods: MethodMap, input: seq<Incoming>, at: seq<nat>, output: seq<Msg>,
                                          reply: Msg)
    requires input != [] && RepliesAt(methods, input[..|input| - 1], at, output)
    requires input[|input| - 1].Got? && RightReply(methods, input[|input| - 1].frames, reply)
    ensures RepliesAt(methods, input, at + [|input| - 1], output + [reply])
  {
    var n := |input| - 1;
    forall i | 0 <= i < |input| && input[i].Got? && |input[i].frames| == 5 ensures i in at + [n] {
      assert i < n ==> input[..n][i] == input[i];
    }
    assert forall j | 0 <= j < |at| :: input[..n][at[j]] == input[at[j]];
  }

  lemma {:induction false} NoMoreRequest(methods: MethodMap, input: seq<Incoming>, at: seq<nat>, output: seq<Msg>)
    requires input != [] && RepliesAt(methods, input[..|input| - 1], at, output)
    requires input[|input| - 1].Got? ==> |input[|input| - 1].frames| != 5
    ensures RepliesAt(methods, input, at, output)
  {
    var n := |input| - 1;
    forall i | 0 <= i < |input| && input[i].Got? && |input[i].frames| == 5 ensures i in at {
      assert input[..n][i] == input[i];
    }
    assert forall j | 0 <= j < |at| :: input[..n][at[j]] == input[at[j]];
  }

  /** What WorkerStop sends is what a worker stops at: the frame "TERMINATE" behind whatever identity the
      ROUTER puts in front, and nothing else. */
  lemma {:induction false} StopMessage(m: Msg)
    ensures Terminates(Got(m)) <==> exists identity :: m == [identity] + ["TERMINATE"]
    ensures !Terminates(Interrupted)
  {
    if Terminates(Got(m)) {
      assert m == [m[0]] + ["TERMINATE"];
    }
  }

  /** How the client understands an answer: an error thrown with code 0 looks like a success whose
      payload is the error text. */
  function Perceived(a: Answer): Result {
    match a
    case Success(data) => Value(data)
    case ErrorAnswer(zerror) => if zerror.code == 0 then Value(zerror.text) else Failure(zerror)
  }

  /** What the client makes of an answer to a pending request.  Reading the error text where the worker
      puts it, the client always gets the result the method had; reading it one further, an error makes
      the receive throw. */
  function Outcome(textIndex: nat, id: nat, a: Answer): Effect {
    if Perceived(a).Failure? && textIndex == TEXT_INDEX_READ then Throw else Complete(id, Perceived(a))
  }

  /** The round trip of one request: identity prefixed by the ROUTER, answered by a worker, identity
      stripped, classified by the channel that sent it. */
  lemma {:induction false} ReplyIsUnderstood<C>(k: nat, s: Channel<C>, methods: MethodMap,
                                                identity: string, id: nat, opcode: string, data: string)
    requires k == TEXT_INDEX_SENT || k == TEXT_INDEX_READ
    requires id < TWO_TO_THE_64 && id <= s.next && id in s.pending
    ensures var reply := ReplyTo(methods, [identity] + RequestFrames(id, opcode, data));
            && reply.Some? && |reply.value| == 5 && reply.value[0] == identity
            && Classify(k, s, reply.value[1..]) == Outcome(k, id, Execute(methods, opcode, data))
  {
    var a := Execute(methods, opcode, data);
    var m := [identity] + RequestFrames(id, opcode, data);
    assert m == [identity, "", ToDecimal(id), opcode, data];
    assert m[..3] == [identity] + ["", ToDecimal(id)];
    WithoutFirst(identity, ["", ToDecimal(id)], Encode(a));
    AnswerClassified(k, s, id, a);
  }

  lemma WithoutFirst(first: string, envelope: Msg, answer: Msg)
    ensures ([first] + envelope + answer)[1..] == envelope + answer
  {
  }

  lemma {:induction false} AnswerClassified<C>(k: nat, s: Channel<C>, id: nat, a: Answer)
    requires k == TEXT_INDEX_SENT || k == TEXT_INDEX_READ
    requires id < TWO_TO_THE_64 && id <= s.next && id in s.pending
    ensures Classify(k, s, ["", ToDecimal(id)] + Encode(a)) == Outcome(k, id, a)
  {
    IdRoundTrip(id);
    AnswerCode(a);
  }

  /** The code frame of an answer reads as 0 exactly when the client is to see a value. */
  lemma {:induction false} AnswerCode(a: Answer)
    ensures Atoi(Encode(a)[0]) == if a.Success? then 0 else a.zerror.code
  {
    CodeRoundTrip(0);
    assert IntToDecimal(0) == "0";
    if a.ErrorAnswer? {
      CodeRoundTrip(a.zerror.code);
    }
  }

  /** A reply carries its request's identity, blank and id frames, and the code "0" exactly when the
      method succeeded or threw an error whose code means success. */
  lemma {:induction false} ReplyShape(methods: MethodMap, m: Msg)
    requires |m| == 5
    ensures var r := ReplyTo(methods, m).value;
            var a := Execute(methods, m[3], m[4]);
            && |r| == 5 && r[..3] == m[..3]
            && (r[3] == "0" <==> a.Success? || a.zerror.code == 0)
            && (a.Success? ==> r[4] == a.data)
  {
    var a := Execute(methods, m[3], m[4]);
    assert IntToDecimal(0) == "0";
    CodeRoundTrip(0);
    if a.ErrorAnswer? {
      CodeRoundTrip(a.zerror.code);
    }
  }

  /** A worker answers each request for itself: what it sends over two stretches of input is what it
      sends over the one followed by what it sends over the other. */
  lemma {:induction false} RepliesOfBoth(methods: MethodMap, a: seq<Incoming>, b: seq<Incoming>)
    ensures Replies(methods, a + b) == Replies(methods, a) + Replies(methods, b)
  {
    if b == [] {
      assert a + b == a;
    } else {
      var n := |b| - 1;
      RepliesOfBoth(methods, a, b[..n]);
      assert (a + b)[..|a + b| - 1] == a + b[..n];
    }
  }
}
