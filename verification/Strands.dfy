/** One direction of a connection: the sender's queue, the byte stream, the receiver's queue, and the strands' steps. */
module Strands {

  type Byte = b: nat | b < 256

  type Message = seq<Byte>

  /** A 32-bit length as it goes over the wire, low byte first. */
  function Header(n: nat): (h: seq<Byte>)
    ensures |h| == 4
  {
    [n % 256, n / 0x100 % 256, n / 0x1_0000 % 256, n / 0x100_0000 % 256]
  }

  function HeaderValue(h: seq<Byte>): nat
    requires |h| == 4
  {
    var b0: int, b1: int, b2: int, b3: int := h[0], h[1], h[2], h[3];
    b0 + 0x100 * b1 + 0x1_0000 * b2 + 0x100_0000 * b3
  }

  lemma HeaderReadsBack(n: nat)
    requires n < 0x1_0000_0000
    ensures HeaderValue(Header(n)) == n
  {
    var a := n / 0x100;
    var b := a / 0x100;
    var c := b / 0x100;
    assert n / 0x1_0000 == b && n / 0x100_0000 == c && c < 0x100;
  }

  /** The first byte counts ones, the second 256s, and so on. */
  lemma LowByteFirst(n: nat, i: nat)
    requires n < 0x1_0000_0000 && i < 4
    ensures HeaderValue(Header(n)) == n
    ensures Header(n)[i] == n / (if i == 0 then 1 else if i == 1 then 0x100 else if i == 2 then 0x1_0000 else 0x100_0000) % 0x100
  {
    HeaderReadsBack(n);
  }

  /** Length-prefixed framing. */
  function Frame(m: Message): (f: seq<Byte>)
    ensures |f| == 4 + |m|
  {
    Header(|m|) + m
  }

  function Frames(ms: seq<Message>): seq<Byte> {
    if ms == [] then [] else Frame(ms[0]) + Frames(ms[1..])
  }

  /** A queued operation of the sending side. */
  datatype SendOp = SendData(body: Message) | CloseSend

  /** A queued operation of the receiving side: into a buffer of a given size, or into one that is resized to fit. */
  datatype RecvOp = RecvData(expected: Option) | CloseRecv

  datatype Option = None | Some(value: nat)

  /** Where the operation at the front of the send queue stands. */
  datatype SendFlight = Idle | Writing(rest: seq<Byte>) | Written

  /** Where the operation at the front of the receive queue stands. Failed is the wrong-size exception. */
  datatype RecvFlight = RIdle | Head(got: seq<Byte>) | Body(size: nat, got: seq<Byte>) | Read | Failed

  /** The send half of a socket: posted operations wait for the strand; the deque; what its front is doing. */
  datatype Sender = Sender(stopped: bool, posted: seq<SendOp>, queue: seq<SendOp>, flight: SendFlight, outstanding: int, closed: bool)

  datatype Receiver = Receiver(stopped: bool, posted: seq<RecvOp>, queue: seq<RecvOp>, flight: RecvFlight, closed: bool)

  /** Both ends and the byte stream between them; `calls` lists the bodies in asyncSend order, `asked` the expected sizes
      in asyncRecv order, `received` the bodies delivered. */
  datatype State = State(calls: seq<Message>, snd: Sender, wire: seq<Byte>, rcv: Receiver, asked: seq<Option>, received: seq<Message>)

  datatype Action =
    | Send(body: Message)     // asyncSend or send
    | StopSend                // the send half of close
    | RunSend                 // the send strand runs the next posted operation
    | Write(k: nat)           // k more bytes of the operation in flight go out
    | WriteDone               // the write's completion handler
    | PopSend                 // its continuation on the strand
    | Recv(expected: Option)  // asyncRecv or recv
    | StopRecv                // the receive half of close
    | RunRecv
    | ReadSome(k: nat)        // k more bytes of the current read arrive
    | HeadDone                // the header's completion handler
    | BodyDone                // the body's completion handler
    | PopRecv

  function SizeOf(op: SendOp): nat { if op.SendData? then |op.body| else 0 }

  function TotalSize(q: seq<SendOp>): nat { if q == [] then 0 else SizeOf(q[0]) + TotalSize(q[1..]) }

  /** sendOne on the front of the queue. */
  function SendOne(s: Sender): Sender
    requires s.queue != []
  {
    match s.queue[0]
    case SendData(body) => s.(flight := Writing(Frame(body)))
    case CloseSend => s.(queue := s.queue[1..], flight := Idle, closed := true)
  }

  /** receiveOne. */
  function ReceiveOne(r: Receiver): Receiver
    requires r.queue != []
  {
    match r.queue[0]
    case RecvData(expected) => r.(flight := Head([]))
    case CloseRecv => r.(queue := r.queue[1..], flight := RIdle, closed := true)
  }

  /** The strand runs the next posted operation: into the queue, and started when it is alone there. */
  function RunNext(s: Sender): Sender
    requires s.posted != []
  {
    var op := s.posted[0];
    var t := s.(posted := s.posted[1..], queue := s.queue + [op], outstanding := s.outstanding + SizeOf(op));
    if |t.queue| == 1 then SendOne(t) else t
  }

  /** The finished operation leaves the queue and the next one starts. */
  function PopFront(s: Sender): Sender
    requires s.queue != []
  {
    var t := s.(queue := s.queue[1..], flight := Idle);
    if t.queue != [] then SendOne(t) else t
  }

  function RunNextRecv(r: Receiver): Receiver
    requires r.posted != []
  {
    var t := r.(posted := r.posted[1..], queue := r.queue + [r.posted[0]]);
    if |t.queue| == 1 then ReceiveOne(t) else t
  }

  function PopFrontRecv(r: Receiver): Receiver
    requires r.queue != []
  {
    var t := r.(queue := r.queue[1..], flight := RIdle);
    if t.queue != [] then ReceiveOne(t) else t
  }

  ghost predicate Enabled(s: State, a: Action) {
    match a
    case Send(body) => !s.snd.stopped && 0 < |body| < 0x1_0000_0000
    case StopSend => !s.snd.stopped
    case RunSend => s.snd.posted != []
    case Write(k) => s.snd.flight.Writing? && 0 < k <= |s.snd.flight.rest|
    case WriteDone => s.snd.flight == Writing([])
    case PopSend => s.snd.flight == Written
    case Recv(expected) => !s.rcv.stopped && (expected.Some? ==> expected.value > 0)
    case StopRecv => !s.rcv.stopped
    case RunRecv => s.rcv.posted != []
    case ReadSome(k) =>
      && 0 < k <= |s.wire|
      && ((s.rcv.flight.Head? && |s.rcv.flight.got| + k <= 4) || (s.rcv.flight.Body? && |s.rcv.flight.got| + k <= s.rcv.flight.size))
    case HeadDone => s.rcv.flight.Head? && |s.rcv.flight.got| == 4
    case BodyDone => s.rcv.flight.Body? && |s.rcv.flight.got| == s.rcv.flight.size
    case PopRecv => s.rcv.flight == Read
  }

  /** Completion handlers and pops find their operation at the front of the queue. */
  ghost predicate FrontThere(s: State, a: Action) {
    (a.WriteDone? || a.PopSend? ==> s.snd.queue != []) && (a.HeadDone? || a.PopRecv? ==> s.rcv.queue != [])
  }

  ghost function ApplySend(s: Sender, a: Action): Sender
    requires a.RunSend? ==> s.posted != []
    requires a.Write? ==> s.flight.Writing? && a.k <= |s.flight.rest|
    requires a.WriteDone? || a.PopSend? ==> s.queue != []
  {
    match a
    case Send(body) => s.(posted := s.posted + [SendData(body)])
    case StopSend => s.(stopped := true, posted := s.posted + [CloseSend])
    case RunSend => RunNext(s)
    case Write(k) => s.(flight := Writing(s.flight.rest[k..]))
    case WriteDone => s.(outstanding := s.outstanding - SizeOf(s.queue[0]), flight := Written)
    case PopSend => PopFront(s)
    case _ => s
  }

  ghost function ApplyRecv(r: Receiver, wire: seq<Byte>, a: Action): Receiver
    requires a.RunRecv? ==> r.posted != []
    requires a.ReadSome? ==> (r.flight.Head? || r.flight.Body?) && a.k <= |wire|
    requires a.HeadDone? ==> r.flight.Head? && |r.flight.got| == 4
    requires a.HeadDone? || a.PopRecv? ==> r.queue != []
  {
    match a
    case Recv(expected) => r.(posted := r.posted + [RecvData(expected)])
    case StopRecv => r.(stopped := true, posted := r.posted + [CloseRecv])
    case RunRecv => RunNextRecv(r)
    case ReadSome(k) =>
      var got := r.flight.got + wire[..k];
      r.(flight := if r.flight.Head? then Head(got) else Body(r.flight.size, got))
    case HeadDone =>
      var size, op := HeaderValue(r.flight.got), r.queue[0];
      r.(flight := if op.RecvData? && op.expected.Some? && op.expected.value != size then Failed else Body(size, []))
    case BodyDone => r.(flight := Read)
    case PopRecv => PopFrontRecv(r)
    case _ => r
  }

  ghost function Apply(s: State, a: Action): State
    requires Enabled(s, a) && FrontThere(s, a)
  {
    State(if a.Send? then s.calls + [a.body] else s.calls,
          ApplySend(s.snd, a),
          if a.Write? then s.wire + s.snd.flight.rest[..a.k] else if a.ReadSome? then s.wire[a.k..] else s.wire,
          ApplyRecv(s.rcv, s.wire, a),
          if a.Recv? then s.asked + [a.expected] else s.asked,
          if a.BodyDone? then s.received + [s.rcv.flight.got] else s.received)
  }

  ghost predicate Init(s: State) {
    s == State([], Sender(false, [], [], Idle, 0, false), [], Receiver(false, [], [], RIdle, false), [], [])
  }

  /** Operations in call order: a close comes last, is there once the channel is stopped, and is gone when it is done. */
  ghost predicate Ordered(q: seq<SendOp>, stopped: bool, closed: bool) {
    && (closed ==> stopped && q == [])
    && (stopped && !closed ==> q != [] && q[|q| - 1] == CloseSend)
    && (forall i | 0 <= i < |q| && (i < |q| - 1 || !stopped) :: q[i].SendData?)
  }

  ghost predicate OrderedRecv(q: seq<RecvOp>, stopped: bool, closed: bool) {
    && (closed ==> stopped && q == [])
    && (stopped && !closed ==> q != [] && q[|q| - 1] == CloseRecv)
    && (forall i | 0 <= i < |q| && (i < |q| - 1 || !stopped) :: q[i].RecvData?)
  }

  /** The operations whose bytes have not all gone out. */
  function Unwritten(s: Sender): seq<SendOp> {
    if s.flight == Written && s.queue != [] then s.queue[1..] else s.queue
  }

  /** The queue is busy exactly when it is not empty; the counter is the size of what is unwritten. */
  ghost predicate SendInv(s: Sender) {
    && Ordered(s.queue + s.posted, s.stopped, s.closed)
    && (s.queue != [] <==> s.flight != Idle) && (s.queue != [] ==> s.queue[0].SendData?)
    && s.outstanding == TotalSize(Unwritten(s))
  }

  ghost predicate RecvInv(r: Receiver) {
    && OrderedRecv(r.queue + r.posted, r.stopped, r.closed)
    && (r.queue != [] <==> r.flight != RIdle) && (r.queue != [] ==> r.queue[0].RecvData?)
  }

  /** The bodies among operations. */
  function Bodies(q: seq<SendOp>): seq<Message> {
    if q == [] then [] else (if q[0].SendData? then [q[0].body] else []) + Bodies(q[1..])
  }

  /** Bytes read of the frame being received. */
  function Got(f: RecvFlight): seq<Byte> {
    match f
    case Head(got) => got
    case Body(size, got) => Header(size) + got
    case _ => []
  }

  function Rest(f: SendFlight): seq<Byte> { if f.Writing? then f.rest else [] }

  /** The messages not started yet: all but the one in flight. */
  function Waiting(s: Sender): seq<Message> {
    Bodies((if s.queue == [] then [] else s.queue[1..]) + s.posted)
  }

  /** Bytes still to be written. */
  function Unsent(s: Sender): seq<Byte> { Rest(s.flight) + Frames(Waiting(s)) }

  /** What is received is a prefix of the calls; what was read, is on the wire, and remains to be written, is exactly the
      frames of the other calls, in order. */
  ghost predicate StreamInv(s: State) {
    && s.received <= s.calls
    && (forall i | 0 <= i < |s.calls| :: 0 < |s.calls[i]| < 0x1_0000_0000)
    && (s.rcv.flight.Head? ==> |s.rcv.flight.got| <= 4) && (s.rcv.flight.Body? ==> |s.rcv.flight.got| <= s.rcv.flight.size < 0x1_0000_0000)
    && (s.rcv.flight != Failed ==> Got(s.rcv.flight) + (s.wire + Unsent(s.snd)) == Frames(s.calls[|s.received|..]))
  }

  function ExpectedOf(op: RecvOp): seq<Option> { if op.RecvData? then [op.expected] else [] }

  /** The receives among operations, by the sizes they expect. */
  function Expected(q: seq<RecvOp>): seq<Option> {
    if q == [] then [] else ExpectedOf(q[0]) + Expected(q[1..])
  }

  /** A body of this size fits the buffer of a receive. */
  ghost predicate Suits(expected: Option, size: nat) { expected.Some? ==> expected.value == size }

  /** How many receives have left the queue: each has been served, and the front one may be served already, too. */
  function Popped(s: State): int { |s.received| - if s.rcv.flight == Read then 1 else 0 }

  /** The operations left are the receives asked for, but for those popped; each receive served got a body of its size; the
      one in flight is the next; and it fails only on the next message, when that has another size. */
  ghost predicate ServeInv(s: State) {
    && 0 <= Popped(s) <= |s.received| <= |s.asked| && |s.received| <= |s.calls|
    && Expected(s.rcv.queue + s.rcv.posted) == s.asked[Popped(s)..]
    && (forall k | 0 <= k < |s.received| :: Suits(s.asked[k], |s.received[k]|))
    && (s.rcv.flight.Body? ==> |s.received| < |s.asked| && Suits(s.asked[|s.received|], s.rcv.flight.size))
    && (s.rcv.flight == Failed ==> Mismatch(s))
  }

  /** The next message does not fit the next receive. */
  ghost predicate Mismatch(s: State) {
    |s.received| < |s.asked| && |s.received| < |s.calls| && !Suits(s.asked[|s.received|], |s.calls[|s.received|]|)
  }

  ghost predicate Inv(s: State) { SendInv(s.snd) && RecvInv(s.rcv) && StreamInv(s) && ServeInv(s) }

  lemma {:induction false} BodiesConcat(a: seq<SendOp>, b: seq<SendOp>)
    ensures Bodies(a + b) == Bodies(a) + Bodies(b)
  {
    if a == [] {
      assert a + b == b;
    } else {
      BodiesConcat(a[1..], b);
      assert (a + b)[1..] == a[1..] + b;
    }
  }

  lemma {:induction false} TotalConcat(a: seq<SendOp>, b: seq<SendOp>)
    ensures TotalSize(a + b) == TotalSize(a) + TotalSize(b)
  {
    if a == [] {
      assert a + b == b;
    } else {
      TotalConcat(a[1..], b);
      assert (a + b)[1..] == a[1..] + b;
    }
  }

  lemma {:induction false} FramesConcat(a: seq<Message>, b: seq<Message>)
    ensures Frames(a + b) == Frames(a) + Frames(b)
  {
    hide Frame;
    if a == [] {
      assert a + b == b;
    } else {
      FramesConcat(a[1..], b);
      assert (a + b)[1..] == a[1..] + b;
      assert Frame(a[0]) + (Frames(a[1..]) + Frames(b)) == (Frame(a[0]) + Frames(a[1..])) + Frames(b);
    }
  }

  lemma InitInv(s: State)
    requires Init(s)
    ensures Inv(s)
  {}

  lemma OrderedAppend(q: seq<SendOp>, op: SendOp)
    requires Ordered(q, false, false)
    ensures Ordered(q + [op], op == CloseSend, false)
  {}

  lemma OrderedPop(q: seq<SendOp>, stopped: bool)
    requires q != [] && Ordered(q, stopped, false)
    ensures q[0].SendData? ==> Ordered(q[1..], stopped, false)
    ensures q[0] == CloseSend ==> q == [CloseSend] && stopped
  {}

  lemma TotalOne(op: SendOp)
    ensures TotalSize([op]) == SizeOf(op)
  {
    assert TotalSize([op]) == SizeOf(op) + TotalSize([op][1..]);
  }

  lemma OpenWhileQueued(q: seq<SendOp>, stopped: bool, closed: bool)
    requires q != [] && Ordered(q, stopped, closed)
    ensures !closed
  {}

  lemma OrderedDone()
    ensures Ordered([], true, true) && TotalSize([]) == 0
  {}

  lemma FirstRunKeeps(s: Sender)
    requires SendInv(s) && s.posted != [] && s.queue == []
    ensures SendInv(RunNext(s))
  {
    hide Ordered, TotalSize;
    var op, t := s.posted[0], RunNext(s);
    assert s.queue + s.posted == s.posted && s.queue + [op] == [op];
    OpenWhileQueued(s.posted, s.stopped, s.closed);
    OrderedPop(s.posted, s.stopped);
    OrderedDone();
    TotalOne(op);
    if op == CloseSend {
      assert t.queue == [] && t.posted == [] && t.queue + t.posted == [];
    } else {
      assert t.queue == [op] && t.queue + t.posted == s.posted;
    }
  }

  lemma RunKeeps(s: Sender)
    requires SendInv(s) && s.posted != []
    ensures SendInv(RunNext(s))
  {
    hide Ordered, TotalSize;
    var op, all := s.posted[0], s.queue + s.posted;
    OpenWhileQueued(all, s.stopped, s.closed);
    if s.queue == [] {
      FirstRunKeeps(s);
    } else {
      TotalConcat(Unwritten(s), [op]);
      TotalOne(op);
      assert (s.queue + [op]) + s.posted[1..] == all;
      assert (s.queue + [op])[1..] == s.queue[1..] + [op];
    }
  }

  lemma PopKeeps(s: Sender)
    requires SendInv(s) && s.flight == Written
    ensures SendInv(PopFront(s))
  {
    hide Ordered, TotalSize;
    var all, rest := s.queue + s.posted, s.queue[1..] + s.posted;
    assert all[0] == s.queue[0] && all[1..] == rest;
    OpenWhileQueued(all, s.stopped, s.closed);
    OrderedPop(all, s.stopped);
    OrderedDone();
    TotalOne(CloseSend);
    if s.queue[1..] != [] {
      assert rest[0] == s.queue[1];
      OrderedPop(rest, s.stopped);
      if s.queue[1] == CloseSend {
        CloseIsLast(s);
        var t := PopFront(s);
        assert s.queue[1..] == [CloseSend] && t.queue == [] && t.queue + t.posted == [];
      }
    } else {
      assert TotalSize([]) == 0;
    }
  }

  lemma SendSideKeeps(s: State, a: Action)
    requires Inv(s) && Enabled(s, a) && FrontThere(s, a)
    ensures SendInv(ApplySend(s.snd, a))
  {
    hide RunNext, PopFront;
    var t := s.snd;
    match a
    case Send(body) =>
      OrderedOpen(t);
      OrderedAppend(t.queue + t.posted, SendData(body));
      assert t.queue + (t.posted + [SendData(body)]) == (t.queue + t.posted) + [SendData(body)];
    case StopSend =>
      OrderedOpen(t);
      OrderedAppend(t.queue + t.posted, CloseSend);
      assert t.queue + (t.posted + [CloseSend]) == (t.queue + t.posted) + [CloseSend];
    case RunSend => RunKeeps(t);
    case PopSend => PopKeeps(t);
    case WriteDone => assert TotalSize(t.queue) == SizeOf(t.queue[0]) + TotalSize(t.queue[1..]);
    case _ =>
  }

  lemma OrderedOpen(s: Sender)
    requires SendInv(s) && !s.stopped
    ensures Ordered(s.queue + s.posted, false, false) && !s.closed
  {}

  lemma OrderedRecvAppend(q: seq<RecvOp>, op: RecvOp)
    requires OrderedRecv(q, false, false)
    ensures OrderedRecv(q + [op], op == CloseRecv, false)
  {}

  lemma OrderedRecvPop(q: seq<RecvOp>, stopped: bool, closed: bool)
    requires q != [] && OrderedRecv(q, stopped, closed)
    ensures !closed
    ensures q[0].RecvData? ==> OrderedRecv(q[1..], stopped, false)
    ensures q[0] == CloseRecv ==> q == [CloseRecv] && stopped
  {}

  lemma OrderedRecvDone()
    ensures OrderedRecv([], true, true)
  {}

  lemma RunRecvKeeps(r: Receiver)
    requires RecvInv(r) && r.posted != []
    ensures RecvInv(RunNextRecv(r))
  {
    hide OrderedRecv;
    var op, all := r.posted[0], r.queue + r.posted;
    OrderedRecvPop(all, r.stopped, r.closed);
    OrderedRecvDone();
    if r.queue == [] {
      assert all == r.posted && all[0] == op;
      assert r.queue + [op] == [op] && [op] + r.posted[1..] == all && [op][1..] + r.posted[1..] == r.posted[1..];
      if op == CloseRecv { assert r.posted[1..] == []; }
    } else {
      assert (r.queue + [op]) + r.posted[1..] == all;
    }
  }

  lemma PopRecvKeeps(r: Receiver)
    requires RecvInv(r) && r.flight == Read
    ensures RecvInv(PopFrontRecv(r))
  {
    hide OrderedRecv;
    var all, rest := r.queue + r.posted, r.queue[1..] + r.posted;
    assert all[0] == r.queue[0] && all[1..] == rest;
    OrderedRecvPop(all, r.stopped, r.closed);
    OrderedRecvDone();
    if r.queue[1..] != [] {
      assert rest[0] == r.queue[1];
      OrderedRecvPop(rest, r.stopped, r.closed);
      if rest == [CloseRecv] { assert r.queue[1..][1..] == [] && r.posted == [] && r.queue[1..][1..] + r.posted == []; }
    }
  }

  lemma RecvSideKeeps(s: State, a: Action)
    requires Inv(s) && Enabled(s, a) && FrontThere(s, a)
    ensures RecvInv(ApplyRecv(s.rcv, s.wire, a))
  {
    hide RunNextRecv, PopFrontRecv;
    var t := s.rcv;
    match a
    case Recv(expected) =>
      OrderedRecvOpen(t);
      OrderedRecvAppend(t.queue + t.posted, RecvData(expected));
      assert t.queue + (t.posted + [RecvData(expected)]) == (t.queue + t.posted) + [RecvData(expected)];
    case StopRecv =>
      OrderedRecvOpen(t);
      OrderedRecvAppend(t.queue + t.posted, CloseRecv);
      assert t.queue + (t.posted + [CloseRecv]) == (t.queue + t.posted) + [CloseRecv];
    case RunRecv => RunRecvKeeps(t);
    case PopRecv => PopRecvKeeps(t);
    case _ =>
  }

  lemma OrderedRecvOpen(r: Receiver)
    requires RecvInv(r) && !r.stopped
    ensures OrderedRecv(r.queue + r.posted, false, false) && !r.closed
  {}

  lemma BodiesOne(op: SendOp)
    ensures Bodies([op]) == if op.SendData? then [op.body] else []
  {
    assert Bodies([op][1..]) == [];
  }

  lemma FramesOne(m: Message)
    ensures Frames([m]) == Frame(m)
  {
    assert Frames([m]) == Frame(m) + Frames([m][1..]) && Frames([m][1..]) == [];
  }

  /** Running a posted operation changes nothing about what is still to be written. */
  lemma RunUnsent(s: Sender)
    requires SendInv(s) && s.posted != []
    ensures Unsent(RunNext(s)) == Unsent(s)
  {
    hide Frame;
    var op := s.posted[0];
    if s.queue == [] {
      assert [] + s.posted == s.posted && s.queue + [op] == [op] && [op][1..] + s.posted[1..] == s.posted[1..];
      StartUnsent(op, s.posted[1..]);
      assert [op] + s.posted[1..] == s.posted;
      if op == CloseSend { assert [op][1..] == []; assert [] + s.posted[1..] == s.posted[1..]; }
    } else {
      assert (s.queue + [op])[1..] + s.posted[1..] == s.queue[1..] + s.posted;
    }
  }

  /** An operation about to start: its frame is what it adds to the bytes to be written. */
  lemma StartUnsent(op: SendOp, rest: seq<SendOp>)
    ensures Frames(Bodies([op] + rest)) == (if op.SendData? then Frame(op.body) else []) + Frames(Bodies(rest))
  {
    hide Frame;
    BodiesConcat([op], rest);
    BodiesOne(op);
    FramesConcat(Bodies([op]), Bodies(rest));
    if op.SendData? { FramesOne(op.body); }
  }

  lemma PopUnsent(s: Sender)
    requires SendInv(s) && s.flight == Written
    ensures Unsent(PopFront(s)) == Unsent(s)
  {
    hide Frame, Frames, Bodies;
    var q := s.queue[1..];
    if q != [] {
      StartUnsent(q[0], q[1..] + s.posted);
      assert [q[0]] + (q[1..] + s.posted) == q + s.posted;
      if q[0] == CloseSend {
        CloseIsLast(s);
        assert [] + s.posted == q[1..] + s.posted;
      }
    }
  }

  lemma CloseIsLast(s: Sender)
    requires SendInv(s) && |s.queue| > 1 && s.queue[1] == CloseSend
    ensures s.queue[1..][1..] == [] && s.posted == []
  {
    var all := s.queue + s.posted;
    assert all[1] == CloseSend;
  }

  /** What the steps of the sender do to the bytes still to be written. */
  lemma UnsentStep(s: State, a: Action)
    requires Inv(s) && Enabled(s, a) && FrontThere(s, a)
    ensures a.Send? ==> Unsent(ApplySend(s.snd, a)) == Unsent(s.snd) + Frame(a.body)
    ensures a.Write? ==> Unsent(s.snd) == s.snd.flight.rest[..a.k] + Unsent(ApplySend(s.snd, a))
    ensures !a.Send? && !a.Write? ==> Unsent(ApplySend(s.snd, a)) == Unsent(s.snd)
  {
    hide Unsent, Frame, RunNext, PopFront, Ordered, TotalSize, RecvInv, StreamInv, ServeInv;
    match a
    case Send(body) => PostedUnsent(s.snd, SendData(body), s.snd.stopped);
    case StopSend => PostedUnsent(s.snd, CloseSend, true);
    case RunSend => RunUnsent(s.snd);
    case PopSend => PopUnsent(s.snd);
    case Write(k) => WrittenUnsent(s.snd, k);
    case WriteDone => DoneUnsent(s.snd);
    case _ =>
  }

  lemma PostedUnsent(s: Sender, op: SendOp, stopped: bool)
    ensures Unsent(s.(stopped := stopped, posted := s.posted + [op])) == Unsent(s) + if op.SendData? then Frame(op.body) else []
  {
    hide Frame, Frames, Bodies;
    var q := if s.queue == [] then [] else s.queue[1..];
    PostUnsent(q + s.posted, op);
    assert q + (s.posted + [op]) == (q + s.posted) + [op];
  }

  lemma WrittenUnsent(s: Sender, k: nat)
    requires s.flight.Writing? && k <= |s.flight.rest|
    ensures Unsent(s) == s.flight.rest[..k] + Unsent(s.(flight := Writing(s.flight.rest[k..])))
  {
    hide Frames, Bodies;
  }

  lemma DoneUnsent(s: Sender)
    requires s.queue != [] && s.flight == Writing([])
    ensures Unsent(s.(flight := Written, outstanding := s.outstanding - SizeOf(s.queue[0]))) == Unsent(s)
  {}

  lemma PostUnsent(q: seq<SendOp>, op: SendOp)
    ensures Frames(Bodies(q + [op])) == Frames(Bodies(q)) + if op.SendData? then Frame(op.body) else []
  {
    hide Frame;
    BodiesConcat(q, [op]);
    BodiesOne(op);
    FramesConcat(Bodies(q), Bodies([op]));
    if op.SendData? { FramesOne(op.body); }
  }

  /** Four bytes of a stream of frames are the header of its first message. */
  lemma FirstHeader(got: seq<Byte>, rest: seq<Byte>, ms: seq<Message>)
    requires |got| == 4 && got + rest == Frames(ms) && forall i | 0 <= i < |ms| :: |ms[i]| < 0x1_0000_0000
    ensures ms != [] && got == Header(|ms[0]|) && HeaderValue(got) == |ms[0]|
  {
    hide Header, HeaderValue;
    assert |got + rest| >= 4;
    assert (got + rest)[..4] == got;
    HeaderReadsBack(|ms[0]|);
    assert Frames(ms)[..4] == Header(|ms[0]|);
  }

  /** A header and as many bytes as it says are the first message; what follows are the frames of the others. */
  lemma FirstBody(size: nat, got: seq<Byte>, rest: seq<Byte>, ms: seq<Message>)
    requires size < 0x1_0000_0000 && |got| == size && (Header(size) + got) + rest == Frames(ms)
    requires forall i | 0 <= i < |ms| :: |ms[i]| < 0x1_0000_0000
    ensures ms != [] && got == ms[0] && rest == Frames(ms[1..])
  {
    hide Header, HeaderValue;
    assert (Header(size) + got) + rest == Header(size) + (got + rest);
    FirstHeader(Header(size), got + rest, ms);
    HeaderReadsBack(size);
    var all := Frames(ms);
    assert all[4..4 + size] == ms[0] && all[4 + size..] == Frames(ms[1..]);
    assert all[4..4 + size] == got && all[4 + size..] == rest;
  }

  /** The stream's books do not depend on how much has been read so far. */
  lemma Rejoin(g: seq<Byte>, w: seq<Byte>, u: seq<Byte>, k: nat)
    requires k <= |w|
    ensures (g + w[..k]) + (w[k..] + u) == g + (w + u)
  {
    assert w == w[..k] + w[k..];
  }

  lemma SenderStream(s: State, a: Action)
    requires Inv(s) && Enabled(s, a) && FrontThere(s, a) && (a.Send? || a.StopSend? || a.RunSend? || a.Write? || a.WriteDone? || a.PopSend?)
    ensures StreamInv(Apply(s, a))
  {
    hide Frame, Header, Unsent, ApplySend, SendInv, RecvInv, ServeInv, Ordered, Frames;
    UnsentStep(s, a);
    var t := Apply(s, a);
    var g, w, u, r := Got(s.rcv.flight), s.wire, Unsent(s.snd), |s.received|;
    match a
    case Send(body) =>
      assert t.calls[r..] == s.calls[r..] + [body];
      FramesConcat(s.calls[r..], [body]);
      FramesOne(body);
      assert g + (w + (u + Frame(body))) == (g + (w + u)) + Frame(body);
    case Write(k) =>
      var c := s.snd.flight.rest[..k];
      assert (w + c) + Unsent(t.snd) == w + (c + Unsent(t.snd));
    case _ =>
  }

  lemma ReceiverStream(s: State, a: Action)
    requires Inv(s) && Enabled(s, a) && FrontThere(s, a) && !(a.Send? || a.StopSend? || a.RunSend? || a.Write? || a.WriteDone? || a.PopSend?)
    ensures StreamInv(Apply(s, a))
  {
    hide Frame, Header, HeaderValue, Frames, Unsent, SendInv;
    var w, u, ms := s.wire, Unsent(s.snd), s.calls[|s.received|..];
    match a
    case ReadSome(k) =>
      Rejoin(Got(s.rcv.flight), w, u, k);
      if s.rcv.flight.Body? {
        assert Header(s.rcv.flight.size) + (s.rcv.flight.got + w[..k]) == Got(s.rcv.flight) + w[..k];
      }
    case HeadDone =>
      FirstHeader(s.rcv.flight.got, w + u, ms);
      assert Header(|ms[0]|) + [] == s.rcv.flight.got;
    case BodyDone =>
      FirstBody(s.rcv.flight.size, s.rcv.flight.got, w + u, ms);
      assert ms[1..] == s.calls[|s.received| + 1..];
      assert [] + (w + u) == w + u;
    case _ =>
  }

  lemma {:induction false} ExpectedConcat(a: seq<RecvOp>, b: seq<RecvOp>)
    ensures Expected(a + b) == Expected(a) + Expected(b)
  {
    if a == [] {
      assert a + b == b;
    } else {
      hide ExpectedOf;
      ExpectedConcat(a[1..], b);
      assert (a + b)[1..] == a[1..] + b;
    }
  }

  lemma ExpectedOne(op: RecvOp)
    ensures Expected([op]) == if op.RecvData? then [op.expected] else []
  {
    assert Expected([op][1..]) == [];
  }

  /** What the receive strand's steps do to the receives left. */
  lemma ExpectedStep(r: Receiver, wire: seq<Byte>, a: Action)
    requires RecvInv(r) && (a.RunRecv? ==> r.posted != []) && (a.PopRecv? ==> r.flight == Read) && (a.HeadDone? ==> r.flight.Head? && |r.flight.got| == 4)
    requires a.ReadSome? ==> (r.flight.Head? || r.flight.Body?) && a.k <= |wire|
    ensures a.PopRecv? || a.HeadDone? ==> r.queue != []
    ensures var t, left := ApplyRecv(r, wire, a), Expected(r.queue + r.posted);
      Expected(t.queue + t.posted) ==
        if a.Recv? then left + [a.expected] else if a.PopRecv? then (if left == [] then [] else left[1..]) else left
    ensures a.PopRecv? ==> Expected(r.queue + r.posted) != []
  {
    hide OrderedRecv;
    var all := r.queue + r.posted;
    match a
    case Recv(expected) =>
      ExpectedConcat(all, [RecvData(expected)]);
      ExpectedOne(RecvData(expected));
      assert r.queue + (r.posted + [RecvData(expected)]) == all + [RecvData(expected)];
    case StopRecv =>
      ExpectedConcat(all, [CloseRecv]);
      ExpectedOne(CloseRecv);
      assert r.queue + (r.posted + [CloseRecv]) == all + [CloseRecv];
    case RunRecv => ExpectedRun(r);
    case PopRecv => ExpectedPop(r);
    case _ =>
  }

  lemma ExpectedRun(r: Receiver)
    requires RecvInv(r) && r.posted != []
    ensures var t := RunNextRecv(r); Expected(t.queue + t.posted) == Expected(r.queue + r.posted)
  {
    hide OrderedRecv, Expected;
    var t := RunNextRecv(r);
    if r.queue == [] && r.posted[0] == CloseRecv {
      assert r.queue + r.posted == r.posted && t.queue + t.posted == r.posted[1..];
      ExpectedClose(r.posted);
    } else {
      assert t.queue + t.posted == r.queue + r.posted;
    }
  }

  lemma ExpectedClose(q: seq<RecvOp>)
    requires q != [] && q[0] == CloseRecv
    ensures Expected(q) == Expected(q[1..])
  {}

  lemma ExpectedPop(r: Receiver)
    requires RecvInv(r) && r.flight == Read
    ensures var t, left := PopFrontRecv(r), Expected(r.queue + r.posted); left != [] && Expected(t.queue + t.posted) == left[1..]
  {
    var all, rest := r.queue + r.posted, r.queue[1..] + r.posted;
    assert all[0] == r.queue[0] && all[1..] == rest;
    if r.queue[1..] != [] && r.queue[1] == CloseRecv {
      assert rest[0] == CloseRecv && rest[1..] == r.queue[1..][1..] + r.posted;
    }
  }

  /** Sending and reading do not touch the books of the receives. */
  lemma QuietServe(s: State, a: Action)
    requires Inv(s) && Enabled(s, a) && FrontThere(s, a) && !a.HeadDone? && !a.BodyDone? && !a.PopRecv? && !a.Recv?
    ensures ServeInv(Apply(s, a))
  {
    hide ApplySend, SendInv, StreamInv, Expected, Suits, OrderedRecv, HeaderValue;
    ExpectedStep(s.rcv, s.wire, a);
    var t := Apply(s, a);
    assert s.received == t.received && s.asked == t.asked && s.calls <= t.calls;
    if a.RunRecv? { RunFlight(s.rcv); }
  }

  lemma RunFlight(r: Receiver)
    requires RecvInv(r) && r.posted != []
    ensures var f := RunNextRecv(r).flight; f == r.flight || (r.flight == RIdle && f == Head([]))
  {
    var all := r.queue + r.posted;
    if r.queue == [] { assert r.queue + [r.posted[0]] == [r.posted[0]]; }
  }

  lemma AskServe(s: State, a: Action)
    requires Inv(s) && Enabled(s, a) && a.Recv?
    ensures ServeInv(Apply(s, a))
  {
    hide ApplySend, SendInv, StreamInv, Expected, Suits, OrderedRecv;
    ExpectedStep(s.rcv, s.wire, a);
    assert (s.asked + [a.expected])[Popped(s)..] == s.asked[Popped(s)..] + [a.expected];
  }

  /** The receive at the front of a busy queue is the next one asked for. */
  lemma FrontIsNext(s: State)
    requires RecvInv(s.rcv) && ServeInv(s) && s.rcv.queue != [] && s.rcv.flight != Read
    ensures |s.received| < |s.asked| && s.rcv.queue[0] == RecvData(s.asked[|s.received|])
  {
    hide OrderedRecv, Suits;
    var all := s.rcv.queue + s.rcv.posted;
    assert all[0] == s.rcv.queue[0];
    assert Expected(all) == [s.rcv.queue[0].expected] + Expected(all[1..]);
    assert s.asked[|s.received|..][0] == s.asked[|s.received|];
  }

  lemma HeadServe(s: State, a: Action)
    requires Inv(s) && Enabled(s, a) && a.HeadDone? && FrontThere(s, a)
    ensures ServeInv(Apply(s, a))
  {
    hide ApplySend, SendInv, Expected, OrderedRecv, Header, HeaderValue, Unsent, Frames;
    FrontIsNext(s);
    FirstHeader(s.rcv.flight.got, s.wire + Unsent(s.snd), s.calls[|s.received|..]);
    assert s.calls[|s.received|..][0] == s.calls[|s.received|];
  }

  lemma BodyServe(s: State, a: Action)
    requires Inv(s) && Enabled(s, a) && a.BodyDone?
    ensures ServeInv(Apply(s, a))
  {
    hide ApplySend, SendInv, Expected, OrderedRecv, Header, HeaderValue, Unsent, Frames;
    FirstBody(s.rcv.flight.size, s.rcv.flight.got, s.wire + Unsent(s.snd), s.calls[|s.received|..]);
  }

  lemma PopServe(s: State, a: Action)
    requires Inv(s) && Enabled(s, a) && a.PopRecv? && FrontThere(s, a)
    ensures ServeInv(Apply(s, a))
  {
    hide ApplySend, SendInv, StreamInv, Expected, Suits, OrderedRecv;
    ExpectedStep(s.rcv, s.wire, a);
    assert s.asked[Popped(s)..][1..] == s.asked[Popped(s) + 1..];
  }

  lemma ServeKeeps(s: State, a: Action)
    requires Inv(s) && Enabled(s, a) && FrontThere(s, a)
    ensures ServeInv(Apply(s, a))
  {
    hide Inv, Apply, ServeInv;
    match a
    case Recv(_) => AskServe(s, a);
    case HeadDone => HeadServe(s, a);
    case BodyDone => BodyServe(s, a);
    case PopRecv => PopServe(s, a);
    case _ => QuietServe(s, a);
  }

  lemma StepKeeps(s: State, a: Action)
    requires Inv(s) && Enabled(s, a)
    ensures FrontThere(s, a) && Inv(Apply(s, a))
  {
    hide StreamInv, ServeInv, ApplySend, ApplyRecv;
    SendSideKeeps(s, a);
    RecvSideKeeps(s, a);
    ServeKeeps(s, a);
    if a.Send? || a.StopSend? || a.RunSend? || a.Write? || a.WriteDone? || a.PopSend? {
      SenderStream(s, a);
    } else {
      ReceiverStream(s, a);
    }
  }

  /** A run: any interleaving of calls, input and output, completions and strand callbacks. */
  ghost predicate Run(states: seq<State>, acts: seq<Action>) {
    && |states| == |acts| + 1 && Init(states[0])
    && forall i | 0 <= i < |acts| :: Next(states[i], acts[i], states[i + 1])
  }

  /** A step that finds its queue empty where it expects an operation may do anything. */
  ghost predicate Next(s: State, a: Action, t: State) {
    Enabled(s, a) && (FrontThere(s, a) ==> t == Apply(s, a))
  }

  lemma {:induction false} RunInv(states: seq<State>, acts: seq<Action>, k: nat)
    requires Run(states, acts) && k <= |acts|
    ensures Inv(states[k])
  {
    hide Inv, Enabled, FrontThere, Apply;
    if k == 0 {
      InitInv(states[0]);
    } else {
      RunInv(states, acts, k - 1);
      assert Next(states[k - 1], acts[k - 1], states[k]);
      StepKeeps(states[k - 1], acts[k - 1]);
    }
  }

  /** In every reachable state: a direction's queue is non-empty exactly when an operation of it is in flight or awaits
      its pop; the k-th receive got the k-th message sent, which has the size it expected, and the receive in flight is the
      next; a receive fails only on a next message of another size; the counter of outstanding data is the size of what is
      queued and unwritten; and a close is done only when everything posted before it is. */
  lemma EveryRun(states: seq<State>, acts: seq<Action>, k: nat)
    requires Run(states, acts) && k <= |acts|
    ensures var s := states[k];
            && (s.snd.queue != [] <==> s.snd.flight != Idle) && (s.rcv.queue != [] <==> s.rcv.flight != RIdle)
            && |s.received| <= |s.asked| && |s.received| <= |s.calls|
            && (forall i | 0 <= i < |s.received| :: s.received[i] == s.calls[i] && Suits(s.asked[i], |s.calls[i]|))
            && (s.rcv.queue != [] && s.rcv.flight != Read ==>
                  |s.received| < |s.asked| && s.rcv.queue[0] == RecvData(s.asked[|s.received|]))
            && (s.rcv.flight == Failed ==> Mismatch(s))
            && s.snd.outstanding == TotalSize(Unwritten(s.snd))
            && (s.snd.closed ==> s.snd.queue == [] && s.snd.posted == [] && Unsent(s.snd) == [])
            && (s.rcv.closed ==> s.rcv.queue == [] && s.rcv.posted == [] && |s.received| == |s.asked|)
  {
    hide OrderedRecv, Expected;
    RunInv(states, acts, k);
    var s := states[k];
    ClosedMeansDone(s);
    ReceivedPrefix(s);
    AllServed(s);
    if s.rcv.queue != [] && s.rcv.flight != Read { FrontIsNext(s); }
  }

  lemma AllServed(s: State)
    requires RecvInv(s.rcv) && ServeInv(s)
    ensures s.rcv.queue == [] && s.rcv.posted == [] ==> |s.received| == |s.asked|
  {
    if s.rcv.queue == [] && s.rcv.posted == [] {
      assert s.rcv.queue + s.rcv.posted == [];
      assert |s.asked[Popped(s)..]| == 0;
    }
  }

  /** Nothing can happen but further calls. */
  ghost predicate Quiet(s: State) {
    forall a | Enabled(s, a) :: a.Send? || a.StopSend? || a.Recv? || a.StopRecv?
  }

  lemma QuietSender(s: State)
    requires SendInv(s.snd) && Quiet(s)
    ensures Unsent(s.snd) == []
  {
    WriterMoves(s);
    assert !Enabled(s, RunSend) && !Enabled(s, WriteDone) && !Enabled(s, Write(1)) && !Enabled(s, PopSend);
    assert [] + s.snd.posted == [];
  }

  lemma WriterMoves(s: State)
    ensures s.snd.flight.Writing? ==> Enabled(s, WriteDone) || Enabled(s, Write(1))
  {}

  lemma QuietReceiver(s: State)
    requires Inv(s) && Quiet(s)
    ensures s.rcv.posted == [] && s.rcv.flight != Read
    ensures s.rcv.flight.Head? ==> s.wire == [] && |s.rcv.flight.got| < 4
    ensures s.rcv.flight.Body? ==> s.wire == [] && |s.rcv.flight.got| < s.rcv.flight.size
  {
    assert !Enabled(s, RunRecv) && !Enabled(s, PopRecv) && !Enabled(s, HeadDone) && !Enabled(s, BodyDone);
    if s.wire != [] { assert !Enabled(s, ReadSome(1)); }
  }

  /** Too few bytes for one frame are no frame at all. */
  lemma NoFrame(got: seq<Byte>, ms: seq<Message>)
    requires |got| < 4 && got == Frames(ms)
    ensures ms == []
  {}

  /** A header at the front of a stream of frames has all of its body behind it. */
  lemma WholeFrame(size: nat, got: seq<Byte>, ms: seq<Message>)
    requires size < 0x1_0000_0000 && Header(size) + got == Frames(ms)
    requires forall i | 0 <= i < |ms| :: |ms[i]| < 0x1_0000_0000
    ensures |got| >= size
  {
    hide Header, HeaderValue;
    FirstHeader(Header(size), got, ms);
    HeaderReadsBack(size);
    assert |Frames(ms)| >= 4 + |ms[0]|;
  }

  /** The strands make a channel: when only further calls can happen, every message sent that a receive was asked for has
      been delivered, or the next one has another size than its receive expects, which has then failed. */
  lemma Delivered(states: seq<State>, acts: seq<Action>, k: nat)
    requires Run(states, acts) && k <= |acts| && Quiet(states[k])
    ensures var s := states[k];
      && (s.rcv.flight == Failed <==> Mismatch(s)) && s.received <= s.calls
      && (!Mismatch(s) ==> |s.received| == if |s.calls| <= |s.asked| then |s.calls| else |s.asked|)
  {
    hide Quiet, Header, Expected, OrderedRecv, Frames;
    RunInv(states, acts, k);
    var s := states[k];
    var ms := s.calls[|s.received|..];
    QuietSender(s);
    QuietReceiver(s);
    match s.rcv.flight
    case RIdle => AllServed(s);
    case Head(got) =>
      assert got + (s.wire + []) == got;
      NoFrame(got, ms);
    case Body(size, got) =>
      assert (Header(size) + got) + (s.wire + []) == Header(size) + got;
      WholeFrame(size, got, ms);
      assert false;
    case Failed =>
  }

  lemma ReceivedPrefix(s: State)
    requires StreamInv(s)
    ensures s.received <= s.calls
  {}

  lemma ClosedMeansDone(s: State)
    requires SendInv(s.snd) && RecvInv(s.rcv)
    ensures s.snd.closed ==> s.snd.queue == [] && s.snd.posted == [] && Unsent(s.snd) == []
    ensures s.rcv.closed ==> s.rcv.queue == [] && s.rcv.posted == []
  {
    if s.snd.closed {
      assert s.snd.queue + s.snd.posted == [];
    }
    if s.rcv.closed {
      assert s.rcv.queue + s.rcv.posted == [];
    }
  }
}
