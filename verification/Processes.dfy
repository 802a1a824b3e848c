/** Two processes that talk over a pair of FIFO channels: every schedule comes to the same end. */
module Processes {
  import opened Channels

  /** One instruction: send a message made from all those received so far, or wait for some messages and check their sizes.
      Several messages are taken at once where the code waits only for the last of a group. */
  datatype Instr = Put(content: seq<Message> -> Message) | Take(sizes: seq<nat>)

  type Script = seq<Instr>

  datatype Process = Process(pc: nat, got: seq<Message>, failed: bool)

  /** Party true and party false; `toTrue` is the channel to the first, `toFalse` to the second. */
  datatype System = System(pTrue: Process, pFalse: Process, toTrue: seq<Message>, toFalse: seq<Message>)
  {
    function Me(who: bool): Process { if who then pTrue else pFalse }

    function Inbox(who: bool): seq<Message> { if who then toTrue else toFalse }

    function Outbox(who: bool): seq<Message> { Inbox(!who) }

    /** The system after `who` moves. */
    function With(who: bool, p: Process, inbox: seq<Message>, outbox: seq<Message>): System {
      if who then System(p, pFalse, inbox, outbox) else System(pTrue, p, outbox, inbox)
    }
  }

  /** The scripts of the two parties. */
  datatype Scripts = Scripts(sTrue: Script, sFalse: Script) {
    function Of(who: bool): Script { if who then sTrue else sFalse }
  }

  function SizesOf(ms: seq<Message>): (s: seq<nat>)
    ensures |s| == |ms|
  {
    seq(|ms|, i requires 0 <= i < |ms| => |ms[i]|)
  }

  ghost predicate Enabled(scr: Scripts, s: System, who: bool) {
    var p, script := s.Me(who), scr.Of(who);
    !p.failed && p.pc < |script| && (script[p.pc].Take? ==> |script[p.pc].sizes| <= |s.Inbox(who)|)
  }

  /** A step of one party; receiving a wrong size, or sending nothing at all, is the exception that ends it. */
  ghost function Apply(scr: Scripts, s: System, who: bool): System
    requires Enabled(scr, s, who)
  {
    var p, inst := s.Me(who), scr.Of(who)[s.Me(who).pc];
    match inst
    case Put(content) =>
      s.With(who, Process(p.pc + 1, p.got, content(p.got) == []), s.Inbox(who), s.Outbox(who) + [content(p.got)])
    case Take(sizes) =>
      var k := |sizes|;
      var head := s.Inbox(who)[..k];
      s.With(who, Process(p.pc + 1, p.got + head, SizesOf(head) != sizes), s.Inbox(who)[k..], s.Outbox(who))
  }

  /** Steps of different parties commute. */
  lemma Diamond(scr: Scripts, s: System, who: bool)
    requires Enabled(scr, s, who) && Enabled(scr, s, !who)
    ensures Enabled(scr, Apply(scr, s, who), !who) && Enabled(scr, Apply(scr, s, !who), who)
    ensures Apply(scr, Apply(scr, s, who), !who) == Apply(scr, Apply(scr, s, !who), who)
  {
    if who { DiamondTrue(scr, s); } else { DiamondTrue(scr, s); }
  }

  lemma DiamondTrue(scr: Scripts, s: System)
    requires Enabled(scr, s, true) && Enabled(scr, s, false)
    ensures Enabled(scr, Apply(scr, s, true), false) && Enabled(scr, Apply(scr, s, false), true)
    ensures Apply(scr, Apply(scr, s, true), false) == Apply(scr, Apply(scr, s, false), true)
  {
    hide SizesOf;
    var a, b := scr.sTrue[s.pTrue.pc], scr.sFalse[s.pFalse.pc];
    var t, u := Apply(scr, s, true), Apply(scr, s, false);
    if a.Take? && b.Put? {
      TakeAppend(s.toTrue, |a.sizes|, b.content(s.pFalse.got));
    } else if a.Put? && b.Take? {
      TakeAppend(s.toFalse, |b.sizes|, a.content(s.pTrue.got));
    }
  }

  lemma TakeAppend(q: seq<Message>, k: nat, m: Message)
    requires k <= |q|
    ensures (q + [m])[..k] == q[..k] && (q + [m])[k..] == q[k..] + [m]
  {}

  /** A schedule, one entry a step, leads from s to f. */
  ghost predicate Leads(scr: Scripts, s: System, c: seq<bool>, f: System)
    decreases |c|
  {
    if c == [] then s == f else Enabled(scr, s, c[0]) && Leads(scr, Apply(scr, s, c[0]), c[1..], f)
  }

  /** Both parties are past their last instruction. */
  ghost predicate Final(scr: Scripts, s: System) {
    forall who: bool :: !s.Me(who).failed && s.Me(who).pc == |scr.Of(who)|
  }

  lemma FinalStops(scr: Scripts, f: System, who: bool)
    requires Final(scr, f)
    ensures !Enabled(scr, f, who)
  {}

  /** Any first step can be taken first on the way to a final state. */
  lemma {:induction false} StepFirst(scr: Scripts, s: System, c: seq<bool>, f: System, who: bool) returns (d: seq<bool>)
    requires Leads(scr, s, c, f) && Final(scr, f) && Enabled(scr, s, who)
    ensures |d| + 1 == |c| && Leads(scr, Apply(scr, s, who), d, f)
    decreases |c|
  {
    hide Apply;
    FinalStops(scr, f, who);
    assert c != [];
    if c[0] == who {
      d := c[1..];
    } else {
      hide Enabled;
      Diamond(scr, s, who);
      assert c[0] == !who;
      d := StepFirst(scr, Apply(scr, s, !who), c[1..], f, who);
      var e := [!who] + d;
      assert e[1..] == d;
      d := e;
    }
  }

  /** Confluence: if one schedule ends in a final state, every schedule can be continued to it, and takes no longer. */
  lemma {:induction false} Confluent(scr: Scripts, s: System, c: seq<bool>, f: System, d: seq<bool>, t: System) returns (e: seq<bool>)
    requires Leads(scr, s, c, f) && Final(scr, f) && Leads(scr, s, d, t)
    ensures Leads(scr, t, e, f) && |d| + |e| == |c|
    decreases |d|
  {
    hide Apply, Enabled, Final;
    if d == [] {
      e := c;
    } else {
      var c' := StepFirst(scr, s, c, f, d[0]);
      e := Confluent(scr, Apply(scr, s, d[0]), c', f, d[1..], t);
    }
  }

  /** No schedule ends anywhere else: where nobody can move, the final state is reached. */
  lemma NoDeadlock(scr: Scripts, s: System, c: seq<bool>, f: System, d: seq<bool>, t: System)
    requires Leads(scr, s, c, f) && Final(scr, f) && Leads(scr, s, d, t)
    ensures |d| <= |c|
    ensures (forall who: bool :: !Enabled(scr, t, who)) <==> t == f
  {
    hide Enabled, Final;
    FinalStops(scr, f, true);
    FinalStops(scr, f, false);
    var e := Confluent(scr, s, c, f, d, t);
    if e != [] { assert Enabled(scr, t, e[0]); }
  }

  lemma {:induction false} LeadsOn(scr: Scripts, s: System, c: seq<bool>, t: System, d: seq<bool>, u: System)
    requires Leads(scr, s, c, t) && Leads(scr, t, d, u)
    ensures Leads(scr, s, c + d, u)
    decreases |c|
  {
    hide Enabled, Apply;
    if c == [] {
      assert c + d == d;
    } else {
      LeadsOn(scr, Apply(scr, s, c[0]), c[1..], t, d, u);
      assert (c + d)[0] == c[0] && (c + d)[1..] == c[1..] + d;
    }
  }

  /** The instructions of `who` from pc on send messages of these sizes. */
  ghost predicate Sends(scr: Scripts, who: bool, pc: nat, sizes: seq<nat>) {
    forall i | 0 <= i < |sizes| :: SendsOne(scr, who, pc + i, sizes[i])
  }

  ghost predicate SendsOne(scr: Scripts, who: bool, pc: nat, size: nat) {
    size > 0 && pc < |scr.Of(who)| && scr.Of(who)[pc].Put? && Sized(scr.Of(who)[pc].content, size)
  }

  /** A message whose size does not depend on what was received. */
  ghost predicate Sized(content: seq<Message> -> Message, size: nat) {
    forall got :: |content(got)| == size
  }

  /** The instructions of `who` from pc on take messages of these sizes, one at a time. */
  ghost predicate Takes(scr: Scripts, who: bool, pc: nat, sizes: seq<nat>) {
    forall i | 0 <= i < |sizes| :: TakesOne(scr, who, pc + i, sizes[i])
  }

  ghost predicate TakesOne(scr: Scripts, who: bool, pc: nat, size: nat) {
    pc < |scr.Of(who)| && scr.Of(who)[pc] == Take([size])
  }

  /** Party `who` is at i and the other at j, neither has failed, and messages of these sizes are under way. */
  ghost predicate At(s: System, who: bool, i: nat, j: nat, inbox: seq<nat>, outbox: seq<nat>) {
    && s.Me(who).pc == i && s.Me(!who).pc == j && !s.Me(who).failed && !s.Me(!who).failed
    && SizesOf(s.Inbox(who)) == inbox && SizesOf(s.Outbox(who)) == outbox
  }

  lemma SizesAppend(ms: seq<Message>, m: Message)
    ensures SizesOf(ms + [m]) == SizesOf(ms) + [|m|]
  {}

  lemma SizesSplit(ms: seq<Message>, k: nat)
    requires k <= |ms|
    ensures SizesOf(ms[..k]) == SizesOf(ms)[..k] && SizesOf(ms[k..]) == SizesOf(ms)[k..]
  {}

  lemma OneStep(scr: Scripts, s: System, who: bool)
    requires Enabled(scr, s, who)
    ensures Leads(scr, s, [who], Apply(scr, s, who))
  {
    hide Apply, Enabled;
    var t := Apply(scr, s, who);
    assert [who][1..] == [] && Leads(scr, t, [], t);
  }

  lemma PutStep(scr: Scripts, s: System, who: bool, i: nat, j: nat, inbox: seq<nat>, outbox: seq<nat>, size: nat)
    requires At(s, who, i, j, inbox, outbox) && SendsOne(scr, who, i, size)
    ensures Enabled(scr, s, who) && At(Apply(scr, s, who), who, i + 1, j, inbox, outbox + [size])
  {
    hide SizesOf;
    var inst := scr.Of(who)[i];
    assert |inst.content(s.Me(who).got)| == size;
    SizesAppend(s.Outbox(who), inst.content(s.Me(who).got));
  }

  lemma TakeStep(scr: Scripts, s: System, who: bool, i: nat, j: nat, sizes: seq<nat>, inbox: seq<nat>, outbox: seq<nat>)
    requires At(s, who, i, j, sizes + inbox, outbox) && i < |scr.Of(who)| && scr.Of(who)[i] == Take(sizes)
    ensures Enabled(scr, s, who) && At(Apply(scr, s, who), who, i + 1, j, inbox, outbox)
  {
    hide SizesOf;
    var ms := s.Inbox(who);
    assert |SizesOf(ms)| == |ms|;
    SizesSplit(ms, |sizes|);
    assert (sizes + inbox)[..|sizes|] == sizes && (sizes + inbox)[|sizes|..] == inbox;
  }

  /** A block of sends. */
  lemma {:induction false} PutAll(scr: Scripts, s: System, who: bool, i: nat, j: nat, inbox: seq<nat>, outbox: seq<nat>, sizes: seq<nat>)
    returns (c: seq<bool>, t: System)
    requires At(s, who, i, j, inbox, outbox) && Sends(scr, who, i, sizes)
    ensures Leads(scr, s, c, t) && At(t, who, i + |sizes|, j, inbox, outbox + sizes)
    decreases |sizes|
  {
    hide At, Enabled, Apply;
    if sizes == [] {
      c, t := [], s;
      assert outbox + [] == outbox;
    } else {
      assert SendsOne(scr, who, i + 0, sizes[0]);
      PutStep(scr, s, who, i, j, inbox, outbox, sizes[0]);
      OneStep(scr, s, who);
      SendsRest(scr, who, i, sizes);
      c, t := PutAll(scr, Apply(scr, s, who), who, i + 1, j, inbox, outbox + [sizes[0]], sizes[1..]);
      LeadsOn(scr, s, [who], Apply(scr, s, who), c, t);
      c := [who] + c;
      assert (outbox + [sizes[0]]) + sizes[1..] == outbox + sizes;
    }
  }

  lemma SendsRest(scr: Scripts, who: bool, i: nat, sizes: seq<nat>)
    requires sizes != [] && Sends(scr, who, i, sizes)
    ensures Sends(scr, who, i + 1, sizes[1..])
  {
    hide SendsOne;
    forall k | 0 <= k < |sizes| - 1 ensures SendsOne(scr, who, i + 1 + k, sizes[1..][k]) {
      assert SendsOne(scr, who, i + (k + 1), sizes[k + 1]);
    }
  }

  lemma TakesRest(scr: Scripts, who: bool, i: nat, sizes: seq<nat>)
    requires sizes != [] && Takes(scr, who, i, sizes)
    ensures Takes(scr, who, i + 1, sizes[1..])
  {
    hide TakesOne;
    forall k | 0 <= k < |sizes| - 1 ensures TakesOne(scr, who, i + 1 + k, sizes[1..][k]) {
      assert TakesOne(scr, who, i + (k + 1), sizes[k + 1]);
    }
  }

  /** A block of receives, one message each. */
  lemma {:induction false} TakeAll(scr: Scripts, s: System, who: bool, i: nat, j: nat, inbox: seq<nat>, outbox: seq<nat>, sizes: seq<nat>)
    returns (c: seq<bool>, t: System)
    requires At(s, who, i, j, sizes + inbox, outbox) && Takes(scr, who, i, sizes)
    ensures Leads(scr, s, c, t) && At(t, who, i + |sizes|, j, inbox, outbox)
    decreases |sizes|
  {
    hide At, Enabled, Apply;
    if sizes == [] {
      c, t := [], s;
      assert [] + inbox == inbox;
    } else {
      assert TakesOne(scr, who, i + 0, sizes[0]);
      assert [sizes[0]] + (sizes[1..] + inbox) == sizes + inbox;
      TakeStep(scr, s, who, i, j, [sizes[0]], sizes[1..] + inbox, outbox);
      OneStep(scr, s, who);
      TakesRest(scr, who, i, sizes);
      c, t := TakeAll(scr, Apply(scr, s, who), who, i + 1, j, inbox, outbox, sizes[1..]);
      LeadsOn(scr, s, [who], Apply(scr, s, who), c, t);
      c := [who] + c;
    }
  }

  /** What a party does, by sizes only. */
  datatype Shape = Out(size: nat) | In(sizes: seq<nat>)

  /** A script that does what the shape says, whatever the contents of its messages. */
  ghost predicate Follows(scr: Scripts, who: bool, shape: seq<Shape>) {
    |scr.Of(who)| == |shape| && forall i | 0 <= i < |shape| :: FollowsAt(scr, who, i, shape[i])
  }

  ghost predicate FollowsAt(scr: Scripts, who: bool, i: nat, x: Shape) {
    match x
    case Out(size) => SendsOne(scr, who, i, size)
    case In(sizes) => i < |scr.Of(who)| && scr.Of(who)[i] == Take(sizes)
  }

  function Outs(sizes: seq<nat>): (s: seq<Shape>)
    ensures |s| == |sizes|
  {
    seq(|sizes|, i requires 0 <= i < |sizes| => Out(sizes[i]))
  }

  /** Receives of one message each. */
  function Ins(sizes: seq<nat>): (s: seq<Shape>)
    ensures |s| == |sizes|
  {
    seq(|sizes|, i requires 0 <= i < |sizes| => In([sizes[i]]))
  }

  lemma OutsSend(scr: Scripts, who: bool, shape: seq<Shape>, at: nat, sizes: seq<nat>)
    requires Follows(scr, who, shape) && at + |sizes| <= |shape| && shape[at..at + |sizes|] == Outs(sizes)
    ensures Sends(scr, who, at, sizes)
  {
    hide SendsOne;
    forall i | 0 <= i < |sizes| ensures SendsOne(scr, who, at + i, sizes[i]) {
      assert shape[at + i] == shape[at..at + |sizes|][i] == Out(sizes[i]);
      assert FollowsAt(scr, who, at + i, shape[at + i]);
    }
  }

  lemma InsTake(scr: Scripts, who: bool, shape: seq<Shape>, at: nat, sizes: seq<nat>)
    requires Follows(scr, who, shape) && at + |sizes| <= |shape| && shape[at..at + |sizes|] == Ins(sizes)
    ensures Takes(scr, who, at, sizes)
  {
    forall i | 0 <= i < |sizes| ensures TakesOne(scr, who, at + i, sizes[i]) {
      assert shape[at + i] == shape[at..at + |sizes|][i] == In([sizes[i]]);
      assert FollowsAt(scr, who, at + i, shape[at + i]);
    }
  }

  /** A party that has failed never moves again, so nobody has failed on the way to a final state. */
  lemma {:induction false} NobodyFailed(scr: Scripts, t: System, e: seq<bool>, f: System, who: bool)
    requires Leads(scr, t, e, f) && Final(scr, f)
    ensures !t.Me(who).failed
    decreases |e|
  {
    if e != [] {
      NobodyFailed(scr, Apply(scr, t, e[0]), e[1..], f, who);
    }
  }
}
