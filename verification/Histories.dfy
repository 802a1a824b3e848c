/** What travels over the channels does not depend on the schedule: a pair of message lists in which each message is what
    its sender makes of the messages it has then taken is what every schedule transmits. */
module Histories {
  import opened Channels
  import opened Processes

  /** All messages of a session, by sender. */
  datatype Story = Story(fromTrue: seq<Message>, fromFalse: seq<Message>) {
    function From(who: bool): seq<Message> { if who then fromTrue else fromFalse }
  }

  /** How many messages the instructions before pc take, and how many they send. */
  function Taken(script: Script, pc: nat): nat
    requires pc <= |script|
  {
    if pc == 0 then 0 else Taken(script, pc - 1) + if script[pc - 1].Take? then |script[pc - 1].sizes| else 0
  }

  function Given(script: Script, pc: nat): nat
    requires pc <= |script|
  {
    if pc == 0 then 0 else Given(script, pc - 1) + if script[pc - 1].Put? then 1 else 0
  }

  /** Every message of `who` is made of the messages of the other party that it takes before. */
  ghost predicate Explains(scr: Scripts, h: Story, who: bool) {
    && |h.From(who)| == Given(scr.Of(who), |scr.Of(who)|)
    && forall pc | 0 <= pc < |scr.Of(who)| && scr.Of(who)[pc].Put? :: ExplainsAt(scr, h, who, pc)
  }

  ghost predicate ExplainsAt(scr: Scripts, h: Story, who: bool, pc: nat)
    requires pc < |scr.Of(who)| && scr.Of(who)[pc].Put?
  {
    var taken, given := Taken(scr.Of(who), pc), Given(scr.Of(who), pc);
    && taken <= |h.From(!who)| && given < |h.From(who)|
    && scr.Of(who)[pc].content(h.From(!who)[..taken]) == h.From(who)[given]
  }

  /** What `who` has taken, followed by what waits for it, is what the other has sent so far. */
  ghost predicate Tells(scr: Scripts, h: Story, s: System, who: bool) {
    Heard(scr.Of(who), scr.Of(!who), h.From(!who), s.Me(who), s.Inbox(who), s.Me(!who).pc)
  }

  /** The same for a process with its inbox, its peer at pc, and `all` that the peer sends. */
  ghost predicate Heard(script: Script, peer: Script, all: seq<Message>, me: Process, inbox: seq<Message>, pc: nat) {
    && me.pc <= |script| && pc <= |peer| && |me.got| == Taken(script, me.pc) && Given(peer, pc) <= |all|
    && me.got + inbox == all[..Given(peer, pc)]
  }

  /** After the peer sends its next message of the story. */
  lemma HeardMore(script: Script, peer: Script, all: seq<Message>, me: Process, inbox: seq<Message>, pc: nat, m: Message)
    requires Heard(script, peer, all, me, inbox, pc) && pc < |peer| && peer[pc].Put?
    requires Given(peer, pc) < |all| && m == all[Given(peer, pc)]
    ensures Heard(script, peer, all, me, inbox + [m], pc + 1)
  {
    assert me.got + (inbox + [m]) == (me.got + inbox) + [m];
  }

  /** After the peer takes messages. */
  lemma HeardSame(script: Script, peer: Script, all: seq<Message>, me: Process, inbox: seq<Message>, pc: nat)
    requires Heard(script, peer, all, me, inbox, pc) && pc < |peer| && peer[pc].Take?
    ensures Heard(script, peer, all, me, inbox, pc + 1)
  {}

  /** After the process itself sends, or takes. */
  lemma HeardPut(script: Script, peer: Script, all: seq<Message>, me: Process, inbox: seq<Message>, pc: nat, next: Process)
    requires Heard(script, peer, all, me, inbox, pc) && me.pc < |script| && script[me.pc].Put?
    requires next.pc == me.pc + 1 && next.got == me.got
    ensures Heard(script, peer, all, next, inbox, pc)
  {}

  lemma HeardTake(script: Script, peer: Script, all: seq<Message>, me: Process, inbox: seq<Message>, pc: nat, next: Process, k: nat)
    requires Heard(script, peer, all, me, inbox, pc) && me.pc < |script| && script[me.pc].Take?
    requires k == |script[me.pc].sizes| <= |inbox| && next.pc == me.pc + 1 && next.got == me.got + inbox[..k]
    ensures Heard(script, peer, all, next, inbox[k..], pc)
  {
    assert next.got + inbox[k..] == me.got + inbox;
  }

  /** What the sender of the next message has taken is what the story says. */
  lemma SaysNext(scr: Scripts, h: Story, who: bool, me: Process, inbox: seq<Message>, pc: nat)
    requires Explains(scr, h, who) && Heard(scr.Of(who), scr.Of(!who), h.From(!who), me, inbox, pc)
    requires me.pc < |scr.Of(who)| && scr.Of(who)[me.pc].Put?
    ensures var given := Given(scr.Of(who), me.pc); given < |h.From(who)| && scr.Of(who)[me.pc].content(me.got) == h.From(who)[given]
  {
    hide Scripts.Of, Story.From;
    assert ExplainsAt(scr, h, who, me.pc);
    assert me.got == (me.got + inbox)[..|me.got|] == h.From(!who)[..Taken(scr.Of(who), me.pc)];
  }

  lemma PutTells(scr: Scripts, h: Story, s: System, who: bool)
    requires Explains(scr, h, who) && Enabled(scr, s, who) && scr.Of(who)[s.Me(who).pc].Put?
    requires Tells(scr, h, s, who) && Tells(scr, h, s, !who)
    ensures Tells(scr, h, Apply(scr, s, who), who) && Tells(scr, h, Apply(scr, s, who), !who)
  {
    hide Heard, Explains, ExplainsAt, Taken, Given;
    var script, peer, me, you, t := scr.Of(who), scr.Of(!who), s.Me(who), s.Me(!who), Apply(scr, s, who);
    SaysNext(scr, h, who, me, s.Inbox(who), you.pc);
    HeardMore(peer, script, h.From(who), you, s.Inbox(!who), me.pc, script[me.pc].content(me.got));
    HeardPut(script, peer, h.From(!who), me, s.Inbox(who), you.pc, t.Me(who));
  }

  lemma TakeTells(scr: Scripts, h: Story, s: System, who: bool)
    requires Enabled(scr, s, who) && scr.Of(who)[s.Me(who).pc].Take?
    requires Tells(scr, h, s, who) && Tells(scr, h, s, !who)
    ensures Tells(scr, h, Apply(scr, s, who), who) && Tells(scr, h, Apply(scr, s, who), !who)
  {
    hide Heard, Taken, Given, SizesOf;
    var script, peer, me, you, t := scr.Of(who), scr.Of(!who), s.Me(who), s.Me(!who), Apply(scr, s, who);
    HeardSame(peer, script, h.From(who), you, s.Inbox(!who), me.pc);
    HeardTake(script, peer, h.From(!who), me, s.Inbox(who), you.pc, t.Me(who), |script[me.pc].sizes|);
  }

  lemma StepTells(scr: Scripts, h: Story, s: System, who: bool)
    requires Enabled(scr, s, who) && forall w: bool :: Explains(scr, h, w) && Tells(scr, h, s, w)
    ensures forall w: bool :: Tells(scr, h, Apply(scr, s, who), w)
  {
    hide Explains, Tells, Apply;
    if scr.Of(who)[s.Me(who).pc].Put? {
      PutTells(scr, h, s, who);
    } else {
      TakeTells(scr, h, s, who);
    }
    forall w: bool ensures Tells(scr, h, Apply(scr, s, who), w) {
      assert w == who || w == !who;
    }
  }

  /** Every schedule keeps it. */
  lemma {:induction false} RunTells(scr: Scripts, h: Story, s: System, c: seq<bool>, t: System)
    requires Leads(scr, s, c, t) && forall who: bool :: Explains(scr, h, who) && Tells(scr, h, s, who)
    ensures forall who: bool :: Tells(scr, h, t, who)
    decreases |c|
  {
    hide Explains, Tells, Enabled, Apply;
    if c != [] {
      var who := c[0];
      var u := Apply(scr, s, who);
      StepTells(scr, h, s, who);
      RunTells(scr, h, u, c[1..], t);
    }
  }

  /** At the end, with nothing left in the channels, both parties have taken all there is. */
  lemma AllTold(scr: Scripts, h: Story, s: System, c: seq<bool>, f: System)
    requires Leads(scr, s, c, f) && forall who: bool :: Explains(scr, h, who) && Tells(scr, h, s, who)
    requires Final(scr, f) && f.toTrue == [] && f.toFalse == []
    ensures f.pTrue.got == h.fromFalse && f.pFalse.got == h.fromTrue
  {
    hide Apply, Enabled, ExplainsAt, Leads;
    RunTells(scr, h, s, c, f);
    assert Tells(scr, h, f, true) && Tells(scr, h, f, false);
    assert h.fromFalse[..|h.fromFalse|] == h.fromFalse && h.fromTrue[..|h.fromTrue|] == h.fromTrue;
    assert Explains(scr, h, true) && Explains(scr, h, false);
    assert f.pTrue.got + f.toTrue == f.pTrue.got && f.pFalse.got + f.toFalse == f.pFalse.got;
  }

  /** How many messages a shape sends, and takes, before pc. */
  function OutsBefore(shape: seq<Shape>, pc: nat): nat
    requires pc <= |shape|
  {
    if pc == 0 then 0 else OutsBefore(shape, pc - 1) + if shape[pc - 1].Out? then 1 else 0
  }

  function InsBefore(shape: seq<Shape>, pc: nat): nat
    requires pc <= |shape|
  {
    if pc == 0 then 0 else InsBefore(shape, pc - 1) + if shape[pc - 1].In? then |shape[pc - 1].sizes| else 0
  }

  /** The script of a shape whose k-th message is put(k, the messages received so far). */
  ghost function ScriptOf(shape: seq<Shape>, put: (nat, seq<Message>) -> Message): (s: Script)
    ensures |s| == |shape|
  {
    seq(|shape|, pc requires 0 <= pc < |shape| => InstrAt(shape, put, pc))
  }

  ghost function InstrAt(shape: seq<Shape>, put: (nat, seq<Message>) -> Message, pc: nat): Instr
    requires pc < |shape|
  {
    match shape[pc]
    case In(sizes) => Take(sizes)
    case Out(_) => var k := OutsBefore(shape, pc); Put((got: seq<Message>) => put(k, got))
  }

  lemma {:induction false} ScriptCounts(shape: seq<Shape>, put: (nat, seq<Message>) -> Message, pc: nat)
    requires pc <= |shape|
    ensures Given(ScriptOf(shape, put), pc) == OutsBefore(shape, pc)
    ensures Taken(ScriptOf(shape, put), pc) == InsBefore(shape, pc)
  {
    if pc > 0 { ScriptCounts(shape, put, pc - 1); }
  }

  /** What the k-th message of a party looks like: it is made after `taken` messages have been taken. */
  datatype Plan = Plan(size: nat, taken: nat)

  /** The sends of a shape, in order. */
  ghost predicate Planned(shape: seq<Shape>, plans: seq<Plan>) {
    && OutsBefore(shape, |shape|) == |plans|
    && forall pc | 0 <= pc < |shape| && shape[pc].Out? :: PlannedAt(shape, plans, pc)
  }

  ghost predicate PlannedAt(shape: seq<Shape>, plans: seq<Plan>, pc: nat)
    requires pc < |shape| && shape[pc].Out?
  {
    OutsBefore(shape, pc) < |plans| && plans[OutsBefore(shape, pc)] == Plan(shape[pc].size, InsBefore(shape, pc))
  }

  function Plans(sizes: seq<nat>, taken: nat): (p: seq<Plan>)
    ensures |p| == |sizes|
  {
    seq(|sizes|, i requires 0 <= i < |sizes| => Plan(sizes[i], taken))
  }

  /** A block of sends adds its plans. */
  lemma {:induction false} PlanOuts(shape: seq<Shape>, plans: seq<Plan>, sizes: seq<nat>)
    requires Planned(shape, plans)
    ensures Planned(shape + Outs(sizes), plans + Plans(sizes, InsBefore(shape, |shape|)))
    ensures InsBefore(shape + Outs(sizes), |shape + Outs(sizes)|) == InsBefore(shape, |shape|)
    decreases |sizes|
  {
    hide PlannedAt;
    var taken := InsBefore(shape, |shape|);
    var more := Plans(sizes, taken);
    if sizes == [] {
      assert shape + Outs(sizes) == shape && plans + more == plans;
    } else {
      var n := |sizes| - 1;
      var less := Plans(sizes[..n], taken);
      PlanOuts(shape, plans, sizes[..n]);
      PlanNext(shape + Outs(sizes[..n]), plans + less, Out(sizes[n]));
      assert (shape + Outs(sizes[..n])) + [Out(sizes[n])] == shape + Outs(sizes);
      assert (plans + less) + [Plan(sizes[n], taken)] == plans + more;
    }
  }

  /** A block of receives adds no plan. */
  lemma {:induction false} PlanIns(shape: seq<Shape>, plans: seq<Plan>, sizes: seq<nat>)
    requires Planned(shape, plans)
    ensures Planned(shape + Ins(sizes), plans)
    ensures InsBefore(shape + Ins(sizes), |shape + Ins(sizes)|) == InsBefore(shape, |shape|) + |sizes|
    decreases |sizes|
  {
    hide PlannedAt;
    if sizes == [] {
      assert shape + Ins(sizes) == shape;
    } else {
      var n := |sizes| - 1;
      PlanIns(shape, plans, sizes[..n]);
      PlanNext(shape + Ins(sizes[..n]), plans, In([sizes[n]]));
      assert (shape + Ins(sizes[..n])) + [In([sizes[n]])] == shape + Ins(sizes);
    }
  }

  lemma PlanNext(shape: seq<Shape>, plans: seq<Plan>, x: Shape)
    requires Planned(shape, plans)
    ensures Planned(shape + [x], match x case Out(size) => plans + [Plan(size, InsBefore(shape, |shape|))] case In(_) => plans)
    ensures InsBefore(shape + [x], |shape| + 1) == InsBefore(shape, |shape|) + match x case Out(_) => 0 case In(sizes) => |sizes|
  {
    var longer := shape + [x];
    forall pc | 0 <= pc <= |shape| ensures OutsBefore(longer, pc) == OutsBefore(shape, pc) && InsBefore(longer, pc) == InsBefore(shape, pc) {
      Prefix(shape, x, pc);
    }
    forall pc | 0 <= pc < |shape| && shape[pc].Out? ensures PlannedAt(shape, plans, pc) {}
  }

  lemma {:induction false} Prefix(shape: seq<Shape>, x: Shape, pc: nat)
    requires pc <= |shape|
    ensures OutsBefore(shape + [x], pc) == OutsBefore(shape, pc) && InsBefore(shape + [x], pc) == InsBefore(shape, pc)
  {
    if pc > 0 { Prefix(shape, x, pc - 1); }
  }

  /** Messages of the planned sizes, whatever was received; and the messages of a story, made from the other's. */
  ghost predicate AllSized(plans: seq<Plan>, put: (nat, seq<Message>) -> Message) {
    forall k | 0 <= k < |plans| :: plans[k].size > 0 && forall got :: |put(k, got)| == plans[k].size
  }

  ghost predicate AllSaid(plans: seq<Plan>, put: (nat, seq<Message>) -> Message, says: seq<Message>, told: seq<Message>) {
    |says| == |plans| && forall k | 0 <= k < |plans| :: plans[k].taken <= |told| && put(k, told[..plans[k].taken]) == says[k]
  }

  /** A script that makes messages of the planned sizes follows its shape. */
  lemma PlanFollows(scr: Scripts, who: bool, shape: seq<Shape>, plans: seq<Plan>, put: (nat, seq<Message>) -> Message)
    requires scr.Of(who) == ScriptOf(shape, put) && Planned(shape, plans)
    requires AllSized(plans, put)
    ensures Follows(scr, who, shape)
  {
    forall pc | 0 <= pc < |shape| ensures FollowsAt(scr, who, pc, shape[pc]) {
      assert scr.Of(who)[pc] == InstrAt(shape, put, pc);
      if shape[pc].Out? { assert PlannedAt(shape, plans, pc); }
    }
  }

  /** A script that makes the messages of a story from what it has then taken explains them. */
  lemma PlanExplains(scr: Scripts, h: Story, who: bool, shape: seq<Shape>, plans: seq<Plan>, put: (nat, seq<Message>) -> Message)
    requires scr.Of(who) == ScriptOf(shape, put) && Planned(shape, plans) && AllSaid(plans, put, h.From(who), h.From(!who))
    ensures Explains(scr, h, who)
  {
    hide Story.From;
    ScriptCounts(shape, put, |shape|);
    forall pc | 0 <= pc < |shape| && scr.Of(who)[pc].Put? ensures ExplainsAt(scr, h, who, pc) {
      ScriptCounts(shape, put, pc);
      assert scr.Of(who)[pc] == InstrAt(shape, put, pc);
      assert PlannedAt(shape, plans, pc);
    }
  }
}
