/** A whole session, init and sendInput, as two message scripts. */
module Session {
  import opened Processes
  import S = PsiSender

  /** What the message sizes of a session depend on; `fe` is the size in bytes of a group element. */
  datatype Sizes = Sizes(fe: nat, senderSize: nat, binCount: nat, numStash: nat, ms: nat) {
    ghost predicate Valid() { fe > 0 && senderSize > 0 && binCount > 0 && numStash > 0 && ms > 0 }

    /** One mask buffer. */
    function Buffer(): nat { 8 * ms * senderSize }

    /** The correction batches of the bins from `from` on. */
    function Batches(from: nat): (b: seq<nat>)
      requires from <= binCount
      decreases binCount - from
    {
      if from == binCount then []
      else [512 * (S.BatchEnd(from, binCount) - from)] + Batches(S.BatchEnd(from, binCount))
    }
  }

  function Repeat(size: nat, n: nat): (s: seq<nat>)
    ensures |s| == n
  {
    seq(n, _ => size)
  }

  /** The receiver: hashing seed; the seed and the two points of the peer, the first never waited for; its key buffer;
      the IKNP columns; check; corrections; mask buffers; stash corrections; stash buffers. */
  function ReceiverShape(z: Sizes): seq<Shape> {
    ReceiverInit(z) + (Outs(z.Batches(0)) + (Ins(Repeat(z.Buffer(), 3)) + ([Out(512 * z.numStash)] + Ins(Repeat(z.Buffer(), z.numStash)))))
  }

  function ReceiverInit(z: Sizes): (s: seq<Shape>)
    ensures |s| == 519
  {
    [Out(128), In([128, 16 * z.fe]), Out(1024 * z.fe)] + Ins(Repeat(128 * 128, 4)) + Outs(Repeat(256, 512))
  }

  /** The sender: hashing seed; the two points; the peer's seed and key buffer; the columns; check; and so on. */
  function SenderShape(z: Sizes): seq<Shape> {
    SenderInit(z) + (Ins(z.Batches(0)) + (Outs(Repeat(z.Buffer(), 3)) + ([In([512 * z.numStash])] + Outs(Repeat(z.Buffer(), z.numStash)))))
  }

  function SenderInit(z: Sizes): (s: seq<Shape>)
    ensures |s| == 519
  {
    [Out(128), Out(16 * z.fe), In([128, 1024 * z.fe])] + Outs(Repeat(128 * 128, 4)) + Ins(Repeat(256, 512))
  }

  /** Two scripts of a session; the receiver is party true. */
  ghost predicate Scripted(z: Sizes, scr: Scripts) {
    z.Valid() && Follows(scr, true, ReceiverShape(z)) && Follows(scr, false, SenderShape(z))
  }

  function Start(): System { System(Process(0, [], false), Process(0, [], false), [], []) }

  lemma Middle<A>(a: seq<A>, b: seq<A>, c: seq<A>)
    ensures (a + (b + c))[|a|..|a| + |b|] == b && |a + (b + c)| == |a| + |b| + |c|
  {}

  /** One party sends a block of messages and the other takes them one by one. */
  lemma Exchange(scr: Scripts, s: System, who: bool, i: nat, j: nat, sizes: seq<nat>) returns (c: seq<bool>, t: System)
    requires At(s, who, i, j, [], []) && Sends(scr, who, i, sizes) && Takes(scr, !who, j, sizes)
    ensures Leads(scr, s, c, t) && At(t, who, i + |sizes|, j + |sizes|, [], [])
  {
    hide At, Sends, Takes;
    var u;
    c, u := PutAll(scr, s, who, i, j, [], [], sizes);
    assert [] + sizes == sizes && sizes + [] == sizes;
    AtSwap(u, who, i + |sizes|, j, [], sizes);
    var d;
    d, t := TakeAll(scr, u, !who, j, i + |sizes|, [], [], sizes);
    AtSwap(t, !who, j + |sizes|, i + |sizes|, [], []);
    LeadsOn(scr, s, c, u, d, t);
    c := c + d;
  }

  lemma AtSwap(s: System, who: bool, i: nat, j: nat, inbox: seq<nat>, outbox: seq<nat>)
    requires At(s, who, i, j, inbox, outbox)
    ensures At(s, !who, j, i, outbox, inbox)
  {}

  /** The instructions of a session, party by party and part by part. */
  lemma ReceiverParts(z: Sizes, scr: Scripts)
    requires Scripted(z, scr)
    ensures SendsOne(scr, true, 0, 128) && SendsOne(scr, true, 2, 1024 * z.fe)
    ensures |scr.sTrue| == 523 + |z.Batches(0)| + z.numStash && scr.sTrue[1] == Take([128, 16 * z.fe])
    ensures Takes(scr, true, 3, Repeat(128 * 128, 4)) && Sends(scr, true, 7, Repeat(256, 512))
    ensures Sends(scr, true, 519, z.Batches(0))
    ensures var k := |z.Batches(0)|;
      Takes(scr, true, 519 + k, Repeat(z.Buffer(), 3)) && Sends(scr, true, 522 + k, [512 * z.numStash])
      && Takes(scr, true, 523 + k, Repeat(z.Buffer(), z.numStash))
  {
    hide Sends, Takes, SendsOne, Follows;
    var shape, init, k := ReceiverShape(z), ReceiverInit(z), |z.Batches(0)|;
    var a, b, c, d := Outs(z.Batches(0)), Ins(Repeat(z.Buffer(), 3)), [Out(512 * z.numStash)], Ins(Repeat(z.Buffer(), z.numStash));
    Opening(scr, true, shape, init, a + (b + (c + d)));
    ReceiverOpening(z, init);
    Middle(init, a, b + (c + d));
    OutsSend(scr, true, shape, 519, z.Batches(0));
    Tail(init, a, b, c, d);
    InsTake(scr, true, shape, 519 + k, Repeat(z.Buffer(), 3));
    OneOut(512 * z.numStash);
    OutsSend(scr, true, shape, 522 + k, [512 * z.numStash]);
    InsTake(scr, true, shape, 523 + k, Repeat(z.Buffer(), z.numStash));
    InsTake(scr, true, shape, 3, Repeat(128 * 128, 4));
    OutsSend(scr, true, shape, 7, Repeat(256, 512));
  }

  lemma OneOut(size: nat)
    ensures [Out(size)] == Outs([size]) && [In([size])] == Ins([size])
  {}

  /** The slices of the second half of a shape. */
  lemma Tail<A>(i: seq<A>, a: seq<A>, b: seq<A>, c: seq<A>, d: seq<A>)
    ensures var s, n := i + (a + (b + (c + d))), |i| + |a|;
      && |s| == n + |b| + |c| + |d| && s[n..n + |b|] == b
      && s[n + |b|..n + |b| + |c|] == c && s[n + |b| + |c|..n + |b| + |c| + |d|] == d
  {}

  /** The first half of a shape is its opening. */
  lemma Opening(scr: Scripts, who: bool, shape: seq<Shape>, init: seq<Shape>, rest: seq<Shape>)
    requires Follows(scr, who, shape) && shape == init + rest && |init| == 519
    ensures shape[3..7] == init[3..7] && shape[7..519] == init[7..519]
    ensures FollowsAt(scr, who, 0, init[0]) && FollowsAt(scr, who, 1, init[1]) && FollowsAt(scr, who, 2, init[2])
    ensures |scr.Of(who)| == |shape|
  {
    assert shape[0] == init[0] && shape[1] == init[1] && shape[2] == init[2];
  }

  lemma ReceiverOpening(z: Sizes, init: seq<Shape>)
    requires init == ReceiverInit(z)
    ensures init[0] == Out(128) && init[1] == In([128, 16 * z.fe]) && init[2] == Out(1024 * z.fe)
    ensures init[3..7] == Ins(Repeat(128 * 128, 4)) && init[7..519] == Outs(Repeat(256, 512))
  {}

  lemma SenderOpening(z: Sizes, init: seq<Shape>)
    requires init == SenderInit(z)
    ensures init[0] == Out(128) && init[1] == Out(16 * z.fe) && init[2] == In([128, 1024 * z.fe])
    ensures init[3..7] == Outs(Repeat(128 * 128, 4)) && init[7..519] == Ins(Repeat(256, 512))
  {}

  lemma SenderParts(z: Sizes, scr: Scripts)
    requires Scripted(z, scr)
    ensures SendsOne(scr, false, 0, 128) && SendsOne(scr, false, 1, 16 * z.fe)
    ensures |scr.sFalse| == 523 + |z.Batches(0)| + z.numStash && scr.sFalse[2] == Take([128, 1024 * z.fe])
    ensures Sends(scr, false, 3, Repeat(128 * 128, 4)) && Takes(scr, false, 7, Repeat(256, 512))
    ensures Takes(scr, false, 519, z.Batches(0))
    ensures var k := |z.Batches(0)|;
      Sends(scr, false, 519 + k, Repeat(z.Buffer(), 3)) && Takes(scr, false, 522 + k, [512 * z.numStash])
      && Sends(scr, false, 523 + k, Repeat(z.Buffer(), z.numStash))
  {
    hide Sends, Takes, SendsOne, Follows;
    var shape, init, k := SenderShape(z), SenderInit(z), |z.Batches(0)|;
    var a, b, c, d := Ins(z.Batches(0)), Outs(Repeat(z.Buffer(), 3)), [In([512 * z.numStash])], Outs(Repeat(z.Buffer(), z.numStash));
    Opening(scr, false, shape, init, a + (b + (c + d)));
    SenderOpening(z, init);
    Middle(init, a, b + (c + d));
    InsTake(scr, false, shape, 519, z.Batches(0));
    Tail(init, a, b, c, d);
    OutsSend(scr, false, shape, 519 + k, Repeat(z.Buffer(), 3));
    OneOut(512 * z.numStash);
    InsTake(scr, false, shape, 522 + k, [512 * z.numStash]);
    OutsSend(scr, false, shape, 523 + k, Repeat(z.Buffer(), z.numStash));
    OutsSend(scr, false, shape, 3, Repeat(128 * 128, 4));
    InsTake(scr, false, shape, 7, Repeat(256, 512));
  }

  /** The opening moves: both seeds and the points are on their way before anybody waits. */
  lemma OpeningRun(z: Sizes, scr: Scripts) returns (c: seq<bool>, t: System)
    requires Scripted(z, scr)
    ensures Leads(scr, Start(), c, t) && At(t, true, 3, 3, [], [])
  {
    hide At, Enabled, Apply, SendsOne, Follows, Sends, Takes, Leads;
    ReceiverParts(z, scr);
    SenderParts(z, scr);
    StartAt();
    var s0 := Start();
    PutStep(scr, s0, true, 0, 0, [], [], 128);
    OneStep(scr, s0, true);
    var s1 := Apply(scr, s0, true);
    AtSwap(s1, true, 1, 0, [], [] + [128]);
    assert [] + [128] == [128];
    PutStep(scr, s1, false, 0, 1, [128], [], 128);
    OneStep(scr, s1, false);
    var s2 := Apply(scr, s1, false);
    PutStep(scr, s2, false, 1, 1, [128], [128], 16 * z.fe);
    OneStep(scr, s2, false);
    var s3 := Apply(scr, s2, false);
    assert [128] + [16 * z.fe] == [128, 16 * z.fe] && [128, 16 * z.fe] + [] == [128, 16 * z.fe];
    AtSwap(s3, false, 2, 1, [128], [128, 16 * z.fe]);
    TakeStep(scr, s3, true, 1, 2, [128, 16 * z.fe], [], [128]);
    OneStep(scr, s3, true);
    var s4 := Apply(scr, s3, true);
    PutStep(scr, s4, true, 2, 2, [], [128], 1024 * z.fe);
    OneStep(scr, s4, true);
    var s5 := Apply(scr, s4, true);
    assert [128] + [1024 * z.fe] == [128, 1024 * z.fe] && [128, 1024 * z.fe] + [] == [128, 1024 * z.fe];
    AtSwap(s5, true, 3, 2, [], [128, 1024 * z.fe]);
    TakeStep(scr, s5, false, 2, 3, [128, 1024 * z.fe], [], []);
    OneStep(scr, s5, false);
    t := Apply(scr, s5, false);
    AtSwap(t, false, 3, 3, [], []);
    LeadsOn(scr, s4, [true], s5, [false], t);
    LeadsOn(scr, s3, [true], s4, [true] + [false], t);
    LeadsOn(scr, s2, [false], s3, [true] + ([true] + [false]), t);
    LeadsOn(scr, s1, [false], s2, [false] + ([true] + ([true] + [false])), t);
    c := [true] + ([false] + ([false] + ([true] + ([true] + [false]))));
    LeadsOn(scr, s0, [true], s1, [false] + ([false] + ([true] + ([true] + [false]))), t);
  }

  lemma StartAt()
    ensures At(Start(), true, 0, 0, [], [])
  {
    assert SizesOf([]) == [];
  }

  /** One schedule that runs the whole session, lock step. */
  lemma SomeRun(z: Sizes, scr: Scripts) returns (c: seq<bool>, f: System)
    requires Scripted(z, scr)
    ensures Leads(scr, Start(), c, f) && At(f, true, |scr.sTrue|, |scr.sFalse|, [], [])
  {
    hide At, Follows, Sends, Takes, Leads, SendsOne;
    ReceiverParts(z, scr);
    SenderParts(z, scr);
    var k := |z.Batches(0)|;
    var c0, t0 := OpeningRun(z, scr);
    AtSwap(t0, true, 3, 3, [], []);
    var c1, t1 := Exchange(scr, t0, false, 3, 3, Repeat(128 * 128, 4));
    LeadsOn(scr, Start(), c0, t0, c1, t1);
    AtSwap(t1, false, 7, 7, [], []);
    var c2, t2 := Exchange(scr, t1, true, 7, 7, Repeat(256, 512));
    LeadsOn(scr, Start(), c0 + c1, t1, c2, t2);
    var c3, t3 := Exchange(scr, t2, true, 519, 519, z.Batches(0));
    LeadsOn(scr, Start(), c0 + c1 + c2, t2, c3, t3);
    AtSwap(t3, true, 519 + k, 519 + k, [], []);
    var c4, t4 := Exchange(scr, t3, false, 519 + k, 519 + k, Repeat(z.Buffer(), 3));
    LeadsOn(scr, Start(), c0 + c1 + c2 + c3, t3, c4, t4);
    AtSwap(t4, false, 522 + k, 522 + k, [], []);
    var c5, t5 := Exchange(scr, t4, true, 522 + k, 522 + k, [512 * z.numStash]);
    LeadsOn(scr, Start(), c0 + c1 + c2 + c3 + c4, t4, c5, t5);
    AtSwap(t5, true, 523 + k, 523 + k, [], []);
    var c6, t6 := Exchange(scr, t5, false, 523 + k, 523 + k, Repeat(z.Buffer(), z.numStash));
    LeadsOn(scr, Start(), c0 + c1 + c2 + c3 + c4 + c5, t5, c6, t6);
    AtSwap(t6, false, 523 + k + z.numStash, 523 + k + z.numStash, [], []);
    c, f := c0 + c1 + c2 + c3 + c4 + c5 + c6, t6;
  }

  lemma EndIsFinal(scr: Scripts, f: System)
    requires At(f, true, |scr.sTrue|, |scr.sFalse|, [], [])
    ensures Final(scr, f) && f.toTrue == [] && f.toFalse == []
  {
    assert |SizesOf(f.toTrue)| == |f.toTrue| && |SizesOf(f.toFalse)| == |f.toFalse|;
  }

  /** Every session runs to completion, however it is scheduled: there is one end f, in which both parties are through
      and no message is left unread; no schedule is longer than c; on the way nobody has met a wrong size; and where
      nobody can move, that end is reached. */
  lemma EverySessionCompletes(z: Sizes, scr: Scripts, d: seq<bool>, t: System) returns (c: seq<bool>, f: System)
    requires Scripted(z, scr) && Leads(scr, Start(), d, t)
    ensures Final(scr, f) && f.toTrue == [] && f.toFalse == [] && Leads(scr, Start(), c, f) && |d| <= |c|
    ensures !t.pTrue.failed && !t.pFalse.failed
    ensures (forall who: bool :: !Enabled(scr, t, who)) <==> t == f
  {
    hide Follows, Enabled, Leads;
    c, f := SomeRun(z, scr);
    EndIsFinal(scr, f);
    NoDeadlock(scr, Start(), c, f, d, t);
    var e := Confluent(scr, Start(), c, f, d, t);
    NobodyFailed(scr, t, e, f, true);
    NobodyFailed(scr, t, e, f, false);
  }
}
