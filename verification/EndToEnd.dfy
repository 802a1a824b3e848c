/** The whole stack under every schedule: base OTs, extension, hashing, masks and matching compute the intersection. */
module EndToEnd {
  import opened Channels
  import opened Histories
  import opened Oprf
  import opened Parties
  import opened Processes
  import opened Session
  import BaseSsot
  import Iknp
  import NaorPinkas
  import MaskClash
  import Params
  import Psi
  import Threads = NaorPinkasThreads
  import R = PsiReceiver
  import S = PsiSender

  /** The message sizes of a session of these parties. */
  function SizesOfSession<E(!new)>(p: Parties<E>): Sizes { Sizes(p.fe, |p.x|, p.binCount, p.numStash, p.Ms()) }

  /** What each party sends when, message by message. */
  function RecvPlans(z: Sizes): seq<Plan>
    requires z.Valid()
  {
    Plans([128], 0) + Plans([1024 * z.fe], 2) + Plans(Repeat(256, 512), 6) + Plans(z.Batches(0), 6) + Plans([512 * z.numStash], 9)
  }

  function SendPlans(z: Sizes): seq<Plan>
    requires z.Valid()
  {
    var k := 514 + |z.Batches(0)|;
    Plans([128, 16 * z.fe], 0) + Plans(Repeat(128 * 128, 4), 2) + Plans(Repeat(z.Buffer(), 3), k)
    + Plans(Repeat(z.Buffer(), z.numStash), k + 1)
  }

  lemma RecvPlanned(z: Sizes)
    requires z.Valid()
    ensures Planned(ReceiverShape(z), RecvPlans(z))
  {
    hide Planned, Sizes.Batches, Repeat, Plans, Outs, Ins;
    var b, buf := z.Batches(0), z.Buffer();
    Empty();
    PlanOuts([], [], [128]);
    var s1 := [] + Outs([128]);
    var p1 := [] + Plans([128], 0);
    PlanNext(s1, p1, In([128, 16 * z.fe]));
    var s2 := s1 + [In([128, 16 * z.fe])];
    PlanOuts(s2, p1, [1024 * z.fe]);
    var s3, p3 := s2 + Outs([1024 * z.fe]), p1 + Plans([1024 * z.fe], 2);
    PlanIns(s3, p3, Repeat(128 * 128, 4));
    var s4 := s3 + Ins(Repeat(128 * 128, 4));
    PlanOuts(s4, p3, Repeat(256, 512));
    var s5, p5 := s4 + Outs(Repeat(256, 512)), p3 + Plans(Repeat(256, 512), 6);
    PlanOuts(s5, p5, b);
    var s6, p6 := s5 + Outs(b), p5 + Plans(b, 6);
    PlanIns(s6, p6, Repeat(buf, 3));
    var s7 := s6 + Ins(Repeat(buf, 3));
    PlanOuts(s7, p6, [512 * z.numStash]);
    var s8, p8 := s7 + Outs([512 * z.numStash]), p6 + Plans([512 * z.numStash], 9);
    PlanIns(s8, p8, Repeat(buf, z.numStash));
    OneOut(128);
    OneOut(1024 * z.fe);
    OneOut(512 * z.numStash);
    assert s8 + Ins(Repeat(buf, z.numStash)) == ReceiverShape(z);
    assert p8 == RecvPlans(z);
  }

  lemma Empty()
    ensures Planned([], []) && InsBefore([], 0) == 0
  {}

  lemma SendPlanned(z: Sizes)
    requires z.Valid()
    ensures Planned(SenderShape(z), SendPlans(z))
  {
    hide Planned, Sizes.Batches, Repeat, Plans, Outs, Ins;
    var b, buf := z.Batches(0), z.Buffer();
    Empty();
    PlanOuts([], [], [128, 16 * z.fe]);
    var s1 := [] + Outs([128, 16 * z.fe]);
    var p1 := [] + Plans([128, 16 * z.fe], 0);
    PlanNext(s1, p1, In([128, 1024 * z.fe]));
    var s2 := s1 + [In([128, 1024 * z.fe])];
    PlanOuts(s2, p1, Repeat(128 * 128, 4));
    var s3, p3 := s2 + Outs(Repeat(128 * 128, 4)), p1 + Plans(Repeat(128 * 128, 4), 2);
    PlanIns(s3, p3, Repeat(256, 512));
    var s4 := s3 + Ins(Repeat(256, 512));
    PlanIns(s4, p3, b);
    var s5 := s4 + Ins(b);
    PlanOuts(s5, p3, Repeat(buf, 3));
    var s6, p6 := s5 + Outs(Repeat(buf, 3)), p3 + Plans(Repeat(buf, 3), 514 + |b|);
    PlanIns(s6, p6, [512 * z.numStash]);
    var s7 := s6 + Ins([512 * z.numStash]);
    PlanOuts(s7, p6, Repeat(buf, z.numStash));
    OneOut(512 * z.numStash);
    TwoOuts(128, 16 * z.fe);
    assert s7 + Outs(Repeat(buf, z.numStash)) == SenderShape(z);
    assert p6 + Plans(Repeat(buf, z.numStash), 515 + |b|) == SendPlans(z);
  }

  lemma TwoOuts(a: nat, b: nat)
    ensures Outs([a, b]) == [Out(a), Out(b)]
  {}

  /** The plans one by one. */
  lemma RecvPlanAt(z: Sizes, k: nat)
    requires z.Valid() && k < |RecvPlans(z)|
    ensures |RecvPlans(z)| == 515 + |z.Batches(0)|
    ensures RecvPlans(z)[k] ==
      if k == 0 then Plan(128, 0) else if k == 1 then Plan(1024 * z.fe, 2) else if k < 514 then Plan(256, 6)
      else if k < 514 + |z.Batches(0)| then Plan(z.Batches(0)[k - 514], 6) else Plan(512 * z.numStash, 9)
  {}

  lemma SendPlanAt(z: Sizes, k: nat)
    requires z.Valid() && k < |SendPlans(z)|
    ensures |SendPlans(z)| == 9 + z.numStash
    ensures SendPlans(z)[k] ==
      if k == 0 then Plan(128, 0) else if k == 1 then Plan(16 * z.fe, 0) else if k < 6 then Plan(128 * 128, 2)
      else if k < 9 then Plan(z.Buffer(), 514 + |z.Batches(0)|) else Plan(z.Buffer(), 515 + |z.Batches(0)|)
  {}

  /** The receiver's batches have the sizes of the session. */
  lemma {:induction false} BatchSize(z: Sizes, r: R.View, from: nat)
    requires r.Valid() && z.Valid() && |r.bins| == z.binCount && from <= z.binCount
    ensures |z.Batches(from)| == |r.Batches(from)| == S.BatchCount(from, z.binCount)
    ensures forall i | 0 <= i < |z.Batches(from)| :: z.Batches(from)[i] == |r.Batches(from)[i]| > 0
    decreases z.binCount - from
  {
    if from < z.binCount { BatchSize(z, r, S.BatchEnd(from, z.binCount)); }
  }

  lemma LaterRecvSized<E(!new)>(p: Parties<E>, z: Sizes, k: nat, got: seq<Message>)
    requires p.Valid() && z == SizesOfSession(p) && z.Valid() && 514 <= k <= 514 + |z.Batches(0)|
    ensures |p.RecvPut(k, got)| == (if k < 514 + |z.Batches(0)| then z.Batches(0)[k - 514] else 512 * z.numStash) > 0
  {
    hide NaorPinkas.Group.Valid, Parties.Pairs, FlatMasks, BaseSsot.CheckMessage;
    var r := p.RecvView(got);
    hide Parties.RecvView;
    BatchSize(z, r, 0);
  }

  /** Every message a party makes has its planned size, whatever it has received. */
  lemma RecvSized<E(!new)>(p: Parties<E>, z: Sizes, k: nat, got: seq<Message>)
    requires p.Valid() && z == SizesOfSession(p) && z.Valid() && k < |RecvPlans(z)|
    ensures |p.RecvPut(k, got)| == RecvPlans(z)[k].size > 0
  {
    hide NaorPinkas.Group.Valid, Parties.Pairs, RecvPlans, FlatMasks, Parties.Keys, Parties.PointAt, R.View.Valid;
    RecvPlanAt(z, k);
    if k >= 514 {
      LaterRecvSized(p, z, k, got);
    }
  }

  lemma SendSized<E(!new)>(p: Parties<E>, z: Sizes, k: nat, got: seq<Message>)
    requires p.Valid() && z == SizesOfSession(p) && z.Valid() && k < |SendPlans(z)|
    ensures |p.SendPut(k, got)| == SendPlans(z)[k].size > 0
  {
    hide NaorPinkas.Group.Valid, SendPlans;
    SendPlanAt(z, k);
    var s := p.SendView(got);
    hide Parties.SendView, FlatMasks;
  }

  /** A party's messages: two to open, then a middle part, then the online phase. */
  function Lines(a: Message, b: Message, mid: seq<Message>, rest: seq<Message>): (l: seq<Message>)
    ensures |l| == 2 + |mid| + |rest|
  {
    [a, b] + mid + rest
  }

  lemma LineAt(a: Message, b: Message, mid: seq<Message>, rest: seq<Message>, k: nat)
    requires k < 2 + |mid| + |rest|
    ensures Lines(a, b, mid, rest)[k] == if k == 0 then a else if k == 1 then b else if k - 2 < |mid| then mid[k - 2] else rest[k - 2 - |mid|]
  {}

  /** The parts of a prefix. */
  lemma LinesPrefix(a: Message, b: Message, mid: seq<Message>, rest: seq<Message>, n: nat)
    requires 2 <= n <= 2 + |mid| + |rest|
    ensures Lines(a, b, mid, rest)[..n][1] == b
    ensures n >= 2 + |mid| ==> Lines(a, b, mid, rest)[..n][2..2 + |mid|] == mid
    ensures n >= 2 + |mid| ==> Lines(a, b, mid, rest)[..n][2 + |mid|..] == rest[..n - 2 - |mid|]
  {}

  /** What the two parties say to each other, whatever the schedule. */
  ghost function RecvTold<E(!new)>(p: Parties<E>): (l: seq<Message>)
    requires p.Valid()
    ensures |l| == 515 + S.BatchCount(0, p.binCount)
  {
    hide Parties.Check, Parties.Asked, Parties.KeyBuffer;
    Lines(p.recvSeed, p.KeyBuffer(), p.Check(), p.Asked())
  }

  ghost function SendTold<E(!new)>(p: Parties<E>): (l: seq<Message>)
    requires p.Valid()
    ensures |l| == 9 + p.numStash
  {
    Lines(p.sendSeed, p.Points(), p.TrueColumns(), p.Answered())
  }

  /** The receiver says its part once it has taken what its plan says. */
  lemma RecvSays<E(!new)>(p: Parties<E>, z: Sizes, k: nat)
    requires p.Valid() && z == SizesOfSession(p) && z.Valid() && k < |RecvPlans(z)| == |RecvTold(p)|
    requires RecvPlans(z)[k].taken <= |SendTold(p)|
    ensures p.RecvPut(k, SendTold(p)[..RecvPlans(z)[k].taken]) == RecvTold(p)[k]
  {
    hide Parties.Valid, Parties.Points, Parties.TrueColumns, Parties.KeyBuffer, Parties.Check, Parties.Asked, Parties.Answered, Lines,
      Parties.Pairs, Parties.RecvView, Parties.Keys, RecvPlans, FlatMasks, BaseSsot.CheckMessage;
    var n := RecvPlans(z)[k].taken;
    RecvPlanAt(z, k);
    LineAt(p.recvSeed, p.KeyBuffer(), p.Check(), p.Asked(), k);
    if k > 0 {
      LinesPrefix(p.sendSeed, p.Points(), p.TrueColumns(), p.Answered(), n);
      RecvSaysLater(p, k, SendTold(p)[..n]);
    }
  }

  lemma RecvSaysLater<E(!new)>(p: Parties<E>, k: nat, got: seq<Message>)
    requires p.Valid() && k > 0 && |got| >= 2 && got[1] == p.Points()
    requires k > 1 ==> |got| >= 6 && got[2..6] == p.TrueColumns()
    ensures p.RecvPut(k, got) ==
      if k == 1 then p.KeyBuffer() else if k < 514 then p.Check()[k - 2]
      else if k - 514 < |p.Asked()| then p.Asked()[k - 514] else []
  {
    hide NaorPinkas.Group.Valid, Parties.Pairs, FlatMasks, Parties.Keys, Parties.PointAt, R.View.Sent, Parties.TrueColumns,
      Parties.RecvView, Parties.TruePairs, Parties.Points, BaseSsot.CheckMessage;
    p.ReadsPoints(got);
    if k > 1 { p.ReadsPairs(got); }
  }

  /** The batches alone already give the sender all bin corrections. */
  lemma BatchesSuffice(r: R.View, s: S.View, asked: seq<Message>, corr: seq<Message>)
    requires r.Valid() && s.Valid() && |r.bins| == s.binCount && |r.stash| == |s.stashPerms| && asked == r.Sent()
    requires S.BatchCount(0, s.binCount) <= |corr| && corr <= asked
    ensures S.CorrRows(corr, 0, s.binCount) == S.CorrRows(asked, 0, s.binCount) && s.SizesFit(asked)
    ensures S.BatchCount(0, s.binCount) < |corr| ==> corr == asked
  {
    hide S.CorrRows, S.View.SizesFit, R.View.Batches, S.BatchCount, R.View.Valid, S.View.Valid, R.View.StashMessage;
    Psi.SentReadsBack(r, s);
    Psi.BatchesReadBack(r, 0, []);
    Psi.BatchesReadBack(r, 0, [r.StashMessage()]);
    Cut(r.Batches(0), r.StashMessage(), corr);
    assert r.Batches(0) + [] == r.Batches(0);
  }

  lemma Cut(a: seq<Message>, m: Message, b: seq<Message>)
    requires |a| <= |b| && b <= a + [m]
    ensures b == a || b == a + [m]
  {
    if |b| == |a| { assert b == a; } else { assert b == a + [m]; }
  }

  /** The sender's answers, made of the batches first and of all corrections then. */
  lemma AnswersFromCorrections(r: R.View, s: S.View, asked: seq<Message>, corr: seq<Message>, k: nat)
    requires r.Valid() && s.Valid() && |r.bins| == s.binCount && |r.stash| == |s.stashPerms| && asked == r.Sent()
    requires corr <= asked && k < 3 + |s.stashPerms| && S.BatchCount(0, s.binCount) + (if k < 3 then 0 else 1) <= |corr|
    ensures s.SizesFit(asked) && (k >= 3 ==> corr == asked)
    ensures s.Sent(asked)[k] == if k < 3 then s.BucketMessages(S.CorrRows(corr, 0, s.binCount), 3)[k]
                                else s.StashMessages(s.StashRows(asked), |s.stashPerms|)[k - 3]
  {
    BatchesSuffice(r, s, asked, corr);
    hide S.CorrRows, S.View.SizesFit, R.View.Batches, S.BatchCount, R.View.Valid, S.View.Valid, R.View.Sent, S.View.BucketMessages,
      S.View.StashMessages, S.View.StashRows;
    var a, b := s.BucketMessages(S.CorrRows(asked, 0, s.binCount), 3), s.StashMessages(s.StashRows(asked), |s.stashPerms|);
    assert s.Sent(asked) == a + b;
  }

  /** The sender says its part once it has taken what its plan says. */
  lemma SendSays<E(!new)>(p: Parties<E>, z: Sizes, k: nat, told: seq<Message>, n: nat, says: seq<Message>, line: Message)
    requires k < |says| && line == says[k] && n <= |told|
    requires z.Valid() && k < |SendPlans(z)| && n == SendPlans(z)[k].taken && |z.Batches(0)| == S.BatchCount(0, p.binCount)
    requires z == SizesOfSession(p) && p.Valid() && told == RecvTold(p) && says == SendTold(p)
    ensures p.SendPut(k, told[..n]) == line
  {
    hide Parties.Valid, Parties.Points, Parties.TrueColumns, Parties.KeyBuffer, Parties.Check, Parties.Asked, Parties.Answered, Lines,
      Parties.SendView, SendPlans, FlatMasks, Sizes.Batches, S.CorrRows, S.View.SizesFit, Iknp.SentColumns;
    SendPlanAt(z, k);
    LineAt(p.sendSeed, p.Points(), p.TrueColumns(), p.Answered(), k);
    if k > 1 {
      LinesPrefix(p.recvSeed, p.KeyBuffer(), p.Check(), p.Asked(), n);
      var got := told[..n];
      if k < 6 {
        SendSaysColumns(p, k, got);
      } else {
        SendSaysOnline(p, k, got, p.Asked(), p.Answered(), line);
      }
    }
  }

  lemma SendSaysColumns<E(!new)>(p: Parties<E>, k: nat, got: seq<Message>)
    requires p.Valid() && 2 <= k < 6 && |got| >= 2 && got[1] == p.KeyBuffer()
    ensures p.SendPut(k, got) == p.TrueColumns()[k - 2]
  {
    hide NaorPinkas.Group.Valid, FlatMasks, Parties.SendView, Parties.TruePairs, Parties.TrueBase, Parties.KeyBuffer, Iknp.SentColumns;
    p.ReadsKeys(got);
  }

  lemma SendSaysOnline<E(!new)>(p: Parties<E>, k: nat, got: seq<Message>, asked: seq<Message>, answered: seq<Message>, line: Message)
    requires |got| >= 514 + S.BatchCount(0, p.binCount) + (if k < 9 then 0 else 1) && got[514..] <= asked
    requires 6 <= k < 6 + |answered| == 9 + p.numStash && line == answered[k - 6]
    requires p.Valid() && got[1] == p.KeyBuffer() && asked == p.Asked() && answered == p.Answered()
    ensures p.SendPut(k, got) == line
  {
    hide NaorPinkas.Group.Valid, FlatMasks, Parties.TrueColumns, Parties.SendView, Parties.TruePairs, Parties.TrueBase, Parties.KeyBuffer,
      S.CorrRows, S.View.SizesFit, S.View.BucketMessages, S.View.StashMessages, R.View.Sent, S.View.Sent, S.View.StashRows, S.BatchCount;
    p.ReadsKeys(got);
    AnswersFromCorrections(p.Run().Receiver(), p.Run().Sender(), asked, got[514..], k - 6);
  }

  ghost function RecvPuts<E(!new)>(p: Parties<E>): (nat, seq<Message>) -> Message
    requires p.Valid()
  {
    (k: nat, got: seq<Message>) => p.RecvPut(k, got)
  }

  ghost function SendPuts<E(!new)>(p: Parties<E>): (nat, seq<Message>) -> Message
    requires p.Valid()
  {
    (k: nat, got: seq<Message>) => p.SendPut(k, got)
  }

  /** The two parties as scripts, and everything they will say. */
  ghost function ScriptsOf<E(!new)>(p: Parties<E>): Scripts
    requires p.Valid()
  {
    var z := SizesOfSession(p);
    Scripts(ScriptOf(ReceiverShape(z), RecvPuts(p)), ScriptOf(SenderShape(z), SendPuts(p)))
  }

  ghost function Told<E(!new)>(p: Parties<E>): Story
    requires p.Valid()
  {
    Story(RecvTold(p), SendTold(p))
  }

  lemma SizesValid<E(!new)>(p: Parties<E>)
    requires p.Valid()
    ensures var z := SizesOfSession(p); z.Valid() && |z.Batches(0)| == S.BatchCount(0, p.binCount)
    ensures |RecvPlans(SizesOfSession(p))| == |RecvTold(p)| && |SendPlans(SizesOfSession(p))| == |SendTold(p)|
  {
    hide Parties.KeyBuffer, Parties.Check, Parties.Asked, Parties.Answered, Parties.TrueColumns, Parties.Points, Lines, NaorPinkas.Group.Valid;
    Params.MaskSizeRange(|p.x|, |p.y|);
    var r := p.RecvView([]);
    BatchSize(SizesOfSession(p), r, 0);
  }

  lemma RecvAllSized<E(!new)>(p: Parties<E>, z: Sizes)
    requires p.Valid() && z == SizesOfSession(p) && z.Valid()
    ensures AllSized(RecvPlans(z), RecvPuts(p))
  {
    hide Parties.Valid, RecvPlans, Parties.RecvPut;
    forall k | 0 <= k < |RecvPlans(z)|
      ensures RecvPlans(z)[k].size > 0 && forall got :: |RecvPuts(p)(k, got)| == RecvPlans(z)[k].size
    {
      forall got ensures |RecvPuts(p)(k, got)| == RecvPlans(z)[k].size { RecvSized(p, z, k, got); }
      RecvSized(p, z, k, []);
    }
  }

  lemma SendAllSized<E(!new)>(p: Parties<E>, z: Sizes)
    requires p.Valid() && z == SizesOfSession(p) && z.Valid()
    ensures AllSized(SendPlans(z), SendPuts(p))
  {
    hide Parties.Valid, SendPlans, Parties.SendPut;
    forall k | 0 <= k < |SendPlans(z)|
      ensures SendPlans(z)[k].size > 0 && forall got :: |SendPuts(p)(k, got)| == SendPlans(z)[k].size
    {
      forall got ensures |SendPuts(p)(k, got)| == SendPlans(z)[k].size { SendSized(p, z, k, got); }
      SendSized(p, z, k, []);
    }
  }

  lemma RecvAllSaid<E(!new)>(p: Parties<E>, z: Sizes, says: seq<Message>, told: seq<Message>)
    requires z.Valid() && |says| == |RecvPlans(z)| && |told| >= 9
    requires z == SizesOfSession(p) && p.Valid() && says == RecvTold(p) && told == SendTold(p)
    ensures AllSaid(RecvPlans(z), RecvPuts(p), says, told)
  {
    hide Parties.Valid, RecvPlans, Parties.RecvPut, RecvTold, SendTold;
    forall k | 0 <= k < |RecvPlans(z)|
      ensures RecvPlans(z)[k].taken <= |told| && RecvPuts(p)(k, told[..RecvPlans(z)[k].taken]) == says[k]
    {
      RecvPlanAt(z, k);
      RecvSays(p, z, k);
    }
  }

  lemma SendAllSaid<E(!new)>(p: Parties<E>, z: Sizes, says: seq<Message>, told: seq<Message>)
    requires z.Valid() && |says| == |SendPlans(z)| && |told| == 515 + |z.Batches(0)| && |z.Batches(0)| == S.BatchCount(0, p.binCount)
    requires z == SizesOfSession(p) && p.Valid() && says == SendTold(p) && told == RecvTold(p)
    ensures AllSaid(SendPlans(z), SendPuts(p), says, told)
  {
    hide Parties.Valid, SendPlans, Parties.SendPut, RecvTold, SendTold, Sizes.Batches;
    forall k | 0 <= k < |SendPlans(z)|
      ensures SendPlans(z)[k].taken <= |told| && SendPuts(p)(k, told[..SendPlans(z)[k].taken]) == says[k]
    {
      SendPlanAt(z, k);
      SendSays(p, z, k, told, SendPlans(z)[k].taken, says, says[k]);
    }
  }

  /** The scripts have the shape of a session. */
  lemma FollowShapes<E(!new)>(p: Parties<E>)
    requires p.Valid()
    ensures Scripted(SizesOfSession(p), ScriptsOf(p))
  {
    hide Parties.Valid, Planned, RecvPlans, SendPlans, ReceiverShape, SenderShape, Follows, RecvPuts, SendPuts, ScriptOf,
      RecvTold, SendTold, AllSized, Sizes.Valid, SizesOfSession;
    SizesValid(p);
    var z, scr := SizesOfSession(p), ScriptsOf(p);
    RecvPlanned(z);
    SendPlanned(z);
    RecvAllSized(p, z);
    SendAllSized(p, z);
    PlanFollows(scr, true, ReceiverShape(z), RecvPlans(z), RecvPuts(p));
    PlanFollows(scr, false, SenderShape(z), SendPlans(z), SendPuts(p));
  }

  /** The story is what the scripts make of each other. */
  lemma StoryExplains<E(!new)>(p: Parties<E>)
    requires p.Valid()
    ensures forall who: bool :: Explains(ScriptsOf(p), Told(p), who)
  {
    hide Parties.Valid, Planned, RecvPlans, SendPlans, ReceiverShape, SenderShape, RecvPuts, SendPuts, ScriptOf,
      RecvTold, SendTold, Explains, Sizes.Batches, AllSaid, Sizes.Valid, SizesOfSession;
    SizesValid(p);
    var z, scr, h := SizesOfSession(p), ScriptsOf(p), Told(p);
    RecvPlanned(z);
    SendPlanned(z);
    RecvAllSaid(p, z, RecvTold(p), SendTold(p));
    SendAllSaid(p, z, SendTold(p), RecvTold(p));
    PlanExplains(scr, h, true, ReceiverShape(z), RecvPlans(z), RecvPuts(p));
    PlanExplains(scr, h, false, SenderShape(z), SendPlans(z), SendPuts(p));
    forall who: bool ensures Explains(scr, h, who) {
      assert who == true || who == false;
    }
  }

  lemma StartTells<E(!new)>(p: Parties<E>)
    requires p.Valid()
    ensures forall who: bool :: Tells(ScriptsOf(p), Told(p), Start(), who)
  {
    hide Parties.Valid, RecvTold, SendTold, ScriptOf, ReceiverShape, SenderShape;
    assert [] + [] == Told(p).fromTrue[..0] && [] + [] == Told(p).fromFalse[..0];
  }

  /** Every schedule of a session that can go no further has finished, and has delivered the whole story. */
  lemma EveryScheduleDelivers<E(!new)>(p: Parties<E>, d: seq<bool>, t: System)
    requires p.Valid() && p.PairsDiffer()
    requires Leads(ScriptsOf(p), Start(), d, t) && forall who: bool :: !Enabled(ScriptsOf(p), t, who)
    ensures Final(ScriptsOf(p), t) && t.toTrue == [] && t.toFalse == []
    ensures t.pTrue.got == SendTold(p) && t.pFalse.got == RecvTold(p)
  {
    hide Parties.Valid, Parties.PairsDiffer, Scripted, Leads, Enabled, Final, Explains, Tells, RecvTold, SendTold, ScriptsOf, SizesOfSession;
    FollowShapes(p);
    StoryExplains(p);
    StartTells(p);
    var c, f := EverySessionCompletes(SizesOfSession(p), ScriptsOf(p), d, t);
    AllTold(ScriptsOf(p), Told(p), Start(), d, t);
  }

  /** On the whole story, the receiver records what the run records. */
  lemma RecordsTheRun<E(!new)>(p: Parties<E>, got: seq<Message>)
    requires p.Valid() && got == SendTold(p)
    ensures p.BuffersFit(got) && p.Result(got) == p.Recorded()
  {
    hide NaorPinkas.Group.Valid, Parties.Points, Parties.TrueColumns, Parties.TruePairs, Parties.TrueBase, Parties.RecvView, Lines, R.View.SizesFit,
      S.View.SizesFit, S.View.Sent, R.View.Sent;
    p.RunIsValid();
    Psi.SizesAgree(p.Run());
    LinesPrefix(p.sendSeed, p.Points(), p.TrueColumns(), p.Answered(), |got|);
    assert got[..|got|] == got && p.Answered()[..|got| - 6] == p.Answered();
    p.ReadsPairs(got);
  }

  /** The sender's check passes on it. */
  lemma ChecksPass<E(!new)>(p: Parties<E>, got: seq<Message>)
    requires p.Valid() && got == RecvTold(p)
    ensures p.CheckPasses(got)
  {
    hide NaorPinkas.Group.Valid, Parties.Asked, Parties.TruePairs, Parties.TrueBase, BaseSsot.CheckMessage, BaseSsot.First,
      BaseSsot.Second, BaseSsot.ReceiverOutputs, Parties.KeyBuffer, Parties.TrueColumns;
    p.RunIsValid();
    p.ReadsKeys(got);
    forall j | 0 <= j < 512
      ensures |got[2 + j]| == 256 && p.Chosen(got)[j] == if p.choice[j] then got[2 + j][128..] else got[2 + j][..128]
    {
      BaseSsot.CheckPasses(p.Run().seeds0, p.Run().seeds1, p.Run().chosen, p.choice, j);
      LineAt(p.recvSeed, p.KeyBuffer(), p.Check(), p.Asked(), 2 + j);
    }
  }

  /** The whole stack, from the base OTs on: however a session is scheduled, when nobody can move any more both parties
      are through, nothing is left unread, the check of the base OTs has passed, and the receiver has recorded exactly
      its indices of common items, each once. */
  lemma EverySessionIntersects<E(!new)>(p: Parties<E>, d: seq<bool>, t: System)
    requires p.Valid() && p.PairsDiffer() && p.NoMishap()
    requires Leads(ScriptsOf(p), Start(), d, t) && forall who: bool :: !Enabled(ScriptsOf(p), t, who)
    ensures Final(ScriptsOf(p), t) && t.toTrue == [] && t.toFalse == [] && p.CheckPasses(t.pFalse.got)
    ensures p.BuffersFit(t.pTrue.got) && Psi.IsIntersection(p.Result(t.pTrue.got), p.y, p.x)
  {
    hide Parties.NoMishap, Parties.PairsDiffer, Parties.Valid, Leads, Enabled, Final, ScriptsOf, RecvTold, SendTold, Parties.CheckPasses, Parties.BuffersFit,
      Parties.Result, Parties.Recorded, Psi.IsIntersection;
    EveryScheduleDelivers(p, d, t);
    ChecksPass(p, t.pFalse.got);
    RecordsTheRun(p, t.pTrue.got);
    p.RecordedExact();
  }

  /** The run's values, rows and digests are apart. */
  ghost predicate Apart<E(!new)>(p: Parties<E>)
    requires p.Valid()
  {
    p.RunIsValid();
    MaskClash.Apart(p.Run())
  }

  /** The same from conditions on the OPRF values and the hash alone. */
  lemma EverySessionExact<E(!new)>(p: Parties<E>, d: seq<bool>, t: System)
    requires p.Valid() && p.PairsDiffer() && Apart(p)
    requires Leads(ScriptsOf(p), Start(), d, t) && forall who: bool :: !Enabled(ScriptsOf(p), t, who)
    ensures Final(ScriptsOf(p), t) && t.toTrue == [] && t.toFalse == [] && p.CheckPasses(t.pFalse.got)
    ensures p.BuffersFit(t.pTrue.got) && Psi.IsIntersection(p.Result(t.pTrue.got), p.y, p.x)
  {
    hide Parties.PairsDiffer, Parties.Valid, Leads, Enabled, Final, ScriptsOf, Parties.CheckPasses, Parties.BuffersFit, Parties.Result,
      Psi.IsIntersection, Psi.NoMishap, MaskClash.Apart, Parties.Run;
    p.RunIsValid();
    MaskClash.NoMishapFrom(p.Run());
    EverySessionIntersects(p, d, t);
  }

  /** The base OT values of the story are those that the threads of both parties compute, in every schedule of any number
      of them: the key buffer that is sent, and the messages held once all threads have returned. */
  lemma ThreadsMakeTheKeys<E(!new)>(p: Parties<E>, T: nat, S: nat, states: seq<Threads.State>, acts: seq<Threads.Action>, k: nat)
    requires p.Valid() && T > 0 && S > 0 && Threads.Run(Threads.JobOf(p.secrets, T, S), states, acts) && k <= |acts|
    ensures states[k].wire.Some? ==> states[k].wire.value == p.Keys(p.secrets.c1)
    ensures Threads.Finished(Threads.JobOf(p.secrets, T, S), states[k]) ==>
      && states[k].rMsgs == p.Kept(p.secrets.C0()) && |states[k].m0| == |states[k].m1| == 128
      && forall i | 0 <= i < 128 :: states[k].m0[i] == p.TrueBase()[i].m0 && states[k].m1[i] == p.TrueBase()[i].m1
  {
    hide NaorPinkas.Group.Valid, Threads.Finished;
    var j := Threads.JobOf(p.secrets, T, S);
    Threads.RunInv(j, states, acts, k);
    if states[k].wire.Some? {
      Threads.KeysSentComplete(j, states, acts, k);
      assert forall i | 0 <= i < 128 :: j.pk[i] == p.Keys(p.secrets.c1)[i];
    }
    if Threads.Finished(j, states[k]) {
      Threads.AllWritten(j, states[k]);
      assert forall i | 0 <= i < 128 :: j.own[i] == p.Kept(p.secrets.C0())[i];
    }
  }
}
