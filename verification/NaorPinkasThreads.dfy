/** The threads of the Naor-Pinkas OTs, both parties together, under any schedule. */
module NaorPinkasThreads {
  import opened Arith
  import opened Bits
  import NaorPinkas

  type Bytes = seq<bool>

  datatype Option<T> = None | Some(value: T)

  /** What is computed: the receiver's key bytes and messages, and the sender's message pairs from received bytes; on T
      receiver threads and S sender threads. */
  datatype Job = Job(pk: seq<Bytes>, own: seq<Block>, pair: (nat, Bytes) -> BlockPair, T: nat, S: nat)
  {
    ghost predicate Valid() { |own| == |pk| && T > 0 }

    function N(): nat { |pk| }

    /** Where thread t's messages start; thread t + 1 goes on from there. */
    function Start(t: nat): (s: nat)
      requires Valid() && t <= T
      ensures s <= N()
    {
      MulNonneg(t, N());
      MulLe(t, T, N());
      assert N() * t == t * N() && N() * T == T * N();
      DivMono(t * N(), T * N(), T);
      DivUnique(T * N(), T, N());
      DivMono(0, t * N(), T);
      t * N() / T
    }

    lemma Ends()
      requires Valid()
      ensures Start(0) == 0 && Start(T) == N()
    {
      DivUnique(T * N(), T, N());
      DivUnique(0 * N(), T, 0);
    }

    lemma {:induction false} StartMono(t: nat, u: nat)
      requires Valid() && t <= u <= T
      ensures Start(t) <= Start(u)
    {
      MulLe(t, u, N());
      assert N() * t == t * N() && N() * u == u * N();
      DivMono(t * N(), u * N(), T);
    }

    /** The ranges partition the messages: every message belongs to one thread and no other. */
    lemma Owner(k: nat) returns (t: nat)
      requires Valid() && k < N()
      ensures t < T && Start(t) <= k < Start(t + 1)
      ensures forall u | 0 <= u < T && Start(u) <= k < Start(u + 1) :: u == t
    {
      hide Job.Start;
      Ends();
      t := 0;
      while Start(t + 1) <= k
        invariant t < T && Start(t) <= k
        decreases T - t
      {
        t := t + 1;
      }
      forall u | 0 <= u < T && Start(u) <= k < Start(u + 1) ensures u == t {
        if u < t {
          StartMono(u + 1, t);
        } else if t < u {
          StartMono(t + 1, u);
        }
      }
    }
  }

  datatype Pc = WaitC | Fill | Derive | Done

  datatype RThread = RThread(pc: Pc, i: nat)

  /** A sender thread: the message it is at, and whether it has written the first of the pair. */
  datatype SThread = SThread(i: nat, half: bool)

  /** The shared memory of both parties and where each thread stands. `wire` is the key buffer once it is sent. */
  datatype State = State(cSent: bool, rt: seq<RThread>, sendBuff: seq<Bytes>, remainingPK0s: int, prom: bool, wire: Option<seq<Bytes>>,
                         rMsgs: seq<Block>, st: seq<SThread>, m0: seq<Block>, m1: seq<Block>)

  datatype Action =
    | SendC               // the sender's main thread sends the two points
    | Begin(t: nat)       // receiver thread t has them
    | FillNext(t: nat)    // it writes the key of its next message
    | Count(t: nat)       // its part is filled: --remainingPK0s, and the promise when that is 0
    | DeriveNext(t: nat)  // it derives its next message
    | Finish(t: nat)
    | SendKeys            // the receiver's main thread, past the promise, sends the buffer
    | PairNext(u: nat)    // sender thread u writes one half of the pair it is at

  ghost predicate Enabled(j: Job, s: State, a: Action)
    requires j.Valid()
  {
    match a
    case SendC => !s.cSent
    case Begin(t) => t < |s.rt| && t < j.T && s.rt[t].pc == WaitC && s.cSent
    case FillNext(t) => t < |s.rt| && t < j.T && s.rt[t].pc == Fill && s.rt[t].i < j.Start(t + 1)
    case Count(t) => t < |s.rt| && t < j.T && s.rt[t].pc == Fill && s.rt[t].i >= j.Start(t + 1)
    case DeriveNext(t) => t < |s.rt| && t < j.T && s.rt[t].pc == Derive && s.rt[t].i < j.Start(t + 1)
    case Finish(t) => t < |s.rt| && t < j.T && s.rt[t].pc == Derive && s.rt[t].i >= j.Start(t + 1)
    case SendKeys => s.prom && s.wire.None?
    case PairNext(u) => u < |s.st| && s.wire.Some? && s.st[u].i < j.N()
  }

  ghost predicate Shape(j: Job, s: State) {
    && |s.rt| == j.T && |s.st| == j.S && |s.sendBuff| == |s.rMsgs| == |s.m0| == |s.m1| == j.N()
    && (s.wire.Some? ==> |s.wire.value| == j.N())
  }

  ghost function Apply(j: Job, s: State, a: Action): State
    requires j.Valid() && Shape(j, s) && Enabled(j, s, a)
  {
    match a
    case SendC => s.(cSent := true)
    case Begin(t) => s.(rt := s.rt[t := RThread(Fill, j.Start(t))])
    case FillNext(t) =>
      s.(sendBuff := s.sendBuff[s.rt[t].i := j.pk[s.rt[t].i]], rt := s.rt[t := RThread(Fill, s.rt[t].i + 1)])
    case Count(t) =>
      s.(remainingPK0s := s.remainingPK0s - 1, prom := s.prom || s.remainingPK0s == 1, rt := s.rt[t := RThread(Derive, j.Start(t))])
    case DeriveNext(t) =>
      s.(rMsgs := s.rMsgs[s.rt[t].i := j.own[s.rt[t].i]], rt := s.rt[t := RThread(Derive, s.rt[t].i + 1)])
    case Finish(t) => s.(rt := s.rt[t := RThread(Done, s.rt[t].i)])
    case SendKeys => s.(wire := Some(s.sendBuff))
    case PairNext(u) =>
      var i := s.st[u].i;
      var p := j.pair(i, s.wire.value[i]);
      if !s.st[u].half then s.(m0 := s.m0[i := p.m0], st := s.st[u := SThread(i, true)])
      else s.(m1 := s.m1[i := p.m1], st := s.st[u := SThread(i + 1, false)])
  }

  ghost predicate Init(j: Job, s: State) {
    && !s.cSent && !s.prom && s.wire.None? && s.remainingPK0s == j.T && Shape(j, s)
    && (forall t | 0 <= t < |s.rt| :: s.rt[t] == RThread(WaitC, 0))
    && (forall u | 0 <= u < |s.st| :: s.st[u] == SThread(0, false))
  }

  /** How many receiver threads have not counted down yet. */
  function Uncounted(rt: seq<RThread>): nat {
    if rt == [] then 0 else (if rt[0].pc == WaitC || rt[0].pc == Fill then 1 else 0) + Uncounted(rt[1..])
  }

  lemma {:induction false} UncountedSplit(a: seq<RThread>, b: seq<RThread>)
    ensures Uncounted(a + b) == Uncounted(a) + Uncounted(b)
  {
    if a == [] {
      assert a + b == b;
    } else {
      assert (a + b)[1..] == a[1..] + b;
      UncountedSplit(a[1..], b);
    }
  }

  lemma UncountedUpdate(rt: seq<RThread>, t: nat, x: RThread)
    requires t < |rt|
    ensures Uncounted(rt[t := x]) == Uncounted(rt) - Uncounted([rt[t]]) + Uncounted([x])
  {
    UncountedSplit(rt[..t], [rt[t]] + rt[t + 1..]);
    UncountedSplit([rt[t]], rt[t + 1..]);
    UncountedSplit(rt[..t], [x] + rt[t + 1..]);
    UncountedSplit([x], rt[t + 1..]);
    assert rt == rt[..t] + ([rt[t]] + rt[t + 1..]) && rt[t := x] == rt[..t] + ([x] + rt[t + 1..]);
  }

  lemma {:induction false} AllCounted(rt: seq<RThread>, t: nat)
    requires t < |rt| && Uncounted(rt) == 0
    ensures rt[t].pc == Derive || rt[t].pc == Done
  {
    if t > 0 { AllCounted(rt[1..], t - 1); }
  }

  /** Receiver thread t's part of the books. */
  ghost predicate ThreadInv(j: Job, s: State, t: nat)
    requires j.Valid() && Shape(j, s) && t < j.T
  {
    var x, from, to := s.rt[t], j.Start(t), j.Start(t + 1);
    && (x.pc != WaitC ==> s.cSent && from <= x.i <= to)
    && (x.pc == Done ==> x.i == to)
    && (forall k | from <= k < (match x.pc case WaitC => from case Fill => x.i case _ => to) :: s.sendBuff[k] == j.pk[k])
    && (forall k | from <= k < (if x.pc == Derive || x.pc == Done then x.i else from) :: s.rMsgs[k] == j.own[k])
  }

  /** Sender thread u's: what it has written is right, and so is what the others wrote there. */
  ghost predicate PairInv(j: Job, s: State, u: nat)
    requires j.Valid() && Shape(j, s) && u < j.S
  {
    var x := s.st[u];
    && x.i <= j.N() && (x.half ==> x.i < j.N()) && (x.i > 0 || x.half ==> s.wire.Some?)
    && (forall k | 0 <= k < x.i :: s.m0[k] == j.pair(k, j.pk[k]).m0 && s.m1[k] == j.pair(k, j.pk[k]).m1)
    && (x.half ==> s.m0[x.i] == j.pair(x.i, j.pk[x.i]).m0)
  }

  ghost predicate Inv(j: Job, s: State)
    requires j.Valid()
  {
    && Shape(j, s)
    && (forall t | 0 <= t < j.T :: ThreadInv(j, s, t))
    && (forall u | 0 <= u < j.S :: PairInv(j, s, u))
    && s.remainingPK0s == Uncounted(s.rt) && (s.prom <==> s.remainingPK0s == 0)
    && (s.wire.Some? ==> s.prom && s.wire.value == j.pk)
  }

  lemma {:induction false} AllWaiting(rt: seq<RThread>)
    requires forall t | 0 <= t < |rt| :: rt[t] == RThread(WaitC, 0)
    ensures Uncounted(rt) == |rt|
  {
    if rt != [] { AllWaiting(rt[1..]); }
  }

  lemma InitInv(j: Job, s: State)
    requires j.Valid() && Init(j, s)
    ensures Inv(j, s)
  {
    AllWaiting(s.rt);
  }

  /** A message of one thread's range is in no other thread's. */
  lemma Apart(j: Job, t: nat, u: nat, k: nat)
    requires j.Valid() && t < j.T && u < j.T && t != u && j.Start(t) <= k < j.Start(t + 1)
    ensures !(j.Start(u) <= k < j.Start(u + 1))
  {
    if u < t { j.StartMono(u + 1, t); } else { j.StartMono(t + 1, u); }
  }

  /** Once every thread has counted down, the whole buffer is filled. */
  lemma BufferFull(j: Job, s: State)
    requires j.Valid() && Inv(j, s) && s.remainingPK0s == 0
    ensures s.sendBuff == j.pk
  {
    hide Job.Start;
    forall k | 0 <= k < j.N() ensures s.sendBuff[k] == j.pk[k] {
      var t := j.Owner(k);
      AllCounted(s.rt, t);
      assert ThreadInv(j, s, t);
    }
  }

  /** While some thread still fills, the promise is not set, and so nothing has been sent. */
  lemma {:induction false} SomeUncounted(rt: seq<RThread>, t: nat)
    requires t < |rt| && (rt[t].pc == WaitC || rt[t].pc == Fill)
    ensures Uncounted(rt) > 0
  {
    if t > 0 { SomeUncounted(rt[1..], t - 1); }
  }

  ghost predicate OfThread(a: Action, t: nat) {
    a == Begin(t) || a == FillNext(t) || a == Count(t) || a == DeriveNext(t) || a == Finish(t)
  }

  /** A step of thread t keeps its own books. */
  lemma OwnThread(j: Job, s: State, a: Action, t: nat)
    requires j.Valid() && Inv(j, s) && Enabled(j, s, a) && OfThread(a, t)
    ensures t < j.T && ThreadInv(j, Apply(j, s, a), t)
  {
    hide Job.Start, PairInv;
    assert ThreadInv(j, s, t);
    j.StartMono(t, t + 1);
  }

  /** It leaves the other receiver threads' alone. */
  lemma OtherThread(j: Job, s: State, a: Action, t: nat, u: nat)
    requires j.Valid() && Inv(j, s) && Enabled(j, s, a) && OfThread(a, t) && u < j.T && u != t
    ensures ThreadInv(j, Apply(j, s, a), u)
  {
    hide Job.Start, PairInv;
    assert ThreadInv(j, s, u) && ThreadInv(j, s, t);
    if a.FillNext? || a.DeriveNext? { Apart(j, t, u, s.rt[t].i); }
  }

  /** And the sender threads' books, too. */
  lemma PairsKept(j: Job, s: State, a: Action, t: nat, u: nat)
    requires j.Valid() && Inv(j, s) && Enabled(j, s, a) && OfThread(a, t) && u < j.S
    ensures PairInv(j, Apply(j, s, a), u)
  {
    hide Job.Start, ThreadInv;
    assert PairInv(j, s, u);
  }

  lemma CountKept(j: Job, s: State, a: Action, t: nat)
    requires j.Valid() && Inv(j, s) && Enabled(j, s, a) && OfThread(a, t)
    ensures var r := Apply(j, s, a);
            && r.remainingPK0s == Uncounted(r.rt) && (r.prom <==> r.remainingPK0s == 0) && (r.wire.Some? ==> r.prom && r.wire.value == j.pk)
  {
    hide Job.Start, ThreadInv, PairInv;
    UncountedUpdate(s.rt, t, Apply(j, s, a).rt[t]);
    if a.Count? || a.FillNext? || a.Begin? { SomeUncounted(s.rt, t); }
    UncountedOne(s.rt[t]);
    UncountedOne(Apply(j, s, a).rt[t]);
  }

  lemma UncountedOne(x: RThread)
    ensures Uncounted([x]) == if x.pc == WaitC || x.pc == Fill then 1 else 0
  {
    assert Uncounted([x][1..]) == 0;
  }

  lemma ThreadKeeps(j: Job, s: State, a: Action, t: nat)
    requires j.Valid() && Inv(j, s) && Enabled(j, s, a) && OfThread(a, t)
    ensures Inv(j, Apply(j, s, a))
  {
    hide Job.Start, ThreadInv, PairInv, Uncounted;
    var r := Apply(j, s, a);
    CountKept(j, s, a, t);
    forall u | 0 <= u < j.T ensures ThreadInv(j, r, u) {
      if u == t { OwnThread(j, s, a, t); } else { OtherThread(j, s, a, t, u); }
    }
    forall u | 0 <= u < j.S ensures PairInv(j, r, u) { PairsKept(j, s, a, t, u); }
  }

  /** Sending the points or the keys. */
  lemma MainKeeps(j: Job, s: State, a: Action)
    requires j.Valid() && Inv(j, s) && Enabled(j, s, a) && (a.SendC? || a.SendKeys?)
    ensures Inv(j, Apply(j, s, a))
  {
    hide Job.Start;
    if a.SendKeys? { BufferFull(j, s); }
    var r := Apply(j, s, a);
    forall u | 0 <= u < j.T ensures ThreadInv(j, r, u) { assert ThreadInv(j, s, u); }
    forall u | 0 <= u < j.S ensures PairInv(j, r, u) { assert PairInv(j, s, u); }
  }

  /** A sender thread writes what every sender thread writes there. */
  lemma PairKeeps(j: Job, s: State, a: Action)
    requires j.Valid() && Inv(j, s) && Enabled(j, s, a) && a.PairNext?
    ensures Inv(j, Apply(j, s, a))
  {
    hide Job.Start, Uncounted;
    var r := Apply(j, s, a);
    assert PairInv(j, s, a.u);
    forall t | 0 <= t < j.T ensures ThreadInv(j, r, t) { assert ThreadInv(j, s, t); }
    forall u | 0 <= u < j.S ensures PairInv(j, r, u) { assert PairInv(j, s, u); }
  }

  lemma StepKeeps(j: Job, s: State, a: Action)
    requires j.Valid() && Inv(j, s) && Enabled(j, s, a)
    ensures Inv(j, Apply(j, s, a))
  {
    hide Inv, Job.Start;
    match a
    case SendC => MainKeeps(j, s, a);
    case SendKeys => MainKeeps(j, s, a);
    case PairNext(u) => PairKeeps(j, s, a);
    case Begin(t) => ThreadKeeps(j, s, a, t);
    case FillNext(t) => ThreadKeeps(j, s, a, t);
    case Count(t) => ThreadKeeps(j, s, a, t);
    case DeriveNext(t) => ThreadKeeps(j, s, a, t);
    case Finish(t) => ThreadKeeps(j, s, a, t);
  }

  /** A run under some schedule of the threads. */
  ghost predicate Run(j: Job, states: seq<State>, acts: seq<Action>)
    requires j.Valid()
  {
    && |states| == |acts| + 1 && Init(j, states[0])
    && forall k | 0 <= k < |acts| :: Next(j, states[k], acts[k], states[k + 1])
  }

  ghost predicate Next(j: Job, s: State, a: Action, r: State)
    requires j.Valid()
  {
    Shape(j, s) && Enabled(j, s, a) && r == Apply(j, s, a)
  }

  lemma {:induction false} RunInv(j: Job, states: seq<State>, acts: seq<Action>, k: nat)
    requires j.Valid() && Run(j, states, acts) && k <= |acts|
    ensures Inv(j, states[k])
  {
    hide Inv, Enabled, Apply, Shape;
    if k == 0 {
      InitInv(j, states[0]);
    } else {
      RunInv(j, states, acts, k - 1);
      assert Next(j, states[k - 1], acts[k - 1], states[k]);
      StepKeeps(j, states[k - 1], acts[k - 1]);
    }
  }

  /** In every schedule the buffer goes out complete, after every thread has counted down, and is not written afterwards. */
  lemma KeysSentComplete(j: Job, states: seq<State>, acts: seq<Action>, k: nat)
    requires j.Valid() && Run(j, states, acts) && k <= |acts| && states[k].wire.Some?
    ensures states[k].wire.value == j.pk && states[k].remainingPK0s == 0
    ensures forall t: nat :: !Enabled(j, states[k], FillNext(t)) && !Enabled(j, states[k], Count(t))
  {
    RunInv(j, states, acts, k);
    var s := states[k];
    forall t: nat | t < |s.rt| ensures s.rt[t].pc != Fill { AllCounted(s.rt, t); }
  }

  /** Every thread has returned and is joined. */
  ghost predicate Finished(j: Job, s: State) {
    (forall t | 0 <= t < |s.rt| :: s.rt[t].pc == Done) && (forall u | 0 <= u < |s.st| :: s.st[u].i == j.N())
  }

  /** When both parties have returned, all messages are there. */
  lemma AllWritten(j: Job, s: State)
    requires j.Valid() && Inv(j, s) && Finished(j, s) && j.S > 0
    ensures s.rMsgs == j.own
    ensures forall k | 0 <= k < j.N() :: s.m0[k] == j.pair(k, j.pk[k]).m0 && s.m1[k] == j.pair(k, j.pk[k]).m1
  {
    hide Job.Start;
    forall k | 0 <= k < j.N() ensures s.rMsgs[k] == j.own[k] {
      var t := j.Owner(k);
      assert ThreadInv(j, s, t);
    }
    assert PairInv(j, s, 0);
  }

  /** Until then some thread can always go on: no schedule gets stuck. */
  lemma NeverStuck(j: Job, s: State) returns (a: Action)
    requires j.Valid() && Inv(j, s) && !Finished(j, s)
    ensures Enabled(j, s, a)
  {
    hide Job.Start, Uncounted;
    if !s.cSent {
      a := SendC;
    } else if exists t :: 0 <= t < |s.rt| && s.rt[t].pc != Done {
      var t: nat :| t < |s.rt| && s.rt[t].pc != Done;
      var x := s.rt[t];
      a := if x.pc == WaitC then Begin(t)
           else if x.pc == Fill then (if x.i < j.Start(t + 1) then FillNext(t) else Count(t))
           else if x.i < j.Start(t + 1) then DeriveNext(t) else Finish(t);
    } else {
      NoneUncounted(s.rt);
      if s.wire.None? {
        a := SendKeys;
      } else {
        var u: nat :| u < |s.st| && s.st[u].i != j.N();
        assert PairInv(j, s, u);
        a := PairNext(u);
      }
    }
  }

  lemma {:induction false} NoneUncounted(rt: seq<RThread>)
    requires forall t | 0 <= t < |rt| :: rt[t].pc == Done
    ensures Uncounted(rt) == 0
  {
    if rt != [] { NoneUncounted(rt[1..]); }
  }

  /** How many steps receiver thread t has taken when it stands at x, and how many the first n threads have. */
  function Did(j: Job, t: nat, x: RThread): int
    requires j.Valid() && t < j.T
  {
    var len, at := j.Start(t + 1) - j.Start(t), x.i - j.Start(t);
    match x.pc case WaitC => 0 case Fill => 1 + at case Derive => 2 + len + at case Done => 3 + 2 * len
  }

  function ReceiverWork(j: Job, rt: seq<RThread>, n: nat): int
    requires j.Valid() && n <= |rt| <= j.T
  {
    if n == 0 then 0 else ReceiverWork(j, rt, n - 1) + Did(j, n - 1, rt[n - 1])
  }

  function SenderWork(st: seq<SThread>, n: nat): nat
    requires n <= |st|
  {
    if n == 0 then 0 else SenderWork(st, n - 1) + 2 * st[n - 1].i + if st[n - 1].half then 1 else 0
  }

  /** All steps taken so far. */
  function Work(j: Job, s: State): int
    requires j.Valid() && |s.rt| == j.T
  {
    (if s.cSent then 1 else 0) + (if s.wire.Some? then 1 else 0) + ReceiverWork(j, s.rt, j.T) + SenderWork(s.st, |s.st|)
  }

  lemma {:induction false} ReceiverMoves(j: Job, rt: seq<RThread>, n: nat, t: nat, x: RThread)
    requires j.Valid() && n <= |rt| <= j.T && t < |rt|
    ensures ReceiverWork(j, rt[t := x], n) == ReceiverWork(j, rt, n) + if t < n then Did(j, t, x) - Did(j, t, rt[t]) else 0
  {
    hide Did;
    if n > 0 { ReceiverMoves(j, rt, n - 1, t, x); }
  }

  lemma {:induction false} SenderMoves(st: seq<SThread>, n: nat, u: nat, x: SThread)
    requires n <= |st| && u < |st| && 2 * x.i + (if x.half then 1 else 0) == 2 * st[u].i + (if st[u].half then 1 else 0) + 1
    ensures SenderWork(st[u := x], n) == SenderWork(st, n) + if u < n then 1 else 0
  {
    if n > 0 { SenderMoves(st, n - 1, u, x); }
  }

  /** Every step, whoever takes it, is one step of work. */
  lemma StepWorks(j: Job, s: State, a: Action)
    requires j.Valid() && Inv(j, s) && Enabled(j, s, a)
    ensures Work(j, Apply(j, s, a)) == Work(j, s) + 1
  {
    hide Job.Start, Uncounted, ReceiverWork, SenderWork;
    match a
    case PairNext(u) =>
      var x := s.st[u];
      SenderMoves(s.st, |s.st|, u, if x.half then SThread(x.i + 1, false) else SThread(x.i, true));
    case SendC =>
    case SendKeys =>
    case _ => ThreadWorks(j, s, a);
  }

  lemma ThreadWorks(j: Job, s: State, a: Action)
    requires j.Valid() && Inv(j, s) && Enabled(j, s, a) && (a.Begin? || a.FillNext? || a.Count? || a.DeriveNext? || a.Finish?)
    ensures Work(j, Apply(j, s, a)) == Work(j, s) + 1
  {
    hide Job.Start, Uncounted, ReceiverWork, SenderWork;
    var r := Apply(j, s, a);
    assert ThreadInv(j, s, a.t);
    ReceiverMoves(j, s.rt, j.T, a.t, r.rt[a.t]);
    assert r.rt == s.rt[a.t := r.rt[a.t]];
  }

  /** All the work there is for n messages, T receiver threads and S sender threads. */
  function AllWork(j: Job): int { 2 + 3 * j.T + 2 * j.N() + 2 * j.N() * j.S }

  lemma {:induction false} ReceiverBound(j: Job, s: State, n: nat)
    requires j.Valid() && Inv(j, s) && n <= j.T
    ensures ReceiverWork(j, s.rt, n) <= 3 * n + 2 * j.Start(n)
    ensures ReceiverWork(j, s.rt, n) == 3 * n + 2 * j.Start(n) <==> forall t | 0 <= t < n :: s.rt[t].pc == Done
  {
    hide Job.Start, Inv, ThreadInv;
    StartsAtZero(j);
    if n > 0 {
      ReceiverBound(j, s, n - 1);
      ThreadBound(j, s, n - 1);
    }
  }

  lemma StartsAtZero(j: Job)
    requires j.Valid()
    ensures j.Start(0) == 0
  {
    j.Ends();
  }

  lemma ThreadBound(j: Job, s: State, t: nat)
    requires j.Valid() && Inv(j, s) && t < j.T
    ensures |s.rt| == j.T && Did(j, t, s.rt[t]) <= 3 + 2 * (j.Start(t + 1) - j.Start(t))
    ensures Did(j, t, s.rt[t]) == 3 + 2 * (j.Start(t + 1) - j.Start(t)) <==> s.rt[t].pc == Done
  {
    j.StartMono(t, t + 1);
    hide Job.Start, Uncounted;
    assert ThreadInv(j, s, t);
  }

  lemma {:induction false} SenderBound(j: Job, s: State, n: nat)
    requires j.Valid() && Inv(j, s) && n <= j.S
    ensures |s.st| == j.S && SenderWork(s.st, n) <= 2 * j.N() * n
    ensures SenderWork(s.st, n) == 2 * j.N() * n <==> forall u | 0 <= u < n :: s.st[u].i == j.N()
  {
    hide Job.Start, Uncounted, ThreadInv;
    if n > 0 {
      SenderBound(j, s, n - 1);
      assert 2 * j.N() * n == 2 * j.N() * (n - 1) + 2 * j.N();
      assert PairInv(j, s, n - 1);
    }
  }

  /** No schedule goes on for ever: a run has as many steps as work is done, at most 2 + 3 T + 2 n + 2 n S, and exactly so
      many when both parties have returned and the keys are sent. */
  lemma RunLength(j: Job, states: seq<State>, acts: seq<Action>)
    requires j.Valid() && Run(j, states, acts)
    ensures |acts| <= AllWork(j)
    ensures |acts| == AllWork(j) <==> Finished(j, states[|acts|]) && states[|acts|].wire.Some?
  {
    hide Job.Start, Inv, Enabled, Apply, ReceiverWork, SenderWork;
    var s := states[|acts|];
    RunWorks(j, states, acts, |acts|);
    RunInv(j, states, acts, |acts|);
    ReceiverBound(j, s, j.T);
    SenderBound(j, s, j.S);
    j.Ends();
    if Finished(j, s) { PointsSent(j, s); }
  }

  lemma PointsSent(j: Job, s: State)
    requires j.Valid() && Inv(j, s) && Finished(j, s)
    ensures s.cSent
  {
    assert ThreadInv(j, s, 0);
  }

  lemma {:induction false} RunWorks(j: Job, states: seq<State>, acts: seq<Action>, k: nat)
    requires j.Valid() && Run(j, states, acts) && k <= |acts|
    ensures |states[k].rt| == j.T && Work(j, states[k]) == k
  {
    hide Inv, Enabled, Apply, Work;
    if k == 0 {
      NoWorkYet(j, states[0]);
    } else {
      RunWorks(j, states, acts, k - 1);
      RunInv(j, states, acts, k - 1);
      assert Next(j, states[k - 1], acts[k - 1], states[k]);
      StepKeeps(j, states[k - 1], acts[k - 1]);
      StepWorks(j, states[k - 1], acts[k - 1]);
      ShapeOf(j, states[k]);
    }
  }

  lemma ShapeOf(j: Job, s: State)
    requires j.Valid() && Inv(j, s)
    ensures |s.rt| == j.T
  {}

  lemma NoWorkYet(j: Job, s: State)
    requires j.Valid() && Init(j, s)
    ensures Work(j, s) == 0
  {
    IdleReceiver(j, s.rt, j.T);
    IdleSender(s.st, |s.st|);
  }

  lemma {:induction false} IdleReceiver(j: Job, rt: seq<RThread>, n: nat)
    requires j.Valid() && n <= |rt| <= j.T && forall t | 0 <= t < |rt| :: rt[t] == RThread(WaitC, 0)
    ensures ReceiverWork(j, rt, n) == 0
  {
    if n > 0 { IdleReceiver(j, rt, n - 1); }
  }

  lemma {:induction false} IdleSender(st: seq<SThread>, n: nat)
    requires n <= |st| && forall u | 0 <= u < |st| :: st[u] == SThread(0, false)
    ensures SenderWork(st, n) == 0
  {
    if n > 0 { IdleSender(st, n - 1); }
  }

  ghost function KeyBytes<E(!new)>(x: NaorPinkas.Secrets<E>, i: nat): Bytes
    requires i < |x.ks| == |x.choices|
  {
    x.g.toBytes(x.PK0(i))
  }

  /** The job two honest parties run. */
  ghost function JobOf<E(!new)>(x: NaorPinkas.Secrets<E>, T: nat, S: nat): (j: Job)
    requires x.Valid()
    ensures |j.pk| == |j.own| == |x.choices| && j.T == T && j.S == S
  {
    Job(seq(|x.ks|, i requires 0 <= i < |x.ks| && |x.ks| == |x.choices| => KeyBytes(x, i)),
        seq<Block>(|x.ks|, i requires 0 <= i < |x.ks| => x.Own(i)), (i: nat, b: Bytes) => x.Pair(i, b), T, S)
  }

  /** For any number of messages, any numbers of threads and any schedule: when both parties have returned, each message
      of the receiver is the sender's at the receiver's choice bit. */
  lemma BaseOtsCorrect<E(!new)>(x: NaorPinkas.Secrets<E>, T: nat, S: nat, states: seq<State>, acts: seq<Action>, k: nat, i: nat)
    requires x.Valid() && T > 0 && S > 0 && i < |x.choices|
    requires Run(JobOf(x, T, S), states, acts) && k <= |acts| && Finished(JobOf(x, T, S), states[k])
    ensures |states[k].rMsgs| == |states[k].m0| == |states[k].m1| == |x.choices|
    ensures states[k].rMsgs[i] == BlockPair.Pair(states[k].m0[i], states[k].m1[i]).At(x.choices[i])
  {
    hide NaorPinkas.Group.Valid;
    var j := JobOf(x, T, S);
    RunInv(j, states, acts, k);
    AllWritten(j, states[k]);
    x.KeysAgree(i);
  }
}
