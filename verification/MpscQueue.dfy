/** The lock-free multi-producer, single-consumer queue, one atomic step at a time. */
module MpscQueue {

  type Addr = nat

  datatype Option<T> = None | Some(value: T)

  /** A list node; the first one carries no data. */
  datatype Node<T> = Node(data: Option<T>, next: Option<Addr>)

  /** Where the consumer stands inside dequeue. */
  datatype Consumer = Idle | Looked(next: Addr) | Moved(prev: Addr)

  /** The shared memory and the threads. A producer inside enqueue is named by the node it allocated: `made` are those
      that have not exchanged the head yet, `linking` those that have and still owe `prev->next`. Freed addresses leave
      the heap and may be allocated again. `order` lists the values in head-exchange order, `taken` those dequeued. */
  datatype State<T> = State(heap: map<Addr, Node<T>>, head: Addr, tail: Addr, made: set<Addr>, linking: map<Addr, Addr>,
                            consumer: Consumer, order: seq<T>, taken: seq<T>)

  datatype Action<T> =
    | Make(node: Addr, value: T)  // allocate and fill a node
    | Swap(node: Addr)            // prev = head.exchange(node)
    | Link(node: Addr)            // prev->next = node
    | Look                        // next = tail->next
    | Move                        // output = next->data, then tail = next
    | Free                        // delete the old tail

  /** What the threads' own control flow allows. */
  ghost predicate Enabled<T>(s: State<T>, a: Action<T>) {
    match a
    case Make(n, v) => n !in s.heap
    case Swap(n) => n in s.made
    case Link(n) => n in s.linking
    case Look => s.consumer == Idle
    case Move => s.consumer.Looked?
    case Free => s.consumer.Moved?
  }

  /** Every node the step touches is allocated. */
  ghost predicate Safe<T>(s: State<T>, a: Action<T>)
    requires Enabled(s, a)
  {
    match a
    case Make(n, v) => true
    case Swap(n) => n in s.heap && s.heap[n].data.Some?
    case Link(n) => s.linking[n] in s.heap
    case Look => s.tail in s.heap
    case Move => s.consumer.next in s.heap && s.heap[s.consumer.next].data.Some?
    case Free => s.consumer.prev in s.heap
  }

  ghost function Apply<T>(s: State<T>, a: Action<T>): State<T>
    requires Enabled(s, a) && Safe(s, a)
  {
    match a
    case Make(n, v) => s.(heap := s.heap[n := Node(Some(v), None)], made := s.made + {n})
    case Swap(n) =>
      s.(head := n, made := s.made - {n}, linking := s.linking[n := s.head], order := s.order + [s.heap[n].data.value])
    case Link(n) =>
      s.(heap := s.heap[s.linking[n] := s.heap[s.linking[n]].(next := Some(n))], linking := s.linking - {n})
    case Look => if s.heap[s.tail].next.None? then s else s.(consumer := Looked(s.heap[s.tail].next.value))
    case Move =>
      s.(tail := s.consumer.next, consumer := Moved(s.tail), taken := s.taken + [s.heap[s.consumer.next].data.value])
    case Free => s.(heap := s.heap - {s.consumer.prev}, consumer := Idle)
  }

  /** One step of some thread; touching a freed node may do anything. */
  ghost predicate Next<T>(s: State<T>, a: Action<T>, s': State<T>) {
    Enabled(s, a) && (Safe(s, a) ==> s' == Apply(s, a))
  }

  ghost predicate Init<T>(s: State<T>) {
    s.heap == map[s.head := Node(None, None)] && s.tail == s.head && s.made == {} && s.linking == map[]
    && s.consumer == Idle && s.order == s.taken == []
  }

  ghost predicate Distinct(c: seq<Addr>) {
    forall i, j | 0 <= i < j < |c| :: c[i] != c[j]
  }

  /** c lists the nodes from tail to head: linked, or owed their link by the producer that put them there. */
  ghost predicate Links<T>(s: State<T>, c: seq<Addr>) {
    && |c| >= 1 && c[0] == s.tail && c[|c| - 1] == s.head && Distinct(c)
    && (forall i | 0 <= i < |c| :: c[i] in s.heap)
    && s.heap[s.head].next == None
    && (forall i | 0 < i < |c| ::
          if c[i] in s.linking then s.linking[c[i]] == c[i - 1] && s.heap[c[i - 1]].next == None
          else s.heap[c[i - 1]].next == Some(c[i]))
    && (forall n | n in s.linking :: n in c && n != s.tail)
  }

  /** The values not yet taken sit in the nodes after the tail, in exchange order. */
  ghost predicate Values<T>(s: State<T>, c: seq<Addr>)
    requires Links(s, c)
  {
    && |s.order| == |s.taken| + |c| - 1 && s.taken == s.order[..|s.taken|]
    && (forall i | 0 < i < |c| :: s.heap[c[i]].data == Some(s.order[|s.taken| + i - 1]))
  }

  /** The heap is the chain, the nodes not yet put in it, and the one about to be deleted. */
  ghost predicate Owned<T>(s: State<T>, c: seq<Addr>)
    requires Links(s, c)
  {
    && (forall n | n in s.made :: n in s.heap && n !in c && s.heap[n].next == None && s.heap[n].data.Some?)
    && (match s.consumer
        case Idle => true
        case Looked(n) => |c| > 1 && n == c[1] && s.heap[s.tail].next == Some(n)
        case Moved(t) => t in s.heap && t !in c && t !in s.made)
    && (forall n | n in s.heap :: n in c || n in s.made || s.consumer == Moved(n))
  }

  ghost predicate Inv<T>(s: State<T>, c: seq<Addr>) {
    Links(s, c) && Values(s, c) && Owned(s, c)
  }

  lemma InitInv<T>(s: State<T>)
    requires Init(s)
    ensures Inv(s, [s.head])
  {}

  /** In a chained state no thread can touch a freed node. */
  lemma AlwaysSafe<T>(s: State<T>, c: seq<Addr>, a: Action<T>)
    requires Inv(s, c) && Enabled(s, a)
    ensures Safe(s, a)
  {
    if a.Link? {
      var i :| 0 <= i < |c| && c[i] == a.node;
      assert s.linking[c[i]] == c[i - 1];
    }
  }

  lemma MakeKeeps<T>(s: State<T>, c: seq<Addr>, a: Action<T>)
    requires Inv(s, c) && a.Make? && Enabled(s, a)
    ensures Inv(Apply(s, a), c)
  {}

  lemma SwapKeeps<T>(s: State<T>, c: seq<Addr>, a: Action<T>)
    requires Inv(s, c) && a.Swap? && Enabled(s, a) && Safe(s, a)
    ensures Inv(Apply(s, a), c + [a.node])
  {
    SwapLinks(s, c, a);
    SwapValues(s, c, a);
    hide Values;
  }

  lemma SwapLinks<T>(s: State<T>, c: seq<Addr>, a: Action<T>)
    requires Inv(s, c) && a.Swap? && Enabled(s, a) && Safe(s, a)
    ensures Links(Apply(s, a), c + [a.node])
  {
    hide Values;
  }

  lemma SwapValues<T>(s: State<T>, c: seq<Addr>, a: Action<T>)
    requires Inv(s, c) && a.Swap? && Enabled(s, a) && Safe(s, a) && Links(Apply(s, a), c + [a.node])
    ensures Values(Apply(s, a), c + [a.node])
  {}

  /** The owed link goes from the node before the producer's to the producer's. */
  lemma LinkLinks<T>(s: State<T>, c: seq<Addr>, a: Action<T>, k: nat)
    requires Inv(s, c) && a.Link? && Enabled(s, a) && Safe(s, a)
    requires 0 < k < |c| && c[k] == a.node && s.linking[c[k]] == c[k - 1]
    ensures Links(Apply(s, a), c)
  {
    hide Values;
  }

  lemma LinkKeeps<T>(s: State<T>, c: seq<Addr>, a: Action<T>)
    requires Inv(s, c) && a.Link? && Enabled(s, a) && Safe(s, a)
    ensures Inv(Apply(s, a), c)
  {
    var k :| 0 <= k < |c| && c[k] == a.node;
    LinkLinks(s, c, a, k);
    LinkValues(s, c, a, k);
    LinkOwned(s, c, a, k);
  }

  lemma LinkValues<T>(s: State<T>, c: seq<Addr>, a: Action<T>, k: nat)
    requires Inv(s, c) && a.Link? && Enabled(s, a) && Safe(s, a) && Links(Apply(s, a), c)
    requires 0 < k < |c| && c[k] == a.node && s.linking[c[k]] == c[k - 1]
    ensures Values(Apply(s, a), c)
  {}

  lemma LinkOwned<T>(s: State<T>, c: seq<Addr>, a: Action<T>, k: nat)
    requires Inv(s, c) && a.Link? && Enabled(s, a) && Safe(s, a) && Links(Apply(s, a), c)
    requires 0 < k < |c| && c[k] == a.node && s.linking[c[k]] == c[k - 1]
    ensures Owned(Apply(s, a), c)
  {
    assert s.heap[c[k - 1]].next == None;
  }

  lemma LookKeeps<T>(s: State<T>, c: seq<Addr>, a: Action<T>)
    requires Inv(s, c) && a.Look? && Enabled(s, a) && Safe(s, a)
    ensures Inv(Apply(s, a), c)
  {}

  lemma MoveKeeps<T>(s: State<T>, c: seq<Addr>, a: Action<T>)
    requires Inv(s, c) && a.Move? && Enabled(s, a) && Safe(s, a)
    ensures |c| > 1 && Inv(Apply(s, a), c[1..])
  {
    MoveLinks(s, c, a);
    MoveValues(s, c, a);
    hide Links, Values;
    assert forall n | n in c :: n == c[0] || n in c[1..];
    assert s.tail == c[0] && c[0] !in c[1..] by { DistinctHead(s, c); }
  }

  lemma DistinctHead<T>(s: State<T>, c: seq<Addr>)
    requires Links(s, c)
    ensures s.tail == c[0] && c[0] in s.heap && c[0] !in c[1..]
  {}

  lemma MoveLinks<T>(s: State<T>, c: seq<Addr>, a: Action<T>)
    requires Inv(s, c) && a.Move? && Enabled(s, a) && Safe(s, a)
    ensures |c| > 1 && Links(Apply(s, a), c[1..])
  {
    assert forall n | n in c :: n == c[0] || n in c[1..];
  }

  lemma MoveValues<T>(s: State<T>, c: seq<Addr>, a: Action<T>)
    requires Inv(s, c) && a.Move? && Enabled(s, a) && Safe(s, a)
    requires |c| > 1 && Links(Apply(s, a), c[1..])
    ensures Values(Apply(s, a), c[1..])
  {}

  lemma FreeKeeps<T>(s: State<T>, c: seq<Addr>, a: Action<T>)
    requires Inv(s, c) && a.Free? && Enabled(s, a) && Safe(s, a)
    ensures Inv(Apply(s, a), c)
  {}

  lemma StepKeeps<T>(s: State<T>, c: seq<Addr>, a: Action<T>) returns (c': seq<Addr>)
    requires Inv(s, c) && Enabled(s, a) && Safe(s, a)
    ensures Inv(Apply(s, a), c')
  {
    c' := match a case Swap(n) => c + [n] case Move => c[1..] case _ => c;
    match a
    case Make(n, v) => MakeKeeps(s, c, a);
    case Swap(n) => SwapKeeps(s, c, a);
    case Link(n) => LinkKeeps(s, c, a);
    case Look => LookKeeps(s, c, a);
    case Move => MoveKeeps(s, c, a);
    case Free => FreeKeeps(s, c, a);
  }

  /** A run: any interleaving of the threads' steps. */
  ghost predicate Run<T>(states: seq<State<T>>, acts: seq<Action<T>>) {
    && |states| == |acts| + 1 && Init(states[0])
    && forall i | 0 <= i < |acts| :: Next(states[i], acts[i], states[i + 1])
  }

  lemma {:induction false} RunInv<T>(states: seq<State<T>>, acts: seq<Action<T>>, k: nat) returns (c: seq<Addr>)
    requires Run(states, acts) && k <= |acts|
    ensures Inv(states[k], c)
  {
    if k == 0 {
      c := [states[0].head];
      InitInv(states[0]);
    } else {
      c := RunInv(states, acts, k - 1);
      var s, a := states[k - 1], acts[k - 1];
      assert Next(s, a, states[k]);
      AlwaysSafe(s, c, a);
      c := StepKeeps(s, c, a);
    }
  }

  /** In every interleaving: what has been dequeued is a prefix of the head-exchange order, no step touches a freed node,
      and dequeue sees an empty queue only when nothing is left or the next value's producer still owes its link. */
  lemma EveryRun<T>(states: seq<State<T>>, acts: seq<Action<T>>, k: nat)
    requires Run(states, acts) && k <= |acts|
    ensures states[k].taken <= states[k].order
    ensures forall a | Enabled(states[k], a) :: Safe(states[k], a)
    ensures states[k].tail in states[k].heap
    ensures states[k].heap[states[k].tail].next == None ==>
              states[k].taken == states[k].order || exists n :: n in states[k].linking && states[k].linking[n] == states[k].tail
  {
    var c := RunInv(states, acts, k);
    forall a | Enabled(states[k], a) ensures Safe(states[k], a) { AlwaysSafe(states[k], c, a); }
    if states[k].heap[states[k].tail].next == None && |c| > 1 {
      assert c[1] in states[k].linking;
    }
  }

  /** The queue object. The threads' own positions are parameters of its operations, which here run undisturbed. */
  class Queue<T> {
    var heap: map<Addr, Node<T>>
    var head: Addr
    var tail: Addr
    ghost var order: seq<T>
    ghost var taken: seq<T>

    ghost function View(made: set<Addr>, linking: map<Addr, Addr>, consumer: Consumer): State<T>
      reads this
    {
      State(heap, head, tail, made, linking, consumer, order, taken)
    }

    /** `at` is the address the allocator chose for the first node. */
    constructor (at: Addr)
      ensures Init(View({}, map[], Idle)) && head == at
    {
      heap := map[at := Node(None, None)];
      head, tail := at, at;
      order, taken := [], [];
    }

    /** enqueue: allocate at a free address, exchange the head, link. */
    method Enqueue(input: T, at: Addr, ghost made: set<Addr>, ghost linking: map<Addr, Addr>, ghost c: seq<Addr>)
      requires at !in heap && Inv(View(made, linking, Idle), c)
      modifies this
      ensures Inv(View(made, linking, Idle), c + [at])
      ensures order == old(order) + [input] && taken == old(taken) && tail == old(tail)
    {
      ghost var s0 := View(made, linking, Idle);
      MakeKeeps(s0, c, Make(at, input));
      ghost var s1 := Apply(s0, Make(at, input));
      AlwaysSafe(s1, c, Swap(at));
      SwapKeeps(s1, c, Swap(at));
      ghost var s2 := Apply(s1, Swap(at));
      AlwaysSafe(s2, c + [at], Link(at));
      LinkKeeps(s2, c + [at], Link(at));
      heap := heap[at := Node(Some(input), None)];
      var prev := head;
      head := at;
      order := order + [input];
      heap := heap[prev := heap[prev].(next := Some(at))];
      BackToRest(s0, c, at);
      assert View(made, linking, Idle) == Apply(s2, Link(at));
    }

    /** dequeue: false when the node after the tail is not there or not linked yet. */
    method Dequeue(ghost made: set<Addr>, ghost linking: map<Addr, Addr>, ghost c: seq<Addr>)
      returns (output: Option<T>, ghost c': seq<Addr>)
      requires Inv(View(made, linking, Idle), c)
      modifies this
      ensures Inv(View(made, linking, Idle), c') && order == old(order) && head == old(head)
      ensures old(heap)[old(tail)].next == None ==> output == None && View(made, linking, Idle) == old(View(made, linking, Idle)) && c' == c
      ensures old(heap)[old(tail)].next != None ==> |c| > 1 && c' == c[1..] && output.Some? && taken == old(taken) + [output.value]
      ensures old(heap)[old(tail)].next != None ==> heap == old(heap) - {old(tail)}
    {
      ghost var s0 := View(made, linking, Idle);
      c' := c;
      AlwaysSafe(s0, c, Look);
      LookKeeps(s0, c, Look);
      var next := heap[tail].next;
      if next.None? {
        return None, c;
      }
      ghost var s1 := Apply(s0, Look);
      AlwaysSafe(s1, c, Move);
      MoveKeeps(s1, c, Move);
      ghost var s2 := Apply(s1, Move);
      AlwaysSafe(s2, c[1..], Free);
      FreeKeeps(s2, c[1..], Free);
      output := heap[next.value].data;
      var oldTail := tail;
      tail := next.value;
      taken := taken + [output.value];
      heap := heap - {oldTail};
      c' := c[1..];
      assert View(made, linking, Idle) == Apply(s2, Free);
    }

    /** The destructor has deleted the front of the chain c; what came out follows the t values taken before. */
    ghost predicate Draining(c: seq<Addr>, freed: seq<Addr>, outputs: seq<T>, t: nat)
      reads this
    {
      && |freed| < |c| && freed == c[..|freed|] && Inv(View({}, map[], Idle), c[|freed|..])
      && |taken| == t + |outputs| && Yields(outputs, order, t)
    }

    /** One successful dequeue of the destructor. */
    method DrainOne(ghost c: seq<Addr>, freed: seq<Addr>, outputs: seq<T>, ghost t: nat)
      returns (freed': seq<Addr>, outputs': seq<T>)
      requires Draining(c, freed, outputs, t) && heap[tail].next.Some?
      modifies this
      ensures Draining(c, freed', outputs', t) && |freed'| == |freed| + 1 && order == old(order)
    {
      var o;
      ghost var rest;
      freed' := freed + [tail];
      o, rest := Dequeue({}, map[], c[|freed|..]);
      Slices(c, |freed|);
      TakenIsPrefix(View({}, map[], Idle), rest);
      LastOfPrefix(old(taken), o.value, taken, order);
      outputs' := Yielded(outputs, o.value, order, t);
    }

    /** The destructor's loop: dequeue until nothing is left but the node at the head. */
    method Drain(ghost c: seq<Addr>) returns (outputs: seq<T>, freed: seq<Addr>)
      requires Draining(c, [], [], |taken|)
      modifies this
      ensures Draining(c, freed, outputs, |old(taken)|) && heap[tail].next == None && order == old(order)
    {
      outputs, freed := [], [];
      while heap[tail].next.Some?
        invariant Draining(c, freed, outputs, |old(taken)|) && order == old(order)
        decreases |c| - |freed|
      {
        freed, outputs := DrainOne(c, freed, outputs, |old(taken)|);
      }
    }

    /** The destructor, once no enqueue is under way: the remaining values come out in order, and every node is freed
        exactly once, the last one by the final delete. */
    method Destroy(ghost c: seq<Addr>) returns (outputs: seq<T>, freed: seq<Addr>)
      requires Inv(View({}, map[], Idle), c)
      modifies this
      ensures heap == map[] && freed == c && outputs == old(order)[|old(taken)|..]
      ensures Distinct(freed) && forall n :: n in freed <==> n in old(heap)
    {
      HeapIsChain(View({}, map[], Idle), c);
      assert c[0..] == c;
      outputs, freed := Drain(c);
      OneNodeLeft(View({}, map[], Idle), c[|freed|..]);
      IsRest(outputs, order, |old(taken)|);
      Slices(c, |freed|);
      freed := freed + [head];
      heap := heap - {head};
    }
  }

  lemma Slices<A>(c: seq<A>, k: nat)
    requires k < |c|
    ensures c[..k] + [c[k]] == c[..k + 1] && c[k..][0] == c[k] && c[k..][1..] == c[k + 1..]
  {}

  /** The values that came out are those of `all` from position t on. */
  ghost predicate Yields<A>(out: seq<A>, all: seq<A>, t: nat) {
    t + |out| <= |all| && forall j | 0 <= j < |out| :: out[j] == all[t + j]
  }

  function Yielded<A>(out: seq<A>, x: A, ghost all: seq<A>, ghost t: nat): (r: seq<A>)
    requires Yields(out, all, t) && t + |out| < |all| && x == all[t + |out|]
    ensures |r| == |out| + 1 && Yields(r, all, t)
  {
    out + [x]
  }

  lemma IsRest<A>(out: seq<A>, all: seq<A>, t: nat)
    requires t + |out| == |all| && Yields(out, all, t)
    ensures out == all[t..]
  {}

  /** The last value of a prefix. */
  lemma LastOfPrefix<A>(before: seq<A>, v: A, now: seq<A>, all: seq<A>)
    requires |now| <= |all| && now == all[..|now|] && now == before + [v]
    ensures v == all[|before|] && |before| < |all|
  {}

  lemma TakenIsPrefix<T>(s: State<T>, c: seq<Addr>)
    requires Inv(s, c)
    ensures |s.taken| <= |s.order| && s.taken == s.order[..|s.taken|]
  {}

  /** With no thread under way the heap is the chain. */
  lemma HeapIsChain<T>(s: State<T>, c: seq<Addr>)
    requires Inv(s, c) && s.made == {} && s.consumer == Idle
    ensures Distinct(c) && c != [] && forall n :: n in c <==> n in s.heap
  {}

  lemma TailLinked<T>(s: State<T>, c: seq<Addr>)
    requires Inv(s, c) && s.linking == map[] && |c| > 1
    ensures s.heap[s.tail].next == Some(c[1])
  {}

  lemma OneNodeLeft<T>(s: State<T>, c: seq<Addr>)
    requires Inv(s, c) && s.made == {} && s.linking == map[] && s.consumer == Idle && s.heap[s.tail].next == None
    ensures c == [s.head] && s.taken == s.order && s.heap - {s.head} == map[]
  {
    if |c| > 1 { TailLinked(s, c); }
  }

  /** Exchanging and linking in one go leaves the producers' books as they were. */
  lemma BackToRest<T>(s: State<T>, c: seq<Addr>, at: Addr)
    requires Inv(s, c) && at !in s.heap
    ensures at !in s.made && at !in s.linking
    ensures s.made + {at} - {at} == s.made && s.linking[at := s.head] - {at} == s.linking
  {}
}
