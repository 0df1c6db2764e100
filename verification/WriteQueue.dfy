/**
 * The outgoing queue of a client (src/ClientSocket.cpp).  PostWrite and the completion handler
 * are taken as atomic, and no write fails; WriteRaces takes their steps apart.
 */
module WriteQueue {
  import opened Bytes

  type Message = seq<Byte>

  /** The queue, the writes not yet completed, and every write started so far, in order. */
  datatype Channel = Channel(queue: seq<Message>, outstanding: nat, started: seq<Message>)

  const EMPTY := Channel([], 0, [])

  /** `WriteAsync`: start writing the front message, if there is one. */
  function StartWrite(c: Channel): Channel {
    if c.queue == [] then c
    else c.(outstanding := c.outstanding + 1, started := c.started + [c.queue[0]])
  }

  function PopFront(c: Channel): Channel {
    if c.queue == [] then c else c.(queue := c.queue[1..])
  }

  function Posted(c: Channel, m: Message): Channel {
    StartWrite(c.(queue := c.queue + [m]))
  }

  function Completed(c: Channel): Channel
    requires c.outstanding > 0
  {
    StartWrite(PopFront(c.(outstanding := c.outstanding - 1)))
  }

  /** The object whose methods change the queue in place. */
  class ClientSocket {
    var queue: seq<Message>
    var outstanding: nat
    var started: seq<Message>

    ghost function Abs(): Channel
      reads this
    {
      Channel(queue, outstanding, started)
    }

    constructor ()
      ensures Abs() == EMPTY
    {
      queue, outstanding, started := [], 0, [];
    }

    method PostWrite(data: Message)
      modifies this
      ensures Abs() == Posted(old(Abs()), data)
    {
      PushWriteBuffer(data);
      WriteAsync();
    }

    method OnWriteComplete()
      requires outstanding > 0
      modifies this
      ensures Abs() == Completed(old(Abs()))
    {
      outstanding := outstanding - 1;
      PopFrontWriteBuffer();
      if queue != [] {
        WriteAsync();
      }
    }

    method PushWriteBuffer(data: Message)
      modifies this
      ensures Abs() == old(Abs()).(queue := old(queue) + [data])
    {
      queue := queue + [data];
    }

    method PopFrontWriteBuffer()
      modifies this
      ensures Abs() == PopFront(old(Abs()))
    {
      if queue != [] {
        queue := queue[1..];
      }
    }

    method WriteAsync()
      modifies this
      ensures Abs() == StartWrite(old(Abs()))
    {
      if queue == [] {
        return;
      }
      started := started + [queue[0]];
      outstanding := outstanding + 1;
    }
  }

  // ---------------------------------------------------------------- runs

  datatype Event = Post(m: Message) | Complete

  function Last(es: seq<Event>): Event
    requires es != []
  {
    es[|es| - 1]
  }

  function Front(es: seq<Event>): seq<Event>
    requires es != []
  {
    es[..|es| - 1]
  }

  /** A write completes only while one is outstanding. */
  predicate Legal(es: seq<Event>)
    decreases |es|, 0
  {
    es == [] || (Legal(Front(es)) && (Last(es).Complete? ==> Run(Front(es)).outstanding > 0))
  }

  function Run(es: seq<Event>): Channel
    requires Legal(es)
    decreases |es|, 1
  {
    if es == [] then EMPTY
    else match Last(es)
      case Post(m) => Posted(Run(Front(es)), m)
      case Complete => Completed(Run(Front(es)))
  }

  function PostedBy(es: seq<Event>): seq<Message> {
    if es == [] then []
    else match Last(es)
      case Post(m) => PostedBy(Front(es)) + [m]
      case Complete => PostedBy(Front(es))
  }

  /** The position, among the posted messages, of the front of the queue. */
  function Head(es: seq<Event>): int
    requires Legal(es)
  {
    |PostedBy(es)| - |Run(es).queue|
  }

  /** How many posted messages have come to the front so far. */
  function Reached(es: seq<Event>): int
    requires Legal(es)
  {
    Head(es) + if Run(es).queue == [] then 0 else 1
  }

  /** The positions of the messages whose writes were started, in order. */
  function StartedAt(es: seq<Event>): seq<int>
    requires Legal(es)
  {
    if es == [] then []
    else if Run(es).queue == [] then StartedAt(Front(es))
    else StartedAt(Front(es)) + [Head(es)]
  }

  /** Posts made while message i was at the front. */
  function PostsWhileFront(es: seq<Event>, i: int): nat
    requires Legal(es)
  {
    if es == [] then 0
    else
      var before := Front(es);
      PostsWhileFront(before, i)
      + if Last(es).Post? && Run(before).queue != [] && Head(before) == i then 1 else 0
  }

  /** The queue is the part of the posted messages not yet popped, and the starts are what StartedAt says. */
  lemma {:induction false} RunShape(es: seq<Event>)
    requires Legal(es)
    ensures 0 <= Head(es) && Run(es).queue == PostedBy(es)[Head(es)..]
    ensures |Run(es).started| == |StartedAt(es)|
    ensures forall k | 0 <= k < |StartedAt(es)| ::
              0 <= StartedAt(es)[k] < |PostedBy(es)| && Run(es).started[k] == PostedBy(es)[StartedAt(es)[k]]
  {
    if es != [] {
      RunShape(Front(es));
    }
  }

  /** How one event moves the front. */
  lemma HeadStep(es: seq<Event>)
    requires Legal(es) && es != []
    ensures var b := Front(es);
            && (Last(es).Post? ==> Run(es).queue != [] && Head(es) == Head(b))
            && (Last(es).Complete? && Run(b).queue == [] ==> Run(es).queue == [] && Head(es) == Head(b))
            && (Last(es).Complete? && Run(b).queue != [] ==> Head(es) == Head(b) + 1)
            && (PostedBy(es) == [] <==> Last(es).Complete? && PostedBy(b) == [])
            && 0 <= Head(b) <= |PostedBy(b)|
  {
    RunShape(Front(es));
  }

  /** Starts visit the posted messages in order: from one start to the next the position moves by 0 or 1. */
  lemma {:induction false} StartsVisitInOrder(es: seq<Event>)
    requires Legal(es)
    ensures var at := StartedAt(es);
            && (at == [] <==> PostedBy(es) == [])
            && (at != [] ==> at[0] == 0 && at[|at| - 1] == Reached(es) - 1)
            && forall k | 0 <= k < |at| - 1 :: at[k + 1] == at[k] || at[k + 1] == at[k] + 1
  {
    if es != [] {
      StartsVisitInOrder(Front(es));
      RunShape(Front(es));
      HeadStep(es);
      hide Run;
      hide PostedBy;
      hide Legal;
    }
  }

  /**
   * Message i is started once when it comes to the front, and once more for every post made
   * while it is there.
   */
  lemma {:induction false} StartCount(es: seq<Event>, i: int)
    requires Legal(es) && 0 <= i
    ensures multiset(StartedAt(es))[i] == PostsWhileFront(es, i) + if i < Reached(es) then 1 else 0
  {
    if es != [] {
      StartCount(Front(es), i);
      HeadStep(es);
      hide Run;
      hide PostedBy;
      hide Legal;
    }
  }

  /** Every post finds the queue empty. */
  predicate NoOverlap(es: seq<Event>)
    requires Legal(es)
  {
    es == [] || (NoOverlap(Front(es)) && (Last(es).Post? ==> Run(Front(es)).queue == []))
  }

  /** Then each message is started exactly once, in order. */
  lemma {:induction false} NoOverlapExactlyOnce(es: seq<Event>)
    requires Legal(es) && NoOverlap(es)
    ensures Run(es).started == PostedBy(es) && |Run(es).queue| <= 1
  {
    if es != [] {
      NoOverlapExactlyOnce(Front(es));
    }
  }

  /** And only then: any overlapping post starts some message a second time. */
  lemma {:induction false} RepeatsIffOverlap(es: seq<Event>)
    requires Legal(es)
    ensures |StartedAt(es)| >= Reached(es)
    ensures |StartedAt(es)| == Reached(es) <==> NoOverlap(es)
  {
    if es != [] {
      RepeatsIffOverlap(Front(es));
      HeadStep(es);
      hide Run;
      hide PostedBy;
      hide Legal;
    }
  }

  /** A non-empty queue is never left without a write in flight. */
  lemma NeverStranded(es: seq<Event>)
    requires Legal(es)
    ensures Run(es).queue != [] ==> Run(es).outstanding > 0
  {
  }

  // ---------------------------------------------------------------- buffers in flight

  // A write refers to its message's buffer, and only the queue keeps the buffer alive.

  /** The front message, if any, goes into flight. */
  function FrontFlight(es: seq<Event>): multiset<int>
    requires Legal(es)
  {
    if Run(es).queue == [] then multiset{} else multiset{Head(es)}
  }

  /** What the last event does to the positions in flight; any one of them may be the one that completes. */
  ghost predicate FlightStep(es: seq<Event>, before: multiset<int>, after: multiset<int>)
    requires Legal(es) && es != []
  {
    match Last(es)
    case Post(_) => after == before + FrontFlight(es)
    case Complete => exists p | p in before :: after == before - multiset{p} + FrontFlight(es)
  }

  /** fs[i] are the positions in flight after i events. */
  ghost predicate Flights(es: seq<Event>, fs: seq<multiset<int>>)
    requires Legal(es)
  {
    && |fs| == |es| + 1
    && if es == [] then fs[0] == multiset{}
       else Flights(Front(es), fs[..|es|]) && FlightStep(es, fs[|es| - 1], fs[|es|])
  }

  ghost predicate StillQueued(es: seq<Event>, flight: multiset<int>)
    requires Legal(es)
  {
    forall p | p in flight :: Head(es) <= p
  }

  /** At every moment so far each position in flight is of a message still in the queue. */
  ghost predicate BuffersLive(es: seq<Event>, fs: seq<multiset<int>>)
    requires Legal(es) && |fs| == |es| + 1
  {
    StillQueued(es, fs[|es|]) && (es == [] || BuffersLive(Front(es), fs[..|es|]))
  }

  /** No write completes while another one is outstanding. */
  predicate SingleCompletions(es: seq<Event>)
    requires Legal(es)
  {
    es == [] || (SingleCompletions(Front(es)) && (Last(es).Complete? ==> Run(Front(es)).outstanding == 1))
  }

  lemma OutstandingStep(es: seq<Event>)
    requires Legal(es) && es != []
    ensures var b := Front(es);
            Run(es).outstanding == Run(b).outstanding + |FrontFlight(es)| - if Last(es).Complete? then 1 else 0
    ensures Last(es).Complete? ==> Run(Front(es)).outstanding > 0
  {
  }

  lemma TakeOne(g: multiset<int>, p: int)
    requires p in g
    ensures |g - multiset{p}| == |g| - 1 && g - multiset{p} <= g
  {
  }

  lemma FlightsFront(es: seq<Event>, fs: seq<multiset<int>>)
    requires Legal(es) && es != [] && Flights(es, fs)
    ensures |fs| == |es| + 1 && Legal(Front(es)) && |Front(es)| == |es| - 1
    ensures Flights(Front(es), fs[..|es|]) && fs[..|es|][|Front(es)|] == fs[|es| - 1]
    ensures FlightStep(es, fs[|es| - 1], fs[|es|])
  {
    hide Run;
  }

  /** The positions in flight are as many as writes are outstanding, of posted messages, none beyond the front. */
  ghost predicate FlightShape(es: seq<Event>, f: multiset<int>)
    requires Legal(es)
  {
    |f| == Run(es).outstanding && forall p | p in f :: p <= Head(es) && p < |PostedBy(es)|
  }

  /** The front only moves on, and what goes into flight is at the front. */
  lemma FrontWithin(es: seq<Event>)
    requires Legal(es) && es != []
    ensures Head(Front(es)) <= Head(es) && |PostedBy(Front(es))| <= |PostedBy(es)|
    ensures forall p | p in FrontFlight(es) :: p == Head(es) < |PostedBy(es)|
  {
    HeadStep(es);
  }

  lemma FlightStepShape(es: seq<Event>, g: multiset<int>, f: multiset<int>)
    requires Legal(es) && es != [] && FlightShape(Front(es), g) && FlightStep(es, g, f)
    ensures FlightShape(es, f)
  {
    OutstandingStep(es);
    FrontWithin(es);
    hide Run;
    hide PostedBy;
    hide Legal;
    hide Head;
    hide FrontFlight;
    if Last(es).Complete? {
      var p :| p in g && f == g - multiset{p} + FrontFlight(es);
      TakeOne(g, p);
      assert forall q | q in f :: q in g || q in FrontFlight(es);
    }
  }

  lemma {:induction false} FlightsShape(es: seq<Event>, fs: seq<multiset<int>>)
    requires Legal(es) && Flights(es, fs)
    ensures |fs| == |es| + 1 && FlightShape(es, fs[|es|])
  {
    if es != [] {
      FlightsFront(es, fs);
      hide Flights;
      hide FlightShape;
      hide FlightStep;
      FlightsShape(Front(es), fs[..|es|]);
      FlightStepShape(es, fs[|es| - 1], fs[|es|]);
    }
  }

  lemma SomeInFlight(g: multiset<int>) returns (p: int)
    requires |g| > 0
    ensures p in g
  {
    assert (forall q :: q !in g) ==> g == multiset{};
    p :| p in g;
  }

  lemma FlightsExtend(es: seq<Event>, gs: seq<multiset<int>>, f: multiset<int>)
    requires Legal(es) && es != [] && Flights(Front(es), gs) && |gs| == |es| && FlightStep(es, gs[|es| - 1], f)
    ensures Flights(es, gs + [f])
  {
    hide Run;
    hide FlightStep;
    assert (gs + [f])[..|es|] == gs;
  }

  /** Every run has such a sequence. */
  lemma {:induction false} FlightsExist(es: seq<Event>) returns (fs: seq<multiset<int>>)
    requires Legal(es)
    ensures Flights(es, fs)
  {
    if es == [] {
      fs := [multiset{}];
    } else {
      var gs := FlightsExist(Front(es));
      FlightsShape(Front(es), gs);
      OutstandingStep(es);
      var g := gs[|es| - 1];
      hide Run;
      hide Flights;
      var f := g + FrontFlight(es);
      if Last(es).Complete? {
        var p := SomeInFlight(g);
        f := g - multiset{p} + FrontFlight(es);
      }
      FlightsExtend(es, gs, f);
      fs := gs + [f];
    }
  }

  /** One completion keeps the buffers in flight alive if and only if its write was the only one. */
  lemma CompletionLive(es: seq<Event>, g: multiset<int>, f: multiset<int>)
    requires Legal(es) && es != [] && Last(es).Complete? && FlightStep(es, g, f)
    requires FlightShape(Front(es), g) && StillQueued(Front(es), g)
    ensures StillQueued(es, f) <==> Run(Front(es)).outstanding == 1
  {
    var b := Front(es);
    HeadStep(es);
    var p :| p in g && f == g - multiset{p} + FrontFlight(es);
    assert Run(b).queue != [];
    hide Run;
    hide PostedBy;
    hide Legal;
    TakeOne(g, p);
    if |g| > 1 {
      var q := SomeInFlight(g - multiset{p});
      assert q in f && q == Head(b);
    } else {
      assert g - multiset{p} == multiset{};
    }
  }

  /**
   * Every write in flight is of a message still queued, at every moment so far, if and only if no
   * write completed while another one was outstanding, whichever of them it was.
   */
  lemma {:induction false} BuffersLiveIff(es: seq<Event>, fs: seq<multiset<int>>)
    requires Legal(es) && Flights(es, fs)
    ensures BuffersLive(es, fs) <==> SingleCompletions(es)
  {
    if es != [] {
      var b, gs, g, f := Front(es), fs[..|es|], fs[|es| - 1], fs[|es|];
      FlightsFront(es, fs);
      hide Flights;
      BuffersLiveIff(b, gs);
      FlightsShape(b, gs);
      if BuffersLive(b, gs) {
        assert StillQueued(b, g);
        if Last(es).Complete? {
          CompletionLive(es, g, f);
        } else {
          PostLive(es, g, f);
        }
      }
    }
  }

  lemma PostLive(es: seq<Event>, g: multiset<int>, f: multiset<int>)
    requires Legal(es) && es != [] && Last(es).Post? && FlightStep(es, g, f) && StillQueued(Front(es), g)
    ensures StillQueued(es, f)
  {
    HeadStep(es);
    hide Run;
    hide PostedBy;
    hide Legal;
  }

  /** Two posts and one completion: a write of the first message is in flight and the message is gone. */
  lemma SecondPostLosesFirst(a: Message, b: Message, fs: seq<multiset<int>>)
    ensures Legal([Post(a), Post(b), Complete])
    ensures Flights([Post(a), Post(b), Complete], fs) ==> !BuffersLive([Post(a), Post(b), Complete], fs)
  {
    var es := [Post(a), Post(b), Complete];
    assert Front(es) == [Post(a), Post(b)] && Front(Front(es)) == [Post(a)] && Front([Post(a)]) == [];
    assert Run([Post(a)]).outstanding == 1;
    assert Run([Post(a), Post(b)]).outstanding == 2;
    if Flights(es, fs) {
      BuffersLiveIff(es, fs);
    }
  }

  /** That is so, and will be after the next completion, if and only if no post overlapped. */
  lemma {:induction false} NoOverlapIffSingle(es: seq<Event>)
    requires Legal(es)
    ensures NoOverlap(es) <==> SingleCompletions(es) && Run(es).outstanding <= 1
    ensures NoOverlap(es) ==> Run(es).outstanding == |Run(es).queue| <= 1
  {
    if es != [] {
      NoOverlapIffSingle(Front(es));
      NeverStranded(Front(es));
    }
  }

  // ---------------------------------------------------------------- draining

  /** Without posts, how many completions are left. */
  function CompletionsLeft(c: Channel): int {
    c.outstanding + if c.queue == [] then 0 else |c.queue| - 1
  }

  function Completions(n: nat): seq<Event> {
    seq(n, i => Complete)
  }

  lemma CompletionStep(es: seq<Event>)
    requires es != [] && Last(es) == Complete && Legal(Front(es)) && Run(Front(es)).outstanding > 0
    ensures Legal(es) && Run(es) == Completed(Run(Front(es)))
  {
  }

  /**
   * Without new posts exactly CompletionsLeft completions follow, one fewer than queue length plus
   * outstanding writes while anything is queued; the queue is empty after as many as it was long.
   */
  lemma {:induction false} Drains(es: seq<Event>, n: nat)
    requires Legal(es) && n <= CompletionsLeft(Run(es))
    ensures Legal(es + Completions(n))
    ensures var c, d := Run(es), Run(es + Completions(n));
            && CompletionsLeft(d) == CompletionsLeft(c) - n
            && d.queue == (if n < |c.queue| then c.queue[n..] else [])
            && (n == CompletionsLeft(c) ==> d.queue == [] && d.outstanding == 0)
  {
    hide Run;
    hide Legal;
    NeverStranded(es);
    if n == 0 {
      assert es + Completions(0) == es;
    } else {
      Drains(es, n - 1);
      var before := es + Completions(n - 1);
      assert Front(es + Completions(n)) == before && Last(es + Completions(n)) == Complete;
      NeverStranded(before);
      CompletionStep(es + Completions(n));
    }
  }
}
