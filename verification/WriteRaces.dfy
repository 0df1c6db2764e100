/**
 * The outgoing queue with its steps taken apart.  Completions run one after the other on the
 * strand; `PostWrite` does not run on it, so its two steps fall anywhere between theirs.
 */
module WriteRaces {
  import opened WriteQueue

  /** Where the completion handler stands. */
  datatype Phase = Ready | Popped | Starting

  /** Everything posted, the front's position, and the positions of the writes started so far. */
  datatype Socket = Socket(
    posted: seq<Message>, head: nat, outstanding: nat, posting: nat, phase: Phase, started: seq<nat>)

  const FRESH := Socket([], 0, 0, 0, Ready, [])

  datatype Move =
    | Push(m: Message)     // the first step of PostWrite
    | PostStart            // its second step, WriteAsync
    | Pop                  // the first step of a completion
    | Test                 // is there more?
    | CompletionStart      // if so, WriteAsync

  predicate IsQueued(s: Socket) {
    s.head < |s.posted|
  }

  /** `WriteAsync`. */
  function StartFront(s: Socket): Socket {
    if IsQueued(s) then s.(outstanding := s.outstanding + 1, started := s.started + [s.head]) else s
  }

  predicate CanMove(s: Socket, e: Move) {
    match e
    case Push(_) => true
    case PostStart => s.posting > 0
    case Pop => s.phase == Ready && s.outstanding > 0
    case Test => s.phase == Popped
    case CompletionStart => s.phase == Starting
  }

  function Moved(s: Socket, e: Move): Socket
    requires CanMove(s, e)
  {
    match e
    case Push(m) => s.(posted := s.posted + [m], posting := s.posting + 1)
    case PostStart => StartFront(s.(posting := s.posting - 1))
    case Pop => s.(outstanding := s.outstanding - 1, head := if IsQueued(s) then s.head + 1 else s.head, phase := Popped)
    case Test => s.(phase := if IsQueued(s) then Starting else Ready)
    case CompletionStart => StartFront(s).(phase := Ready)
  }

  predicate Reaches(s: Socket, es: seq<Move>, s': Socket)
    decreases |es|
  {
    if es == [] then s == s' else CanMove(s, es[0]) && Reaches(Moved(s, es[0]), es[1..], s')
  }

  lemma ReachesOne(s: Socket, e: Move)
    requires CanMove(s, e)
    ensures Reaches(s, [e], Moved(s, e))
  {
    assert Reaches(Moved(s, e), [e][1..], Moved(s, e));
  }

  lemma {:induction false} ReachesConcat(s: Socket, a: seq<Move>, m: Socket, b: seq<Move>, s': Socket)
    requires Reaches(s, a, m) && Reaches(m, b, s')
    ensures Reaches(s, a + b, s')
    decreases |a|
  {
    hide Moved;
    hide CanMove;
    if a == [] {
      assert a + b == b;
    } else {
      assert (a + b)[0] == a[0] && (a + b)[1..] == a[1..] + b;
      ReachesConcat(Moved(s, a[0]), a[1..], m, b, s');
    }
  }

  // ---------------------------------------------------------------- uninterrupted steps are the atomic ones

  /** Every start is of a posted message, in the order of posting, and none is beyond the front. */
  ghost predicate InOrder(s: Socket) {
    && s.head <= |s.posted|
    && (forall k | 0 <= k < |s.started| :: s.started[k] <= s.head && s.started[k] < |s.posted|)
    && forall j, k | 0 <= j < k < |s.started| :: s.started[j] <= s.started[k]
  }

  function Written(posted: seq<Message>, started: seq<nat>): (ms: seq<Message>)
    requires forall k | 0 <= k < |started| :: started[k] < |posted|
    ensures |ms| == |started|
  {
    seq(|started|, k requires 0 <= k < |started| && started[k] < |posted| => posted[started[k]])
  }

  ghost function Abs(s: Socket): Channel
    requires InOrder(s)
  {
    Channel(s.posted[s.head..], s.outstanding, Written(s.posted, s.started))
  }

  lemma PostIsAtomic(s: Socket, m: Message)
    requires InOrder(s)
    ensures var s' := Moved(Moved(s, Push(m)), PostStart);
            InOrder(s') && Abs(s') == Posted(Abs(s), m)
  {
    var s' := Moved(Moved(s, Push(m)), PostStart);
    assert s'.posted[s.head..] == s.posted[s.head..] + [m];
    assert Written(s'.posted, s'.started) == Written(s.posted, s.started) + [s'.posted[s.head]];
  }

  lemma CompletionIsAtomic(s: Socket)
    requires InOrder(s) && CanMove(s, Pop)
    ensures var t := Moved(Moved(s, Pop), Test);
            var s' := if t.phase == Starting then Moved(t, CompletionStart) else t;
            InOrder(s') && s'.phase == Ready && Abs(s') == Completed(Abs(s))
  {
    var t := Moved(Moved(s, Pop), Test);
    var s' := if t.phase == Starting then Moved(t, CompletionStart) else t;
    assert IsQueued(s) ==> s.posted[s.head..][1..] == s.posted[s.head + 1..];
    if t.phase == Starting {
      assert Written(s'.posted, s'.started) == Written(s.posted, s.started) + [s.posted[t.head]];
    }
  }

  // ---------------------------------------------------------------- what survives

  lemma MoveKeepsOrder(s: Socket, e: Move)
    requires InOrder(s) && CanMove(s, e)
    ensures InOrder(Moved(s, e))
  {
  }

  /** Whatever the interleaving, writes are started in the order of posting. */
  lemma {:induction false} OrderSurvives(s: Socket, es: seq<Move>, s': Socket)
    requires InOrder(s) && Reaches(s, es, s')
    ensures InOrder(s')
    decreases |es|
  {
    hide InOrder;
    hide Moved;
    hide CanMove;
    if es != [] {
      MoveKeepsOrder(s, es[0]);
      OrderSurvives(Moved(s, es[0]), es[1..], s');
    }
  }

  // ---------------------------------------------------------------- what does not: a message lost

  /** The message at p left the queue and no write of it was started. */
  predicate Lost(s: Socket, p: nat) {
    p < s.head && p !in s.started
  }

  ghost predicate NothingLost(s: Socket) {
    forall p :: !Lost(s, p)
  }

  /** Lost is lost for good. */
  lemma {:induction false} LostForever(s: Socket, es: seq<Move>, s': Socket, p: nat)
    requires Reaches(s, es, s') && Lost(s, p)
    ensures Lost(s', p)
    decreases |es|
  {
    if es != [] {
      LostForever(Moved(s, es[0]), es[1..], s', p);
    }
  }

  /** Each completion is of the only write outstanding. */
  predicate ReachesSingly(s: Socket, es: seq<Move>, s': Socket)
    decreases |es|
  {
    if es == [] then s == s'
    else
      && CanMove(s, es[0]) && (es[0].Pop? ==> s.outstanding == 1)
      && ReachesSingly(Moved(s, es[0]), es[1..], s')
  }

  ghost predicate FrontInFlight(s: Socket) {
    NothingLost(s) && (s.outstanding > 0 ==> IsQueued(s) && s.head in s.started)
  }

  lemma SingleMove(s: Socket, e: Move)
    requires FrontInFlight(s) && CanMove(s, e) && (e.Pop? ==> s.outstanding == 1)
    ensures FrontInFlight(Moved(s, e))
  {
    var s' := Moved(s, e);
    forall p: nat
      ensures !Lost(s', p)
    {
      assert !Lost(s, p);
    }
  }

  /** Then nothing is lost, and whatever is in flight is still queued. */
  lemma {:induction false} NothingLostWhileSingle(s: Socket, es: seq<Move>, s': Socket)
    requires FrontInFlight(s) && ReachesSingly(s, es, s')
    ensures FrontInFlight(s')
    decreases |es|
  {
    hide FrontInFlight;
    hide Moved;
    hide CanMove;
    if es != [] {
      SingleMove(s, es[0]);
      NothingLostWhileSingle(Moved(s, es[0]), es[1..], s');
    }
  }

  /** A write is outstanding and nothing is queued: the next message can be lost. */
  lemma NextIsLost(s: Socket, m: Message) returns (es: seq<Move>, s': Socket)
    requires InOrder(s) && s.phase == Ready && s.outstanding > 0 && !IsQueued(s)
    ensures es == [Push(m)] + [Pop] && Reaches(s, es, s') && Lost(s', |s.posted|)
  {
    var s1 := Moved(s, Push(m));
    s' := Moved(s1, Pop);
    ReachesOne(s, Push(m));
    ReachesOne(s1, Pop);
    ReachesConcat(s, [Push(m)], s1, [Pop], s');
    es := [Push(m)] + [Pop];
  }

  /** One whole completion, with nobody in between. */
  lemma CompletionReaches(s: Socket) returns (es: seq<Move>, s': Socket)
    requires InOrder(s) && CanMove(s, Pop)
    ensures Reaches(s, es, s') && InOrder(s') && s'.phase == Ready && s'.posted == s.posted
    ensures s'.head == if IsQueued(s) then s.head + 1 else s.head
    ensures s'.outstanding == if IsQueued(s') then s.outstanding else s.outstanding - 1
  {
    var s1 := Moved(s, Pop);
    var s2 := Moved(s1, Test);
    MoveKeepsOrder(s, Pop);
    MoveKeepsOrder(s1, Test);
    ReachesOne(s, Pop);
    ReachesOne(s1, Test);
    hide Reaches;
    hide InOrder;
    ReachesConcat(s, [Pop], s1, [Test], s2);
    if s2.phase == Starting {
      s' := Moved(s2, CompletionStart);
      MoveKeepsOrder(s2, CompletionStart);
      ReachesOne(s2, CompletionStart);
      ReachesConcat(s, [Pop] + [Test], s2, [CompletionStart], s');
      es := [Pop] + [Test] + [CompletionStart];
    } else {
      es, s' := [Pop] + [Test], s2;
    }
  }

  /** And only then: with two writes outstanding, some continuation loses the next message posted. */
  lemma {:induction false} TwoOutstandingCanLose(s: Socket, m: Message) returns (es: seq<Move>, s': Socket)
    requires InOrder(s) && s.phase == Ready && s.outstanding >= 2
    ensures Reaches(s, es, s') && Lost(s', |s.posted|)
    decreases |s.posted| - s.head
  {
    if !IsQueued(s) {
      es, s' := NextIsLost(s, m);
    } else {
      hide Reaches;
      hide InOrder;
      var completion, s1 := CompletionReaches(s);
      var rest;
      if IsQueued(s1) {
        rest, s' := TwoOutstandingCanLose(s1, m);
      } else {
        rest, s' := NextIsLost(s1, m);
      }
      ReachesConcat(s, completion, s1, rest, s');
      es := completion + rest;
    }
  }

  /** Two posts, of which the second overlaps, and a third message that is lost. */
  lemma OverlapCanLose(a: Message, b: Message, c: Message) returns (es: seq<Move>, s': Socket)
    ensures Reaches(FRESH, es, s') && Lost(s', 2)
  {
    var s1 := Moved(FRESH, Push(a));
    var s2 := Moved(s1, PostStart);
    var s3 := Moved(s2, Push(b));
    var s4 := Moved(s3, PostStart);
    ReachesOne(FRESH, Push(a));
    ReachesOne(s1, PostStart);
    ReachesOne(s2, Push(b));
    ReachesOne(s3, PostStart);
    assert s4 == Socket([a, b], 0, 2, 0, Ready, [0, 0]);
    var rest;
    rest, s' := TwoOutstandingCanLose(s4, c);
    hide Reaches;
    ReachesConcat(FRESH, [Push(a)], s1, [PostStart], s2);
    ReachesConcat(FRESH, [Push(a)] + [PostStart], s2, [Push(b)], s3);
    ReachesConcat(FRESH, [Push(a)] + [PostStart] + [Push(b)], s3, [PostStart], s4);
    ReachesConcat(FRESH, [Push(a)] + [PostStart] + [Push(b)] + [PostStart], s4, rest, s');
    es := [Push(a)] + [PostStart] + [Push(b)] + [PostStart] + rest;
  }

  // ---------------------------------------------------------------- exactly once

  /** A post waits for an empty queue and for the completion handler to be done. */
  predicate Polite(s: Socket, e: Move) {
    e.Push? ==> s.posting == 0 && s.phase == Ready && !IsQueued(s)
  }

  predicate ReachesPolitely(s: Socket, es: seq<Move>, s': Socket)
    decreases |es|
  {
    if es == [] then s == s'
    else CanMove(s, es[0]) && Polite(s, es[0]) && ReachesPolitely(Moved(s, es[0]), es[1..], s')
  }

  /** No message was lost and none started twice. */
  ghost predicate Once(s: Socket) {
    NothingLost(s) && forall j, k | 0 <= j < k < |s.started| :: s.started[j] != s.started[k]
  }

  function Upto(n: nat): seq<nat> {
    seq(n, i => i)
  }

  /** Nothing to do, a message pushed, or that message in flight. */
  predicate Orderly(s: Socket) {
    || (s.posting == 0 && s.head == |s.posted| && s.outstanding == 0 && s.phase != Starting && s.started == Upto(s.head))
    || (s.posting == 1 && s.head + 1 == |s.posted| && s.outstanding == 0 && s.phase == Ready && s.started == Upto(s.head))
    || (s.posting == 0 && s.head + 1 == |s.posted| && s.outstanding == 1 && s.phase == Ready && s.started == Upto(s.head + 1))
  }

  lemma PoliteMove(s: Socket, e: Move)
    requires Orderly(s) && CanMove(s, e) && Polite(s, e)
    ensures Orderly(Moved(s, e))
  {
    assert Upto(s.head) + [s.head] == Upto(s.head + 1);
  }

  lemma OrderlyOnce(s: Socket)
    requires Orderly(s)
    ensures Once(s)
  {
    forall p: nat
      ensures !Lost(s, p)
    {
      if p < s.head {
        assert s.started[p] == p;
      }
    }
  }

  lemma {:induction false} PoliteKeepsOrderly(s: Socket, es: seq<Move>, s': Socket)
    requires Orderly(s) && ReachesPolitely(s, es, s')
    ensures Orderly(s')
    decreases |es|
  {
    hide Orderly;
    hide Moved;
    hide CanMove;
    hide Polite;
    if es != [] {
      PoliteMove(s, es[0]);
      PoliteKeepsOrderly(Moved(s, es[0]), es[1..], s');
    }
  }

  /** If every post is polite, each message that has left PostWrite is started exactly once, in order. */
  lemma PoliteExactlyOnce(es: seq<Move>, s: Socket)
    requires ReachesPolitely(FRESH, es, s)
    ensures Once(s) && s.outstanding <= 1
    ensures s.posting == 0 ==> s.started == Upto(|s.posted|)
  {
    assert Upto(0) == [];
    PoliteKeepsOrderly(FRESH, es, s);
    OrderlyOnce(s);
  }

  lemma PolitelyTwo(s: Socket, e: Move, e': Move)
    requires CanMove(s, e) && !e.Push? && CanMove(Moved(s, e), e') && !e'.Push?
    ensures ReachesPolitely(s, [e, e'], Moved(Moved(s, e), e'))
  {
    hide Moved;
    hide CanMove;
    var s1 := Moved(s, e);
    assert [e, e'][1..] == [e'] && [e'][1..] == [];
    assert ReachesPolitely(Moved(s1, e'), [e'][1..], Moved(s1, e'));
    assert ReachesPolitely(s1, [e, e'][1..], Moved(s1, e'));
  }

  lemma {:induction false} PolitelyConcat(s: Socket, a: seq<Move>, m: Socket, b: seq<Move>, s': Socket)
    requires ReachesPolitely(s, a, m) && ReachesPolitely(m, b, s')
    ensures ReachesPolitely(s, a + b, s')
    decreases |a|
  {
    hide Moved;
    hide CanMove;
    hide Polite;
    if a == [] {
      assert a + b == b;
    } else {
      assert (a + b)[0] == a[0] && (a + b)[1..] == a[1..] + b;
      PolitelyConcat(Moved(s, a[0]), a[1..], m, b, s');
    }
  }

  lemma RepeatedLast(s: Socket, n: nat)
    requires |s.started| >= 1 && n in s.started[..|s.started| - 1] && s.started[|s.started| - 1] == n
    ensures !Once(s)
  {
    var j :| 0 <= j < |s.started| - 1 && s.started[j] == n;
    assert s.started[j] == s.started[|s.started| - 1];
  }

  /** An impolite post is completed to a second start of one message by steps already due. */
  lemma ImpolitePostRepeats(s: Socket, m: Message) returns (es: seq<Move>, s': Socket)
    requires Orderly(s) && !Polite(s, Push(m))
    ensures ReachesPolitely(Moved(s, Push(m)), es, s') && !Once(s')
  {
    var s1 := Moved(s, Push(m));
    var s2 := Moved(s1, PostStart);
    if s.phase == Popped {
      var s3 := Moved(s2, Test);
      s' := Moved(s3, CompletionStart);
      PolitelyTwo(s1, PostStart, Test);
      assert [CompletionStart][1..] == [] && ReachesPolitely(s', [CompletionStart][1..], s');
      PolitelyConcat(s1, [PostStart, Test], s3, [CompletionStart], s');
      es := [PostStart, Test] + [CompletionStart];
      assert s'.started[..|s'.started| - 1] == s2.started;
      RepeatedLast(s', s.head);
    } else if s.posting == 1 {
      s' := Moved(s2, PostStart);
      PolitelyTwo(s1, PostStart, PostStart);
      es := [PostStart, PostStart];
      assert s'.started[..|s'.started| - 1] == s2.started;
      RepeatedLast(s', s.head);
    } else {
      s' := s2;
      assert [PostStart][1..] == [] && ReachesPolitely(s', [PostStart][1..], s');
      es := [PostStart];
      assert s.started[s.head] == s.head && s'.started[..|s'.started| - 1] == s.started;
      RepeatedLast(s', s.head);
    }
  }

  /** While every post is polite, each message is started once and none is lost. */
  ghost predicate StaysOnce(s: Socket) {
    forall more, s' | ReachesPolitely(s, more, s') :: Once(s')
  }

  lemma OrderlyStaysOnce(s: Socket)
    requires Orderly(s)
    ensures StaysOnce(s)
  {
    hide Orderly;
    forall more, s' | ReachesPolitely(s, more, s')
      ensures Once(s')
    {
      PoliteKeepsOrderly(s, more, s');
      OrderlyOnce(s');
    }
  }

  /** Politeness is exact: after any polite run, the next move is polite if and only if that stays so. */
  lemma PoliteIffOnce(es: seq<Move>, s: Socket, e: Move)
    requires ReachesPolitely(FRESH, es, s) && CanMove(s, e)
    ensures Polite(s, e) <==> StaysOnce(Moved(s, e))
  {
    assert Upto(0) == [];
    PoliteKeepsOrderly(FRESH, es, s);
    if Polite(s, e) {
      PoliteMove(s, e);
      OrderlyStaysOnce(Moved(s, e));
    } else {
      assert e == Push(e.m);
      var more, s' := ImpolitePostRepeats(s, e.m);
      assert ReachesPolitely(Moved(s, e), more, s') && !Once(s');
    }
  }

  /** To post into an empty queue is not enough: between the pop and the test of a completion it starts twice. */
  lemma EmptyQueueIsNotEnough(a: Message, b: Message) returns (s: Socket, s': Socket)
    ensures Reaches(FRESH, [Push(a)] + [PostStart] + [Pop], s) && !IsQueued(s)
    ensures Reaches(s, [Push(b)] + [PostStart] + [Test] + [CompletionStart], s') && s'.started == [0, 1, 1]
  {
    var s1 := Moved(FRESH, Push(a));
    var s2 := Moved(s1, PostStart);
    s := Moved(s2, Pop);
    var s3 := Moved(s, Push(b));
    var s4 := Moved(s3, PostStart);
    var s5 := Moved(s4, Test);
    s' := Moved(s5, CompletionStart);
    ReachesOne(FRESH, Push(a));
    ReachesOne(s1, PostStart);
    ReachesOne(s2, Pop);
    ReachesOne(s, Push(b));
    ReachesOne(s3, PostStart);
    ReachesOne(s4, Test);
    ReachesOne(s5, CompletionStart);
    hide Reaches;
    ReachesConcat(FRESH, [Push(a)], s1, [PostStart], s2);
    ReachesConcat(FRESH, [Push(a)] + [PostStart], s2, [Pop], s);
    ReachesConcat(s, [Push(b)], s3, [PostStart], s4);
    ReachesConcat(s, [Push(b)] + [PostStart], s4, [Test], s5);
    ReachesConcat(s, [Push(b)] + [PostStart] + [Test], s5, [CompletionStart], s');
  }
}
