/**
 * The two models of the handlers agree: operations whose handlers nobody interrupts are a run of
 * the atomic handlers.
 */
module Serial {
  import opened Options
  import opened RedisStore
  import opened PasswordHash
  import opened Sessions
  import opened SessionTheorems
  import opened Interleaving

  ghost predicate QuietBut(s: OpState, t: Option<Token>) {
    forall u | u in s.pcs && t != Some(u) :: !CanStep(s.pcs[u])
  }

  /** Nobody else is in the middle of a handler, and a crash comes between handlers. */
  ghost predicate Uninterrupted(s: OpState, a: Action) {
    match a
    case Arrive(_, _) | Crash => QuietBut(s, None)
    case Begin(t, _) => QuietBut(s, Some(t))
    case Step(t, _) => QuietBut(s, Some(t))
  }

  /** The event that a handler is. */
  function EventOf(t: Token, first: Pc, time: string): Event
    requires IsFirst(first)
  {
    match first
    case RegisterExists(r) => Register(t, Some(r))
    case LoginExists(q) => Login(t, Some(q), time)
    case DataExists => PlayerData(t, true)
    case OutExists(leaving) => if leaving then Disconnect(t) else Logout(t, true)
  }

  /** The events of a handler that has ended; a client that leaves is destroyed next. */
  function HandlerEvents(t: Token, first: Pc, time: string): seq<Event>
    requires IsFirst(first)
  {
    if Leaving(first) then [EventOf(t, first, time), Destroy(t)] else [EventOf(t, first, time)]
  }

  /** The handler that t began last, before action i. */
  function HandlerOf(acts: seq<Action>, i: nat, t: Token): Pc
    requires i <= |acts|
  {
    if i == 0 then Idle
    else if acts[i - 1].Begin? && acts[i - 1].t == t then acts[i - 1].first
    else HandlerOf(acts, i - 1, t)
  }

  /** The next operation of t is the last of its handler. */
  predicate Ends(s: OpState, t: Token, time: string)
    requires t in s.pcs
  {
    s.pcs[t].Remove? || !CanStep(Operate(s.db, t, s.pcs[t], time).1)
  }

  /** The events that action i, taken in s, completes. */
  function EventsAt(s: OpState, acts: seq<Action>, i: nat): seq<Event>
    requires i < |acts|
  {
    match acts[i]
    case Arrive(t, time) => [Connect(t, time)]
    case Begin(_, _) => []
    case Step(t, time) =>
      if t in s.pcs && Ends(s, t, time) && IsFirst(HandlerOf(acts, i, t))
      then HandlerEvents(t, HandlerOf(acts, i, t), time) else []
    case Crash => [Restart]
  }

  /** The events completed by the first i actions of a schedule, in order. */
  function EventsUpTo(ss: seq<OpState>, acts: seq<Action>, i: nat): seq<Event>
    requires i <= |acts| < |ss|
  {
    if i == 0 then [] else EventsUpTo(ss, acts, i - 1) + EventsAt(ss[i - 1], acts, i - 1)
  }

  /** Same store, same clients. */
  ghost predicate SameTables(db: Db, connected: set<Token>, b: System) {
    b.server.db == db && b.server.clients.Keys == connected && b.sockets == connected
  }

  /** Between handlers. */
  ghost predicate Resting(s: OpState, b: System) {
    QuietBut(s, None) && SameTables(s.db, s.pcs.Keys, b)
  }

  /** t is in the middle of the handler that began with `first` in b. */
  ghost predicate Midway(s: OpState, b: System, t: Token, first: Pc) {
    && t in s.pcs && CanStep(s.pcs[t]) && QuietBut(s, Some(t)) && IsFirst(first)
    && SameTables(b.server.db, s.pcs.Keys, b)
    && Leaving(s.pcs[t]) == Leaving(first)
    && forall time :: Finish(s.db, t, s.pcs[t], time) == Finish(b.server.db, t, first, time)
  }

  /** Only the last write of a login depends on the clock. */
  lemma TimeIndependent(db: Db, t: Token, pc: Pc, time: string, time': string)
    requires CanStep(Operate(db, t, pc, time).1)
    ensures Operate(db, t, pc, time') == Operate(db, t, pc, time)
  {
    hide HashSet;
    hide HashDel;
    hide Del;
    hide HashGet;
    hide Printed;
    hide Decimal;
  }

  predicate Faulted(pc: Pc) {
    pc.FaultInLogin? || pc.FaultInData?
  }

  lemma OutIsEvent(b: System, t: Token, leaving: bool, time: string)
    requires t in b.server.clients
    ensures var e := EventOf(t, OutExists(leaving), time);
            AnswerTo(b, e) == None && Enabled(b, e) && Finish(b.server.db, t, OutExists(leaving), time) == (Apply(b, e).server.db, Idle)
  {
    hide Finish;
    hide LoggedOut;
    hide Disconnected;
    LogoutUninterrupted(b.server, t, leaving, time);
  }

  lemma LoginIsEvent(b: System, t: Token, q: LoginRequest, time: string)
    requires t in b.server.clients
    ensures var e := EventOf(t, LoginExists(q), time);
            && Enabled(b, e) && Finish(b.server.db, t, LoginExists(q), time).0 == Apply(b, e).server.db
            && (Faulted(Finish(b.server.db, t, LoginExists(q), time).1) <==> AnswerTo(b, e) == Some(Undefined))
  {
    hide Finish;
    hide LoggedIn;
    hide LoginAnswer;
    LoginUninterrupted(b.server, t, q, time);
  }

  lemma RegisterIsEvent(b: System, t: Token, r: RegisterRequest, time: string)
    requires t in b.server.clients && IsFirst(RegisterExists(r))
    ensures var e := EventOf(t, RegisterExists(r), time);
            && Enabled(b, e) && Finish(b.server.db, t, RegisterExists(r), time) == (Apply(b, e).server.db, Idle)
            && AnswerTo(b, e) != Some(Undefined)
  {
    hide Finish;
    hide AccountFields;
    RegisterUninterrupted(b.server.db, t, r, time);
  }

  lemma DataIsEvent(b: System, t: Token, time: string)
    requires t in b.server.clients
    ensures var e := EventOf(t, DataExists, time);
            && Enabled(b, e) && Finish(b.server.db, t, DataExists, time).0 == Apply(b, e).server.db
            && (Faulted(Finish(b.server.db, t, DataExists, time).1) <==> AnswerTo(b, e) == Some(Undefined))
  {
    hide Finish;
    hide PlayerDataAnswer;
    DataUninterrupted(b.server.db, t, time);
  }

  /** A handler run to its end is its event, on the tables, and faults exactly if the event's answer is undefined. */
  lemma HandlerIsEvent(b: System, t: Token, first: Pc, time: string)
    requires IsFirst(first) && t in b.server.clients
    ensures Enabled(b, EventOf(t, first, time))
    ensures Finish(b.server.db, t, first, time).0 == Apply(b, EventOf(t, first, time)).server.db
    ensures Faulted(Finish(b.server.db, t, first, time).1) <==> AnswerTo(b, EventOf(t, first, time)) == Some(Undefined)
  {
    hide Finish;
    hide Apply;
    hide Enabled;
    hide EventOf;
    hide AnswerTo;
    match first
    case RegisterExists(r) => RegisterIsEvent(b, t, r, time);
    case LoginExists(q) => LoginIsEvent(b, t, q, time);
    case DataExists => DataIsEvent(b, t, time);
    case OutExists(leaving) => OutIsEvent(b, t, leaving, time);
  }

  lemma EventClients(b: System, t: Token, first: Pc, time: string)
    requires IsFirst(first) && t in b.server.clients && b.sockets == b.server.clients.Keys
    ensures Enabled(b, EventOf(t, first, time))
    ensures var b' := Apply(b, EventOf(t, first, time));
            && b'.server.clients.Keys == (if Leaving(first) then b.sockets - {t} else b.sockets)
            && b'.sockets == b.sockets
  {
    hide LoginSucceeds;
    hide RegisterAnswer;
    hide LoginId;
    hide HashSet;
    hide HashDel;
    hide Render;
    hide Decimal;
    hide AccountFields;
  }

  // ---------------------------------------------------------------- the simulation

  ghost predicate Runs(b: System, es: seq<Event>, b': System)
    decreases |es|
  {
    if es == [] then b == b' else Enabled(b, es[0]) && Runs(Apply(b, es[0]), es[1..], b')
  }

  lemma RunsOne(b: System, e: Event)
    requires Enabled(b, e)
    ensures Runs(b, [e], Apply(b, e))
  {
    assert [e][1..] == [];
    hide Apply;
    hide Enabled;
    assert Runs(Apply(b, e), [e][1..], Apply(b, e));
  }

  lemma RunsTwo(b: System, e: Event, e': Event)
    requires Enabled(b, e) && Enabled(Apply(b, e), e')
    ensures Runs(b, [e, e'], Apply(Apply(b, e), e'))
  {
    hide Apply;
    hide Enabled;
    assert [e, e'][1..] == [e'];
    RunsOne(Apply(b, e), e');
  }

  lemma ArriveSimulated(s: OpState, b: System, t: Token, time: string) returns (b': System)
    requires Resting(s, b) && t !in s.pcs
    ensures Runs(b, [Connect(t, time)], b') && Resting(Act(s, Arrive(t, time)), b')
  {
    hide HashSet;
    hide Runs;
    b' := Apply(b, Connect(t, time));
    RunsOne(b, Connect(t, time));
  }

  lemma CrashSimulated(s: OpState, b: System) returns (b': System)
    requires Resting(s, b)
    ensures Runs(b, [Restart], b') && Resting(Act(s, Crash), b')
  {
    hide Runs;
    b' := Apply(b, Restart);
    RunsOne(b, Restart);
  }

  lemma BeginSimulated(s: OpState, b: System, t: Token, first: Pc)
    requires Resting(s, b) && CanAct(s, Begin(t, first))
    ensures Midway(Act(s, Begin(t, first)), b, t, first)
  {
    FirstCanStep(first);
    hide Finish;
    hide IsFirst;
    hide CanStep;
    hide Leaving;
    hide Operate;
    hide HashSet;
    hide Restarted;
    var s' := Act(s, Begin(t, first));
    assert s'.db == s.db && s'.pcs == s.pcs[t := first];
    hide Act;
    hide CanAct;
    assert s'.pcs.Keys == s.pcs.Keys;
    assert QuietBut(s', Some(t));
    hide QuietBut;
  }

  lemma FirstCanStep(first: Pc)
    requires IsFirst(first)
    ensures CanStep(first)
  {
  }

  lemma FinishUnmoved(db: Db, t: Token, pc: Pc, time: string, time': string)
    requires CanStep(pc) && CanStep(Operate(db, t, pc, time).1)
    ensures var (db', pc') := Operate(db, t, pc, time); Finish(db', t, pc', time') == Finish(db, t, pc, time')
  {
    TimeIndependent(db, t, pc, time, time');
    hide Operate;
    hide Finish;
    var (db', pc') := Operate(db, t, pc, time);
    FinishStep(db, t, pc, time', db', pc');
  }

  /** An operation inside a handler. */
  lemma StepSimulated(s: OpState, b: System, t: Token, first: Pc, time: string)
    requires CanAct(s, Step(t, time)) && Midway(s, b, t, first) && !Ends(s, t, time)
    ensures Midway(Act(s, Step(t, time)), b, t, first)
  {
    var pc := s.pcs[t];
    var s' := Act(s, Step(t, time));
    var (db', pc') := Operate(s.db, t, pc, time);
    LeavingStep(s.db, t, pc, time);
    hide Operate;
    hide Finish;
    hide CanStep;
    hide IsFirst;
    forall time'
      ensures Finish(db', t, pc', time') == Finish(b.server.db, t, first, time')
    {
      FinishUnmoved(s.db, t, pc, time, time');
    }
    assert s'.pcs.Keys == s.pcs.Keys;
  }

  function After(connected: set<Token>, t: Token, first: Pc): set<Token> {
    if Leaving(first) then connected - {t} else connected
  }

  /** What the last operation of a handler leaves. */
  lemma LastOperation(s: OpState, b: System, t: Token, first: Pc, time: string)
    requires CanAct(s, Step(t, time)) && IsFirst(first) && Midway(s, b, t, first) && Ends(s, t, time)
    ensures var s' := Act(s, Step(t, time));
            && s'.db == Finish(b.server.db, t, first, time).0
            && s'.pcs.Keys == After(s.pcs.Keys, t, first)
            && QuietBut(s', None)
  {
    var pc := s.pcs[t];
    var (db', pc') := Operate(s.db, t, pc, time);
    RemoveIsLast(s.db, t, time);
    FinishStep(s.db, t, pc, time, db', pc');
    LastLeaves(s.db, t, pc, time);
    assert !CanStep(pc');
    hide Operate;
    hide Finish;
    hide IsFirst;
    hide SameTables;
    hide CanStep;
  }

  lemma DestroyEffect(b: System, t: Token)
    requires t in b.sockets && t !in b.server.clients
    ensures Enabled(b, Destroy(t)) && Apply(b, Destroy(t)) == b.(sockets := b.sockets - {t})
  {
  }

  lemma EventRun(b: System, t: Token, first: Pc, time: string) returns (b': System)
    requires IsFirst(first) && t in b.server.clients && b.sockets == b.server.clients.Keys
    ensures Runs(b, HandlerEvents(t, first, time), b') && SameTables(Finish(b.server.db, t, first, time).0, After(b.sockets, t, first), b')
  {
    hide Finish;
    hide Runs;
    hide LoggedIn;
    hide LoggedOut;
    hide Disconnected;
    hide Registered;
    var e := EventOf(t, first, time);
    HandlerIsEvent(b, t, first, time);
    EventClients(b, t, first, time);
    hide EventOf;
    hide Apply;
    hide Enabled;
    hide IsFirst;
    hide AnswerTo;
    b' := Apply(b, e);
    if Leaving(first) {
      DestroyEffect(b', t);
      RunsTwo(b, e, Destroy(t));
      b' := Apply(b', Destroy(t));
    } else {
      RunsOne(b, e);
    }
  }

  /** The last operation of a handler completes its event. */
  lemma LastStepSimulated(s: OpState, b: System, t: Token, first: Pc, time: string) returns (b': System)
    requires CanAct(s, Step(t, time)) && IsFirst(first) && Midway(s, b, t, first) && Ends(s, t, time)
    ensures Runs(b, HandlerEvents(t, first, time), b') && Resting(Act(s, Step(t, time)), b')
  {
    LastOperation(s, b, t, first, time);
    hide HandlerEvents;
    hide Operate;
    hide Act;
    hide Finish;
    hide Runs;
    hide IsFirst;
    hide QuietBut;
    b' := EventRun(b, t, first, time);
  }

  lemma LastLeaves(db: Db, t: Token, pc: Pc, time: string)
    requires CanStep(pc) && !CanStep(Operate(db, t, pc, time).1)
    ensures Leaving(pc) <==> pc.Remove?
  {
    hide HashSet;
    hide HashDel;
    hide Printed;
    hide Decimal;
  }

  /** While a handler is under way only its client can move. */
  lemma OnlyItsClient(s: OpState, b: System, t: Token, first: Pc, a: Action)
    requires Midway(s, b, t, first) && CanAct(s, a) && Uninterrupted(s, a)
    ensures a.Step? && a.t == t
  {
    hide Finish;
    hide SameTables;
  }

  // ---------------------------------------------------------------- handlers and events, in order

  /** A handler's event, whenever it ended; nothing for other events. */
  function Timeless(e: Event): seq<Event> {
    match e
    case Connect(_, _) | Destroy(_) | Restart => []
    case Login(t, request, _) => [Login(t, request, "")]
    case _ => [e]
  }

  /** The events of handlers among es. */
  function Handled(es: seq<Event>): seq<Event> {
    if es == [] then [] else Handled(es[..|es| - 1]) + Timeless(es[|es| - 1])
  }

  /** The handlers begun by the first i actions, as events. */
  function Begun(acts: seq<Action>, i: nat): seq<Event>
    requires i <= |acts|
  {
    if i == 0 then []
    else
      Begun(acts, i - 1)
      + match acts[i - 1]
        case Begin(t, first) => if IsFirst(first) then [EventOf(t, first, "")] else []
        case _ => []
  }

  lemma {:induction false} HandledConcat(a: seq<Event>, b: seq<Event>)
    ensures Handled(a + b) == Handled(a) + Handled(b)
    decreases |b|
  {
    hide Timeless;
    if b == [] {
      assert a + b == a;
    } else {
      var front := b[..|b| - 1];
      assert (a + b)[..|a + b| - 1] == a + front;
      HandledConcat(a, front);
    }
  }

  lemma HandledSingle(e: Event)
    ensures Handled([e]) == Timeless(e) && Handled([]) == []
  {
    hide Timeless;
    assert [e][..0] == [];
  }

  lemma TimelessEvent(t: Token, first: Pc, time: string)
    requires IsFirst(first)
    ensures Timeless(EventOf(t, first, time)) == [EventOf(t, first, "")]
  {
  }

  lemma HandledOne(t: Token, first: Pc, time: string)
    requires IsFirst(first)
    ensures Handled(HandlerEvents(t, first, time)) == [EventOf(t, first, "")]
  {
    var e := EventOf(t, first, time);
    hide Handled;
    TimelessEvent(t, first, time);
    hide EventOf;
    HandledSingle(e);
    HandledSingle(Destroy(t));
    HandledConcat([e], [Destroy(t)]);
    assert [e] + [Destroy(t)] == [e, Destroy(t)];
  }

  lemma {:induction false} ExtendRun(bs: seq<System>, es: seq<Event>, more: seq<Event>, b': System)
      returns (bs': seq<System>)
    requires Behaviour(bs, es) && Runs(bs[|es|], more, b')
    ensures Behaviour(bs', es + more) && |bs'| == |es + more| + 1 && bs <= bs' && bs'[|es + more|] == b'
    decreases |more|
  {
    hide Enabled;
    hide Apply;
    hide Booted;
    if more == [] {
      bs' := bs;
      assert es + more == es;
    } else {
      var b1 := Apply(bs[|es|], more[0]);
      bs' := bs + [b1];
      assert Behaviour(bs', es + [more[0]]);
      bs' := ExtendRun(bs', es + [more[0]], more[1..], b');
      assert es + [more[0]] + more[1..] == es + more;
    }
  }

  ghost function BootedOn(db: Db): System {
    System(State(db, map[]), {})
  }

  /** The run has followed the schedule to action i. */
  ghost predicate Follows(ss: seq<OpState>, acts: seq<Action>, i: nat, b: System)
    requires i <= |acts| < |ss|
  {
    var handled, begun := Handled(EventsUpTo(ss, acts, i)), Begun(acts, i);
    || (Resting(ss[i], b) && handled == begun)
    || exists t :: Midway(ss[i], b, t, HandlerOf(acts, i, t)) && handled + [EventOf(t, HandlerOf(acts, i, t), "")] == begun
  }

  /** One action more. */
  lemma FollowsStep(ss: seq<OpState>, acts: seq<Action>, i: nat, b: System) returns (b': System)
    requires Path(ss, acts) && i < |acts| && Uninterrupted(ss[i], acts[i]) && Follows(ss, acts, i, b)
    ensures Runs(b, EventsAt(ss[i], acts, i), b') && Follows(ss, acts, i + 1, b')
  {
    var s, a := ss[i], acts[i];
    assert CanAct(s, a) && ss[i + 1] == Act(s, a);
    hide Path;
    HandledConcat(EventsUpTo(ss, acts, i), EventsAt(s, acts, i));
    if Resting(s, b) && Handled(EventsUpTo(ss, acts, i)) == Begun(acts, i) {
      b' := RestingFollows(ss, acts, i, b);
    } else {
      var t :| Midway(s, b, t, HandlerOf(acts, i, t))
               && Handled(EventsUpTo(ss, acts, i)) + [EventOf(t, HandlerOf(acts, i, t), "")] == Begun(acts, i);
      b' := MidwayFollows(ss, acts, i, b, t);
    }
  }

  lemma RestFollows(ss: seq<OpState>, acts: seq<Action>, i: nat, b: System)
    requires i <= |acts| < |ss| && Resting(ss[i], b) && Handled(EventsUpTo(ss, acts, i)) == Begun(acts, i)
    ensures Follows(ss, acts, i, b)
  {
  }

  /** An action that begins no handler and ends none. */
  lemma OutsideHandlers(ss: seq<OpState>, acts: seq<Action>, i: nat)
    requires i < |acts| < |ss| && (acts[i].Arrive? || acts[i].Crash?)
    ensures Handled(EventsUpTo(ss, acts, i + 1)) == Handled(EventsUpTo(ss, acts, i)) && Begun(acts, i + 1) == Begun(acts, i)
  {
    hide Handled;
    hide Ends;
    hide EventOf;
    hide HandlerEvents;
    hide HandlerOf;
    hide IsFirst;
    HandledConcat(EventsUpTo(ss, acts, i), EventsAt(ss[i], acts, i));
    match acts[i]
    case Arrive(t, time) => HandledSingle(Connect(t, time));
    case Crash => HandledSingle(Restart);
  }

  lemma BeginFollows(ss: seq<OpState>, acts: seq<Action>, i: nat, b: System, t: Token, first: Pc)
    requires i < |acts| < |ss| && acts[i] == Begin(t, first) && IsFirst(first) && Midway(ss[i + 1], b, t, first)
    requires Handled(EventsUpTo(ss, acts, i)) == Begun(acts, i)
    ensures Follows(ss, acts, i + 1, b) && EventsAt(ss[i], acts, i) == []
  {
    hide Midway;
    hide Resting;
    hide EventOf;
    hide Handled;
    assert EventsUpTo(ss, acts, i + 1) == EventsUpTo(ss, acts, i) + [] == EventsUpTo(ss, acts, i);
    assert Begun(acts, i + 1) == Begun(acts, i) + [EventOf(t, first, "")];
    assert HandlerOf(acts, i + 1, t) == first;
  }

  lemma RestingFollows(ss: seq<OpState>, acts: seq<Action>, i: nat, b: System) returns (b': System)
    requires i < |acts| < |ss| && CanAct(ss[i], acts[i]) && ss[i + 1] == Act(ss[i], acts[i])
    requires Resting(ss[i], b) && Handled(EventsUpTo(ss, acts, i)) == Begun(acts, i)
    ensures Runs(b, EventsAt(ss[i], acts, i), b') && Follows(ss, acts, i + 1, b')
  {
    NobodySteps(ss[i], b, acts[i]);
    match acts[i]
    case Arrive(t, time) =>
      assert t !in ss[i].pcs && EventsAt(ss[i], acts, i) == [Connect(t, time)];
      hide *;
      b' := ArriveSimulated(ss[i], b, t, time);
      OutsideHandlers(ss, acts, i);
      RestFollows(ss, acts, i + 1, b');
    case Begin(t, first) =>
      assert IsFirst(first);
      hide *;
      BeginSimulated(ss[i], b, t, first);
      BeginFollows(ss, acts, i, b, t, first);
      RunsNone(b);
      b' := b;
    case Crash =>
      assert EventsAt(ss[i], acts, i) == [Restart];
      hide *;
      b' := CrashSimulated(ss[i], b);
      OutsideHandlers(ss, acts, i);
      RestFollows(ss, acts, i + 1, b');
  }

  lemma NobodySteps(s: OpState, b: System, a: Action)
    requires Resting(s, b) && CanAct(s, a)
    ensures !a.Step?
  {
  }

  lemma RunsNone(b: System)
    ensures Runs(b, [], b)
  {
  }

  lemma MidFollows(ss: seq<OpState>, acts: seq<Action>, i: nat, b: System, t: Token)
    requires i <= |acts| < |ss| && IsFirst(HandlerOf(acts, i, t)) && Midway(ss[i], b, t, HandlerOf(acts, i, t))
    requires Handled(EventsUpTo(ss, acts, i)) + [EventOf(t, HandlerOf(acts, i, t), "")] == Begun(acts, i)
    ensures Follows(ss, acts, i, b)
  {
    hide Midway;
    hide Resting;
    hide Handled;
    hide EventOf;
    hide EventsUpTo;
    hide IsFirst;
  }

  /** An operation begins no handler. */
  lemma InsideHandler(ss: seq<OpState>, acts: seq<Action>, i: nat, t: Token, time: string)
    requires i < |acts| < |ss| && acts[i] == Step(t, time) && t in ss[i].pcs && IsFirst(HandlerOf(acts, i, t))
    ensures Begun(acts, i + 1) == Begun(acts, i) && HandlerOf(acts, i + 1, t) == HandlerOf(acts, i, t)
    ensures EventsUpTo(ss, acts, i + 1) == EventsUpTo(ss, acts, i) + EventsAt(ss[i], acts, i)
    ensures EventsAt(ss[i], acts, i)
         == if Ends(ss[i], t, time) then HandlerEvents(t, HandlerOf(acts, i, t), time) else []
  {
    hide Ends;
    hide EventOf;
    hide HandlerEvents;
    hide IsFirst;
  }

  lemma MidwayFollows(ss: seq<OpState>, acts: seq<Action>, i: nat, b: System, t: Token) returns (b': System)
    requires i < |acts| < |ss| && CanAct(ss[i], acts[i]) && ss[i + 1] == Act(ss[i], acts[i])
    requires t in ss[i].pcs && IsFirst(HandlerOf(acts, i, t))
    requires Uninterrupted(ss[i], acts[i]) && Midway(ss[i], b, t, HandlerOf(acts, i, t))
    requires Handled(EventsUpTo(ss, acts, i)) + [EventOf(t, HandlerOf(acts, i, t), "")] == Begun(acts, i)
    ensures Runs(b, EventsAt(ss[i], acts, i), b') && Follows(ss, acts, i + 1, b')
  {
    hide *;
    var s, first := ss[i], HandlerOf(acts, i, t);
    OnlyItsClient(s, b, t, first, acts[i]);
    var time := acts[i].time;
    InsideHandler(ss, acts, i, t, time);
    HandledConcat(EventsUpTo(ss, acts, i), EventsAt(s, acts, i));
    if Ends(s, t, time) {
      HandledOne(t, first, time);
      b' := LastStepSimulated(s, b, t, first, time);
      RestFollows(ss, acts, i + 1, b');
    } else {
      HandledSingle(Restart);
      StepSimulated(s, b, t, first, time);
      RunsNone(b);
      b' := b;
      MidFollows(ss, acts, i + 1, b, t);
    }
  }

  /** Every uninterrupted schedule is followed by a run of the atomic handlers. */
  lemma {:induction false} Simulation(ss: seq<OpState>, acts: seq<Action>, i: nat) returns (bs: seq<System>)
    requires Schedule(ss, acts) && i <= |acts| < |ss| && forall k | 0 <= k < i :: Uninterrupted(ss[k], acts[k])
    ensures Behaviour(bs, EventsUpTo(ss, acts, i)) && bs[0] == BootedOn(ss[0].db)
    ensures forall k | 0 <= k <= i :: |EventsUpTo(ss, acts, k)| < |bs| && Follows(ss, acts, k, bs[|EventsUpTo(ss, acts, k)|])
  {
    if i == 0 {
      bs := [BootedOn(ss[0].db)];
      StartFollows(ss, acts);
    } else {
      hide Uninterrupted;
      hide Path;
      hide Follows;
      hide EventsAt;
      hide Started;
      hide Booted;
      var es := EventsUpTo(ss, acts, i - 1);
      var before := Simulation(ss, acts, i - 1);
      var b' := FollowsStep(ss, acts, i - 1, before[|es|]);
      bs := ExtendRun(before, es, EventsAt(ss[i - 1], acts, i - 1), b');
      hide Behaviour;
      forall k | 0 <= k <= i
        ensures |EventsUpTo(ss, acts, k)| < |bs| && Follows(ss, acts, k, bs[|EventsUpTo(ss, acts, k)|])
      {
        if k < i {
          assert bs[|EventsUpTo(ss, acts, k)|] == before[|EventsUpTo(ss, acts, k)|];
        }
      }
    }
  }

  lemma StartFollows(ss: seq<OpState>, acts: seq<Action>)
    requires |acts| < |ss| && Started(ss[0])
    ensures Follows(ss, acts, 0, BootedOn(ss[0].db)) && Booted(BootedOn(ss[0].db))
  {
    hide Midway;
  }

  /**
   * An uninterrupted schedule is one run of the atomic handlers, whose events are those of the
   * schedule's handlers in the order they began.  Whenever no handler is under way, the run has
   * reached the same store and the same clients by exactly the events completed so far.
   */
  lemma UninterruptedIsAtomic(ss: seq<OpState>, acts: seq<Action>) returns (bs: seq<System>)
    requires Schedule(ss, acts) && forall k | 0 <= k < |acts| :: Uninterrupted(ss[k], acts[k])
    ensures Behaviour(bs, EventsUpTo(ss, acts, |acts|)) && bs[0] == BootedOn(ss[0].db)
    ensures forall i | 0 <= i <= |acts| && QuietBut(ss[i], None) ::
              && |EventsUpTo(ss, acts, i)| < |bs|
              && SameTables(ss[i].db, ss[i].pcs.Keys, bs[|EventsUpTo(ss, acts, i)|])
              && Handled(EventsUpTo(ss, acts, i)) == Begun(acts, i)
  {
    bs := Simulation(ss, acts, |acts|);
    hide Behaviour;
    hide Schedule;
    hide Uninterrupted;
    hide SameTables;
    forall i | 0 <= i <= |acts| && QuietBut(ss[i], None)
      ensures SameTables(ss[i].db, ss[i].pcs.Keys, bs[|EventsUpTo(ss, acts, i)|])
      ensures Handled(EventsUpTo(ss, acts, i)) == Begun(acts, i)
    {
      QuietFollows(ss, acts, i, bs[|EventsUpTo(ss, acts, i)|]);
    }
  }

  lemma QuietFollows(ss: seq<OpState>, acts: seq<Action>, i: nat, b: System)
    requires i <= |acts| < |ss| && Follows(ss, acts, i, b) && QuietBut(ss[i], None)
    ensures SameTables(ss[i].db, ss[i].pcs.Keys, b) && Handled(EventsUpTo(ss, acts, i)) == Begun(acts, i)
  {
    hide Finish;
    hide Handled;
    hide EventsUpTo;
  }
}
