/**
 * The accept loop (src/main.cpp) joins the token pool to the server: a socket object takes its
 * token when it is made, is added at once, and gives the token back when it is destroyed.
 */
module Accepting {
  import opened Sessions
  import TokenPool

  datatype Process = Process(system: System, pool: TokenPool.Pool)

  datatype Move =
    | Accept(owner: nat, time: string)
    | Free(owner: nat)
    | Handle(e: Event)

  /** One move of the process; nothing here says that a token is new. */
  ghost predicate Next(stream: nat -> TokenPool.Draw, s: Process, m: Move, s': Process) {
    match m
    case Accept(o, time) =>
      && TokenPool.Next(stream, s.pool, TokenPool.Construct(o), s'.pool)
      && var t := s'.pool.live[o];
      s'.system == System(Connected(s.system.server, t, time), s.system.sockets + {t})
    case Free(o) =>
      && TokenPool.Next(stream, s.pool, TokenPool.Destruct(o), s'.pool)
      && var t := s.pool.live[o];
      t !in s.system.server.clients && s'.system == s.system.(sockets := s.system.sockets - {t})
    case Handle(e) =>
      && !e.Connect? && !e.Destroy? && Enabled(s.system, e)
      && s'.system == Apply(s.system, e)
      && s'.pool == if e.Restart? then TokenPool.Pool(map[], {}, s.pool.drawn) else s.pool
  }

  ghost predicate Run(stream: nat -> TokenPool.Draw, ps: seq<Process>, ms: seq<Move>) {
    && |ps| == |ms| + 1
    && Booted(ps[0].system) && ps[0].pool == TokenPool.Pool(map[], {}, 0)
    && forall i | 0 <= i < |ms| :: Next(stream, ps[i], ms[i], ps[i + 1])
  }

  /** The pool records exactly the tokens of the sockets. */
  ghost predicate Agree(s: Process) {
    s.system.sockets == s.pool.used && TokenPool.Inv(s.pool)
  }

  /** The event of the login protocol that a move is. */
  ghost function EventOf(s: Process, m: Move, s': Process): Event {
    match m
    case Accept(o, time) => Connect(if o in s'.pool.live then s'.pool.live[o] else 0, time)
    case Free(o) => Destroy(if o in s.pool.live then s.pool.live[o] else 0)
    case Handle(e) => e
  }

  lemma HandlersKeepSockets(s: System, e: Event)
    requires Enabled(s, e) && !e.Connect? && !e.Destroy?
    ensures Apply(s, e).sockets == if e.Restart? then {} else s.sockets
  {
    hide LoggedIn;
    hide LoggedOut;
    hide Registered;
    hide Disconnected;
  }

  /** A move is an enabled event: the pool never gives out the token of a socket that is still there. */
  lemma NextIsEvent(stream: nat -> TokenPool.Draw, s: Process, m: Move, s': Process)
    requires Agree(s) && Next(stream, s, m, s')
    ensures Enabled(s.system, EventOf(s, m, s')) && s'.system == Apply(s.system, EventOf(s, m, s'))
    ensures Agree(s')
  {
    hide Connected;
    match m
    case Accept(o, time) =>
      TokenPool.NextKeepsInv(stream, s.pool, TokenPool.Construct(o), s'.pool);
    case Free(o) =>
      TokenPool.NextKeepsInv(stream, s.pool, TokenPool.Destruct(o), s'.pool);
    case Handle(e) =>
      HandlersKeepSockets(s.system, e);
      hide Apply;
      hide Enabled;
  }

  lemma {:induction false} AgreeAlways(stream: nat -> TokenPool.Draw, ps: seq<Process>, ms: seq<Move>, i: nat)
    requires Run(stream, ps, ms) && i < |ps|
    ensures Agree(ps[i])
  {
    if i > 0 {
      hide Next;
      hide Agree;
      AgreeAlways(stream, ps, ms, i - 1);
      NextIsEvent(stream, ps[i - 1], ms[i - 1], ps[i]);
    }
  }

  /**
   * Every run of the process, for every random stream, is a run of the login protocol, whose
   * connects assume a new token; so the pool discharges that assumption.
   */
  lemma PoolDischargesFreshness(stream: nat -> TokenPool.Draw, ps: seq<Process>, ms: seq<Move>)
      returns (ss: seq<System>, es: seq<Event>)
    requires Run(stream, ps, ms)
    ensures |ss| == |ps| && (forall i | 0 <= i < |ps| :: ss[i] == ps[i].system)
    ensures |es| == |ms| && (forall i | 0 <= i < |ms| :: es[i] == EventOf(ps[i], ms[i], ps[i + 1]))
    ensures Behaviour(ss, es)
  {
    hide Next;
    hide Agree;
    hide Enabled;
    hide Apply;
    hide EventOf;
    ss := seq(|ps|, i requires 0 <= i < |ps| => ps[i].system);
    es := seq(|ms|, i requires 0 <= i < |ms| && |ps| == |ms| + 1 => EventOf(ps[i], ms[i], ps[i + 1]));
    forall i | 0 <= i < |es|
      ensures Enabled(ss[i], es[i]) && ss[i + 1] == Apply(ss[i], es[i])
    {
      AgreeAlways(stream, ps, ms, i);
      NextIsEvent(stream, ps[i], ms[i], ps[i + 1]);
    }
  }
}
