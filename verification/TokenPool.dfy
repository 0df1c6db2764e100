/** The pool of client tokens (src/tokenPool.h), for every random stream. */
module TokenPool {
  import opened RedisStore

  /** What `dist_` may return: 1 .. UINT64_MAX. */
  type Draw = t: int | 1 <= t < 0x1_0000_0000_0000_0000 witness 1

  /** From position pos on, the draw at position `at` is the first that is not in use. */
  ghost predicate FirstFresh(stream: nat -> Draw, pos: nat, used: set<Token>, at: nat) {
    pos <= at && stream(at) !in used && forall k: nat | pos <= k < at :: stream(k) in used
  }

  /** A stream with an unused draw ahead has a first one. */
  lemma {:induction false} FirstFreshExists(stream: nat -> Draw, pos: nat, used: set<Token>, any: nat)
    requires pos <= any && stream(any) !in used
    ensures exists at :: FirstFresh(stream, pos, used, at)
    decreases any - pos
  {
    if stream(pos) !in used {
      assert FirstFresh(stream, pos, used, pos);
    } else {
      FirstFreshExists(stream, pos + 1, used, any);
      var at :| FirstFresh(stream, pos + 1, used, at);
      assert FirstFresh(stream, pos, used, at);
    }
  }

  /** The allocation loop ends, at some draw, if and only if an unused draw lies ahead. */
  lemma AllocationEndsIff(stream: nat -> Draw, pos: nat, used: set<Token>)
    ensures (exists at :: FirstFresh(stream, pos, used, at)) <==> (exists any: nat :: pos <= any && stream(any) !in used)
  {
    if any: nat :| pos <= any && stream(any) !in used {
      FirstFreshExists(stream, pos, used, any);
    }
  }

  class TokenPool64 {
    const stream: nat -> Draw
    var drawn: nat
    var used: set<Token>

    constructor (stream: nat -> Draw)
      ensures this.stream == stream && drawn == 0 && used == {}
    {
      this.stream, drawn, used := stream, 0, {};
    }

    /**
     * Draws until a token is not in use.  `ahead` is a place where the stream yields such a token;
     * by AllocationEndsIff the loop ends only then.
     */
    method Allocate(ghost ahead: nat) returns (t: Token)
      requires drawn <= ahead && stream(ahead) !in used
      modifies this
      ensures drawn > 0 && FirstFresh(stream, old(drawn), old(used), drawn - 1) && t == stream(drawn - 1)
      ensures used == old(used) + {t}
    {
      while true
        invariant old(drawn) <= drawn <= ahead && used == old(used)
        invariant forall k: nat | old(drawn) <= k < drawn :: stream(k) in used
        decreases ahead - drawn
      {
        t := stream(drawn);
        if t !in used {
          drawn := drawn + 1;
          used := used + {t};
          return;
        }
        drawn := drawn + 1;
      }
    }

    method Release(t: Token)
      modifies this
      ensures used == old(used) - {t} && drawn == old(drawn)
    {
      used := used - {t};
    }
  }

  // ---------------------------------------------------------------- runs of owners

  /** Socket objects by identity, each with the token its constructor took. */
  datatype Pool = Pool(live: map<nat, Token>, used: set<Token>, drawn: nat)

  datatype Event = Construct(owner: nat) | Destruct(owner: nat)

  ghost predicate Next(stream: nat -> Draw, p: Pool, e: Event, p': Pool) {
    match e
    case Construct(o) =>
      && o !in p.live
      && p'.drawn > 0
      && FirstFresh(stream, p.drawn, p.used, p'.drawn - 1)
      && p'.live == p.live[o := stream(p'.drawn - 1)]
      && p'.used == p.used + {stream(p'.drawn - 1)}
    case Destruct(o) =>
      o in p.live && p' == Pool(p.live - {o}, p.used - {p.live[o]}, p.drawn)
  }

  ghost predicate Behaviour(stream: nat -> Draw, ps: seq<Pool>, es: seq<Event>) {
    && |ps| == |es| + 1
    && ps[0] == Pool(map[], {}, 0)
    && forall i | 0 <= i < |es| :: Next(stream, ps[i], es[i], ps[i + 1])
  }

  /** Live tokens are distinct and non-zero, and the pool records exactly them. */
  ghost predicate Inv(p: Pool) {
    && p.used == p.live.Values
    && 0 !in p.used
    && forall a, b | a in p.live && b in p.live && a != b :: p.live[a] != p.live[b]
  }

  lemma NextKeepsInv(stream: nat -> Draw, p: Pool, e: Event, p': Pool)
    requires Inv(p) && Next(stream, p, e, p')
    ensures Inv(p')
  {
    match e
    case Construct(o) =>
      var t := p'.live[o];
      assert t in p'.used;
      forall u
        ensures u in p'.used <==> u in p'.live.Values
      {
        if u in p.live.Values {
          var a :| a in p.live && p.live[a] == u;
          assert p'.live[a] == u;
        }
      }
    case Destruct(o) =>
      forall u
        ensures u in p'.used <==> u in p'.live.Values
      {
        if u in p.used && u != p.live[o] {
          var a :| a in p.live && p.live[a] == u;
          assert p'.live[a] == u;
        }
      }
  }

  /** In every run, for every random stream. */
  lemma {:induction false} LiveTokensDistinct(stream: nat -> Draw, ps: seq<Pool>, es: seq<Event>, i: nat)
    requires Behaviour(stream, ps, es) && i < |ps|
    ensures Inv(ps[i])
  {
    if i > 0 {
      LiveTokensDistinct(stream, ps, es, i - 1);
      NextKeepsInv(stream, ps[i - 1], es[i - 1], ps[i]);
    }
  }

  /**
   * The token of a new socket is that of no live one, so its `client:` key is not the key of any
   * connected client.
   */
  lemma NewKeyIsFresh(stream: nat -> Draw, ps: seq<Pool>, es: seq<Event>, i: nat, a: nat)
    requires Behaviour(stream, ps, es) && i < |es| && es[i].Construct? && a in ps[i].live
    ensures var o := es[i].owner;
            && o in ps[i + 1].live && ps[i + 1].live[o] !in ps[i].used
            && Render(ClientKey(ps[i + 1].live[o])) != Render(ClientKey(ps[i].live[a]))
  {
    hide Render;
    LiveTokensDistinct(stream, ps, es, i);
    var o := es[i].owner;
    assert Next(stream, ps[i], es[i], ps[i + 1]);
    if Render(ClientKey(ps[i + 1].live[o])) == Render(ClientKey(ps[i].live[a])) {
      RenderInjective(ClientKey(ps[i + 1].live[o]), ClientKey(ps[i].live[a]));
    }
  }
}
