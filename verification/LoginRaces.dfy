/** Exclusive login under interleaved operations: exactly when it holds, and two ways to break it. */
module LoginRaces {
  import opened Options
  import opened RedisStore
  import opened PasswordHash
  import opened Sessions
  import opened Interleaving

  // ---------------------------------------------------------------- what one operation does to logins

  lemma OperateLoginId(db: Db, t: Token, pc: Pc, time: string, u: Token)
    ensures LoginId(Operate(db, t, pc, time).0, u)
         == if u != t then LoginId(db, u)
            else match pc
              case LoginClient(id) => Some(id)
              case OutHashDel(_) | Remove => None
              case _ => LoginId(db, u)
  {
    hide Printed;
    hide Decimal;
  }

  lemma OperateLoginKey(db: Db, t: Token, pc: Pc, time: string, id: string)
    ensures LoginKey(id) in Operate(db, t, pc, time).0
       <==> match pc
            case LoginToken(i) => i == id || LoginKey(id) in db
            case LoginTime(i) => i == id || LoginKey(id) in db
            case OutDel(i, _) => i != id && LoginKey(id) in db
            case _ => LoginKey(id) in db
  {
    hide HashGet;
    hide LoginId;
    hide Printed;
    hide Decimal;
  }

  lemma OperateClientKey(db: Db, t: Token, pc: Pc, time: string, u: Token)
    requires ClientKey(u) in Operate(db, t, pc, time).0
    ensures ClientKey(u) in db || u == t
    ensures pc.Remove? ==> u != t
  {
    hide Printed;
    hide Decimal;
  }

  /** Where a client can come from. */
  lemma OperatePc(db: Db, t: Token, pc: Pc, time: string)
    ensures match Operate(db, t, pc, time).1
            case LoginClient(id) => pc == LoginTaken(id) && LoginKey(id) !in db
            case LoginToken(id) => pc == LoginClient(id)
            case LoginTime(id) => pc == LoginToken(id)
            case OutDel(id, _) => pc.OutLoginId? && LoginId(db, t) == Some(id)
            case OutHashDel(_) => pc.OutDel?
            case _ => true
  {
    hide HashSet;
    hide HashDel;
    hide Del;
    hide Printed;
    hide Decimal;
  }

  lemma ArriveLogin(s: OpState, t: Token, time: string, u: Token, id: string)
    requires t !in s.pcs && OwnInv(s)
    ensures var db := Act(s, Arrive(t, time)).db;
            && LoginId(db, u) == LoginId(s.db, u)
            && (LoginKey(id) in db <==> LoginKey(id) in s.db)
            && (ClientKey(u) in db <==> u == t || ClientKey(u) in s.db)
            && LoginId(db, t) == None
  {
    hide MidwayHolds;
    hide HashDel;
    hide Operate;
    hide CanStep;
    hide IsFirst;
  }

  // ---------------------------------------------------------------- a client owns its record

  ghost predicate MidwayHolds(db: Db, t: Token, pc: Pc) {
    match pc
    case LoginToken(id) => LoginId(db, t) == Some(id)
    case LoginTime(id) => LoginId(db, t) == Some(id)
    case OutDel(id, _) => LoginId(db, t) == Some(id)
    case _ => true
  }

  /** Client records belong to connected clients, and a client in the middle of a login or logout has its login id. */
  ghost predicate OwnInv(s: OpState) {
    && (forall t: Token | ClientKey(t) in s.db :: t in s.pcs)
    && (forall t | t in s.pcs :: MidwayHolds(s.db, t, s.pcs[t]))
  }

  lemma StepKeepsOwn(s: OpState, t: Token, time: string)
    requires OwnInv(s) && CanAct(s, Step(t, time))
    ensures OwnInv(Act(s, Step(t, time)))
  {
    var pc := s.pcs[t];
    var s' := Act(s, Step(t, time));
    OperatePc(s.db, t, pc, time);
    hide Operate;
    hide LoginId;
    forall u: Token | ClientKey(u) in s'.db
      ensures u in s'.pcs
    {
      OperateClientKey(s.db, t, pc, time, u);
    }
    forall u | u in s'.pcs
      ensures MidwayHolds(s'.db, u, s'.pcs[u])
    {
      OperateLoginId(s.db, t, pc, time, u);
      assert u != t ==> MidwayHolds(s.db, u, s.pcs[u]);
    }
  }

  lemma ActKeepsOwn(s: OpState, a: Action)
    requires OwnInv(s) && CanAct(s, a)
    ensures OwnInv(Act(s, a))
  {
    match a
    case Step(t, time) => StepKeepsOwn(s, t, time);
    case Arrive(t, time) =>
      var s' := Act(s, a);
      forall u | u in s'.pcs
        ensures MidwayHolds(s'.db, u, s'.pcs[u])
      {
        ArriveLogin(s, t, time, u, "");
      }
    case Begin(t, first) =>
    case Crash =>
  }

  // ---------------------------------------------------------------- exclusive login

  ghost predicate Exclusive(db: Db) {
    forall t: Token, u: Token | t != u && LoginId(db, t).Some? :: LoginId(db, t) != LoginId(db, u)
  }

  /** u has, or is about to have, the login id without a login record to show for it. */
  ghost predicate InWindow(s: OpState, u: Token, id: string)
    requires u in s.pcs
  {
    match s.pcs[u]
    case LoginClient(i) => i == id
    case LoginToken(i) => i == id
    case OutHashDel(_) => LoginId(s.db, u) == Some(id)
    case _ => false
  }

  /** t passes the check of the login record. */
  ghost predicate PassesCheck(s: OpState, t: Token) {
    t in s.pcs && s.pcs[t].LoginTaken? && LoginKey(s.pcs[t].id) !in s.db
  }

  /** Nobody passes the check while another client is in the window of that account. */
  ghost predicate Clean(s: OpState, a: Action) {
    a.Step? && PassesCheck(s, a.t) ==> forall u | u in s.pcs && u != a.t :: !InWindow(s, u, s.pcs[a.t].id)
  }

  ghost predicate Backed(s: OpState, t: Token)
    requires t in s.pcs
  {
    match LoginId(s.db, t)
    case None => true
    case Some(id) => LoginKey(id) in s.db || s.pcs[t] == LoginToken(id) || s.pcs[t].OutHashDel?
  }

  ghost predicate Claims(s: OpState, t: Token, id: string)
    requires t in s.pcs
  {
    LoginId(s.db, t) == Some(id) || s.pcs[t] == LoginClient(id)
  }

  ghost predicate ClaimsDiffer(s: OpState) {
    forall t, u, id | t in s.pcs && u in s.pcs && t != u && Claims(s, t, id) :: !Claims(s, u, id)
  }

  ghost predicate RaceInv(s: OpState) {
    OwnInv(s) && (forall t | t in s.pcs :: Backed(s, t)) && ClaimsDiffer(s)
  }

  /** The check of a clean step finds nobody with a claim. */
  lemma CheckFindsNoClaim(s: OpState, t: Token, time: string, u: Token)
    requires RaceInv(s) && Clean(s, Step(t, time)) && PassesCheck(s, t) && u in s.pcs && u != t
    ensures !Claims(s, u, s.pcs[t].id)
  {
    assert Backed(s, u) && !InWindow(s, u, s.pcs[t].id);
    hide LoginId;
  }

  /** Only a passed check makes a new claim. */
  lemma StepClaim(s: OpState, t: Token, time: string, u: Token, id: string)
    requires OwnInv(s) && CanAct(s, Step(t, time))
    requires u in Act(s, Step(t, time)).pcs && Claims(Act(s, Step(t, time)), u, id)
    ensures u in s.pcs
    ensures Claims(s, u, id) || (u == t && PassesCheck(s, t) && s.pcs[t].id == id)
  {
    var pc := s.pcs[t];
    OperatePc(s.db, t, pc, time);
    OperateLoginId(s.db, t, pc, time, u);
    hide Operate;
    hide LoginId;
  }

  lemma StepKeepsClaims(s: OpState, t: Token, time: string)
    requires RaceInv(s) && CanAct(s, Step(t, time)) && Clean(s, Step(t, time))
    ensures ClaimsDiffer(Act(s, Step(t, time)))
  {
    var s' := Act(s, Step(t, time));
    hide Act;
    hide Claims;
    hide Clean;
    hide Backed;
    hide OwnInv;
    hide PassesCheck;
    forall u, v, id | u in s'.pcs && v in s'.pcs && u != v && Claims(s', u, id)
      ensures !Claims(s', v, id)
    {
      StepClaim(s, t, time, u, id);
      if Claims(s', v, id) {
        StepClaim(s, t, time, v, id);
        if !Claims(s, u, id) {
          CheckFindsNoClaim(s, t, time, v);
        } else if !Claims(s, v, id) {
          CheckFindsNoClaim(s, t, time, u);
        }
      }
    }
  }

  lemma StepKeepsBacked(s: OpState, t: Token, time: string, u: Token)
    requires RaceInv(s) && CanAct(s, Step(t, time)) && u in Act(s, Step(t, time)).pcs
    ensures Backed(Act(s, Step(t, time)), u)
  {
    var pc, s' := s.pcs[t], Act(s, Step(t, time));
    OperateLoginId(s.db, t, pc, time, u);
    if LoginId(s'.db, u).Some? {
      var id := LoginId(s'.db, u).value;
      OperateLoginKey(s.db, t, pc, time, id);
      assert u in s.pcs && Backed(s, u) && MidwayHolds(s.db, t, pc);
      assert u != t ==> !(Claims(s, u, id) && Claims(s, t, id));
      StepPc(s.db, t, pc, time);
    }
    hide Operate;
    hide LoginId;
  }

  lemma StepPc(db: Db, t: Token, pc: Pc, time: string)
    ensures var pc' := Operate(db, t, pc, time).1;
            match pc
            case LoginClient(id) => pc' == LoginToken(id)
            case OutDel(_, _) => pc'.OutHashDel?
            case _ => true
  {
    hide HashSet;
    hide HashDel;
    hide Del;
    hide Printed;
    hide Decimal;
  }

  lemma ActKeepsRaceInv(s: OpState, a: Action)
    requires RaceInv(s) && CanAct(s, a) && Clean(s, a)
    ensures RaceInv(Act(s, a))
  {
    ActKeepsOwn(s, a);
    match a
    case Step(t, time) =>
      StepKeepsClaims(s, t, time);
      var s' := Act(s, a);
      hide Act;
      hide Backed;
      forall u | u in s'.pcs
        ensures Backed(s', u)
      {
        StepKeepsBacked(s, t, time, u);
      }
    case Arrive(t, time) => ArriveKeepsRaceInv(s, t, time);
    case Begin(t, first) => BeginKeepsRaceInv(s, t, first);
    case Crash =>
  }

  lemma ArriveKeepsRaceInv(s: OpState, t: Token, time: string)
    requires RaceInv(s) && t !in s.pcs
    ensures var s' := Act(s, Arrive(t, time)); (forall u | u in s'.pcs :: Backed(s', u)) && ClaimsDiffer(s')
  {
    var s' := Act(s, Arrive(t, time));
    forall u: Token, id: string
      ensures LoginId(s'.db, u) == LoginId(s.db, u)
      ensures LoginKey(id) in s'.db <==> LoginKey(id) in s.db
      ensures LoginId(s'.db, t) == None
    {
      ArriveLogin(s, t, time, u, id);
    }
    hide LoginId;
    hide HashSet;
    hide OwnInv;
    forall u | u in s'.pcs
      ensures Backed(s', u)
    {
      assert u != t ==> Backed(s, u);
    }
    assert forall u, id | u in s'.pcs && Claims(s', u, id) :: u in s.pcs && Claims(s, u, id);
  }

  lemma BeginsElsewhere(first: Pc)
    requires IsFirst(first)
    ensures !first.LoginClient?
  {
  }

  lemma BeginKeepsRaceInv(s: OpState, t: Token, first: Pc)
    requires RaceInv(s) && CanAct(s, Begin(t, first))
    ensures var s' := Act(s, Begin(t, first)); (forall u | u in s'.pcs :: Backed(s', u)) && ClaimsDiffer(s')
  {
    hide LoginId;
    hide OwnInv;
    hide IsFirst;
    var s' := Act(s, Begin(t, first));
    assert !first.LoginClient? by { assert IsFirst(first); BeginsElsewhere(first); }
    assert s'.db == s.db && s'.pcs == s.pcs[t := first];
    hide Act;
    forall u | u in s'.pcs
      ensures Backed(s', u)
    {
      assert Backed(s, u);
    }
    assert forall u, id | u in s'.pcs && Claims(s', u, id) :: u in s.pcs && Claims(s, u, id);
  }

  lemma {:induction false} RaceInvWhileClean(ss: seq<OpState>, acts: seq<Action>, i: nat)
    requires Schedule(ss, acts) && i < |ss| && forall k | 0 <= k < i :: Clean(ss[k], acts[k])
    ensures RaceInv(ss[i])
  {
    hide Act;
    hide CanAct;
    hide Clean;
    if i > 0 {
      RaceInvWhileClean(ss, acts, i - 1);
      ActKeepsRaceInv(ss[i - 1], acts[i - 1]);
    } else {
      assert forall t: Token :: ClientKey(t) !in ss[0].db;
    }
  }

  lemma RaceInvIsExclusive(s: OpState)
    requires RaceInv(s)
    ensures Exclusive(s.db)
  {
    forall t: Token, u: Token | t != u && LoginId(s.db, t).Some?
      ensures LoginId(s.db, t) != LoginId(s.db, u)
    {
      if LoginId(s.db, t) == LoginId(s.db, u) {
        assert ClientKey(t) in s.db && ClientKey(u) in s.db;
        assert Claims(s, t, LoginId(s.db, t).value) && Claims(s, u, LoginId(s.db, t).value);
      }
    }
  }

  /** Under any interleaving and any crashes, while every passed check is clean, login is exclusive. */
  lemma ExclusiveWhileClean(ss: seq<OpState>, acts: seq<Action>, i: nat)
    requires Schedule(ss, acts) && i < |ss| && forall k | 0 <= k < i :: Clean(ss[k], acts[k])
    ensures Exclusive(ss[i].db)
  {
    RaceInvWhileClean(ss, acts, i);
    RaceInvIsExclusive(ss[i]);
  }

  /** Any number of clean actions. */
  ghost predicate LeadsClean(s: OpState, acts: seq<Action>, s': OpState)
    decreases |acts|
  {
    if acts == [] then s == s'
    else CanAct(s, acts[0]) && Clean(s, acts[0]) && LeadsClean(Act(s, acts[0]), acts[1..], s')
  }

  lemma {:induction false} LeadsCleanKeeps(s: OpState, acts: seq<Action>, s': OpState)
    requires RaceInv(s) && LeadsClean(s, acts, s')
    ensures RaceInv(s')
    decreases |acts|
  {
    hide RaceInv;
    hide Act;
    hide CanAct;
    hide Clean;
    if acts != [] {
      ActKeepsRaceInv(s, acts[0]);
      LeadsCleanKeeps(Act(s, acts[0]), acts[1..], s');
    }
  }

  lemma LeadsCleanTwo(s: OpState, a: Action, b: Action)
    requires CanAct(s, a) && Clean(s, a) && CanAct(Act(s, a), b) && Clean(Act(s, a), b)
    ensures LeadsClean(s, [a], Act(s, a)) && LeadsClean(s, [a, b], Act(Act(s, a), b))
  {
    hide Act;
    hide CanAct;
    hide Clean;
    assert [a][1..] == [] && [a, b][1..] == [b] && [b][1..] == [];
    assert LeadsClean(Act(s, a), [], Act(s, a));
    assert LeadsClean(Act(Act(s, a), b), [b][1..], Act(Act(s, a), b));
    assert LeadsClean(Act(s, a), [a, b][1..], Act(Act(s, a), b));
  }

  /** A client past the check writes its login id. */
  lemma WriteLoginId(s: OpState, t: Token, time: string, id: string)
    requires t in s.pcs && s.pcs[t] == LoginClient(id)
    ensures CanAct(s, Step(t, time)) && Clean(s, Step(t, time))
    ensures var s' := Act(s, Step(t, time));
            s'.pcs == s.pcs[t := LoginToken(id)] && forall u: Token :: LoginId(s'.db, u) == if u == t then Some(id) else LoginId(s.db, u)
  {
    hide LoginId;
    hide HashSet;
    forall u: Token
      ensures LoginId(Act(s, Step(t, time)).db, u) == if u == t then Some(id) else LoginId(s.db, u)
    {
      OperateLoginId(s.db, t, s.pcs[t], time, u);
    }
  }

  lemma TakeCheck(s: OpState, t: Token, time: string)
    requires PassesCheck(s, t)
    ensures CanAct(s, Step(t, time))
    ensures Act(s, Step(t, time)) == s.(pcs := s.pcs[t := LoginClient(s.pcs[t].id)])
  {
    hide HashSet;
    hide HashGet;
    hide HashDel;
    hide Del;
    hide LoginId;
    hide Printed;
    hide Decimal;
  }

  lemma WindowHolds(s: OpState, u: Token, id: string)
    requires OwnInv(s) && u in s.pcs && InWindow(s, u, id)
    ensures s.pcs[u] == LoginClient(id) || LoginId(s.db, u) == Some(id)
  {
    hide LoginId;
    assert MidwayHolds(s.db, u, s.pcs[u]);
  }

  /** Past the check, t logs in beside u. */
  lemma DoubleLogin(s: OpState, t: Token, time: string, u: Token, id: string) returns (acts: seq<Action>, s': OpState)
    requires t in s.pcs && u in s.pcs && u != t && s.pcs[t] == LoginClient(id)
    requires s.pcs[u] == LoginClient(id) || LoginId(s.db, u) == Some(id)
    ensures |acts| <= 2 && LeadsClean(s, acts, s')
    ensures LoginId(s'.db, t) == LoginId(s'.db, u) == Some(id)
  {
    hide Act;
    hide Clean;
    hide CanAct;
    hide LoginId;
    WriteLoginId(s, t, time, id);
    var s1 := Act(s, Step(t, time));
    if s.pcs[u] == LoginClient(id) {
      WriteLoginId(s1, u, time, id);
      acts, s' := [Step(t, time), Step(u, time)], Act(s1, Step(u, time));
      LeadsCleanTwo(s, Step(t, time), Step(u, time));
    } else {
      acts, s' := [Step(t, time)], s1;
      assert [Step(t, time)][1..] == [];
      assert LeadsClean(s1, [], s1);
    }
  }

  /** An unclean check is completed to a double login by at most two writes. */
  lemma UncleanCheckDoubles(s: OpState, t: Token, time: string, u: Token) returns (acts: seq<Action>, s': OpState)
    requires OwnInv(s) && PassesCheck(s, t) && u in s.pcs && u != t && InWindow(s, u, s.pcs[t].id)
    ensures CanAct(s, Step(t, time))
    ensures |acts| <= 2 && LeadsClean(Act(s, Step(t, time)), acts, s')
    ensures LoginId(s'.db, t) == LoginId(s'.db, u) == Some(s.pcs[t].id)
  {
    TakeCheck(s, t, time);
    WindowHolds(s, u, s.pcs[t].id);
    hide *;
    acts, s' := DoubleLogin(Act(s, Step(t, time)), t, time, u, s.pcs[t].id);
  }

  /**
   * The condition is exact.  After any clean schedule, the next action is clean if and only if no
   * clean continuation after it ends in two clients with one login.
   */
  lemma CleanIffNoDoubleLogin(ss: seq<OpState>, acts: seq<Action>, a: Action)
    requires Schedule(ss, acts) && (forall k | 0 <= k < |acts| :: Clean(ss[k], acts[k])) && CanAct(ss[|acts|], a)
    ensures Clean(ss[|acts|], a)
       <==> forall more, s' | LeadsClean(Act(ss[|acts|], a), more, s') :: Exclusive(s'.db)
  {
    var s := ss[|acts|];
    RaceInvWhileClean(ss, acts, |acts|);
    hide Schedule;
    hide Act;
    hide LeadsClean;
    hide CanAct;
    if Clean(s, a) {
      ActKeepsRaceInv(s, a);
      forall more, s' | LeadsClean(Act(s, a), more, s')
        ensures Exclusive(s'.db)
      {
        LeadsCleanKeeps(Act(s, a), more, s');
        RaceInvIsExclusive(s');
      }
    } else {
      var u :| u in s.pcs && u != a.t && InWindow(s, u, s.pcs[a.t].id);
      var more, s' := UncleanCheckDoubles(s, a.t, a.time, u);
      assert !Exclusive(s'.db);
    }
  }

  // ---------------------------------------------------------------- two ways to a double login

  /** The checks of a login change nothing but where the client stands. */
  lemma LoginChecks(s: OpState, t: Token, q: LoginRequest, time: string)
    requires t in s.pcs && s.pcs[t] == Idle && LoginSucceeds(s.db, Some(q))
    ensures Leads(s, [Begin(t, LoginExists(q))] + [Step(t, time)] + [Step(t, time)] + [Step(t, time)],
                  s.(pcs := s.pcs[t := LoginClient(q.id)]))
  {
    hide HashSet;
    hide HashDel;
    hide Decimal;
    hide Printed;
    hide Leads;
    var s1 := s.(pcs := s.pcs[t := LoginExists(q)]);
    var s2 := s.(pcs := s.pcs[t := LoginPassword(q)]);
    var s3 := s.(pcs := s.pcs[t := LoginTaken(q.id)]);
    var s4 := s.(pcs := s.pcs[t := LoginClient(q.id)]);
    LeadsOne(s, Begin(t, LoginExists(q)));
    LeadsOne(s1, Step(t, time));
    LeadsOne(s2, Step(t, time));
    LeadsOne(s3, Step(t, time));
    assert Act(s1, Step(t, time)) == s2 && Act(s2, Step(t, time)) == s3 && Act(s3, Step(t, time)) == s4;
    hide Act;
    LeadsConcat(s, [Begin(t, LoginExists(q))], s1, [Step(t, time)], s2);
    LeadsConcat(s, [Begin(t, LoginExists(q))] + [Step(t, time)], s2, [Step(t, time)], s3);
    LeadsConcat(s, [Begin(t, LoginExists(q))] + [Step(t, time)] + [Step(t, time)], s3, [Step(t, time)], s4);
  }

  lemma {:induction false} LeadsCleanLeads(s: OpState, acts: seq<Action>, s': OpState)
    requires LeadsClean(s, acts, s')
    ensures Leads(s, acts, s')
    decreases |acts|
  {
    hide Act;
    hide CanAct;
    hide Clean;
    if acts != [] {
      LeadsCleanLeads(Act(s, acts[0]), acts[1..], s');
    }
  }

  /** From a start-up to a client past the check beside another one with a claim, and on to a double login. */
  lemma RunToDoubleLogin(s0: OpState, way: seq<Action>, s: OpState, t: Token, u: Token, id: string, time: string)
      returns (ss: seq<OpState>, acts: seq<Action>)
    requires Started(s0) && Leads(s0, way, s)
    requires t in s.pcs && u in s.pcs && u != t && s.pcs[t] == LoginClient(id)
    requires s.pcs[u] == LoginClient(id) || LoginId(s.db, u) == Some(id)
    ensures Schedule(ss, acts) && ss[0] == s0
    ensures var db := ss[|acts|].db; LoginId(db, t) == LoginId(db, u) == Some(id)
  {
    hide Leads;
    hide LeadsClean;
    hide LoginId;
    hide Started;
    var more, s' := DoubleLogin(s, t, time, u, id);
    LeadsCleanLeads(s, more, s');
    LeadsConcat(s0, way, s, more, s');
    acts := way + more;
    ss := LeadsPath(s0, acts, s');
  }

  /** Other clients' records do not matter for a login. */
  lemma LoginStillSucceeds(db: Db, db': Db, q: LoginRequest)
    requires LoginSucceeds(db, Some(q)) && LoginKey(q.id) !in db'
    requires AccountKey(q.id) in db' && (AccountKey(q.id) in db ==> db'[AccountKey(q.id)] == db[AccountKey(q.id)])
    ensures LoginSucceeds(db', Some(q))
  {
    hide Printed;
  }

  lemma LoginFindsAccount(db: Db, q: LoginRequest)
    requires LoginSucceeds(db, Some(q))
    ensures AccountKey(q.id) in db && LoginKey(q.id) !in db
  {
    hide Printed;
  }

  /** After a start-up two clients connect. */
  lemma TwoArrive(s0: OpState, t: Token, u: Token, time: string, q: LoginRequest) returns (s: OpState)
    requires Started(s0) && t != u && LoginSucceeds(s0.db, Some(q))
    ensures Leads(s0, [Arrive(t, time)] + [Arrive(u, time)], s)
    ensures s.pcs == map[t := Idle, u := Idle] && LoginSucceeds(s.db, Some(q))
  {
    hide Leads;
    hide LoginSucceeds;
    var s1 := Act(s0, Arrive(t, time));
    s := Act(s1, Arrive(u, time));
    LeadsOne(s0, Arrive(t, time));
    LeadsOne(s1, Arrive(u, time));
    LeadsConcat(s0, [Arrive(t, time)], s1, [Arrive(u, time)], s);
    LoginFindsAccount(s0.db, q);
    LoginStillSucceeds(s0.db, s.db, q);
  }

  /**
   * Whenever an account can be logged in to after a start-up, so can two clients at once: both
   * check before either writes.
   */
  lemma TwoLoginsRace(s0: OpState, t: Token, u: Token, q: LoginRequest, time: string)
      returns (ss: seq<OpState>, acts: seq<Action>)
    requires Started(s0) && t != u && LoginSucceeds(s0.db, Some(q))
    ensures Schedule(ss, acts) && ss[0] == s0
    ensures var db := ss[|acts|].db; LoginId(db, t) == LoginId(db, u) == Some(q.id)
  {
    hide Leads;
    hide LoginSucceeds;
    hide LoginId;
    hide Started;
    var s := TwoArrive(s0, t, u, time, q);
    var ts := [Begin(t, LoginExists(q))] + [Step(t, time)] + [Step(t, time)] + [Step(t, time)];
    var us := [Begin(u, LoginExists(q))] + [Step(u, time)] + [Step(u, time)] + [Step(u, time)];
    var s1 := s.(pcs := s.pcs[t := LoginClient(q.id)]);
    var s2 := s1.(pcs := s1.pcs[u := LoginClient(q.id)]);
    LoginChecks(s, t, q, time);
    LoginChecks(s1, u, q, time);
    var arrivals := [Arrive(t, time)] + [Arrive(u, time)];
    LeadsConcat(s0, arrivals, s, ts, s1);
    LeadsConcat(s0, arrivals + ts, s1, us, s2);
    ss, acts := RunToDoubleLogin(s0, arrivals + ts + us, s2, t, u, q.id, time);
  }

  /** A logout up to the deletion of the login record. */
  lemma LogoutUntilWindow(s: OpState, t: Token, id: string, time: string)
    requires t in s.pcs && s.pcs[t] == Idle && LoginId(s.db, t) == Some(id)
    ensures Leads(s, [Begin(t, OutExists(false))] + [Step(t, time)] + [Step(t, time)] + [Step(t, time)],
                  OpState(Del(s.db, LoginKey(id)), s.pcs[t := OutHashDel(false)]))
  {
    hide Decimal;
    hide HashSet;
    hide HashDel;
    hide Printed;
    hide Leads;
    hide Del;
    var s1 := s.(pcs := s.pcs[t := OutExists(false)]);
    var s2 := s.(pcs := s.pcs[t := OutLoginId(false)]);
    var s3 := s.(pcs := s.pcs[t := OutDel(id, false)]);
    var s4 := OpState(Del(s.db, LoginKey(id)), s.pcs[t := OutHashDel(false)]);
    LeadsOne(s, Begin(t, OutExists(false)));
    LeadsOne(s1, Step(t, time));
    LeadsOne(s2, Step(t, time));
    LeadsOne(s3, Step(t, time));
    assert Act(s1, Step(t, time)) == s2 && Act(s2, Step(t, time)) == s3 && Act(s3, Step(t, time)) == s4;
    hide Act;
    LeadsConcat(s, [Begin(t, OutExists(false))], s1, [Step(t, time)], s2);
    LeadsConcat(s, [Begin(t, OutExists(false))] + [Step(t, time)], s2, [Step(t, time)], s3);
    LeadsConcat(s, [Begin(t, OutExists(false))] + [Step(t, time)] + [Step(t, time)], s3, [Step(t, time)], s4);
  }

  /** What a login leaves for the logout window. */
  lemma LoginThenDeleted(s: State, t: Token, q: LoginRequest, time: string)
    requires t in s.clients && LoginSucceeds(s.db, Some(q))
    ensures LoginAnswer(s.db, Some(q)) != Undefined
    ensures var db := LoggedIn(s, t, Some(q), time).db;
            && LoginId(db, t) == Some(q.id)
            && LoginId(Del(db, LoginKey(q.id)), t) == Some(q.id)
            && LoginSucceeds(Del(db, LoginKey(q.id)), Some(q))
  {
    hide Printed;
    hide Decimal;
    hide Render;
  }

  /**
   * The second way needs no two checks at once: a client in the middle of its logout has deleted
   * the login record and not yet its own login id when another client checks.
   */
  lemma LogoutWindowRace(s0: OpState, t: Token, u: Token, q: LoginRequest, time: string)
      returns (ss: seq<OpState>, acts: seq<Action>)
    requires Started(s0) && t != u && LoginSucceeds(s0.db, Some(q))
    ensures Schedule(ss, acts) && ss[0] == s0
    ensures var db := ss[|acts|].db; LoginId(db, t) == LoginId(db, u) == Some(q.id)
  {
    hide Leads;
    hide LoginSucceeds;
    hide LoginAnswer;
    hide LoginId;
    hide Started;
    hide Finish;
    hide LoggedIn;
    hide Del;
    var s := TwoArrive(s0, t, u, time, q);
    var arrivals := [Arrive(t, time)] + [Arrive(u, time)];
    var login := HandlerLeads(s, t, LoginExists(q), time);
    var atomic := State(s.db, map[t := ""]);
    LoginUninterrupted(atomic, t, q, time);
    LoginThenDeleted(atomic, t, q, time);
    var s1 := OpState(LoggedIn(atomic, t, Some(q), time).db, s.pcs[t := Idle]);
    LeadsConcat(s0, arrivals, s, login, s1);
    LogoutUntilWindow(s1, t, q.id, time);
    var outs := [Begin(t, OutExists(false))] + [Step(t, time)] + [Step(t, time)] + [Step(t, time)];
    var s2 := OpState(Del(s1.db, LoginKey(q.id)), s1.pcs[t := OutHashDel(false)]);
    LeadsConcat(s0, arrivals + login, s1, outs, s2);
    LoginChecks(s2, u, q, time);
    var us := [Begin(u, LoginExists(q))] + [Step(u, time)] + [Step(u, time)] + [Step(u, time)];
    var s3 := s2.(pcs := s2.pcs[u := LoginClient(q.id)]);
    LeadsConcat(s0, arrivals + login + outs, s2, us, s3);
    ss, acts := RunToDoubleLogin(s0, arrivals + login + outs + us, s3, u, t, q.id, time);
  }
}
