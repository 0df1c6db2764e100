/**
 * Player data under interleaved operations: when the handler can dereference the absent nickname
 * or colour of an account that is not whole.
 */
module DataFaults {
  import opened Options
  import opened RedisStore
  import opened PasswordHash
  import opened Sessions
  import opened SessionTheorems
  import opened Interleaving

  // ---------------------------------------------------------------- when no fault happens

  /** The fields of a new account that its registration, under way, has not written yet. */
  function Missing(pc: Pc, id: string): set<string> {
    match pc
    case RegisterNickname(r) => if r.id == id then {"nickname", "personalColor"} else {}
    case RegisterColor(r) => if r.id == id then {"personalColor"} else {}
    case _ => {}
  }

  ghost predicate Lacks(db: Db, id: string, f: string) {
    AccountKey(id) in db && f in {"nickname", "personalColor"} && f !in db[AccountKey(id)]
  }

  ghost predicate SomebodyWrites(s: OpState, id: string, f: string) {
    exists t :: t in s.pcs && f in Missing(s.pcs[t], id)
  }

  /** A registration under way has left the account without the field. */
  ghost predicate LeftOpen(s: OpState, id: string, f: string) {
    Lacks(s.db, id, f) && SomebodyWrites(s, id, f)
  }

  /** The field a player-data request reads next, unless it has missed one already. */
  function Reads(pc: Pc): Option<(string, string)> {
    match pc
    case DataNickname(id) => Some((id, "nickname"))
    case DataColor(id, nickname) => if nickname.Some? then Some((id, "personalColor")) else None
    case _ => None
  }

  /** No crash while a field is left open, and no read of a field that is. */
  ghost predicate Careful(s: OpState, a: Action) {
    match a
    case Crash => forall id, f :: !LeftOpen(s, id, f)
    case Step(t, _) =>
      t in s.pcs && Reads(s.pcs[t]).Some? ==> !LeftOpen(s, Reads(s.pcs[t]).value.0, Reads(s.pcs[t]).value.1)
    case _ => true
  }

  /** A request for player data is reading an account, and has found all it read so far. */
  ghost predicate PcWhole(db: Db, pc: Pc) {
    match pc
    case DataNickname(id) => AccountKey(id) in db
    case DataColor(id, nickname) => AccountKey(id) in db && nickname.Some?
    case FaultInData => false
    case _ => true
  }

  ghost predicate WholeInv(s: OpState) {
    && OpInv(s)
    && (forall id, f | Lacks(s.db, id, f) :: SomebodyWrites(s, id, f))
    && (forall t | t in s.pcs :: PcWhole(s.db, s.pcs[t]))
  }

  /** A field lacking after an operation was lacking before, or its writer is on the way. */
  lemma OperateLacks(db: Db, t: Token, pc: Pc, time: string, id: string, f: string)
    requires PcHolds(db, pc) && Lacks(Operate(db, t, pc, time).0, id, f)
    ensures f in Missing(Operate(db, t, pc, time).1, id) || (Lacks(db, id, f) && f !in Missing(pc, id))
  {
    hide Printed;
    hide Decimal;
    hide HashGet;
    hide LoginId;
  }

  lemma OperatePcWhole(db: Db, t: Token, pc: Pc, time: string)
    requires PcWhole(db, pc)
    requires Reads(pc).Some? ==> !Lacks(db, Reads(pc).value.0, Reads(pc).value.1)
    ensures PcWhole(Operate(db, t, pc, time).0, Operate(db, t, pc, time).1)
  {
    hide Printed;
    hide Decimal;
    hide LoginId;
  }

  lemma OthersKeepWhole(db: Db, t: Token, pc: Pc, time: string, other: Pc)
    requires PcWhole(db, other)
    ensures PcWhole(Operate(db, t, pc, time).0, other)
  {
    hide Operate;
    match other
    case DataNickname(id) => OperateKeepsAccounts(db, t, pc, time, id);
    case DataColor(id, _) => OperateKeepsAccounts(db, t, pc, time, id);
    case _ =>
  }

  /** A writer other than t is still there. */
  lemma WriterStays(s: OpState, s': OpState, t: Token, id: string, f: string)
    requires SomebodyWrites(s, id, f) && (t in s.pcs ==> f !in Missing(s.pcs[t], id))
    requires forall u | u in s.pcs && u != t :: u in s'.pcs && s'.pcs[u] == s.pcs[u]
    ensures SomebodyWrites(s', id, f)
  {
    hide Missing;
  }

  lemma StepKeepsLacking(s: OpState, t: Token, time: string, id: string, f: string)
    requires WholeInv(s) && CanAct(s, Step(t, time)) && Lacks(Act(s, Step(t, time)).db, id, f)
    ensures SomebodyWrites(Act(s, Step(t, time)), id, f)
  {
    hide PcHolds;
    hide PcWhole;
    hide Operate;
    hide Missing;
    hide Lacks;
    hide CanStep;
    hide HashSet;
    hide LoginIdsRegistered;
    var s' := Act(s, Step(t, time));
    assert PcHolds(s.db, s.pcs[t]);
    hide OpInv;
    OperateLacks(s.db, t, s.pcs[t], time, id, f);
    NothingAfterRemove(s.db, t, time, id);
    if f in Missing(Operate(s.db, t, s.pcs[t], time).1, id) {
      assert t in s'.pcs;
    } else {
      WriterStays(s, s', t, id, f);
    }
  }

  lemma NothingAfterRemove(db: Db, t: Token, time: string, id: string)
    ensures Missing(Operate(db, t, Remove, time).1, id) == {}
  {
  }

  lemma StepKeepsWhole(s: OpState, t: Token, time: string)
    requires WholeInv(s) && CanAct(s, Step(t, time)) && Careful(s, Step(t, time))
    ensures WholeInv(Act(s, Step(t, time)))
  {
    var pc, s' := s.pcs[t], Act(s, Step(t, time));
    ActKeepsOpInv(s, Step(t, time));
    hide Operate;
    hide OpInv;
    hide Missing;
    forall id, f | Lacks(s'.db, id, f)
      ensures SomebodyWrites(s', id, f)
    {
      StepKeepsLacking(s, t, time, id, f);
    }
    assert PcWhole(s.db, pc);
    OperatePcWhole(s.db, t, pc, time);
    hide PcWhole;
    forall u | u in s'.pcs
      ensures PcWhole(s'.db, s'.pcs[u])
    {
      if u != t {
        OthersKeepWhole(s.db, t, pc, time, s.pcs[u]);
      }
    }
  }

  lemma ArriveLeavesAccounts(s: OpState, t: Token, time: string, id: string, f: string)
    requires t !in s.pcs
    ensures var db := Act(s, Arrive(t, time)).db;
            (Lacks(db, id, f) <==> Lacks(s.db, id, f)) && (AccountKey(id) in db <==> AccountKey(id) in s.db)
  {
  }

  lemma ArriveKeepsWhole(s: OpState, t: Token, time: string)
    requires WholeInv(s) && t !in s.pcs
    ensures WholeInv(Act(s, Arrive(t, time)))
  {
    hide Operate;
    hide IsFirst;
    hide PcHolds;
    hide OpInv;
    hide HashSet;
    hide Lacks;
    hide Missing;
    var s' := Act(s, Arrive(t, time));
    ActKeepsOpInv(s, Arrive(t, time));
    forall id, f | Lacks(s'.db, id, f)
      ensures SomebodyWrites(s', id, f)
    {
      ArriveLeavesAccounts(s, t, time, id, f);
      WriterStays(s, s', t, id, f);
    }
    forall u | u in s'.pcs
      ensures PcWhole(s'.db, s'.pcs[u])
    {
      if u != t {
        assert PcWhole(s.db, s.pcs[u]);
        if Reads(s.pcs[u]).Some? {
          ArriveLeavesAccounts(s, t, time, Reads(s.pcs[u]).value.0, "");
        }
      }
    }
  }

  lemma FirstIsWhole(db: Db, first: Pc)
    requires IsFirst(first)
    ensures PcWhole(db, first)
  {
  }

  lemma IdleMissesNothing(id: string)
    ensures Missing(Idle, id) == {}
  {
  }

  lemma BeginKeepsWhole(s: OpState, t: Token, first: Pc)
    requires WholeInv(s) && CanAct(s, Begin(t, first))
    ensures WholeInv(Act(s, Begin(t, first)))
  {
    hide OpInv;
    hide Lacks;
    hide PcWhole;
    hide Missing;
    hide IsFirst;
    hide Operate;
    hide HashSet;
    hide PcHolds;
    var s' := Act(s, Begin(t, first));
    ActKeepsOpInv(s, Begin(t, first));
    FirstIsWhole(s.db, first);
    hide Act;
    forall id, f | Lacks(s'.db, id, f)
      ensures SomebodyWrites(s', id, f)
    {
      IdleMissesNothing(id);
      WriterStays(s, s', t, id, f);
    }
  }

  lemma CrashKeepsWhole(s: OpState)
    requires WholeInv(s) && Careful(s, Crash)
    ensures WholeInv(Act(s, Crash))
  {
    ActKeepsOpInv(s, Crash);
    hide OpInv;
    hide Missing;
    hide PcWhole;
    forall id, f
      ensures !Lacks(Act(s, Crash).db, id, f)
    {
      assert !LeftOpen(s, id, f) && !Lacks(s.db, id, f);
    }
  }

  lemma ActKeepsWhole(s: OpState, a: Action)
    requires WholeInv(s) && CanAct(s, a) && Careful(s, a)
    ensures WholeInv(Act(s, a))
  {
    match a
    case Step(t, time) => StepKeepsWhole(s, t, time);
    case Arrive(t, time) => ArriveKeepsWhole(s, t, time);
    case Begin(t, first) => BeginKeepsWhole(s, t, first);
    case Crash => CrashKeepsWhole(s);
  }

  lemma StartedIsWhole(s: OpState)
    requires Started(s) && AccountsComplete(s.db)
    ensures WholeInv(s)
  {
    assert forall t: Token :: ClientKey(t) !in s.db;
    assert forall id, f :: !Lacks(s.db, id, f);
  }

  lemma {:induction false} WholeWhileCareful(ss: seq<OpState>, acts: seq<Action>, i: nat)
    requires Schedule(ss, acts) && i < |ss| && AccountsComplete(ss[0].db)
    requires forall k | 0 <= k < i :: Careful(ss[k], acts[k])
    ensures WholeInv(ss[i])
  {
    hide Act;
    hide CanAct;
    hide Careful;
    hide WholeInv;
    hide AccountsComplete;
    if i > 0 {
      WholeWhileCareful(ss, acts, i - 1);
      ActKeepsWhole(ss[i - 1], acts[i - 1]);
    } else {
      StartedIsWhole(ss[0]);
    }
  }

  ghost predicate NoDataFault(s: OpState) {
    forall t | t in s.pcs :: !s.pcs[t].FaultInData?
  }

  /** With whole accounts at start-up and careful actions, player data never faults, whatever the interleaving. */
  lemma NoFaultWhileCareful(ss: seq<OpState>, acts: seq<Action>, i: nat)
    requires Schedule(ss, acts) && i < |ss| && AccountsComplete(ss[0].db)
    requires forall k | 0 <= k < i :: Careful(ss[k], acts[k])
    ensures NoDataFault(ss[i])
  {
    WholeWhileCareful(ss, acts, i);
    hide Schedule;
    WholeHasNoFault(ss[i]);
  }

  lemma WholeHasNoFault(s: OpState)
    requires WholeInv(s)
    ensures NoDataFault(s)
  {
    hide OpInv;
    hide Lacks;
    forall t | t in s.pcs
      ensures !s.pcs[t].FaultInData?
    {
      assert PcWhole(s.db, s.pcs[t]);
    }
  }

  // ---------------------------------------------------------------- the runs that fault

  predicate NoRegistration(acts: seq<Action>) {
    forall a | a in acts :: a.Begin? ==> !a.first.RegisterExists?
  }

  lemma LoginThenUndefined(s: State, u: Token, q: LoginRequest, time: string, f: string)
    requires u in s.clients && LoginSucceeds(s.db, Some(q)) && Lacks(s.db, q.id, f)
    ensures LoginAnswer(s.db, Some(q)) != Undefined
    ensures PlayerDataAnswer(LoggedIn(s, u, Some(q), time).db, u, true) == Undefined
  {
    hide Printed;
    hide Decimal;
    hide Render;
  }

  /** Whoever can log in to an account that is not whole can make the server fault. */
  lemma LackingFaults(s: OpState, u: Token, q: LoginRequest, f: string, time: string)
      returns (acts: seq<Action>, s': OpState)
    requires u in s.pcs && s.pcs[u] == Idle && LoginSucceeds(s.db, Some(q)) && Lacks(s.db, q.id, f)
    ensures Leads(s, acts, s') && u in s'.pcs && s'.pcs[u] == FaultInData && !NoDataFault(s')
    ensures NoRegistration(acts) && Crash !in acts
  {
    hide Leads;
    hide LoginSucceeds;
    hide LoginAnswer;
    hide PlayerDataAnswer;
    hide LoggedIn;
    hide Finish;
    hide Lacks;
    var atomic := State(s.db, map[u := ""]);
    LoginThenUndefined(atomic, u, q, time, f);
    LoginUninterrupted(atomic, u, q, time);
    var login := HandlerLeads(s, u, LoginExists(q), time);
    var s1 := OpState(LoggedIn(atomic, u, Some(q), time).db, s.pcs[u := Idle]);
    DataUninterrupted(s1.db, u, time);
    var data := HandlerLeads(s1, u, DataExists, time);
    s' := OpState(s1.db, s1.pcs[u := FaultInData]);
    LeadsConcat(s, login, s1, data, s');
    acts := login + data;
  }

  /** A registration up to its first write. */
  lemma FirstWrite(s: OpState, t: Token, r: RegisterRequest, time: string) returns (s': OpState)
    requires t in s.pcs && s.pcs[t] == Idle && IsFirst(RegisterExists(r)) && AccountKey(r.id) !in s.db
    ensures Leads(s, [Begin(t, RegisterExists(r))] + [Step(t, time)] + [Step(t, time)], s')
    ensures s'.db == s.db[AccountKey(r.id) := map["password" := Printed(r.password)]]
    ensures s'.pcs == s.pcs[t := RegisterNickname(r)]
  {
    hide Leads;
    hide Printed;
    hide Decimal;
    hide HashDel;
    var s1 := s.(pcs := s.pcs[t := RegisterExists(r)]);
    var s2 := s.(pcs := s.pcs[t := RegisterPassword(r)]);
    s' := Act(s2, Step(t, time));
    LeadsOne(s, Begin(t, RegisterExists(r)));
    LeadsOne(s1, Step(t, time));
    LeadsOne(s2, Step(t, time));
    assert Act(s1, Step(t, time)) == s2;
    assert s'.pcs == s.pcs[t := RegisterNickname(r)];
    assert s'.db == s.db[AccountKey(r.id) := map["password" := Printed(r.password)]];
    hide Act;
    LeadsConcat(s, [Begin(t, RegisterExists(r))], s1, [Step(t, time)], s2);
    LeadsConcat(s, [Begin(t, RegisterExists(r))] + [Step(t, time)], s2, [Step(t, time)], s');
  }

  lemma BareAccount(db: Db, r: RegisterRequest)
    requires AccountKey(r.id) in db && FieldsOf(db, AccountKey(r.id)) == map["password" := Printed(r.password)]
    requires LoginKey(r.id) !in db
    ensures LoginSucceeds(db, Some(LoginRequest(r.id, r.password))) && Lacks(db, r.id, "nickname")
  {
    hide Printed;
  }

  /** After a start-up one client connects. */
  lemma OneArrives(s: OpState, t: Token, id: string, time: string) returns (s': OpState)
    requires t !in s.pcs
    ensures Leads(s, [Arrive(t, time)], s') && s'.pcs == s.pcs[t := Idle]
    ensures FieldsOf(s'.db, AccountKey(id)) == FieldsOf(s.db, AccountKey(id))
    ensures (AccountKey(id) in s'.db <==> AccountKey(id) in s.db) && (LoginKey(id) in s'.db <==> LoginKey(id) in s.db)
  {
    hide Leads;
    LeadsOne(s, Arrive(t, time));
    s' := Act(s, Arrive(t, time));
  }

  /**
   * A crash between the first two writes of a registration: in any start-up with whole accounts at
   * which the id is free, it leads to a client in the middle of a fault.
   */
  lemma CrashThenFault(s0: OpState, t: Token, u: Token, r: RegisterRequest, time: string)
      returns (ss: seq<OpState>, acts: seq<Action>)
    requires Started(s0) && AccountsComplete(s0.db) && AccountKey(r.id) !in s0.db && IsFirst(RegisterExists(r))
    ensures Schedule(ss, acts) && ss[0] == s0
    ensures u in ss[|acts|].pcs && ss[|acts|].pcs[u] == FaultInData
  {
    hide Leads;
    hide Printed;
    hide IsFirst;
    hide LoginSucceeds;
    hide Lacks;
    hide AccountsComplete;
    var s1 := OneArrives(s0, t, r.id, time);
    var s2 := FirstWrite(s1, t, r, time);
    var s3 := Act(s2, Crash);
    LeadsOne(s2, Crash);
    var k := AccountKey(r.id);
    assert k in s3.db && s3.db[k] == map["password" := Printed(r.password)] && LoginKey(r.id) !in s3.db;
    hide Act;
    var s4 := OneArrives(s3, u, r.id, time);
    BareAccount(s4.db, r);
    var fault, s5 := LackingFaults(s4, u, LoginRequest(r.id, r.password), "nickname", time);
    var ts := [Begin(t, RegisterExists(r))] + [Step(t, time)] + [Step(t, time)];
    LeadsConcat(s0, [Arrive(t, time)], s1, ts, s2);
    LeadsConcat(s0, [Arrive(t, time)] + ts, s2, [Crash], s3);
    LeadsConcat(s0, [Arrive(t, time)] + ts + [Crash], s3, [Arrive(u, time)], s4);
    acts := [Arrive(t, time)] + ts + [Crash] + [Arrive(u, time)] + fault;
    LeadsConcat(s0, [Arrive(t, time)] + ts + [Crash] + [Arrive(u, time)], s4, fault, s5);
    hide Started;
    ss := LeadsPath(s0, acts, s5);
  }

  /** No crash is needed if another client reads while the registration is under way. */
  lemma ReadDuringRegistrationFaults(s0: OpState, t: Token, u: Token, r: RegisterRequest, time: string)
      returns (ss: seq<OpState>, acts: seq<Action>)
    requires Started(s0) && AccountsComplete(s0.db) && AccountKey(r.id) !in s0.db && IsFirst(RegisterExists(r)) && t != u
    ensures Schedule(ss, acts) && ss[0] == s0 && Crash !in acts
    ensures u in ss[|acts|].pcs && ss[|acts|].pcs[u] == FaultInData
  {
    hide Leads;
    hide Printed;
    hide IsFirst;
    hide LoginSucceeds;
    hide Lacks;
    hide AccountsComplete;
    hide Act;
    hide CanAct;
    var s1 := OneArrives(s0, t, r.id, time);
    var s2 := OneArrives(s1, u, r.id, time);
    var s3 := FirstWrite(s2, t, r, time);
    BareAccount(s3.db, r);
    var fault, s4 := LackingFaults(s3, u, LoginRequest(r.id, r.password), "nickname", time);
    var ts := [Begin(t, RegisterExists(r))] + [Step(t, time)] + [Step(t, time)];
    LeadsConcat(s0, [Arrive(t, time)], s1, [Arrive(u, time)], s2);
    LeadsConcat(s0, [Arrive(t, time)] + [Arrive(u, time)], s2, ts, s3);
    acts := [Arrive(t, time)] + [Arrive(u, time)] + ts + fault;
    LeadsConcat(s0, [Arrive(t, time)] + [Arrive(u, time)] + ts, s3, fault, s4);
    hide Started;
    ss := LeadsPath(s0, acts, s4);
  }
}
