/**
 * The same handlers cut into single Redis operations, as several io threads run them
 * (src/main.cpp starts one per two cores): any client may take the next operation, and the
 * process may die and restart between any two.  One client's own handlers stay serial,
 * because its next read is armed only after the handler returns.
 */
module Interleaving {
  import opened Options
  import opened RedisStore
  import opened PasswordHash
  import opened Sessions

  /** Where a client's handler stands: the Redis operation it performs next. */
  datatype Pc =
    | Idle
    | RegisterExists(r: RegisterRequest)
    | RegisterPassword(r: RegisterRequest)
    | RegisterNickname(r: RegisterRequest)
    | RegisterColor(r: RegisterRequest)
    | LoginExists(q: LoginRequest)
    | LoginPassword(q: LoginRequest)
    | LoginTaken(id: string)
    | LoginClient(id: string)
    | LoginToken(id: string)
    | LoginTime(id: string)
    | DataExists
    | DataLoginId
    | DataAccount(id: string)
    | DataNickname(id: string)
    | DataColor(id: string, nickname: Option<string>)
    | OutExists(leaving: bool)
    | OutLoginId(leaving: bool)
    | OutDel(id: string, leaving: bool)
    | OutHashDel(leaving: bool)
    | Remove
    | FaultInLogin       // an empty optional was dereferenced for the password
    | FaultInData        // ... or for the nickname or colour
    | AnsweredInvalidId

  datatype OpState = OpState(db: Db, pcs: map<Token, Pc>)

  datatype Action =
    | Arrive(t: Token, time: string)
    | Begin(t: Token, first: Pc)
    | Step(t: Token, time: string)
    | Crash

  /** The first operation of each handler. */
  predicate IsFirst(pc: Pc) {
    match pc
    case RegisterExists(r) => |r.id| >= 2 && |r.password| >= 2 && |r.nickname| >= 2
    case LoginExists(_) | DataExists | OutExists(_) => true
    case _ => false
  }

  /** A registration reaches the store exactly if it is accepted wherever its id is free. */
  lemma OperatesIffAccepted(r: RegisterRequest)
    ensures IsFirst(RegisterExists(r))
       <==> forall db: Db | AccountKey(r.id) !in db :: RegisterAnswer(db, Some(r)) == Plain(true, "ok")
  {
    var none: Db := map[];
    if forall db: Db | AccountKey(r.id) !in db :: RegisterAnswer(db, Some(r)) == Plain(true, "ok") {
      assert RegisterAnswer(none, Some(r)) == Plain(true, "ok");
    }
  }

  predicate CanStep(pc: Pc) {
    !(pc.Idle? || pc.FaultInLogin? || pc.FaultInData?)
  }

  function AfterOut(leaving: bool): Pc { if leaving then Remove else Idle }

  /** One operation of the client with token t. */
  function Operate(db: Db, t: Token, pc: Pc, time: string): (Db, Pc) {
    match pc
    case RegisterExists(r) => (db, if AccountKey(r.id) in db then Idle else RegisterPassword(r))
    case RegisterPassword(r) => (HashSet(db, AccountKey(r.id), "password", Printed(r.password)), RegisterNickname(r))
    case RegisterNickname(r) => (HashSet(db, AccountKey(r.id), "nickname", r.nickname), RegisterColor(r))
    case RegisterColor(r) => (HashSet(db, AccountKey(r.id), "personalColor", r.color), Idle)
    case LoginExists(q) => (db, if AccountKey(q.id) in db then LoginPassword(q) else Idle)
    case LoginPassword(q) =>
      (db, match HashGet(db, AccountKey(q.id), "password")
           case None => FaultInLogin
           case Some(p) => if p == Printed(q.password) then LoginTaken(q.id) else Idle)
    case LoginTaken(id) => (db, if LoginKey(id) in db then Idle else LoginClient(id))
    case LoginClient(id) => (HashSet(db, ClientKey(t), "loginId", id), LoginToken(id))
    case LoginToken(id) => (HashSet(db, LoginKey(id), "token", Decimal(t)), LoginTime(id))
    case LoginTime(id) => (HashSet(db, LoginKey(id), "loginTime", time), Idle)
    case DataExists => (db, if ClientKey(t) in db then DataLoginId else Idle)
    case DataLoginId => (db, match LoginId(db, t) case None => Idle case Some(id) => DataAccount(id))
    case DataAccount(id) => (db, if AccountKey(id) in db then DataNickname(id) else AnsweredInvalidId)
    case DataNickname(id) => (db, DataColor(id, HashGet(db, AccountKey(id), "nickname")))
    case DataColor(id, nickname) =>
      (db, if nickname.Some? && HashGet(db, AccountKey(id), "personalColor").Some? then Idle else FaultInData)
    case OutExists(leaving) => (db, if ClientKey(t) in db then OutLoginId(leaving) else AfterOut(leaving))
    case OutLoginId(leaving) =>
      (db, match LoginId(db, t) case None => AfterOut(leaving) case Some(id) => OutDel(id, leaving))
    case OutDel(id, leaving) => (Del(db, LoginKey(id)), OutHashDel(leaving))
    case OutHashDel(leaving) => (HashDel(db, ClientKey(t), "loginId"), AfterOut(leaving))
    case Remove => (Del(db, ClientKey(t)), Idle)
    case _ => (db, Idle)
  }

  ghost predicate CanAct(s: OpState, a: Action) {
    match a
    case Arrive(t, _) => t !in s.pcs
    case Begin(t, first) => t in s.pcs && s.pcs[t] == Idle && IsFirst(first)
    case Step(t, _) => t in s.pcs && CanStep(s.pcs[t])
    case Crash => true
  }

  ghost function Act(s: OpState, a: Action): OpState
    requires CanAct(s, a)
  {
    match a
    case Arrive(t, time) => OpState(HashSet(s.db, ClientKey(t), "ConnectedTime", time), s.pcs[t := Idle])
    case Begin(t, first) => s.(pcs := s.pcs[t := first])
    case Step(t, time) =>
      var (db, pc) := Operate(s.db, t, s.pcs[t], time);
      OpState(db, if s.pcs[t].Remove? then s.pcs - {t} else s.pcs[t := pc])
    case Crash => OpState(Restarted(State(s.db, map[])).db, map[])
  }

  /** A start-up on any accounts. */
  ghost predicate Started(s: OpState) {
    s.pcs == map[] && forall k | k in s.db :: k.AccountKey?
  }

  ghost predicate Path(ss: seq<OpState>, acts: seq<Action>) {
    && |ss| == |acts| + 1
    && forall i | 0 <= i < |acts| :: CanAct(ss[i], acts[i]) && ss[i + 1] == Act(ss[i], acts[i])
  }

  /** Any number of actions from a start-up. */
  ghost predicate Schedule(ss: seq<OpState>, acts: seq<Action>) {
    Path(ss, acts) && Started(ss[0])
  }

  // ---------------------------------------------------------------- what survives interleaving

  ghost predicate PasswordsPresent(db: Db) {
    forall id | AccountKey(id) in db :: "password" in db[AccountKey(id)]
  }

  ghost predicate LoginIdsRegistered(db: Db) {
    forall t: Token, id | LoginId(db, t) == Some(id) :: AccountKey(id) in db
  }

  /** What a handler has learnt about the store and may still rely on. */
  ghost predicate PcHolds(db: Db, pc: Pc) {
    match pc
    case RegisterNickname(r) => AccountKey(r.id) in db
    case RegisterColor(r) => AccountKey(r.id) in db
    case LoginPassword(q) => AccountKey(q.id) in db
    case LoginTaken(id) => AccountKey(id) in db
    case LoginClient(id) => AccountKey(id) in db
    case DataAccount(id) => AccountKey(id) in db
    case AnsweredInvalidId => false
    case _ => true
  }

  ghost predicate OpInv(s: OpState) {
    && LoginIdsRegistered(s.db)
    && forall t | t in s.pcs :: PcHolds(s.db, s.pcs[t])
  }

  /** No operation removes an account or the password of one. */
  lemma OperateKeepsAccounts(db: Db, t: Token, pc: Pc, time: string, id: string)
    requires AccountKey(id) in db
    ensures AccountKey(id) in Operate(db, t, pc, time).0
    ensures "password" in db[AccountKey(id)] ==> "password" in Operate(db, t, pc, time).0[AccountKey(id)]
  {
    hide Printed;
    hide Decimal;
  }

  lemma OperateKeepsPasswords(db: Db, t: Token, pc: Pc, time: string)
    requires PasswordsPresent(db) && PcHolds(db, pc)
    ensures PasswordsPresent(Operate(db, t, pc, time).0)
  {
    hide Printed;
    hide Decimal;
    var db' := Operate(db, t, pc, time).0;
    forall id | AccountKey(id) in db'
      ensures "password" in db'[AccountKey(id)]
    {
      if AccountKey(id) in db {
        OperateKeepsAccounts(db, t, pc, time, id);
      }
    }
  }

  lemma OperateKeepsLoginIds(db: Db, t: Token, pc: Pc, time: string)
    requires LoginIdsRegistered(db) && PcHolds(db, pc)
    ensures LoginIdsRegistered(Operate(db, t, pc, time).0)
  {
    hide Printed;
    hide Decimal;
    var db' := Operate(db, t, pc, time).0;
    forall u: Token, id | LoginId(db', u) == Some(id)
      ensures AccountKey(id) in db'
    {
      assert LoginId(db, u) == Some(id) || (u == t && pc == LoginClient(id));
      if AccountKey(id) in db {
        OperateKeepsAccounts(db, t, pc, time, id);
      }
    }
  }

  lemma OperateEstablishesPc(db: Db, t: Token, pc: Pc, time: string)
    requires LoginIdsRegistered(db) && PcHolds(db, pc)
    ensures var (db', pc') := Operate(db, t, pc, time); PcHolds(db', pc')
  {
    hide Printed;
    hide Decimal;
  }

  lemma OthersKeepPc(db: Db, t: Token, pc: Pc, time: string, other: Pc)
    requires PcHolds(db, other)
    ensures PcHolds(Operate(db, t, pc, time).0, other)
  {
    match other
    case RegisterNickname(r) => OperateKeepsAccounts(db, t, pc, time, r.id);
    case RegisterColor(r) => OperateKeepsAccounts(db, t, pc, time, r.id);
    case LoginPassword(q) => OperateKeepsAccounts(db, t, pc, time, q.id);
    case LoginTaken(id) => OperateKeepsAccounts(db, t, pc, time, id);
    case LoginClient(id) => OperateKeepsAccounts(db, t, pc, time, id);
    case DataAccount(id) => OperateKeepsAccounts(db, t, pc, time, id);
    case _ =>
  }

  lemma ActKeepsOpInv(s: OpState, a: Action)
    requires OpInv(s) && CanAct(s, a)
    ensures OpInv(Act(s, a))
  {
    match a
    case Step(t, time) =>
      var pc := s.pcs[t];
      hide Operate;
      OperateKeepsLoginIds(s.db, t, pc, time);
      OperateEstablishesPc(s.db, t, pc, time);
      hide PcHolds;
      forall u | u in Act(s, a).pcs
        ensures PcHolds(Act(s, a).db, Act(s, a).pcs[u])
      {
        if u != t {
          OthersKeepPc(s.db, t, pc, time, s.pcs[u]);
        }
      }
    case Arrive(t, time) => ArriveKeepsOpInv(s, t, time);
    case _ =>
  }

  lemma ArriveKeepsOpInv(s: OpState, t: Token, time: string)
    requires OpInv(s) && t !in s.pcs
    ensures OpInv(Act(s, Arrive(t, time)))
  {
    var s' := Act(s, Arrive(t, time));
    forall u: Token, id | LoginId(s'.db, u) == Some(id)
      ensures AccountKey(id) in s'.db
    {
      assert LoginId(s.db, u) == Some(id);
    }
  }

  lemma {:induction false} OpInvAlways(ss: seq<OpState>, acts: seq<Action>, i: nat)
    requires Schedule(ss, acts) && i < |ss|
    ensures OpInv(ss[i])
  {
    if i > 0 {
      OpInvAlways(ss, acts, i - 1);
      ActKeepsOpInv(ss[i - 1], acts[i - 1]);
    } else {
      assert forall t: Token :: ClientKey(t) !in ss[0].db;
    }
  }

  /** No login has dereferenced an absent password. */
  ghost predicate NoLoginFault(s: OpState) {
    forall t | t in s.pcs :: !s.pcs[t].FaultInLogin?
  }

  ghost predicate LoginSafe(s: OpState) {
    PasswordsPresent(s.db) && NoLoginFault(s)
  }

  lemma OperateLoginSafe(db: Db, t: Token, pc: Pc, time: string)
    requires PasswordsPresent(db) && PcHolds(db, pc)
    ensures !Operate(db, t, pc, time).1.FaultInLogin?
  {
    hide Printed;
    hide Decimal;
    hide HashSet;
    hide HashDel;
    hide LoginId;
  }

  lemma ActKeepsLoginSafe(s: OpState, a: Action)
    requires OpInv(s) && LoginSafe(s) && CanAct(s, a)
    ensures LoginSafe(Act(s, a))
  {
    match a
    case Step(t, time) =>
      assert PcHolds(s.db, s.pcs[t]);
      OperateKeepsPasswords(s.db, t, s.pcs[t], time);
      OperateLoginSafe(s.db, t, s.pcs[t], time);
      hide Operate;
      hide PasswordsPresent;
    case _ =>
  }

  lemma {:induction false} LoginSafeAlways(ss: seq<OpState>, acts: seq<Action>, i: nat)
    requires Schedule(ss, acts) && i < |ss| && PasswordsPresent(ss[0].db)
    ensures LoginSafe(ss[i])
  {
    hide Act;
    hide CanAct;
    hide OpInv;
    hide PasswordsPresent;
    if i > 0 {
      LoginSafeAlways(ss, acts, i - 1);
      OpInvAlways(ss, acts, i - 1);
      ActKeepsLoginSafe(ss[i - 1], acts[i - 1]);
    }
  }

  /**
   * Under every interleaving and every crash each recorded login names an account and no one is told
   * "invalidId"; if every account had its password at start-up, each has it, and login never
   * dereferences an absent one.
   */
  lemma InterleavingSafety(ss: seq<OpState>, acts: seq<Action>, i: nat)
    requires Schedule(ss, acts) && i < |ss|
    ensures forall t: Token, id | LoginId(ss[i].db, t) == Some(id) :: AccountKey(id) in ss[i].db
    ensures forall t | t in ss[i].pcs :: !ss[i].pcs[t].AnsweredInvalidId?
    ensures PasswordsPresent(ss[0].db) ==> LoginSafe(ss[i])
  {
    OpInvAlways(ss, acts, i);
    if PasswordsPresent(ss[0].db) {
      LoginSafeAlways(ss, acts, i);
    }
    hide Schedule;
    hide PasswordsPresent;
  }

  // ---------------------------------------------------------------- an uninterrupted handler is the atomic step

  function Remaining(pc: Pc): nat {
    match pc
    case RegisterExists(_) => 4
    case RegisterPassword(_) => 3
    case RegisterNickname(_) => 2
    case LoginExists(_) => 6
    case LoginPassword(_) => 5
    case LoginTaken(_) => 4
    case LoginClient(_) => 3
    case LoginToken(_) => 2
    case DataExists => 5
    case DataLoginId => 4
    case DataAccount(_) => 3
    case DataNickname(_) => 2
    case OutExists(_) => 5
    case OutLoginId(_) => 4
    case OutDel(_, _) => 3
    case OutHashDel(_) => 2
    case _ => if CanStep(pc) then 1 else 0
  }

  /** All remaining operations of one handler, with nobody in between. */
  function Finish(db: Db, t: Token, pc: Pc, time: string): (Db, Pc)
    decreases Remaining(pc)
  {
    if !CanStep(pc) then (db, pc)
    else
      var (db', pc') := Operate(db, t, pc, time);
      Finish(db', t, pc', time)
  }

  lemma FinishStep(db: Db, t: Token, pc: Pc, time: string, db': Db, pc': Pc)
    requires CanStep(pc) && Operate(db, t, pc, time) == (db', pc')
    ensures Finish(db, t, pc, time) == Finish(db', t, pc', time)
    ensures !CanStep(pc') ==> Finish(db, t, pc, time) == (db', pc')
  {
    hide Operate;
  }

  lemma RegisterOperations(db: Db, t: Token, r: RegisterRequest, time: string)
    ensures var k := AccountKey(r.id);
            && Operate(db, t, RegisterPassword(r), time)
               == (HashSet(db, k, "password", Printed(r.password)), RegisterNickname(r))
            && Operate(db, t, RegisterNickname(r), time) == (HashSet(db, k, "nickname", r.nickname), RegisterColor(r))
            && Operate(db, t, RegisterColor(r), time) == (HashSet(db, k, "personalColor", r.color), Idle)
  {
    hide Printed;
    hide HashSet;
  }

  lemma AccountWritesUninterrupted(db: Db, t: Token, r: RegisterRequest, time: string)
    requires FieldsOf(db, AccountKey(r.id)).Keys <= {"password", "nickname", "personalColor"}
    ensures Finish(db, t, RegisterPassword(r), time) == (db[AccountKey(r.id) := AccountFields(r)], Idle)
  {
    AccountWrites(db, r);
    hide Printed;
    hide HashSet;
    hide FieldsOf;
    hide AccountFields;
    hide Finish;
    hide Operate;
    var k := AccountKey(r.id);
    var db1 := HashSet(db, k, "password", Printed(r.password));
    var db2 := HashSet(db1, k, "nickname", r.nickname);
    RegisterOperations(db, t, r, time);
    RegisterOperations(db1, t, r, time);
    RegisterOperations(db2, t, r, time);
    FinishStep(db, t, RegisterPassword(r), time, db1, RegisterNickname(r));
    FinishStep(db1, t, RegisterNickname(r), time, db2, RegisterColor(r));
    FinishStep(db2, t, RegisterColor(r), time, HashSet(db2, k, "personalColor", r.color), Idle);
  }

  lemma RegisterUninterrupted(db: Db, t: Token, r: RegisterRequest, time: string)
    requires IsFirst(RegisterExists(r))
    ensures Finish(db, t, RegisterExists(r), time) == (Registered(State(db, map[]), Some(r)).db, Idle)
  {
    hide Printed;
    hide HashSet;
    hide AccountFields;
    hide Finish;
    if AccountKey(r.id) in db {
      FinishStep(db, t, RegisterExists(r), time, db, Idle);
    } else {
      FinishStep(db, t, RegisterExists(r), time, db, RegisterPassword(r));
      AccountWritesUninterrupted(db, t, r, time);
    }
  }

  lemma LoginWritesUninterrupted(db: Db, t: Token, id: string, time: string)
    requires LoginKey(id) !in db
    ensures Finish(db, t, LoginClient(id), time)
         == (HashSet(db, ClientKey(t), "loginId", id)
             [LoginKey(id) := map["token" := Decimal(t), "loginTime" := time]], Idle)
  {
    hide Decimal;
    hide HashSet;
    hide Finish;
    hide Printed;
    hide HashGet;
    hide HashDel;
    hide Del;
    hide LoginId;
    LoginWrites(db, t, id, time);
    var db1 := HashSet(db, ClientKey(t), "loginId", id);
    var db2 := HashSet(db1, LoginKey(id), "token", Decimal(t));
    FinishStep(db, t, LoginClient(id), time, db1, LoginToken(id));
    FinishStep(db1, t, LoginToken(id), time, db2, LoginTime(id));
    FinishStep(db2, t, LoginTime(id), time, HashSet(db2, LoginKey(id), "loginTime", time), Idle);
  }

  lemma LoginUninterrupted(s: State, t: Token, q: LoginRequest, time: string)
    requires t in s.clients
    ensures Finish(s.db, t, LoginExists(q), time)
         == (LoggedIn(s, t, Some(q), time).db,
             if LoginAnswer(s.db, Some(q)) == Undefined then FaultInLogin else Idle)
  {
    hide Printed;
    hide Decimal;
    hide Render;
    hide HashSet;
    hide Finish;
    var db := s.db;
    var pc1 := Operate(db, t, LoginExists(q), time).1;
    FinishStep(db, t, LoginExists(q), time, db, pc1);
    if AccountKey(q.id) in db {
      var pc2 := Operate(db, t, LoginPassword(q), time).1;
      FinishStep(db, t, LoginPassword(q), time, db, pc2);
      if pc2.LoginTaken? {
        FinishStep(db, t, LoginTaken(q.id), time, db, if LoginKey(q.id) in db then Idle else LoginClient(q.id));
        if LoginKey(q.id) !in db {
          LoginWritesUninterrupted(db, t, q.id, time);
        }
      }
    }
  }

  lemma FinishAfterOut(db: Db, t: Token, leaving: bool, time: string)
    ensures Finish(db, t, AfterOut(leaving), time) == (if leaving then Del(db, ClientKey(t)) else db, Idle)
  {
  }

  lemma LogoutWritesUninterrupted(db: Db, t: Token, id: string, leaving: bool, time: string)
    ensures var out := HashDel(Del(db, LoginKey(id)), ClientKey(t), "loginId");
            Finish(db, t, OutDel(id, leaving), time) == (if leaving then Del(out, ClientKey(t)) else out, Idle)
  {
    hide Finish;
    hide HashDel;
    hide Del;
    hide Printed;
    hide Decimal;
    hide HashSet;
    hide HashGet;
    hide LoginId;
    var db1 := Del(db, LoginKey(id));
    var db2 := HashDel(db1, ClientKey(t), "loginId");
    FinishStep(db, t, OutDel(id, leaving), time, db1, OutHashDel(leaving));
    FinishStep(db1, t, OutHashDel(leaving), time, db2, AfterOut(leaving));
    FinishAfterOut(db2, t, leaving, time);
  }

  lemma LogoutChecksUninterrupted(db: Db, t: Token, leaving: bool, time: string)
    ensures Finish(db, t, OutExists(leaving), time)
         == match LoginId(db, t)
            case None => Finish(db, t, AfterOut(leaving), time)
            case Some(id) => Finish(db, t, OutDel(id, leaving), time)
  {
    hide Finish;
    hide AfterOut;
    hide HashDel;
    hide Del;
    hide Printed;
    hide Decimal;
    hide HashSet;
    match LoginId(db, t)
    case None =>
      FinishStep(db, t, OutLoginId(leaving), time, db, AfterOut(leaving));
      FinishStep(db, t, OutExists(leaving), time, db, if ClientKey(t) in db then OutLoginId(leaving) else AfterOut(leaving));
    case Some(id) =>
      FinishStep(db, t, OutExists(leaving), time, db, OutLoginId(leaving));
      FinishStep(db, t, OutLoginId(leaving), time, db, OutDel(id, leaving));
  }

  lemma LogoutUninterrupted(s: State, t: Token, leaving: bool, time: string)
    requires t in s.clients
    ensures Finish(s.db, t, OutExists(leaving), time)
         == (if leaving then Disconnected(s, t).db else LoggedOut(s, t).db, Idle)
  {
    hide HashDel;
    hide Del;
    hide Finish;
    hide LoginId;
    LogoutChecksUninterrupted(s.db, t, leaving, time);
    match LoginId(s.db, t)
    case None => FinishAfterOut(s.db, t, leaving, time);
    case Some(id) => LogoutWritesUninterrupted(s.db, t, id, leaving, time);
  }

  lemma DataUninterrupted(db: Db, t: Token, time: string)
    ensures Finish(db, t, DataExists, time)
         == (db, if PlayerDataAnswer(db, t, true) == Undefined then FaultInData else Idle)
  {
    hide Finish;
    hide HashDel;
    hide Del;
    hide Printed;
    hide Decimal;
    hide HashSet;
    hide HashGet;
    hide LoginId;
    var pc1 := Operate(db, t, DataExists, time).1;
    FinishStep(db, t, DataExists, time, db, pc1);
    if pc1.DataLoginId? {
      var pc2 := Operate(db, t, DataLoginId, time).1;
      FinishStep(db, t, DataLoginId, time, db, pc2);
      if pc2.DataAccount? {
        var pc3 := Operate(db, t, pc2, time).1;
        FinishStep(db, t, pc2, time, db, pc3);
        if pc3.AnsweredInvalidId? {
          FinishStep(db, t, pc3, time, db, Idle);
        } else {
          var pc4 := Operate(db, t, pc3, time).1;
          FinishStep(db, t, pc3, time, db, pc4);
          FinishStep(db, t, pc4, time, db, Operate(db, t, pc4, time).1);
        }
      }
    }
  }

  // ---------------------------------------------------------------- reaching a state

  ghost predicate Leads(s: OpState, acts: seq<Action>, s': OpState)
    decreases |acts|
  {
    if acts == [] then s == s'
    else CanAct(s, acts[0]) && Leads(Act(s, acts[0]), acts[1..], s')
  }

  lemma {:induction false} LeadsConcat(s: OpState, a: seq<Action>, m: OpState, b: seq<Action>, s': OpState)
    requires Leads(s, a, m) && Leads(m, b, s')
    ensures Leads(s, a + b, s')
    decreases |a|
  {
    hide Act;
    hide CanAct;
    if a == [] {
      assert a + b == b;
    } else {
      assert (a + b)[0] == a[0] && (a + b)[1..] == a[1..] + b;
      LeadsConcat(Act(s, a[0]), a[1..], m, b, s');
    }
  }

  lemma LeadsOne(s: OpState, a: Action)
    requires CanAct(s, a)
    ensures Leads(s, [a], Act(s, a))
  {
    assert [a][1..] == [];
    hide Act;
    hide CanAct;
    assert Leads(Act(s, a), [a][1..], Act(s, a));
  }

  /** A way from a start-up is a schedule. */
  lemma {:induction false} LeadsPath(s: OpState, acts: seq<Action>, s': OpState) returns (ss: seq<OpState>)
    requires Leads(s, acts, s')
    ensures Path(ss, acts) && ss[0] == s && ss[|acts|] == s'
    decreases |acts|
  {
    hide Act;
    hide CanAct;
    if acts == [] {
      ss := [s];
    } else {
      var rest := LeadsPath(Act(s, acts[0]), acts[1..], s');
      ss := [s] + rest;
    }
  }

  lemma PathConcat(ss: seq<OpState>, a: seq<Action>, more: seq<OpState>, b: seq<Action>) returns (all: seq<OpState>)
    requires Path(ss, a) && Path(more, b) && more[0] == ss[|a|]
    ensures Path(all, a + b) && all == ss + more[1..] && all[|a|] == ss[|a|] && all[|a + b|] == more[|b|]
  {
    hide Act;
    hide CanAct;
    all := ss + more[1..];
    forall i | 0 <= i < |a + b|
      ensures CanAct(all[i], (a + b)[i]) && all[i + 1] == Act(all[i], (a + b)[i])
    {
      if i >= |a| {
        assert all[i] == more[i - |a|] && all[i + 1] == more[i + 1 - |a|];
        assert CanAct(more[i - |a|], b[i - |a|]);
      } else {
        assert CanAct(ss[i], a[i]);
      }
    }
  }

  /** The handlers that end with the client's removal. */
  predicate Leaving(pc: Pc) {
    match pc
    case OutExists(leaving) => leaving
    case OutLoginId(leaving) => leaving
    case OutDel(_, leaving) => leaving
    case OutHashDel(leaving) => leaving
    case Remove => true
    case _ => false
  }

  /** Where a client stands after its handler is done. */
  function Done(pcs: map<Token, Pc>, t: Token, first: Pc, last: Pc): map<Token, Pc> {
    if Leaving(first) then pcs - {t} else pcs[t := last]
  }

  lemma LeavingStep(db: Db, t: Token, pc: Pc, time: string)
    requires CanStep(pc) && !pc.Remove?
    ensures Leaving(Operate(db, t, pc, time).1) == Leaving(pc)
  {
    hide HashSet;
    hide HashDel;
    hide Printed;
    hide Decimal;
  }

  /** One step of the way to the end. */
  lemma FinishAfterStep(s: OpState, t: Token, time: string)
    requires t in s.pcs && CanStep(s.pcs[t]) && !s.pcs[t].Remove?
    ensures var s1 := Act(s, Step(t, time));
            && t in s1.pcs && Remaining(s1.pcs[t]) < Remaining(s.pcs[t])
            && Finish(s1.db, t, s1.pcs[t], time) == Finish(s.db, t, s.pcs[t], time)
            && forall last :: Done(s1.pcs, t, s1.pcs[t], last) == Done(s.pcs, t, s.pcs[t], last)
  {
    var pc := s.pcs[t];
    var (db', pc') := Operate(s.db, t, pc, time);
    FinishStep(s.db, t, pc, time, db', pc');
    LeavingStep(s.db, t, pc, time);
    RemainingDrops(s.db, t, pc, time);
    hide Operate;
    hide Finish;
    hide Leaving;
    hide Remaining;
    hide CanStep;
  }

  lemma FinishRemove(s: OpState, t: Token, time: string)
    requires t in s.pcs && s.pcs[t].Remove?
    ensures Act(s, Step(t, time)) == OpState(Finish(s.db, t, Remove, time).0, s.pcs - {t})
  {
    RemoveIsLast(s.db, t, time);
    FinishStep(s.db, t, Remove, time, Del(s.db, ClientKey(t)), Idle);
    hide Operate;
    hide Finish;
  }

  /** A client left alone finishes its handler. */
  lemma {:induction false} FinishLeads(s: OpState, t: Token, time: string) returns (acts: seq<Action>)
    requires t in s.pcs
    ensures var (db, pc) := Finish(s.db, t, s.pcs[t], time);
            Leads(s, acts, OpState(db, Done(s.pcs, t, s.pcs[t], pc)))
    ensures forall a | a in acts :: a == Step(t, time)
    decreases Remaining(s.pcs[t])
  {
    var pc, a := s.pcs[t], Step(t, time);
    hide Operate;
    hide Remaining;
    if !CanStep(pc) {
      acts := [];
      assert s.pcs[t := pc] == s.pcs;
    } else {
      LeadsOne(s, a);
      hide Finish;
      hide Leads;
      if pc.Remove? {
        FinishRemove(s, t, time);
        acts := [a];
      } else {
        FinishAfterStep(s, t, time);
        hide Leaving;
        var s1 := Act(s, a);
        hide Act;
        var rest := FinishLeads(s1, t, time);
        var (db, last) := Finish(s.db, t, pc, time);
        LeadsConcat(s, [a], s1, rest, OpState(db, Done(s.pcs, t, pc, last)));
        acts := [a] + rest;
      }
    }
  }

  lemma RemoveIsLast(db: Db, t: Token, time: string)
    ensures Operate(db, t, Remove, time) == (Del(db, ClientKey(t)), Idle)
  {
  }

  lemma RemainingDrops(db: Db, t: Token, pc: Pc, time: string)
    requires CanStep(pc)
    ensures Remaining(Operate(db, t, pc, time).1) < Remaining(pc)
  {
    hide HashSet;
    hide HashDel;
    hide Printed;
    hide Decimal;
  }

  /** An idle client runs one handler from its first operation to its last. */
  lemma HandlerLeads(s: OpState, t: Token, first: Pc, time: string) returns (acts: seq<Action>)
    requires t in s.pcs && s.pcs[t] == Idle && IsFirst(first)
    ensures var (db, pc) := Finish(s.db, t, first, time);
            Leads(s, acts, OpState(db, Done(s.pcs, t, first, pc)))
    ensures forall a | a in acts :: a == Begin(t, first) || a == Step(t, time)
  {
    hide Finish;
    hide Operate;
    var s1 := s.(pcs := s.pcs[t := first]);
    LeadsOne(s, Begin(t, first));
    var rest := FinishLeads(s1, t, time);
    var (db, pc) := Finish(s.db, t, first, time);
    assert Done(s1.pcs, t, first, pc) == Done(s.pcs, t, first, pc);
    LeadsConcat(s, [Begin(t, first)], s1, rest, OpState(db, Done(s.pcs, t, first, pc)));
    acts := [Begin(t, first)] + rest;
  }

  // ---------------------------------------------------------------- exactly when a login can fault

  lemma {:induction false} LeadsLoginSafe(s: OpState, acts: seq<Action>, s': OpState)
    requires OpInv(s) && LoginSafe(s) && Leads(s, acts, s')
    ensures LoginSafe(s')
    decreases |acts|
  {
    hide OpInv;
    hide LoginSafe;
    hide Act;
    hide CanAct;
    if acts != [] {
      ActKeepsOpInv(s, acts[0]);
      ActKeepsLoginSafe(s, acts[0]);
      LeadsLoginSafe(Act(s, acts[0]), acts[1..], s');
    }
  }

  /** After an arrival, a login to an account without a password is undefined. */
  lemma PasswordlessIsUndefined(s: OpState, t: Token, q: LoginRequest, time: string)
    requires t !in s.pcs && AccountKey(q.id) in s.db && "password" !in s.db[AccountKey(q.id)]
    ensures LoginAnswer(Act(s, Arrive(t, time)).db, Some(q)) == Undefined
  {
    hide Printed;
  }

  lemma PasswordlessFaults(s: OpState, t: Token, q: LoginRequest, time: string) returns (acts: seq<Action>, s': OpState)
    requires s.pcs == map[] && AccountKey(q.id) in s.db && "password" !in s.db[AccountKey(q.id)]
    ensures Leads(s, acts, s') && !NoLoginFault(s')
  {
    LeadsOne(s, Arrive(t, time));
    PasswordlessIsUndefined(s, t, q, time);
    var s1 := Act(s, Arrive(t, time));
    hide Leads;
    hide LoginAnswer;
    hide LoggedIn;
    hide Finish;
    hide Operate;
    hide HashSet;
    LoginUninterrupted(State(s1.db, map[t := ""]), t, q, time);
    var login := HandlerLeads(s1, t, LoginExists(q), time);
    s' := OpState(Finish(s1.db, t, LoginExists(q), time).0, s1.pcs[t := FaultInLogin]);
    assert t in s'.pcs && s'.pcs[t].FaultInLogin?;
    LeadsConcat(s, [Arrive(t, time)], s1, login, s');
    acts := [Arrive(t, time)] + login;
  }

  /** After a start-up no login can ever fault if and only if every account has its password. */
  lemma LoginFaultFreeIff(s: OpState)
    requires Started(s)
    ensures PasswordsPresent(s.db) <==> forall acts, s' | Leads(s, acts, s') :: NoLoginFault(s')
  {
    hide Leads;
    if PasswordsPresent(s.db) {
      assert forall t: Token :: ClientKey(t) !in s.db;
      assert OpInv(s) && LoginSafe(s);
      hide OpInv;
      forall acts, s' | Leads(s, acts, s')
        ensures NoLoginFault(s')
      {
        LeadsLoginSafe(s, acts, s');
      }
    } else {
      var id :| AccountKey(id) in s.db && "password" !in s.db[AccountKey(id)];
      var acts, s' := PasswordlessFaults(s, 0, LoginRequest(id, []), "");
    }
  }
}
