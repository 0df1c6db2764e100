/** Accounts under interleaved operations: exactly when a record can still change, and a run in which one does. */
module AccountRaces {
  import opened Options
  import opened RedisStore
  import opened PasswordHash
  import opened Sessions
  import opened Interleaving

  // ---------------------------------------------------------------- when a record is fixed

  /** What a handler is still going to write into the account. */
  function Pending(pc: Pc, id: string): Fields {
    match pc
    case RegisterPassword(r) => if r.id == id then AccountFields(r) else map[]
    case RegisterNickname(r) => if r.id == id then map["nickname" := r.nickname, "personalColor" := r.color] else map[]
    case RegisterColor(r) => if r.id == id then map["personalColor" := r.color] else map[]
    case _ => map[]
  }

  predicate Within(a: Fields, b: Fields) {
    forall f | f in a :: f in b && b[f] == a[f]
  }

  /** Every write still to come would store what is there. */
  ghost predicate Stable(s: OpState, id: string) {
    && AccountKey(id) in s.db
    && forall t | t in s.pcs :: Within(Pending(s.pcs[t], id), s.db[AccountKey(id)])
  }

  /** In particular, nobody is registering the account. */
  ghost predicate Settled(s: OpState, id: string) {
    && AccountKey(id) in s.db
    && forall t | t in s.pcs ::
         match s.pcs[t]
         case RegisterPassword(r) => r.id != id
         case RegisterNickname(r) => r.id != id
         case RegisterColor(r) => r.id != id
         case _ => true
  }

  lemma SettledIsStable(s: OpState, id: string)
    requires Settled(s, id)
    ensures Stable(s, id)
  {
    hide AccountFields;
  }

  ghost predicate SameAccount(db: Db, db': Db, id: string)
    requires AccountKey(id) in db
  {
    AccountKey(id) in db' && db'[AccountKey(id)] == db[AccountKey(id)]
  }

  predicate Registering(pc: Pc) {
    pc.RegisterPassword? || pc.RegisterNickname? || pc.RegisterColor?
  }

  lemma SetStable(db: Db, id: string, other: string, f: string, v: string)
    requires AccountKey(id) in db
    requires other == id ==> HashGet(db, AccountKey(id), f) == Some(v)
    ensures SameAccount(db, HashSet(db, AccountKey(other), f, v), id)
  {
    if other == id {
      assert db[AccountKey(id)][f := v] == db[AccountKey(id)];
    }
  }

  lemma RegisteringStable(db: Db, t: Token, pc: Pc, time: string, id: string)
    requires AccountKey(id) in db && Within(Pending(pc, id), db[AccountKey(id)]) && Registering(pc)
    ensures SameAccount(db, Operate(db, t, pc, time).0, id)
    ensures Within(Pending(Operate(db, t, pc, time).1, id), db[AccountKey(id)])
  {
    hide Printed;
    hide Decimal;
    hide HashSet;
    hide HashDel;
    hide SameAccount;
    match pc
    case RegisterPassword(r) => SetStable(db, id, r.id, "password", Printed(r.password));
    case RegisterNickname(r) => SetStable(db, id, r.id, "nickname", r.nickname);
    case RegisterColor(r) => SetStable(db, id, r.id, "personalColor", r.color);
  }

  lemma OthersLeaveAccounts(db: Db, t: Token, pc: Pc, time: string, id: string)
    requires AccountKey(id) in db && !Registering(pc)
    ensures SameAccount(db, Operate(db, t, pc, time).0, id)
  {
    hide Printed;
    hide Decimal;
    hide HashGet;
    hide LoginId;
  }

  lemma OthersStayClear(db: Db, t: Token, pc: Pc, time: string, id: string)
    requires AccountKey(id) in db && !Registering(pc)
    ensures Pending(Operate(db, t, pc, time).1, id) == map[]
  {
    hide Printed;
    hide Decimal;
    hide HashGet;
    hide HashSet;
    hide HashDel;
    hide Del;
    hide LoginId;
    hide AccountFields;
  }

  /** One operation whose pending writes agree with the record leaves it as it is. */
  lemma OperateStable(db: Db, t: Token, pc: Pc, time: string, id: string)
    requires AccountKey(id) in db && Within(Pending(pc, id), db[AccountKey(id)])
    ensures SameAccount(db, Operate(db, t, pc, time).0, id)
    ensures Within(Pending(Operate(db, t, pc, time).1, id), db[AccountKey(id)])
  {
    hide Operate;
    hide Pending;
    hide SameAccount;
    if Registering(pc) {
      RegisteringStable(db, t, pc, time, id);
    } else {
      OthersLeaveAccounts(db, t, pc, time, id);
      OthersStayClear(db, t, pc, time, id);
    }
  }

  lemma ActStable(s: OpState, a: Action, id: string)
    requires Stable(s, id) && CanAct(s, a)
    ensures Stable(Act(s, a), id) && SameAccount(s.db, Act(s, a).db, id)
  {
    hide Within;
    hide AccountFields;
    match a
    case Step(t, time) =>
      OperateStable(s.db, t, s.pcs[t], time, id);
      hide Operate;
      hide Pending;
    case Arrive(t, time) =>
      NothingPending(Idle, id, s.db[AccountKey(id)]);
    case Begin(t, first) =>
      NothingPending(first, id, s.db[AccountKey(id)]);
    case Crash =>
  }

  lemma NothingPending(pc: Pc, id: string, fields: Fields)
    requires pc == Idle || IsFirst(pc)
    ensures Within(Pending(pc, id), fields)
  {
    hide AccountFields;
  }

  /** A write that disagrees changes the record, or one behind it does. */
  lemma OperateUnstable(db: Db, t: Token, pc: Pc, time: string, id: string)
    requires AccountKey(id) in db && !Within(Pending(pc, id), db[AccountKey(id)])
    ensures CanStep(pc) && !pc.Remove?
    ensures !SameAccount(db, Operate(db, t, pc, time).0, id)
         || !Within(Pending(Operate(db, t, pc, time).1, id), db[AccountKey(id)])
    ensures AccountKey(id) in Operate(db, t, pc, time).0
  {
    hide Printed;
    hide Decimal;
  }

  /** In every schedule, crashes included, a stable record is the same ever after. */
  lemma {:induction false} StableForever(ss: seq<OpState>, acts: seq<Action>, i: nat, j: nat, id: string)
    requires Path(ss, acts) && i <= j < |ss| && Stable(ss[i], id)
    ensures Stable(ss[j], id) && SameAccount(ss[i].db, ss[j].db, id)
    decreases j
  {
    hide Act;
    hide CanAct;
    hide Within;
    hide Pending;
    if i < j {
      StableForever(ss, acts, i, j - 1, id);
      ActStable(ss[j - 1], acts[j - 1], id);
    }
  }

  /** So an account nobody is registering keeps its password, nickname and colour under any interleaving. */
  lemma SettledForever(ss: seq<OpState>, acts: seq<Action>, i: nat, j: nat, id: string)
    requires Schedule(ss, acts) && i <= j < |ss| && Settled(ss[i], id)
    ensures SameAccount(ss[i].db, ss[j].db, id)
  {
    hide Path;
    SettledIsStable(ss[i], id);
    StableForever(ss, acts, i, j, id);
  }

  lemma {:induction false} LeadsStable(s: OpState, acts: seq<Action>, s': OpState, id: string)
    requires Stable(s, id) && Leads(s, acts, s')
    ensures SameAccount(s.db, s'.db, id)
    decreases |acts|
  {
    hide Act;
    hide CanAct;
    if acts != [] {
      hide Stable;
      ActStable(s, acts[0], id);
      LeadsStable(Act(s, acts[0]), acts[1..], s', id);
    }
  }

  /** A client whose pending writes disagree changes the record, left to itself. */
  lemma {:induction false} Overwrites(s: OpState, t: Token, id: string, time: string)
      returns (acts: seq<Action>, s': OpState)
    requires AccountKey(id) in s.db && t in s.pcs && !Within(Pending(s.pcs[t], id), s.db[AccountKey(id)])
    ensures |acts| <= Remaining(s.pcs[t]) && Leads(s, acts, s') && !SameAccount(s.db, s'.db, id)
    decreases Remaining(s.pcs[t])
  {
    var pc, a := s.pcs[t], Step(t, time);
    OperateUnstable(s.db, t, pc, time, id);
    hide Operate;
    hide Pending;
    hide Within;
    LeadsOne(s, a);
    var s1 := Act(s, a);
    if !SameAccount(s.db, s1.db, id) {
      acts, s' := [a], s1;
      RemainingDrops(s.db, t, pc, time);
    } else {
      RemainingDrops(s.db, t, pc, time);
      var rest;
      rest, s' := Overwrites(s1, t, id, time);
      LeadsConcat(s, [a], s1, rest, s');
      acts := [a] + rest;
    }
  }

  /** The condition is exact: a record can still change if and only if it is not stable. */
  lemma FixedIffStable(s: OpState, id: string)
    requires AccountKey(id) in s.db
    ensures Stable(s, id) <==> forall acts, s' | Leads(s, acts, s') :: SameAccount(s.db, s'.db, id)
  {
    hide Leads;
    hide Pending;
    hide Within;
    if Stable(s, id) {
      hide Stable;
      hide SameAccount;
      forall acts, s' | Leads(s, acts, s')
        ensures SameAccount(s.db, s'.db, id)
      {
        LeadsStable(s, acts, s', id);
      }
    } else {
      var t :| t in s.pcs && !Within(Pending(s.pcs[t], id), s.db[AccountKey(id)]);
      var acts, s' := Overwrites(s, t, id, "");
    }
  }

  // ---------------------------------------------------------------- an overwritten account

  lemma RegisterCheck(s: OpState, t: Token, r: RegisterRequest, time: string)
    requires t in s.pcs && s.pcs[t] == Idle && IsFirst(RegisterExists(r)) && AccountKey(r.id) !in s.db
    ensures Leads(s, [Begin(t, RegisterExists(r))] + [Step(t, time)], s.(pcs := s.pcs[t := RegisterPassword(r)]))
  {
    hide Leads;
    hide Printed;
    hide Decimal;
    hide HashSet;
    hide HashDel;
    var s1 := s.(pcs := s.pcs[t := RegisterExists(r)]);
    LeadsOne(s, Begin(t, RegisterExists(r)));
    LeadsOne(s1, Step(t, time));
    assert Act(s1, Step(t, time)) == s.(pcs := s.pcs[t := RegisterPassword(r)]);
    hide Act;
    LeadsConcat(s, [Begin(t, RegisterExists(r))], s1, [Step(t, time)], s.(pcs := s.pcs[t := RegisterPassword(r)]));
  }

  /** After a start-up two clients connect and both find the id free. */
  lemma BothFindFree(s0: OpState, t: Token, u: Token, r: RegisterRequest, q: RegisterRequest, time: string)
      returns (acts: seq<Action>, s: OpState)
    requires Started(s0) && t != u && AccountKey(r.id) !in s0.db && q.id == r.id
    requires IsFirst(RegisterExists(r)) && IsFirst(RegisterExists(q))
    ensures Leads(s0, acts, s) && AccountKey(r.id) !in s.db
    ensures s.pcs == map[t := RegisterPassword(r), u := RegisterPassword(q)]
  {
    hide Leads;
    hide IsFirst;
    var s1 := Act(s0, Arrive(t, time));
    var s2 := Act(s1, Arrive(u, time));
    LeadsOne(s0, Arrive(t, time));
    LeadsOne(s1, Arrive(u, time));
    assert AccountKey(r.id) !in s2.db && s2.pcs == map[t := Idle, u := Idle];
    hide Act;
    hide CanAct;
    hide Started;
    var ts := [Begin(t, RegisterExists(r))] + [Step(t, time)];
    var us := [Begin(u, RegisterExists(q))] + [Step(u, time)];
    var s3 := s2.(pcs := s2.pcs[t := RegisterPassword(r)]);
    s := s3.(pcs := s3.pcs[u := RegisterPassword(q)]);
    RegisterCheck(s2, t, r, time);
    RegisterCheck(s3, u, q, time);
    LeadsConcat(s0, [Arrive(t, time)], s1, [Arrive(u, time)], s2);
    LeadsConcat(s0, [Arrive(t, time)] + [Arrive(u, time)], s2, ts, s3);
    LeadsConcat(s0, [Arrive(t, time)] + [Arrive(u, time)] + ts, s3, us, s);
    acts := [Arrive(t, time)] + [Arrive(u, time)] + ts + us;
  }

  lemma WholeKeys(db: Db, r: RegisterRequest)
    requires AccountKey(r.id) in db ==> exists q :: db[AccountKey(r.id)] == AccountFields(q)
    ensures FieldsOf(db, AccountKey(r.id)).Keys <= {"password", "nickname", "personalColor"}
  {
    hide Printed;
  }

  /**
   * A finished registration overwritten: for any two valid requests for a free id there is a
   * schedule in which the first is stored whole and answered, and the second then replaces it.
   */
  lemma RegistrationOverwritten(s0: OpState, t: Token, u: Token, r: RegisterRequest, q: RegisterRequest, time: string)
      returns (ss: seq<OpState>, acts: seq<Action>, k: nat)
    requires Started(s0) && t != u && AccountKey(r.id) !in s0.db && q.id == r.id
    requires IsFirst(RegisterExists(r)) && IsFirst(RegisterExists(q))
    ensures Schedule(ss, acts) && ss[0] == s0 && k < |ss|
    ensures t in ss[k].pcs && ss[k].pcs[t] == Idle
    ensures AccountKey(r.id) in ss[k].db && ss[k].db[AccountKey(r.id)] == AccountFields(r)
    ensures var s := ss[|acts|];
            && t in s.pcs && u in s.pcs && s.pcs[t] == s.pcs[u] == Idle
            && AccountKey(r.id) in s.db && s.db[AccountKey(r.id)] == AccountFields(q)
  {
    hide Leads;
    hide IsFirst;
    hide AccountFields;
    hide FieldsOf;
    hide Finish;
    hide Started;
    hide Path;
    var way, s := BothFindFree(s0, t, u, r, q, time);
    WholeKeys(s.db, r);
    AccountWritesUninterrupted(s.db, t, r, time);
    var ts := FinishLeads(s, t, time);
    var s1 := OpState(s.db[AccountKey(r.id) := AccountFields(r)], s.pcs[t := Idle]);
    LeadsConcat(s0, way, s, ts, s1);
    WholeKeys(s1.db, q);
    AccountWritesUninterrupted(s1.db, u, q, time);
    var us := FinishLeads(s1, u, time);
    var first := LeadsPath(s0, way + ts, s1);
    var second := LeadsPath(s1, us, OpState(s1.db[AccountKey(q.id) := AccountFields(q)], s1.pcs[u := Idle]));
    ss := PathConcat(first, way + ts, second, us);
    acts, k := way + ts + us, |way + ts|;
    PathLength(ss, acts);
    PathLength(first, way + ts);
  }

  lemma PathLength(ss: seq<OpState>, acts: seq<Action>)
    requires Path(ss, acts)
    ensures |ss| == |acts| + 1
  {
  }
}
