/** Exactly when player data cannot fault: for every reachable state, and for the next action of every schedule. */
module DataSafety {
  import opened Bytes
  import opened Options
  import opened RedisStore
  import opened PasswordHash
  import opened Sessions
  import opened SessionTheorems
  import opened Interleaving
  import opened DataFaults

  // ---------------------------------------------------------------- stored passwords can be given

  /** Every stored password is what a registration stores. */
  ghost predicate PasswordsPrinted(db: Db) {
    forall id | AccountKey(id) in db :: exists p :: HashGet(db, AccountKey(id), "password") == Some(Printed(p))
  }

  lemma OperatePassword(db: Db, t: Token, pc: Pc, time: string, id: string)
    requires PcHolds(db, pc) && AccountKey(id) in Operate(db, t, pc, time).0
    ensures var stored := HashGet(Operate(db, t, pc, time).0, AccountKey(id), "password");
            || (AccountKey(id) in db && stored == HashGet(db, AccountKey(id), "password"))
            || (pc.RegisterPassword? && stored == Some(Printed(pc.r.password)))
  {
    hide Printed;
    hide Decimal;
    hide LoginId;
  }

  lemma ActKeepsPrinted(s: OpState, a: Action)
    requires OpInv(s) && PasswordsPrinted(s.db) && CanAct(s, a)
    ensures PasswordsPrinted(Act(s, a).db)
  {
    hide Printed;
    hide LoginIdsRegistered;
    var db' := Act(s, a).db;
    match a
    case Step(t, time) =>
      assert PcHolds(s.db, s.pcs[t]);
      hide Operate;
      hide PcHolds;
      hide HashGet;
      forall id | AccountKey(id) in db'
        ensures exists p :: HashGet(db', AccountKey(id), "password") == Some(Printed(p))
      {
        OperatePassword(s.db, t, s.pcs[t], time, id);
      }
    case Arrive(_, _) =>
      forall id | AccountKey(id) in db'
        ensures exists p :: HashGet(db', AccountKey(id), "password") == Some(Printed(p))
      {
        assert HashGet(db', AccountKey(id), "password") == HashGet(s.db, AccountKey(id), "password");
      }
    case Begin(_, _) =>
    case Crash =>
      forall id | AccountKey(id) in db'
        ensures exists p :: HashGet(db', AccountKey(id), "password") == Some(Printed(p))
      {
        assert HashGet(db', AccountKey(id), "password") == HashGet(s.db, AccountKey(id), "password");
      }
  }

  lemma {:induction false} PrintedAlways(ss: seq<OpState>, acts: seq<Action>, i: nat)
    requires Schedule(ss, acts) && i < |ss| && PasswordsPrinted(ss[0].db)
    ensures PasswordsPrinted(ss[i].db)
  {
    hide Act;
    hide CanAct;
    hide OpInv;
    hide PasswordsPrinted;
    if i > 0 {
      PrintedAlways(ss, acts, i - 1);
      OpInvAlways(ss, acts, i - 1);
      ActKeepsPrinted(ss[i - 1], acts[i - 1]);
    }
  }

  lemma PasswordOpens(db: Db, db': Db, id: string, p: seq<Byte>, f: string)
    requires Lacks(db, id, f) && HashGet(db, AccountKey(id), "password") == Some(Printed(p)) && LoginKey(id) !in db'
    requires AccountKey(id) in db' && FieldsOf(db', AccountKey(id)) == FieldsOf(db, AccountKey(id))
    ensures LoginSucceeds(db', Some(LoginRequest(id, p))) && Lacks(db', id, f)
  {
    hide Printed;
  }

  lemma StoredPassword(db: Db, id: string) returns (p: seq<Byte>)
    requires PasswordsPrinted(db) && AccountKey(id) in db
    ensures HashGet(db, AccountKey(id), "password") == Some(Printed(p))
  {
    hide Printed;
    p :| HashGet(db, AccountKey(id), "password") == Some(Printed(p));
  }

  lemma NoRegistrationConcat(a: seq<Action>, b: seq<Action>)
    requires NoRegistration(a) && NoRegistration(b)
    ensures NoRegistration(a + b)
  {
  }

  lemma ArrivalIsNoRegistration(u: Token, time: string)
    ensures NoRegistration([Arrive(u, time)])
  {
  }

  lemma StartedLacking(s: OpState, id: string, f: string)
    requires Started(s) && Lacks(s.db, id, f)
    ensures AccountKey(id) in s.db && LoginKey(id) !in s.db && s.pcs == map[]
  {
  }

  /** From a start-up on an account that lacks a field there is a way to a fault. */
  lemma LackingStoreFaults(s: OpState, id: string, f: string, u: Token, time: string) returns (acts: seq<Action>, s': OpState)
    requires Started(s) && PasswordsPrinted(s.db) && Lacks(s.db, id, f)
    ensures NoRegistration(acts) && Leads(s, acts, s') && !NoDataFault(s')
  {
    hide *;
    StartedLacking(s, id, f);
    ArrivalIsNoRegistration(u, time);
    var p := StoredPassword(s.db, id);
    var s1 := OneArrives(s, u, id, time);
    PasswordOpens(s.db, s1.db, id, p, f);
    var fault;
    fault, s' := LackingFaults(s1, u, LoginRequest(id, p), f, time);
    LeadsConcat(s, [Arrive(u, time)], s1, fault, s');
    NoRegistrationConcat([Arrive(u, time)], fault);
    acts := [Arrive(u, time)] + fault;
  }

  // ---------------------------------------------------------------- the states that cannot fault

  /** While nobody begins a registration, player data never faults. */
  ghost predicate FaultFree(s: OpState) {
    forall acts, s' | NoRegistration(acts) && Leads(s, acts, s') :: NoDataFault(s')
  }

  /** The handler has missed no field, and is not about to create an account. */
  ghost predicate PcSafe(db: Db, pc: Pc) {
    && PcWhole(db, pc)
    && match pc
       case RegisterExists(r) => AccountKey(r.id) in db
       case RegisterPassword(r) => AccountKey(r.id) in db
       case _ => true
  }

  ghost predicate SafeNow(s: OpState) {
    AccountsComplete(s.db) && forall t | t in s.pcs :: PcSafe(s.db, s.pcs[t])
  }

  lemma OperateKeepsWhole(db: Db, t: Token, pc: Pc, time: string)
    requires AccountsComplete(db) && PcHolds(db, pc) && PcSafe(db, pc)
    ensures AccountsComplete(Operate(db, t, pc, time).0)
  {
    hide Printed;
    hide Decimal;
    hide LoginId;
    hide HashGet;
  }

  lemma CompleteLacksNothing(db: Db, id: string, f: string)
    requires AccountsComplete(db)
    ensures !Lacks(db, id, f)
  {
  }

  /** A handler that finds the id taken does not go on to create it. */
  lemma OperateCreatesNothing(db: Db, t: Token, pc: Pc, time: string)
    requires pc.RegisterExists? ==> AccountKey(pc.r.id) in db
    ensures !Operate(db, t, pc, time).1.RegisterExists? && !Operate(db, t, pc, time).1.RegisterPassword?
  {
    hide Printed;
    hide Decimal;
    hide LoginId;
    hide HashGet;
    hide HashSet;
    hide HashDel;
    hide Del;
  }

  lemma OperatePcSafe(db: Db, t: Token, pc: Pc, time: string)
    requires AccountsComplete(db) && PcSafe(db, pc)
    ensures PcSafe(Operate(db, t, pc, time).0, Operate(db, t, pc, time).1)
  {
    if Reads(pc).Some? {
      CompleteLacksNothing(db, Reads(pc).value.0, Reads(pc).value.1);
    }
    OperatePcWhole(db, t, pc, time);
    OperateCreatesNothing(db, t, pc, time);
    hide PcWhole;
    hide AccountsComplete;
    hide Operate;
  }

  lemma OthersKeepSafe(db: Db, t: Token, pc: Pc, time: string, other: Pc)
    requires PcSafe(db, other)
    ensures PcSafe(Operate(db, t, pc, time).0, other)
  {
    hide Operate;
    OthersKeepWhole(db, t, pc, time, other);
    match other
    case RegisterExists(r) => OperateKeepsAccounts(db, t, pc, time, r.id);
    case RegisterPassword(r) => OperateKeepsAccounts(db, t, pc, time, r.id);
    case _ =>
  }

  lemma StepKeepsSafe(s: OpState, t: Token, time: string)
    requires OpInv(s) && SafeNow(s) && CanAct(s, Step(t, time))
    ensures SafeNow(Act(s, Step(t, time)))
  {
    var pc, s' := s.pcs[t], Act(s, Step(t, time));
    assert PcHolds(s.db, pc) && PcSafe(s.db, pc);
    hide Operate;
    hide OpInv;
    hide PcHolds;
    hide PcSafe;
    hide AccountsComplete;
    OperateKeepsWhole(s.db, t, pc, time);
    OperatePcSafe(s.db, t, pc, time);
    forall u | u in s'.pcs
      ensures PcSafe(s'.db, s'.pcs[u])
    {
      if u != t {
        OthersKeepSafe(s.db, t, pc, time, s.pcs[u]);
      }
    }
  }

  lemma ArriveKeepsSafe(s: OpState, t: Token, time: string)
    requires SafeNow(s) && t !in s.pcs
    ensures SafeNow(Act(s, Arrive(t, time)))
  {
    var s' := Act(s, Arrive(t, time));
    assert forall id :: (AccountKey(id) in s'.db <==> AccountKey(id) in s.db)
                        && (AccountKey(id) in s.db ==> s'.db[AccountKey(id)] == s.db[AccountKey(id)]);
    hide HashSet;
    forall u | u in s'.pcs
      ensures PcSafe(s'.db, s'.pcs[u])
    {
      assert u != t ==> PcSafe(s.db, s.pcs[u]);
    }
  }

  lemma ActKeepsSafe(s: OpState, a: Action)
    requires OpInv(s) && SafeNow(s) && CanAct(s, a) && NoRegistration([a])
    ensures SafeNow(Act(s, a))
  {
    hide OpInv;
    match a
    case Step(t, time) => StepKeepsSafe(s, t, time);
    case Arrive(t, time) => ArriveKeepsSafe(s, t, time);
    case Begin(t, first) =>
      assert a in [a];
      hide AccountsComplete;
    case Crash =>
  }

  lemma {:induction false} SafeStaysFaultFree(s: OpState, acts: seq<Action>, s': OpState)
    requires OpInv(s) && SafeNow(s) && NoRegistration(acts) && Leads(s, acts, s')
    ensures NoDataFault(s')
    decreases |acts|
  {
    hide Act;
    hide CanAct;
    hide OpInv;
    hide AccountsComplete;
    if acts == [] {
      forall t | t in s.pcs
        ensures !s.pcs[t].FaultInData?
      {
        assert PcSafe(s.db, s.pcs[t]);
      }
    } else {
      hide SafeNow;
      assert acts[0] in acts;
      ActKeepsOpInv(s, acts[0]);
      ActKeepsSafe(s, acts[0]);
      SafeStaysFaultFree(Act(s, acts[0]), acts[1..], s');
    }
  }

  // ---------------------------------------------------------------- the states that can

  lemma FaultFreeStep(s: OpState, a: Action)
    requires CanAct(s, a) && NoRegistration([a]) && FaultFree(s)
    ensures FaultFree(Act(s, a))
  {
    hide Act;
    hide CanAct;
    hide NoRegistration;
    forall acts, s' | NoRegistration(acts) && Leads(Act(s, a), acts, s')
      ensures NoDataFault(s')
    {
      NoRegistrationConcat([a], acts);
      assert ([a] + acts)[0] == a && ([a] + acts)[1..] == acts;
      assert Leads(s, [a] + acts, s');
    }
  }

  lemma StepIsNoRegistration(t: Token, time: string)
    ensures NoRegistration([Step(t, time)]) && NoRegistration([Crash])
  {
  }

  lemma AfterCrash(s: OpState, id: string, f: string)
    requires Lacks(s.db, id, f)
    ensures Started(Act(s, Crash)) && Lacks(Act(s, Crash).db, id, f)
  {
  }

  /** An account lacks a field: a crash, a login and a request. */
  lemma LackingCanFault(s: OpState, id: string, f: string)
    requires OpInv(s) && PasswordsPrinted(s.db) && Lacks(s.db, id, f)
    ensures !FaultFree(s)
  {
    ActKeepsPrinted(s, Crash);
    AfterCrash(s, id, f);
    StepIsNoRegistration(0, "");
    hide PasswordsPrinted;
    hide OpInv;
    hide Lacks;
    hide Act;
    hide NoDataFault;
    hide NoRegistration;
    hide Leads;
    hide Started;
    var acts, s' := LackingStoreFaults(Act(s, Crash), id, f, 0, "");
    if FaultFree(s) {
      FaultFreeStep(s, Crash);
    }
  }

  lemma MissedStays(db: Db, t: Token, pc: Pc, time: string)
    requires !PcWhole(db, pc) && !pc.FaultInData?
    ensures CanStep(pc) && !pc.Remove?
    ensures Operate(db, t, pc, time).0 == db && !PcWhole(db, Operate(db, t, pc, time).1)
  {
  }

  /** A request that has missed a field faults within two steps of its own. */
  lemma {:induction false} MissedCanFault(s: OpState, t: Token, time: string)
    requires t in s.pcs && !PcWhole(s.db, s.pcs[t])
    ensures !FaultFree(s)
    decreases Remaining(s.pcs[t])
  {
    var pc := s.pcs[t];
    if pc.FaultInData? {
      assert NoRegistration([]) && Leads(s, [], s);
    } else {
      MissedStays(s.db, t, pc, time);
      RemainingDrops(s.db, t, pc, time);
      StepIsNoRegistration(t, time);
      var s1 := Act(s, Step(t, time));
      hide FaultFree;
      hide PcWhole;
      hide Operate;
      hide Remaining;
      MissedCanFault(s1, t, time);
      if FaultFree(s) {
        FaultFreeStep(s, Step(t, time));
      }
    }
  }

  lemma CreatedLacks(db: Db, t: Token, r: RegisterRequest, time: string)
    requires AccountKey(r.id) !in db
    ensures Operate(db, t, RegisterExists(r), time) == (db, RegisterPassword(r))
    ensures Lacks(Operate(db, t, RegisterPassword(r), time).0, r.id, "nickname")
  {
    hide Printed;
  }

  /** A client about to create an account leaves it lacking for two writes. */
  lemma CreatorCanFault(s: OpState, t: Token, r: RegisterRequest, time: string)
    requires OpInv(s) && PasswordsPrinted(s.db) && t in s.pcs && AccountKey(r.id) !in s.db
    requires s.pcs[t] == RegisterPassword(r)
    ensures !FaultFree(s)
  {
    var s1 := Act(s, Step(t, time));
    CreatedLacks(s.db, t, r, time);
    ActKeepsOpInv(s, Step(t, time));
    ActKeepsPrinted(s, Step(t, time));
    StepIsNoRegistration(t, time);
    assert Lacks(s1.db, r.id, "nickname");
    hide FaultFree;
    hide OpInv;
    hide PasswordsPrinted;
    hide Operate;
    hide Lacks;
    LackingCanFault(s1, r.id, "nickname");
    if FaultFree(s) {
      FaultFreeStep(s, Step(t, time));
    }
  }

  lemma CheckerCanFault(s: OpState, t: Token, r: RegisterRequest, time: string)
    requires OpInv(s) && PasswordsPrinted(s.db) && t in s.pcs && AccountKey(r.id) !in s.db
    requires s.pcs[t] == RegisterExists(r)
    ensures !FaultFree(s)
  {
    var s1 := Act(s, Step(t, time));
    CreatedLacks(s.db, t, r, time);
    ActKeepsOpInv(s, Step(t, time));
    StepIsNoRegistration(t, time);
    hide FaultFree;
    hide OpInv;
    hide PasswordsPrinted;
    hide Operate;
    CreatorCanFault(s1, t, r, time);
    if FaultFree(s) {
      FaultFreeStep(s, Step(t, time));
    }
  }

  lemma IncompleteLacks(db: Db) returns (id: string, f: string)
    requires PasswordsPrinted(db) && !AccountsComplete(db)
    ensures Lacks(db, id, f)
  {
    hide Printed;
    id :| AccountKey(id) in db && !({"password", "nickname", "personalColor"} <= db[AccountKey(id)].Keys);
    f := if "nickname" in db[AccountKey(id)] then "personalColor" else "nickname";
  }

  lemma UnsafeCanFault(s: OpState)
    requires OpInv(s) && PasswordsPrinted(s.db) && !SafeNow(s)
    ensures !FaultFree(s)
  {
    hide OpInv;
    hide PasswordsPrinted;
    hide FaultFree;
    hide AccountsComplete;
    hide Lacks;
    if !AccountsComplete(s.db) {
      var id, f := IncompleteLacks(s.db);
      LackingCanFault(s, id, f);
    } else {
      var t :| t in s.pcs && !PcSafe(s.db, s.pcs[t]);
      match s.pcs[t]
      case RegisterExists(r) => CheckerCanFault(s, t, r, "");
      case RegisterPassword(r) => CreatorCanFault(s, t, r, "");
      case _ => MissedCanFault(s, t, "");
    }
  }

  lemma SafeIsFaultFree(s: OpState)
    requires OpInv(s) && SafeNow(s)
    ensures FaultFree(s)
  {
    hide OpInv;
    hide SafeNow;
    hide Leads;
    hide NoRegistration;
    hide NoDataFault;
    forall acts, s' | NoRegistration(acts) && Leads(s, acts, s')
      ensures NoDataFault(s')
    {
      SafeStaysFaultFree(s, acts, s');
    }
  }

  /**
   * Exactly when player data can fault, in every state of every schedule, registrations under way
   * included: it cannot, until the next registration begins, if and only if every account is whole,
   * no request has missed a field, and nobody is about to create an account.
   */
  lemma FaultFreeIffSafe(ss: seq<OpState>, acts: seq<Action>, i: nat)
    requires Schedule(ss, acts) && i < |ss| && PasswordsPrinted(ss[0].db)
    ensures FaultFree(ss[i]) <==> SafeNow(ss[i])
  {
    OpInvAlways(ss, acts, i);
    PrintedAlways(ss, acts, i);
    hide *;
    if SafeNow(ss[i]) {
      SafeIsFaultFree(ss[i]);
    } else {
      UnsafeCanFault(ss[i]);
    }
  }

  lemma StartedSafeIff(s: OpState)
    requires Started(s)
    ensures SafeNow(s) <==> AccountsComplete(s.db)
  {
    hide AccountsComplete;
  }

  /** After a start-up that is: if and only if every account is whole. */
  lemma FaultFreeIffComplete(s: OpState)
    requires Started(s) && PasswordsPrinted(s.db)
    ensures FaultFree(s) <==> AccountsComplete(s.db)
  {
    assert Schedule([s], []);
    StartedSafeIff(s);
    hide *;
    FaultFreeIffSafe([s], [], 0);
  }

  // ---------------------------------------------------------------- the actions that lead there

  /** Any number of careful actions. */
  ghost predicate LeadsCareful(s: OpState, acts: seq<Action>, s': OpState)
    decreases |acts|
  {
    if acts == [] then s == s'
    else CanAct(s, acts[0]) && Careful(s, acts[0]) && LeadsCareful(Act(s, acts[0]), acts[1..], s')
  }

  lemma {:induction false} LeadsCarefulKeeps(s: OpState, acts: seq<Action>, s': OpState)
    requires WholeInv(s) && LeadsCareful(s, acts, s')
    ensures WholeInv(s')
    decreases |acts|
  {
    hide WholeInv;
    hide Act;
    hide CanAct;
    hide Careful;
    if acts != [] {
      ActKeepsWhole(s, acts[0]);
      LeadsCarefulKeeps(Act(s, acts[0]), acts[1..], s');
    }
  }

  predicate InRegistration(pc: Pc) {
    pc.RegisterExists? || pc.RegisterPassword? || pc.RegisterNickname? || pc.RegisterColor?
  }

  ghost predicate NobodyRegisters(s: OpState) {
    forall t | t in s.pcs :: !InRegistration(s.pcs[t])
  }

  lemma OperateRegistersNothing(db: Db, t: Token, pc: Pc, time: string)
    requires !InRegistration(pc)
    ensures !InRegistration(Operate(db, t, pc, time).1)
  {
    hide Printed;
    hide Decimal;
    hide HashSet;
    hide HashDel;
  }

  lemma NothingLeftOpen(s: OpState, id: string, f: string)
    requires NobodyRegisters(s)
    ensures !LeftOpen(s, id, f)
  {
    hide Lacks;
  }

  lemma ActRegistersNothing(s: OpState, a: Action)
    requires NobodyRegisters(s) && CanAct(s, a) && NoRegistration([a])
    ensures Careful(s, a) && NobodyRegisters(Act(s, a))
  {
    forall id, f
      ensures !LeftOpen(s, id, f)
    {
      NothingLeftOpen(s, id, f);
    }
    hide LeftOpen;
    match a
    case Step(t, time) =>
      OperateRegistersNothing(s.db, t, s.pcs[t], time);
      hide Operate;
      hide InRegistration;
    case Begin(t, first) => assert a in [a];
    case _ =>
  }

  /** Without registrations every action is careful. */
  lemma {:induction false} LeadsIsCareful(s: OpState, acts: seq<Action>, s': OpState)
    requires NobodyRegisters(s) && NoRegistration(acts) && Leads(s, acts, s')
    ensures LeadsCareful(s, acts, s')
    decreases |acts|
  {
    hide Act;
    hide CanAct;
    hide Careful;
    hide NobodyRegisters;
    if acts != [] {
      assert acts[0] in acts;
      ActRegistersNothing(s, acts[0]);
      LeadsIsCareful(Act(s, acts[0]), acts[1..], s');
    }
  }

  lemma CarelessCrashFaults(s: OpState) returns (more: seq<Action>, s': OpState)
    requires OpInv(s) && PasswordsPrinted(s.db) && !Careful(s, Crash)
    ensures LeadsCareful(Act(s, Crash), more, s') && !NoDataFault(s')
  {
    hide SomebodyWrites;
    hide Lacks;
    var id, f :| LeftOpen(s, id, f);
    ActKeepsPrinted(s, Crash);
    AfterCrash(s, id, f);
    assert NobodyRegisters(Act(s, Crash));
    hide *;
    more, s' := LackingStoreFaults(Act(s, Crash), id, f, 0, "");
    LeadsIsCareful(Act(s, Crash), more, s');
  }

  /** What a careless read does to its client. */
  lemma CarelessRead(s: OpState, t: Token, time: string)
    requires CanAct(s, Step(t, time)) && !Careful(s, Step(t, time))
    ensures var s' := Act(s, Step(t, time));
            && t in s'.pcs
            && (s'.pcs[t].FaultInData? || (s'.pcs[t].DataColor? && s'.pcs[t].nickname.None?))
  {
    hide SomebodyWrites;
    hide Printed;
    hide Decimal;
    hide HashSet;
    hide HashDel;
    hide LoginId;
  }

  lemma NoneOperates(db: Db, t: Token, pc: Pc, time: string)
    requires pc.DataColor? && pc.nickname.None?
    ensures Operate(db, t, pc, time) == (db, FaultInData)
  {
    hide HashGet;
    hide HashSet;
    hide HashDel;
    hide Del;
    hide LoginId;
    hide Printed;
    hide Decimal;
  }

  lemma NoneFaults(s: OpState, t: Token, time: string)
    requires t in s.pcs && s.pcs[t].DataColor? && s.pcs[t].nickname.None?
    ensures CanAct(s, Step(t, time)) && Careful(s, Step(t, time)) && !NoDataFault(Act(s, Step(t, time)))
  {
    hide LeftOpen;
    hide Operate;
    hide IsFirst;
    hide Restarted;
    hide HashSet;
    hide Missing;
    NoneOperates(s.db, t, s.pcs[t], time);
    var s' := Act(s, Step(t, time));
    assert t in s'.pcs && s'.pcs[t] == FaultInData;
  }

  lemma CarelessReadFaults(s: OpState, t: Token, time: string) returns (more: seq<Action>, s': OpState)
    requires CanAct(s, Step(t, time)) && !Careful(s, Step(t, time))
    ensures LeadsCareful(Act(s, Step(t, time)), more, s') && !NoDataFault(s') && |more| <= 1
  {
    CarelessRead(s, t, time);
    hide Careful;
    hide CanAct;
    hide Act;
    var s1 := Act(s, Step(t, time));
    if s1.pcs[t].FaultInData? {
      more, s' := [], s1;
    } else {
      NoneFaults(s1, t, time);
      hide NoDataFault;
      more, s' := [Step(t, time)], Act(s1, Step(t, time));
      assert [Step(t, time)][1..] == [];
      assert LeadsCareful(s', [], s');
    }
  }

  /**
   * Carefulness is exact.  After any careful schedule from a start-up with whole accounts, the next
   * action is careful if and only if no careful continuation after it ends in a fault.
   */
  lemma CarefulIffNoFault(ss: seq<OpState>, acts: seq<Action>, a: Action)
    requires Schedule(ss, acts) && AccountsComplete(ss[0].db) && PasswordsPrinted(ss[0].db)
    requires (forall k | 0 <= k < |acts| :: Careful(ss[k], acts[k])) && CanAct(ss[|acts|], a)
    ensures Careful(ss[|acts|], a)
       <==> forall more, s' | LeadsCareful(Act(ss[|acts|], a), more, s') :: NoDataFault(s')
  {
    var s := ss[|acts|];
    assert |ss| == |acts| + 1;
    WholeWhileCareful(ss, acts, |acts|);
    PrintedAlways(ss, acts, |acts|);
    OpInvAlways(ss, acts, |acts|);
    assert a.Crash? || a.Step? || Careful(s, a);
    hide *;
    if Careful(s, a) {
      ActKeepsWhole(s, a);
      forall more, s' | LeadsCareful(Act(s, a), more, s')
        ensures NoDataFault(s')
      {
        LeadsCarefulKeeps(Act(s, a), more, s');
        WholeHasNoFault(s');
      }
    } else if a.Crash? {
      var more, s' := CarelessCrashFaults(s);
    } else {
      var more, s' := CarelessReadFaults(s, a.t, a.time);
    }
  }
}
