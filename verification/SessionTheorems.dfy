/** What holds in every run of the login protocol. */
module SessionTheorems {
  import opened Bytes
  import opened Options
  import opened RedisStore
  import opened PasswordHash
  import opened Sessions

  lemma {:induction false} InvAlways(ss: seq<System>, es: seq<Event>, i: nat)
    requires Behaviour(ss, es) && i < |ss|
    ensures Inv(ss[i])
  {
    if i > 0 {
      InvAlways(ss, es, i - 1);
      ApplyKeepsInv(ss[i - 1], es[i - 1]);
    }
  }

  lemma StepAt(ss: seq<System>, es: seq<Event>, k: nat)
    requires Behaviour(ss, es) && k < |es|
    ensures Inv(ss[k]) && Enabled(ss[k], es[k]) && ss[k + 1] == Apply(ss[k], es[k])
  {
    InvAlways(ss, es, k);
    hide Inv;
    hide Enabled;
    hide Apply;
  }

  // ---------------------------------------------------------------- exclusive login

  /** At any time at most one connected client is logged in as a given account. */
  lemma ExclusiveLogin(ss: seq<System>, es: seq<Event>, i: nat, t: Token, u: Token)
    requires Behaviour(ss, es) && i < |ss|
    requires t in ss[i].server.clients && u in ss[i].server.clients && t != u
    ensures LoginId(ss[i].server.db, t).Some? ==> LoginId(ss[i].server.db, t) != LoginId(ss[i].server.db, u)
  {
    InvAlways(ss, es, i);
    hide ClientAgrees;
    if LoginId(ss[i].server.db, t).Some? && LoginId(ss[i].server.db, t) == LoginId(ss[i].server.db, u) {
      SameLoginSameClient(ss[i].server, t, u);
    }
  }

  /** Memory and store agree at any time: connected tokens, client records, login keys. */
  lemma MemoryAgreesWithStore(ss: seq<System>, es: seq<Event>, i: nat, t: Token)
    requires Behaviour(ss, es) && i < |ss|
    ensures var s := ss[i].server;
            && (ClientKey(t) in s.db <==> t in s.clients)
            && (t in s.clients ==>
                  match LoginId(s.db, t)
                  case None => s.clients[t] in {"", "noLogined"}
                  case Some(id) =>
                    && s.clients[t] == Render(LoginKey(id))
                    && HashGet(s.db, LoginKey(id), "token") == Some(Decimal(t)))
  {
    hide Render;
    hide Decimal;
    InvAlways(ss, es, i);
    assert t in ss[i].server.clients ==> ClientAgrees(ss[i].server, t);
  }

  // ---------------------------------------------------------------- conservation

  ghost function Logins(db: Db): set<Key> {
    set k | k in db && k.LoginKey?
  }

  predicate CarriesLogin(record: Fields) {
    "loginId" in record
  }

  /** The client records that carry a login id. */
  ghost function Owners(db: Db): set<Key> {
    set k | k in db && k.ClientKey? && CarriesLogin(db[k])
  }

  /** A successful login by a client that is logged in already. */
  ghost predicate IsRelogin(s: System, e: Event) {
    e.Login? && LoginSucceeds(s.server.db, e.request) && LoginId(s.server.db, e.t).Some?
  }

  /** How many such logins there were before step i, since the last restart. */
  ghost function Relogins(ss: seq<System>, es: seq<Event>, i: nat): nat
    requires i <= |es| < |ss|
  {
    if i == 0 || es[i - 1].Restart? then 0
    else Relogins(ss, es, i - 1) + if IsRelogin(ss[i - 1], es[i - 1]) then 1 else 0
  }

  ghost function Surplus(db: Db): int {
    |Logins(db)| - |Owners(db)|
  }

  lemma ClientWriteSurplus(db: Db, t: Token, fields: Fields)
    requires CarriesLogin(fields)
    ensures Surplus(db[ClientKey(t) := fields]) == Surplus(db) - if ClientKey(t) in Owners(db) then 0 else 1
  {
    hide CarriesLogin;
    var k, owners := ClientKey(t), Owners(db);
    var db' := db[k := fields];
    assert Logins(db') == Logins(db);
    if k in owners {
      assert Owners(db') == owners;
    } else {
      assert Owners(db') == owners + {k};
    }
  }

  lemma LoginWriteSurplus(db: Db, id: string, record: Fields)
    requires LoginKey(id) !in db
    ensures Surplus(db[LoginKey(id) := record]) == Surplus(db) + 1
  {
    hide CarriesLogin;
    var k := LoginKey(id);
    assert Logins(db[k := record]) == Logins(db) + {k};
    assert Owners(db[k := record]) == Owners(db);
  }

  lemma LoginWritesSurplus(db: Db, t: Token, id: string, record: Fields)
    requires LoginKey(id) !in db
    ensures Surplus(HashSet(db, ClientKey(t), "loginId", id)[LoginKey(id) := record])
         == Surplus(db) + if LoginId(db, t).Some? then 1 else 0
  {
    assert ClientKey(t) in Owners(db) <==> LoginId(db, t).Some?;
    hide Surplus;
    hide Owners;
    hide LoginId;
    var fields := FieldsOf(db, ClientKey(t))["loginId" := id];
    ClientWriteSurplus(db, t, fields);
    LoginWriteSurplus(db[ClientKey(t) := fields], id, record);
  }

  lemma LoginSurplus(s: State, t: Token, req: Option<LoginRequest>, time: string)
    requires t in s.clients && LoginSucceeds(s.db, req)
    ensures Surplus(LoggedIn(s, t, req, time).db)
         == Surplus(s.db) + if LoginId(s.db, t).Some? then 1 else 0
  {
    hide Surplus;
    hide LoginAnswer;
    hide HashSet;
    hide LoginId;
    hide Render;
    hide Decimal;
    LoginFindsNoRecord(s.db, req.value);
    LoginWritesSurplus(s.db, t, req.value.id, map["token" := Decimal(t), "loginTime" := time]);
  }

  lemma LogoutSurplus(s: State, t: Token)
    requires ServerInv(s) && t in s.clients
    ensures Surplus(LoggedOut(s, t).db) == Surplus(s.db)
    ensures ClientKey(t) !in Owners(LoggedOut(s, t).db)
  {
    hide Render;
    hide Decimal;
    assert ClientAgrees(s, t);
    var db' := LoggedOut(s, t).db;
    match LoginId(s.db, t)
    case None =>
    case Some(id) =>
      assert LoginKey(id) in Logins(s.db) && ClientKey(t) in Owners(s.db);
      assert Logins(db') == Logins(s.db) - {LoginKey(id)};
      assert Owners(db') == Owners(s.db) - {ClientKey(t)};
  }

  lemma DisconnectSurplus(s: State, t: Token)
    requires ServerInv(s) && t in s.clients
    ensures Surplus(Disconnected(s, t).db) == Surplus(s.db)
  {
    LogoutSurplus(s, t);
    hide LoggedOut;
    hide CarriesLogin;
    hide ServerInv;
    var o, db' := LoggedOut(s, t).db, Disconnected(s, t).db;
    assert Logins(db') == Logins(o) && Owners(db') == Owners(o);
  }

  lemma ConnectSurplus(s: State, t: Token, time: string)
    requires ServerInv(s) && t !in s.clients
    ensures Surplus(Connected(s, t, time).db) == Surplus(s.db)
  {
    hide ClientAgrees;
    var db' := Connected(s, t, time).db;
    assert db'[ClientKey(t)] == map["ConnectedTime" := time];
    assert Logins(db') == Logins(s.db) && Owners(db') == Owners(s.db);
  }

  lemma RegisterSurplus(s: State, req: Option<RegisterRequest>)
    ensures Surplus(Registered(s, req).db) == Surplus(s.db)
  {
    hide RegisterAnswer;
    hide AccountFields;
    hide CarriesLogin;
    var db' := Registered(s, req).db;
    assert Logins(db') == Logins(s.db) && Owners(db') == Owners(s.db);
  }

  lemma ApplySurplus(s: System, e: Event)
    requires Inv(s) && Enabled(s, e)
    ensures Surplus(Apply(s, e).server.db)
         == if e.Restart? then 0 else Surplus(s.server.db) + if IsRelogin(s, e) then 1 else 0
  {
    hide ServerInv;
    hide LoggedOut;
    hide Disconnected;
    hide Connected;
    hide Registered;
    hide Surplus;
    match e
    case Connect(t, time) =>
      assert t !in s.server.clients;
      ConnectSurplus(s.server, t, time);
    case Register(_, req) => RegisterSurplus(s.server, req);
    case Login(t, req, time) =>
      if LoginSucceeds(s.server.db, req) { LoginSurplus(s.server, t, req, time); }
    case Logout(t, _) => LogoutSurplus(s.server, t);
    case Disconnect(t) => DisconnectSurplus(s.server, t);
    case Restart => AccountsOnlySurplus(Restarted(s.server).db);
    case _ =>
  }

  lemma AccountsOnlySurplus(db: Db)
    requires forall k | k in db :: k.AccountKey?
    ensures Surplus(db) == 0
  {
    assert Logins(db) == {} && Owners(db) == {};
  }

  /** Since start-up, login records are the logged-in clients plus one per repeated login. */
  lemma {:induction false} Conservation(ss: seq<System>, es: seq<Event>, i: nat)
    requires Behaviour(ss, es) && i < |ss|
    ensures |Logins(ss[i].server.db)| == |Owners(ss[i].server.db)| + Relogins(ss, es, i)
  {
    if i == 0 {
      AccountsOnlySurplus(ss[0].server.db);
    } else {
      hide Inv;
      hide Enabled;
      hide Apply;
      hide IsRelogin;
      Conservation(ss, es, i - 1);
      StepAt(ss, es, i - 1);
      ApplySurplus(ss[i - 1], es[i - 1]);
    }
  }

  /** The login record that the client record k claims. */
  ghost function Claimed(db: Db, k: Key): Key {
    LoginKey(if HashGet(db, k, "loginId").Some? then HashGet(db, k, "loginId").value else "")
  }

  /** The login records that no client claims any more. */
  ghost function Orphans(db: Db): set<Key> {
    set k | k in Logins(db) && forall t: Token :: LoginId(db, t) != Some(k.id)
  }

  lemma ClaimsDiffer(s: State, j: Key, k: Key)
    requires ServerInv(s) && j in Owners(s.db) && k in Owners(s.db) && j != k
    ensures Claimed(s.db, j) != Claimed(s.db, k)
  {
    hide ClientAgrees;
    if Claimed(s.db, j) == Claimed(s.db, k) {
      SameLoginSameClient(s, j.token, k.token);
    }
  }

  lemma {:induction false} ClaimedSize(s: State, ks: set<Key>)
    requires ServerInv(s) && ks <= Owners(s.db)
    ensures |set k | k in ks :: Claimed(s.db, k)| == |ks|
  {
    hide ServerInv;
    hide Claimed;
    if ks != {} {
      var x :| x in ks;
      var rest := ks - {x};
      ClaimedSize(s, rest);
      forall k | k in rest
        ensures Claimed(s.db, k) != Claimed(s.db, x)
      {
        ClaimsDiffer(s, k, x);
      }
      assert (set k | k in ks :: Claimed(s.db, k)) == (set k | k in rest :: Claimed(s.db, k)) + {Claimed(s.db, x)};
    } else {
      assert (set k | k in ks :: Claimed(s.db, k)) == {};
    }
  }

  lemma ClaimedLogin(s: State, k: Key)
    requires ServerInv(s) && k in Owners(s.db)
    ensures Claimed(s.db, k) in Logins(s.db) && LoginId(s.db, k.token) == Some(Claimed(s.db, k).id)
  {
    hide Render;
    hide Decimal;
    assert ClientAgrees(s, k.token);
  }

  lemma ClaimantOf(s: State, k: Key)
    requires k in Logins(s.db) && k !in Orphans(s.db)
    ensures exists c :: c in Owners(s.db) && Claimed(s.db, c) == k
  {
    var t: Token :| LoginId(s.db, t) == Some(k.id);
    assert ClientKey(t) in Owners(s.db) && Claimed(s.db, ClientKey(t)) == k;
  }

  lemma OrphanCount(s: State)
    requires ServerInv(s)
    ensures |Orphans(s.db)| == Surplus(s.db)
  {
    hide ServerInv;
    hide Claimed;
    var owners, orphans := Owners(s.db), Orphans(s.db);
    var claimed := set k | k in owners :: Claimed(s.db, k);
    ClaimedSize(s, owners);
    forall k | k in owners
      ensures Claimed(s.db, k) in Logins(s.db) && Claimed(s.db, k) !in orphans
    {
      ClaimedLogin(s, k);
    }
    hide LoginId;
    forall k | k in Logins(s.db) && k !in orphans
      ensures k in claimed
    {
      ClaimantOf(s, k);
    }
    assert Logins(s.db) == claimed + orphans && claimed !! orphans;
  }

  /** Every repeated login leaves exactly one login record that nobody claims. */
  lemma OrphansAreRelogins(ss: seq<System>, es: seq<Event>, i: nat)
    requires Behaviour(ss, es) && i < |ss|
    ensures |Orphans(ss[i].server.db)| == Relogins(ss, es, i)
  {
    InvAlways(ss, es, i);
    Conservation(ss, es, i);
    hide ServerInv;
    OrphanCount(ss[i].server);
  }

  lemma ApplyKeepsOrphan(s: System, e: Event, id: string)
    requires Inv(s) && Enabled(s, e) && !e.Restart? && LoginKey(id) in Orphans(s.server.db)
    ensures LoginKey(id) in Orphans(Apply(s, e).server.db)
  {
    hide ServerInv;
    hide RegisterAnswer;
    hide LoginAnswer;
    hide AccountFields;
    hide Render;
    hide Decimal;
    var db, db' := s.server.db, Apply(s, e).server.db;
    if e.Login? && LoginSucceeds(db, e.request) {
      LoginFindsNoRecord(db, e.request.value);
    }
    assert LoginKey(id) in db';
    forall t: Token
      ensures LoginId(db', t) != Some(id)
    {
      assert LoginId(db, t) != Some(id);
    }
  }

  lemma {:induction false} OrphanKept(ss: seq<System>, es: seq<Event>, i: nat, j: nat, id: string)
    requires Behaviour(ss, es) && i <= j < |ss| && LoginKey(id) in Orphans(ss[i].server.db)
    requires forall k | i <= k < j :: !es[k].Restart?
    ensures LoginKey(id) in Orphans(ss[j].server.db)
    decreases j
  {
    hide Apply;
    hide Enabled;
    hide Inv;
    hide Orphans;
    if i < j {
      OrphanKept(ss, es, i, j - 1, id);
      StepAt(ss, es, j - 1);
      ApplyKeepsOrphan(ss[j - 1], es[j - 1], id);
    }
  }

  ghost predicate LoginsRegistered(db: Db) {
    forall id | LoginKey(id) in db :: AccountKey(id) in db
  }

  lemma ApplyKeepsLoginsRegistered(s: System, e: Event)
    requires Enabled(s, e) && LoginsRegistered(s.server.db)
    ensures LoginsRegistered(Apply(s, e).server.db)
  {
    hide RegisterAnswer;
    hide LoginAnswer;
    hide AccountFields;
    hide Render;
    hide Decimal;
    var db' := Apply(s, e).server.db;
    if e.Login? && LoginSucceeds(s.server.db, e.request) {
      LoginFindsNoRecord(s.server.db, e.request.value);
    }
    forall id | LoginKey(id) in db'
      ensures AccountKey(id) in db'
    {
    }
  }

  lemma {:induction false} LoginsRegisteredAlways(ss: seq<System>, es: seq<Event>, i: nat)
    requires Behaviour(ss, es) && i < |ss|
    ensures LoginsRegistered(ss[i].server.db)
  {
    hide Apply;
    hide Enabled;
    hide Inv;
    if i == 0 {
      assert forall id :: LoginKey(id) !in ss[0].server.db;
    } else {
      hide LoginsRegistered;
      LoginsRegisteredAlways(ss, es, i - 1);
      StepAt(ss, es, i - 1);
      ApplyKeepsLoginsRegistered(ss[i - 1], es[i - 1]);
    }
  }

  /** The answer to a login while the account's login record is there. */
  function LockedAnswer(account: Fields, password: seq<Byte>): Response {
    if "password" !in account then Undefined
    else if account["password"] != Printed(password) then Plain(false, "passwordMismatch")
    else Plain(false, "loginedAlready")
  }

  /**
   * An account whose login record was orphaned cannot be logged in to by anyone before a restart:
   * also the right password is answered loginedAlready.
   */
  lemma OrphanedAccountIsLocked(ss: seq<System>, es: seq<Event>, i: nat, j: nat, id: string)
    requires Behaviour(ss, es) && i <= j < |es| && LoginKey(id) in Orphans(ss[i].server.db)
    requires forall k | i <= k < j :: !es[k].Restart?
    requires es[j].Login? && es[j].request.Some? && es[j].request.value.id == id
    ensures AccountKey(id) in ss[i].server.db
    ensures AnswerTo(ss[j], es[j])
         == Some(LockedAnswer(ss[i].server.db[AccountKey(id)], es[j].request.value.password))
  {
    hide Printed;
    LoginsRegisteredAlways(ss, es, i);
    AccountKept(ss, es, i, j, id);
    OrphanKept(ss, es, i, j, id);
    hide Behaviour;
  }

  /** A client claims the login record, and the record names that client. */
  ghost predicate ClaimedByItsClient(db: Db, id: string) {
    exists t: Token :: LoginId(db, t) == Some(id) && HashGet(db, LoginKey(id), "token") == Some(Decimal(t))
  }

  lemma NoOrphanIsClaimed(s: State, id: string)
    requires ServerInv(s) && LoginKey(id) in s.db && LoginKey(id) !in Orphans(s.db)
    ensures ClaimedByItsClient(s.db, id)
  {
    hide Render;
    hide Decimal;
    var t: Token :| LoginId(s.db, t) == Some(id);
    assert ClientAgrees(s, t);
  }

  /**
   * The two tables are inverse to each other if and only if every client has logged out before it
   * logged in again.
   */
  lemma TablesAreInverse(ss: seq<System>, es: seq<Event>, i: nat)
    requires Behaviour(ss, es) && i < |ss|
    ensures var db := ss[i].server.db;
            Relogins(ss, es, i) == 0 <==> forall id :: LoginKey(id) in db <==> ClaimedByItsClient(db, id)
  {
    var s := ss[i].server;
    InvAlways(ss, es, i);
    OrphansAreRelogins(ss, es, i);
    assert forall id | ClaimedByItsClient(s.db, id) :: LoginKey(id) in s.db && LoginKey(id) !in Orphans(s.db);
    hide Behaviour;
    hide Relogins;
    hide ClaimedByItsClient;
    hide LoginId;
    hide ServerInv;
    if Orphans(s.db) == {} {
      forall id | LoginKey(id) in s.db
        ensures ClaimedByItsClient(s.db, id)
      {
        NoOrphanIsClaimed(s, id);
      }
    } else {
      var k :| k in Orphans(s.db);
      assert LoginKey(k.id) in s.db && !ClaimedByItsClient(s.db, k.id);
    }
  }

  // ---------------------------------------------------------------- accounts never change

  ghost function AnswerTo(s: System, e: Event): Option<Response> {
    match e
    case Register(_, req) => Some(RegisterAnswer(s.server.db, req))
    case Login(_, req, _) => Some(LoginAnswer(s.server.db, req))
    case PlayerData(t, wellFormed) => Some(PlayerDataAnswer(s.server.db, t, wellFormed))
    case _ => None
  }

  lemma ApplyKeepsAccount(s: System, e: Event, id: string)
    requires Enabled(s, e) && AccountKey(id) in s.server.db
    ensures AccountKey(id) in Apply(s, e).server.db
    ensures Apply(s, e).server.db[AccountKey(id)] == s.server.db[AccountKey(id)]
  {
    hide Printed;
    hide LoginAnswer;
    hide Render;
    hide Decimal;
  }

  /** An account, once stored, is there unchanged ever after, restarts included. */
  lemma {:induction false} AccountKept(ss: seq<System>, es: seq<Event>, i: nat, j: nat, id: string)
    requires Behaviour(ss, es) && i <= j < |ss| && AccountKey(id) in ss[i].server.db
    ensures AccountKey(id) in ss[j].server.db && ss[j].server.db[AccountKey(id)] == ss[i].server.db[AccountKey(id)]
    decreases j
  {
    hide Apply;
    hide Enabled;
    hide Inv;
    if i < j {
      AccountKept(ss, es, i, j - 1, id);
      StepAt(ss, es, j - 1);
      ApplyKeepsAccount(ss[j - 1], es[j - 1], id);
    }
  }

  /** es[i] registered r. */
  ghost predicate RegisteredAt(ss: seq<System>, es: seq<Event>, i: nat, r: RegisterRequest)
    requires Behaviour(ss, es)
  {
    i < |es| && es[i].Register? && es[i].registration == Some(r) && AnswerTo(ss[i], es[i]) == Some(Plain(true, "ok"))
  }

  lemma FieldsStored(r: RegisterRequest)
    ensures var f := AccountFields(r);
            && "password" in f && f["password"] == Printed(r.password)
            && "nickname" in f && f["nickname"] == r.nickname
            && "personalColor" in f && f["personalColor"] == r.color
  {
    hide Printed;
  }

  lemma RegistrationStored(ss: seq<System>, es: seq<Event>, i: nat, r: RegisterRequest, j: nat)
    requires Behaviour(ss, es) && RegisteredAt(ss, es, i, r) && i < j < |ss|
    ensures AccountKey(r.id) in ss[j].server.db && ss[j].server.db[AccountKey(r.id)] == AccountFields(r)
  {
    hide AccountFields;
    hide RegisterAnswer;
    assert ss[i + 1] == Apply(ss[i], es[i]);
    AccountKept(ss, es, i + 1, j, r.id);
  }

  /**
   * After a registration, every login to that account is decided by the digest of the password
   * given then, and by whether somebody holds the account now.
   */
  lemma LoginAfterRegistration(
      ss: seq<System>, es: seq<Event>, i: nat, r: RegisterRequest, j: nat, t: Token, p: seq<Byte>, time: string)
    requires Behaviour(ss, es) && RegisteredAt(ss, es, i, r)
    requires i < j < |es| && es[j] == Login(t, Some(LoginRequest(r.id, p)), time)
    ensures AnswerTo(ss[j], es[j])
         == Some(if Digest(p) != Digest(r.password) then Plain(false, "passwordMismatch")
                 else if LoginKey(r.id) in ss[j].server.db then Plain(false, "loginedAlready")
                 else Plain(true, "ok"))
  {
    assert |ss| == |es| + 1;
    hide Printed;
    hide Digest;
    hide Behaviour;
    hide AccountFields;
    RegistrationStored(ss, es, i, r, j);
    FieldsStored(r);
    PrintedEqualIff(p, r.password);
  }

  /** An id, once registered, is refused to everybody ever after, and the attempt changes nothing. */
  lemma SecondRegistrationRefused(
      ss: seq<System>, es: seq<Event>, i: nat, r: RegisterRequest, j: nat, t: Token, q: RegisterRequest)
    requires Behaviour(ss, es) && RegisteredAt(ss, es, i, r)
    requires i < j < |es| && es[j] == Register(t, Some(q)) && q.id == r.id
    requires |q.password| >= 2 && |q.nickname| >= 2
    ensures AnswerTo(ss[j], es[j]) == Some(Plain(false, "idAleadyInUse")) && ss[j + 1] == ss[j]
  {
    hide AccountFields;
    RegistrationStored(ss, es, i, r, j);
    assert ss[j + 1] == Apply(ss[j], es[j]);
    hide Behaviour;
  }

  // ---------------------------------------------------------------- non-interference

  /** The events that end a login of t. */
  ghost predicate EndsLogin(s: System, e: Event, t: Token) {
    || e.Restart?
    || e == Logout(t, true)
    || e == Disconnect(t)
    || (e.Login? && e.t == t && LoginSucceeds(s.server.db, e.request))
  }

  lemma ApplyKeepsLogin(s: System, e: Event, t: Token)
    requires Inv(s) && Enabled(s, e) && t in s.server.clients && !EndsLogin(s, e, t)
    ensures t in Apply(s, e).server.clients && LoginId(Apply(s, e).server.db, t) == LoginId(s.server.db, t)
  {
    hide ServerInv;
    hide LoginAnswer;
    hide RegisterAnswer;
    hide AccountFields;
    hide Render;
    hide Decimal;
  }

  lemma {:induction false} LoginKept(ss: seq<System>, es: seq<Event>, i: nat, j: nat, t: Token)
    requires Behaviour(ss, es) && i <= j < |ss| && t in ss[i].server.clients
    requires forall k | i <= k < j :: !EndsLogin(ss[k], es[k], t)
    ensures t in ss[j].server.clients && LoginId(ss[j].server.db, t) == LoginId(ss[i].server.db, t)
    decreases j
  {
    hide Apply;
    hide Enabled;
    hide Inv;
    hide EndsLogin;
    if i < j {
      LoginKept(ss, es, i, j - 1, t);
      StepAt(ss, es, j - 1);
      ApplyKeepsLogin(ss[j - 1], es[j - 1], t);
    }
  }

  /** es[i] logged t in as id. */
  ghost predicate LoggedInAt(ss: seq<System>, es: seq<Event>, i: nat, t: Token, id: string)
    requires Behaviour(ss, es)
  {
    && i < |es| && es[i].Login? && es[i].t == t
    && LoginSucceeds(ss[i].server.db, es[i].request) && es[i].request.value.id == id
  }

  lemma LoginRecords(s: State, t: Token, req: Option<LoginRequest>, time: string)
    requires t in s.clients && LoginSucceeds(s.db, req)
    ensures var s' := LoggedIn(s, t, req, time); t in s'.clients && LoginId(s'.db, t) == Some(req.value.id)
  {
    hide LoginSucceeds;
    hide Render;
    hide Decimal;
  }

  /**
   * From a login as id until the client's own logout, disconnect or next login, a player-data
   * request is answered from the account id, whatever other clients do.
   */
  lemma PlayerDataWhileLoggedIn(ss: seq<System>, es: seq<Event>, i: nat, j: nat, t: Token, id: string)
    requires Behaviour(ss, es) && LoggedInAt(ss, es, i, t, id)
    requires i < j < |es| && es[j] == PlayerData(t, true)
    requires forall k | i < k < j :: !EndsLogin(ss[k], es[k], t)
    ensures AccountKey(id) in ss[i].server.db
    ensures var account := ss[i].server.db[AccountKey(id)];
            AnswerTo(ss[j], es[j])
            == Some(if "nickname" in account && "personalColor" in account
                    then Response(true, "ok", account["nickname"], account["personalColor"])
                    else Undefined)
  {
    hide LoginAnswer;
    LoginFindsNoRecord(ss[i].server.db, es[i].request.value);
    LoginRecords(ss[i].server, t, es[i].request, es[i].time);
    assert ss[i + 1] == Apply(ss[i], es[i]);
    hide LoggedIn;
    LoginKept(ss, es, i + 1, j, t);
    AccountKept(ss, es, i, j, id);
    hide Behaviour;
  }

  /** In particular it is answered with what was registered for id, however long ago. */
  lemma PlayerDataIsWhatWasRegistered(
      ss: seq<System>, es: seq<Event>, r: RegisterRequest, h: nat, i: nat, j: nat, t: Token)
    requires Behaviour(ss, es) && RegisteredAt(ss, es, h, r)
    requires h < i && LoggedInAt(ss, es, i, t, r.id)
    requires i < j < |es| && es[j] == PlayerData(t, true)
    requires forall k | i < k < j :: !EndsLogin(ss[k], es[k], t)
    ensures AnswerTo(ss[j], es[j]) == Some(Response(true, "ok", r.nickname, r.color))
  {
    assert |ss| == |es| + 1;
    hide Behaviour;
    hide AnswerTo;
    hide Printed;
    hide AccountFields;
    RegistrationStored(ss, es, h, r, i);
    PlayerDataWhileLoggedIn(ss, es, i, j, t, r.id);
    FieldsStored(r);
  }

  /**
   * A new user gets through: after any start-up at which the id is free, connecting, registering,
   * logging in and asking for player data succeed one after the other.
   */
  lemma NewUserGetsThrough(s0: System, t: Token, r: RegisterRequest, time: string)
      returns (ss: seq<System>, es: seq<Event>)
    requires Booted(s0) && AccountKey(r.id) !in s0.server.db
    requires |r.id| >= 2 && |r.password| >= 2 && |r.nickname| >= 2
    ensures Behaviour(ss, es) && ss[0] == s0
    ensures es == [Connect(t, time), Register(t, Some(r)), Login(t, Some(LoginRequest(r.id, r.password)), time), PlayerData(t, true)]
    ensures RegisteredAt(ss, es, 1, r) && LoggedInAt(ss, es, 2, t, r.id)
    ensures AnswerTo(ss[3], es[3]) == Some(Response(true, "ok", r.nickname, r.color))
  {
    hide Printed;
    hide Decimal;
    hide Render;
    hide AccountFields;
    var q := Some(LoginRequest(r.id, r.password));
    es := [Connect(t, time), Register(t, Some(r)), Login(t, q, time), PlayerData(t, true)];
    var s1 := Apply(s0, es[0]);
    var s2 := Apply(s1, es[1]);
    FieldsStored(r);
    assert s2.server.db[AccountKey(r.id)] == AccountFields(r);
    assert LoginKey(r.id) !in s2.server.db;
    var s3 := Apply(s2, es[2]);
    ss := [s0, s1, s2, s3, s3];
    assert LoginSucceeds(s2.server.db, q);
    LoginRecords(s2.server, t, q, time);
    hide LoggedIn;
    hide Registered;
    hide Connected;
    assert Behaviour(ss, es);
    PlayerDataIsWhatWasRegistered(ss, es, r, 1, 2, 3, t);
  }

  // ---------------------------------------------------------------- a repeated login

  lemma RegisterOk(s: State, r: RegisterRequest)
    requires AccountKey(r.id) !in s.db && |r.id| >= 2 && |r.password| >= 2 && |r.nickname| >= 2
    ensures RegisterAnswer(s.db, Some(r)) == Plain(true, "ok")
    ensures Registered(s, Some(r)) == s.(db := s.db[AccountKey(r.id) := AccountFields(r)])
  {
    hide AccountFields;
  }

  lemma LoginOk(db: Db, r: RegisterRequest)
    requires AccountKey(r.id) in db && db[AccountKey(r.id)] == AccountFields(r)
    ensures var q := Some(LoginRequest(r.id, r.password));
            LoginAnswer(db, q) == if LoginKey(r.id) in db then Plain(false, "loginedAlready") else Plain(true, "ok")
  {
    hide Printed;
    hide AccountFields;
    FieldsStored(r);
  }

  /** What a login leaves in the tables. */
  lemma LoginWritten(s: State, t: Token, r: RegisterRequest, time: string, k: Key)
    requires t in s.clients && LoginSucceeds(s.db, Some(LoginRequest(r.id, r.password)))
    ensures var s' := LoggedIn(s, t, Some(LoginRequest(r.id, r.password)), time);
            && s'.clients.Keys == s.clients.Keys
            && LoginId(s'.db, t) == Some(r.id) && LoginKey(r.id) in s'.db
            && (k != ClientKey(t) && k != LoginKey(r.id) ==>
                  (k in s'.db <==> k in s.db) && (k in s.db ==> s'.db[k] == s.db[k]))
  {
    hide LoginSucceeds;
    hide Render;
    hide Decimal;
  }

  /** After any start-up at which both ids are free, t connects and registers two accounts. */
  lemma TwoAccounts(s0: System, t: Token, a: RegisterRequest, b: RegisterRequest, time: string)
      returns (s1: System, s2: System, s3: System)
    requires Booted(s0) && AccountKey(a.id) !in s0.server.db && AccountKey(b.id) !in s0.server.db && a.id != b.id
    requires |a.id| >= 2 && |a.password| >= 2 && |a.nickname| >= 2
    requires |b.id| >= 2 && |b.password| >= 2 && |b.nickname| >= 2
    ensures Enabled(s0, Connect(t, time)) && s1 == Apply(s0, Connect(t, time))
    ensures Enabled(s1, Register(t, Some(a))) && s2 == Apply(s1, Register(t, Some(a)))
    ensures Enabled(s2, Register(t, Some(b))) && s3 == Apply(s2, Register(t, Some(b)))
    ensures s3.server.clients.Keys == {t} && LoginId(s3.server.db, t) == None
    ensures var db := s3.server.db;
            && AccountKey(a.id) in db && db[AccountKey(a.id)] == AccountFields(a)
            && AccountKey(b.id) in db && db[AccountKey(b.id)] == AccountFields(b)
            && LoginKey(a.id) !in db && LoginKey(b.id) !in db
  {
    hide AccountFields;
    hide RegisterAnswer;
    hide Registered;
    s1 := Apply(s0, Connect(t, time));
    RegisterOk(s1.server, a);
    s2 := Apply(s1, Register(t, Some(a)));
    RegisterOk(s2.server, b);
    s3 := Apply(s2, Register(t, Some(b)));
  }

  /** Registered for both accounts, t logs in to the first, to the second, and to the first again. */
  lemma ThreeLogins(s3: System, t: Token, a: RegisterRequest, b: RegisterRequest, time: string)
      returns (s4: System, s5: System, s6: System)
    requires t in s3.server.clients && LoginId(s3.server.db, t) == None && a.id != b.id
    requires AccountKey(a.id) in s3.server.db && s3.server.db[AccountKey(a.id)] == AccountFields(a)
    requires AccountKey(b.id) in s3.server.db && s3.server.db[AccountKey(b.id)] == AccountFields(b)
    requires LoginKey(a.id) !in s3.server.db && LoginKey(b.id) !in s3.server.db
    ensures var asA, asB := Login(t, Some(LoginRequest(a.id, a.password)), time), Login(t, Some(LoginRequest(b.id, b.password)), time);
            && Enabled(s3, asA) && s4 == Apply(s3, asA) && AnswerTo(s3, asA) == Some(Plain(true, "ok")) && !IsRelogin(s3, asA)
            && Enabled(s4, asB) && s5 == Apply(s4, asB) && AnswerTo(s4, asB) == Some(Plain(true, "ok")) && IsRelogin(s4, asB)
            && Enabled(s5, asA) && s6 == Apply(s5, asA) && AnswerTo(s5, asA) == Some(Plain(false, "loginedAlready"))
    ensures s5.server.clients.Keys == s3.server.clients.Keys && LoginId(s5.server.db, t) == Some(b.id)
    ensures LoginKey(a.id) in s5.server.db
  {
    hide AccountFields;
    hide LoginAnswer;
    hide LoggedIn;
    hide LoginId;
    LoginOk(s3.server.db, a);
    LoginWritten(s3.server, t, a, time, AccountKey(a.id));
    LoginWritten(s3.server, t, a, time, AccountKey(b.id));
    LoginWritten(s3.server, t, a, time, LoginKey(b.id));
    s4 := Apply(s3, Login(t, Some(LoginRequest(a.id, a.password)), time));
    LoginOk(s4.server.db, b);
    LoginWritten(s4.server, t, b, time, AccountKey(a.id));
    LoginWritten(s4.server, t, b, time, LoginKey(a.id));
    s5 := Apply(s4, Login(t, Some(LoginRequest(b.id, b.password)), time));
    LoginOk(s5.server.db, a);
    s6 := Apply(s5, Login(t, Some(LoginRequest(a.id, a.password)), time));
  }

  /**
   * Repeated logins happen, and orphan a record: a client registers two accounts, logs in to the
   * first and then to the second, and the first is refused to its right password.
   */
  lemma LoginTwiceLocksTheFirst(s0: System, t: Token, a: RegisterRequest, b: RegisterRequest, time: string)
      returns (ss: seq<System>, es: seq<Event>)
    requires Booted(s0) && AccountKey(a.id) !in s0.server.db && AccountKey(b.id) !in s0.server.db && a.id != b.id
    requires |a.id| >= 2 && |a.password| >= 2 && |a.nickname| >= 2
    requires |b.id| >= 2 && |b.password| >= 2 && |b.nickname| >= 2
    ensures var asA, asB := Login(t, Some(LoginRequest(a.id, a.password)), time), Login(t, Some(LoginRequest(b.id, b.password)), time);
            es == [Connect(t, time), Register(t, Some(a)), Register(t, Some(b)), asA, asB, asA]
    ensures Behaviour(ss, es) && ss[0] == s0
    ensures AnswerTo(ss[3], es[3]) == AnswerTo(ss[4], es[4]) == Some(Plain(true, "ok"))
    ensures Relogins(ss, es, 5) == 1 && Orphans(ss[5].server.db) == {LoginKey(a.id)}
    ensures AnswerTo(ss[5], es[5]) == Some(Plain(false, "loginedAlready"))
  {
    hide AccountFields;
    hide LoginAnswer;
    hide LoggedIn;
    hide LoginId;
    hide Booted;
    var asA, asB := Login(t, Some(LoginRequest(a.id, a.password)), time), Login(t, Some(LoginRequest(b.id, b.password)), time);
    var s1, s2, s3 := TwoAccounts(s0, t, a, b, time);
    hide Connected;
    hide Registered;
    hide HashSet;
    var s4, s5, s6 := ThreeLogins(s3, t, a, b, time);
    es := [Connect(t, time), Register(t, Some(a)), Register(t, Some(b)), asA, asB, asA];
    ss := [s0, s1, s2, s3, s4, s5, s6];
    hide Enabled;
    hide Apply;
    hide IsRelogin;
    SixSteps(ss, es);
    OneRelogin(ss, es);
    OneOrphan(ss, es, t, a.id, b.id);
  }

  lemma SixSteps(ss: seq<System>, es: seq<Event>)
    requires |es| == 6 && |ss| == 7 && Booted(ss[0])
    requires Enabled(ss[0], es[0]) && ss[1] == Apply(ss[0], es[0])
    requires Enabled(ss[1], es[1]) && ss[2] == Apply(ss[1], es[1])
    requires Enabled(ss[2], es[2]) && ss[3] == Apply(ss[2], es[2])
    requires Enabled(ss[3], es[3]) && ss[4] == Apply(ss[3], es[3])
    requires Enabled(ss[4], es[4]) && ss[5] == Apply(ss[4], es[4])
    requires Enabled(ss[5], es[5]) && ss[6] == Apply(ss[5], es[5])
    ensures Behaviour(ss, es)
  {
    hide Enabled;
    hide Apply;
    hide Booted;
  }

  lemma OneRelogin(ss: seq<System>, es: seq<Event>)
    requires |es| < |ss| && |es| >= 5
    requires es[0].Connect? && es[1].Register? && es[2].Register? && es[3].Login? && es[4].Login?
    requires !IsRelogin(ss[3], es[3]) && IsRelogin(ss[4], es[4])
    ensures Relogins(ss, es, 5) == 1
  {
    assert !IsRelogin(ss[0], es[0]) && !IsRelogin(ss[1], es[1]) && !IsRelogin(ss[2], es[2]);
    hide IsRelogin;
    assert Relogins(ss, es, 0) == 0;
    assert Relogins(ss, es, 1) == 0;
    assert Relogins(ss, es, 2) == 0;
    assert Relogins(ss, es, 3) == 0;
    assert Relogins(ss, es, 4) == 0;
  }

  lemma OneOrphan(ss: seq<System>, es: seq<Event>, t: Token, a: string, b: string)
    requires Behaviour(ss, es) && |es| > 5 && Relogins(ss, es, 5) == 1
    requires ss[5].server.clients.Keys == {t} && LoginId(ss[5].server.db, t) == Some(b)
    requires a != b && LoginKey(a) in ss[5].server.db
    ensures Orphans(ss[5].server.db) == {LoginKey(a)}
  {
    var s := ss[5].server;
    InvAlways(ss, es, 5);
    OrphansAreRelogins(ss, es, 5);
    hide Behaviour;
    hide ClientAgrees;
    hide Relogins;
    assert LoginKey(a) in Orphans(s.db);
    SingletonOf(Orphans(s.db), LoginKey(a));
  }

  lemma SingletonOf(s: set<Key>, k: Key)
    requires |s| == 1 && k in s
    ensures s == {k}
  {
    assert |s - {k}| == 0;
  }

  // ---------------------------------------------------------------- no undefined behaviour

  ghost predicate AccountsComplete(db: Db) {
    forall id | AccountKey(id) in db ::
      {"password", "nickname", "personalColor"} <= db[AccountKey(id)].Keys
  }

  lemma ApplyKeepsComplete(s: System, e: Event)
    requires Enabled(s, e) && AccountsComplete(s.server.db)
    ensures AccountsComplete(Apply(s, e).server.db)
  {
    hide RegisterAnswer;
    hide LoginSucceeds;
    hide Printed;
    hide Render;
    hide Decimal;
  }

  lemma {:induction false} AccountsStayComplete(ss: seq<System>, es: seq<Event>, i: nat)
    requires Behaviour(ss, es) && i < |ss| && AccountsComplete(ss[0].server.db)
    ensures AccountsComplete(ss[i].server.db)
  {
    if i > 0 {
      hide AccountsComplete;
      hide Enabled;
      hide Apply;
      hide Inv;
      AccountsStayComplete(ss, es, i - 1);
      StepAt(ss, es, i - 1);
      ApplyKeepsComplete(ss[i - 1], es[i - 1]);
    }
  }

  /** If the accounts in the store are complete at start-up, no optional is dereferenced empty. */
  lemma NeverUndefined(ss: seq<System>, es: seq<Event>, i: nat)
    requires Behaviour(ss, es) && i < |es| && AccountsComplete(ss[0].server.db)
    ensures AnswerTo(ss[i], es[i]) != Some(Undefined)
  {
    AccountsStayComplete(ss, es, i);
    hide Behaviour;
    hide Printed;
    var db := ss[i].server.db;
    if es[i].PlayerData? && LoginId(db, es[i].t).Some? && AccountKey(LoginId(db, es[i].t).value) in db {
      assert "nickname" in db[AccountKey(LoginId(db, es[i].t).value)];
      assert "personalColor" in db[AccountKey(LoginId(db, es[i].t).value)];
    }
  }
}
