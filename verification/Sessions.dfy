/**
 * The account and login protocol (src/Server.cpp) with each handler as one step, on the
 * typed tables of RedisStore, and what every run of it keeps.
 */
module Sessions {
  import opened Bytes
  import opened Options
  import opened RedisStore
  import opened PasswordHash

  // ---------------------------------------------------------------- data

  /** A request whose bytes parsed; a parse failure is the absence of a request. */
  datatype RegisterRequest = RegisterRequest(id: string, password: seq<Byte>, nickname: string, color: string)
  datatype LoginRequest = LoginRequest(id: string, password: seq<Byte>)

  /** Undefined: the program dereferences an empty optional. */
  datatype Response = Undefined | Response(result: bool, message: string, nickname: string, color: string)

  function Plain(result: bool, message: string): Response { Response(result, message, "", "") }

  /** The store, and the connected clients with the login key each of them holds in memory. */
  datatype State = State(db: Db, clients: map<Token, string>)

  // ---------------------------------------------------------------- handlers

  function Connected(s: State, t: Token, time: string): State {
    State(HashSet(s.db, ClientKey(t), "ConnectedTime", time), s.clients[t := ""])
  }

  function AccountFields(r: RegisterRequest): Fields {
    map["password" := Printed(r.password), "nickname" := r.nickname, "personalColor" := r.color]
  }

  function RegisterAnswer(db: Db, req: Option<RegisterRequest>): Response {
    match req
    case None => Plain(false, "parsingError")
    case Some(r) =>
      if |r.id| < 2 then Plain(false, "idLength<2")
      else if |r.password| < 2 then Plain(false, "passwordLength<2")
      else if |r.nickname| < 2 then Plain(false, "nicknameLength<2")
      else if AccountKey(r.id) in db then Plain(false, "idAleadyInUse")
      else Plain(true, "ok")
  }

  function Registered(s: State, req: Option<RegisterRequest>): State {
    if req.Some? && RegisterAnswer(s.db, req) == Plain(true, "ok")
    then s.(db := s.db[AccountKey(req.value.id) := AccountFields(req.value)])
    else s
  }

  function LoginAnswer(db: Db, req: Option<LoginRequest>): Response {
    match req
    case None => Plain(false, "parsingError")
    case Some(r) =>
      if AccountKey(r.id) !in db then Plain(false, "idDoesNotExsist")
      else if "password" !in db[AccountKey(r.id)] then Undefined
      else if db[AccountKey(r.id)]["password"] != Printed(r.password) then Plain(false, "passwordMismatch")
      else if LoginKey(r.id) in db then Plain(false, "loginedAlready")
      else Plain(true, "ok")
  }

  predicate LoginSucceeds(db: Db, req: Option<LoginRequest>) {
    req.Some? && LoginAnswer(db, req) == Plain(true, "ok")
  }

  function LoggedIn(s: State, t: Token, req: Option<LoginRequest>, time: string): State
    requires t in s.clients
  {
    if LoginSucceeds(s.db, req) then
      var id := req.value.id;
      State(HashSet(s.db, ClientKey(t), "loginId", id)[LoginKey(id) := map["token" := Decimal(t), "loginTime" := time]],
            s.clients[t := Render(LoginKey(id))])
    else s
  }

  function LoginId(db: Db, t: Token): Option<string> {
    HashGet(db, ClientKey(t), "loginId")
  }

  function PlayerDataAnswer(db: Db, t: Token, wellFormed: bool): Response {
    if !wellFormed then Plain(false, "parsingError")
    else if ClientKey(t) !in db then Plain(false, "invalidToken")
    else match LoginId(db, t)
      case None => Plain(false, "needLogin")
      case Some(id) =>
        if AccountKey(id) !in db then Plain(false, "invalidId")
        else match (HashGet(db, AccountKey(id), "nickname"), HashGet(db, AccountKey(id), "personalColor"))
          case (Some(nickname), Some(color)) => Response(true, "ok", nickname, color)
          case _ => Undefined
  }

  function LoggedOut(s: State, t: Token): State
    requires t in s.clients
  {
    match LoginId(s.db, t)
    case None => s
    case Some(id) =>
      State(HashDel(Del(s.db, LoginKey(id)), ClientKey(t), "loginId"), s.clients[t := "noLogined"])
  }

  function Disconnected(s: State, t: Token): State
    requires t in s.clients
  {
    var o := LoggedOut(s, t);
    State(Del(o.db, ClientKey(t)), o.clients - {t})
  }

  /** A new process: no clients, and the start-up scan has removed every session key. */
  function Restarted(s: State): State {
    State(map k | k in s.db && k.AccountKey? :: s.db[k], map[])
  }

  /** The three writes of a registration make one whole record, also where one was before. */
  lemma AccountWrites(db: Db, q: RegisterRequest)
    requires FieldsOf(db, AccountKey(q.id)).Keys <= {"password", "nickname", "personalColor"}
    ensures var k := AccountKey(q.id);
            HashSet(HashSet(HashSet(db, k, "password", Printed(q.password)), k, "nickname", q.nickname),
                    k, "personalColor", q.color)
            == db[k := AccountFields(q)]
  {
    hide Printed;
    var k, p := AccountKey(q.id), Printed(q.password);
    var f1 := FieldsOf(db, k)["password" := p];
    var f2 := f1["nickname" := q.nickname];
    assert HashSet(db, k, "password", p) == db[k := f1];
    assert HashSet(db[k := f1], k, "nickname", q.nickname) == db[k := f2];
    assert HashSet(db[k := f2], k, "personalColor", q.color) == db[k := f2["personalColor" := q.color]];
    assert f2["personalColor" := q.color] == AccountFields(q);
  }

  /** The last two writes of a login make one whole record. */
  lemma LoginWrites(db: Db, t: Token, id: string, time: string)
    requires LoginKey(id) !in db
    ensures var db1, k := HashSet(db, ClientKey(t), "loginId", id), LoginKey(id);
            HashSet(HashSet(db1, k, "token", Decimal(t)), k, "loginTime", time)
            == db1[k := map["token" := Decimal(t), "loginTime" := time]]
  {
    hide Decimal;
    var db1, k := HashSet(db, ClientKey(t), "loginId", id), LoginKey(id);
    var f1: Fields := map["token" := Decimal(t)];
    assert HashSet(db1, k, "token", Decimal(t)) == db1[k := f1];
    assert HashSet(db1[k := f1], k, "loginTime", time) == db1[k := f1["loginTime" := time]];
  }

  // ---------------------------------------------------------------- the system and its runs

  /**
   * A socket object owns its token from construction to destruction (src/tokenPool.h), and is
   * destroyed only after the server has let go of it.
   */
  datatype System = System(server: State, sockets: set<Token>)

  datatype Event =
    | Connect(t: Token, time: string)
    | Register(t: Token, registration: Option<RegisterRequest>)
    | Login(t: Token, request: Option<LoginRequest>, time: string)
    | PlayerData(t: Token, wellFormed: bool)
    | Logout(t: Token, wellFormed: bool)
    | Disconnect(t: Token)
    | Destroy(t: Token)
    | Restart

  ghost predicate Enabled(s: System, e: Event) {
    match e
    case Connect(t, _) => t !in s.sockets
    case Destroy(t) => t in s.sockets && t !in s.server.clients
    case Restart => true
    case _ => e.t in s.server.clients
  }

  ghost function Apply(s: System, e: Event): System
    requires Enabled(s, e)
  {
    match e
    case Connect(t, time) => System(Connected(s.server, t, time), s.sockets + {t})
    case Register(_, req) => s.(server := Registered(s.server, req))
    case Login(t, req, time) => s.(server := LoggedIn(s.server, t, req, time))
    case PlayerData(_, _) => s
    case Logout(t, wellFormed) => if wellFormed then s.(server := LoggedOut(s.server, t)) else s
    case Disconnect(t) => s.(server := Disconnected(s.server, t))
    case Destroy(t) => s.(sockets := s.sockets - {t})
    case Restart => System(Restarted(s.server), {})
  }

  /** The state start-up leaves, whatever accounts the store held. */
  ghost predicate Booted(s: System) {
    s.sockets == {} && s.server.clients == map[] && forall k | k in s.server.db :: k.AccountKey?
  }

  ghost predicate Behaviour(ss: seq<System>, es: seq<Event>) {
    && |ss| == |es| + 1
    && Booted(ss[0])
    && forall i | 0 <= i < |es| :: Enabled(ss[i], es[i]) && ss[i + 1] == Apply(ss[i], es[i])
  }

  // ---------------------------------------------------------------- the invariant

  /** Memory and store tell the same story about the client with token t. */
  ghost predicate ClientAgrees(s: State, t: Token)
    requires t in s.clients
  {
    && ClientKey(t) in s.db
    && "ConnectedTime" in s.db[ClientKey(t)]
    && match LoginId(s.db, t)
       case None => s.clients[t] in {"", "noLogined"}
       case Some(id) =>
         && s.clients[t] == Render(LoginKey(id))
         && HashGet(s.db, LoginKey(id), "token") == Some(Decimal(t))
         && AccountKey(id) in s.db
  }

  /** The connected clients are exactly the client records, and each agrees with its record. */
  ghost predicate ServerInv(s: State) {
    && (forall t: Token :: ClientKey(t) in s.db <==> t in s.clients)
    && (forall t | t in s.clients :: ClientAgrees(s, t))
  }

  ghost predicate Inv(s: System) {
    s.server.clients.Keys <= s.sockets && ServerInv(s.server)
  }

  /** Two clients never hold the same login: the login record names one token. */
  lemma SameLoginSameClient(s: State, t: Token, u: Token)
    requires t in s.clients && u in s.clients && ClientAgrees(s, t) && ClientAgrees(s, u)
    requires LoginId(s.db, t).Some? && LoginId(s.db, t) == LoginId(s.db, u)
    ensures t == u
  {
    hide Render;
    hide Decimal;
    DecimalInjective(t, u);
  }

  /** A step that leaves alone what ClientAgrees reads about u keeps it. */
  lemma AgreesFrame(s: State, s': State, u: Token)
    requires u in s.clients && u in s'.clients && ClientAgrees(s, u)
    requires s'.clients[u] == s.clients[u] && FieldsOf(s'.db, ClientKey(u)) == FieldsOf(s.db, ClientKey(u))
    requires ClientKey(u) in s'.db
    requires LoginId(s.db, u).Some? ==>
               var id := LoginId(s.db, u).value;
               && FieldsOf(s'.db, LoginKey(id)) == FieldsOf(s.db, LoginKey(id))
               && (AccountKey(id) in s.db ==> AccountKey(id) in s'.db)
    ensures ClientAgrees(s', u)
  {
    hide Render;
    hide Decimal;
  }

  lemma ConnectKeepsInv(s: State, t: Token, time: string)
    requires ServerInv(s) && t !in s.clients
    ensures ServerInv(Connected(s, t, time))
  {
    var s' := Connected(s, t, time);
    assert ClientAgrees(s', t);
    hide ClientAgrees;
    forall u | u in s'.clients
      ensures ClientAgrees(s', u)
    {
      if u != t {
        AgreesFrame(s, s', u);
      }
    }
  }

  lemma RegisterKeepsInv(s: State, req: Option<RegisterRequest>)
    requires ServerInv(s)
    ensures ServerInv(Registered(s, req))
  {
    hide RegisterAnswer;
    hide AccountFields;
    hide ClientAgrees;
    var s' := Registered(s, req);
    forall u | u in s'.clients
      ensures ClientAgrees(s', u)
    {
      AgreesFrame(s, s', u);
    }
  }

  lemma LoginFindsNoRecord(db: Db, r: LoginRequest)
    requires LoginAnswer(db, Some(r)) == Plain(true, "ok")
    ensures LoginKey(r.id) !in db && AccountKey(r.id) in db
  {
    hide Printed;
  }

  lemma LoginAgrees(s: State, t: Token, r: LoginRequest, time: string)
    requires t in s.clients && ClientAgrees(s, t) && LoginSucceeds(s.db, Some(r))
    ensures var s' := LoggedIn(s, t, Some(r), time); t in s'.clients && ClientAgrees(s', t)
  {
    hide Render;
    hide Decimal;
    LoginFindsNoRecord(s.db, r);
    hide LoginAnswer;
  }

  /** A login writes two keys. */
  lemma LoginFrame(s: State, t: Token, r: LoginRequest, time: string, k: Key)
    requires t in s.clients && k != ClientKey(t) && k != LoginKey(r.id)
    ensures var s' := LoggedIn(s, t, Some(r), time);
            (k in s'.db <==> k in s.db) && FieldsOf(s'.db, k) == FieldsOf(s.db, k)
  {
    hide LoginSucceeds;
    hide Render;
    hide Decimal;
  }

  lemma LoginRecordThere(s: State, u: Token)
    requires u in s.clients && ClientAgrees(s, u)
    ensures ClientKey(u) in s.db && (LoginId(s.db, u).Some? ==> LoginKey(LoginId(s.db, u).value) in s.db)
  {
    hide Render;
    hide Decimal;
  }

  lemma OthersAgree(s: State, t: Token, r: LoginRequest, time: string, u: Token)
    requires t in s.clients && u in s.clients && u != t && ClientAgrees(s, u) && LoginSucceeds(s.db, Some(r))
    ensures var s' := LoggedIn(s, t, Some(r), time); u in s'.clients && ClientAgrees(s', u)
  {
    LoginFindsNoRecord(s.db, r);
    LoginRecordThere(s, u);
    LoginFrame(s, t, r, time, ClientKey(u));
    if LoginId(s.db, u).Some? {
      LoginFrame(s, t, r, time, LoginKey(LoginId(s.db, u).value));
      LoginFrame(s, t, r, time, AccountKey(LoginId(s.db, u).value));
    }
    var s' := LoggedIn(s, t, Some(r), time);
    assert u in s'.clients && s'.clients[u] == s.clients[u];
    hide LoggedIn;
    hide LoginSucceeds;
    hide ClientAgrees;
    hide FieldsOf;
    hide LoginId;
    AgreesFrame(s, s', u);
  }

  lemma LoginKeepsInv(s: State, t: Token, req: Option<LoginRequest>, time: string)
    requires ServerInv(s) && t in s.clients
    ensures ServerInv(LoggedIn(s, t, req, time))
  {
    hide ClientAgrees;
    hide LoginAnswer;
    hide Render;
    hide Decimal;
    if LoginSucceeds(s.db, req) {
      var s' := LoggedIn(s, t, req, time);
      assert req == Some(req.value);
      forall u | u in s'.clients
        ensures ClientAgrees(s', u)
      {
        if u == t {
          LoginAgrees(s, t, req.value, time);
        } else {
          OthersAgree(s, t, req.value, time, u);
        }
      }
    }
  }

  lemma LogoutKeepsInv(s: State, t: Token)
    requires ServerInv(s) && t in s.clients
    ensures ServerInv(LoggedOut(s, t))
  {
    hide Render;
    hide Decimal;
    var s' := LoggedOut(s, t);
    assert ClientAgrees(s, t);
    forall u | u in s'.clients
      ensures ClientAgrees(s', u)
    {
      assert ClientAgrees(s, u);
      if u == t {
        assert LoginId(s.db, t).Some? ==> "ConnectedTime" in s.db[ClientKey(t)] - {"loginId"};
      } else if LoginId(s.db, u) == LoginId(s.db, t) && LoginId(s.db, u).Some? {
        SameLoginSameClient(s, t, u);
      }
    }
  }

  /** After the logout inside it, a disconnect removes the record and the client together. */
  lemma DisconnectKeepsInv(s: State, t: Token)
    requires ServerInv(s) && t in s.clients
    ensures ServerInv(Disconnected(s, t))
  {
    hide ClientAgrees;
    hide LoggedOut;
    LogoutKeepsInv(s, t);
    var o, s' := LoggedOut(s, t), Disconnected(s, t);
    forall u | u in s'.clients
      ensures ClientAgrees(s', u)
    {
      AgreesFrame(o, s', u);
    }
  }

  lemma ApplyKeepsInv(s: System, e: Event)
    requires Inv(s) && Enabled(s, e)
    ensures Inv(Apply(s, e))
  {
    hide ClientAgrees;
    hide LoginSucceeds;
    hide RegisterAnswer;
    hide LoginId;
    match e
    case Connect(t, time) => ConnectKeepsInv(s.server, t, time);
    case Register(_, req) => RegisterKeepsInv(s.server, req);
    case Login(t, req, time) => LoginKeepsInv(s.server, t, req, time);
    case Logout(t, _) => LogoutKeepsInv(s.server, t);
    case Disconnect(t) => DisconnectKeepsInv(s.server, t);
    case _ =>
  }
}
