/**
 * What each request is answered and what it changes, as conditions on the request and the store, and
 * what that means over whole runs.
 */
module Answers {
  import opened Options
  import opened RedisStore
  import opened PasswordHash
  import opened Sessions
  import opened SessionTheorems

  // ---------------------------------------------------------------- registration

  predicate LongEnough(r: RegisterRequest) {
    |r.id| >= 2 && |r.password| >= 2 && |r.nickname| >= 2
  }

  /** A registration is accepted if and only if it parsed, its three fields are long enough and the id is free. */
  lemma RegisterAcceptedIff(db: Db, req: Option<RegisterRequest>)
    ensures RegisterAnswer(db, req).Response?
    ensures RegisterAnswer(db, req).result
       <==> req.Some? && LongEnough(req.value) && AccountKey(req.value.id) !in db
    ensures RegisterAnswer(db, req).result <==> RegisterAnswer(db, req).message == "ok"
    ensures RegisterAnswer(db, req).nickname == RegisterAnswer(db, req).color == ""
  {
  }

  /** And each refusal says why: the first reason that holds, in this order. */
  lemma RegisterRefusals(db: Db, req: Option<RegisterRequest>)
    ensures var message := RegisterAnswer(db, req).message;
            && (message == "parsingError" <==> req.None?)
            && (message == "idLength<2" <==> req.Some? && |req.value.id| < 2)
            && (message == "passwordLength<2" <==> req.Some? && |req.value.id| >= 2 > |req.value.password|)
            && (message == "nicknameLength<2"
                <==> req.Some? && |req.value.id| >= 2 && |req.value.password| >= 2 > |req.value.nickname|)
            && (message == "idAleadyInUse" <==> req.Some? && LongEnough(req.value) && AccountKey(req.value.id) in db)
  {
  }

  /** A refusal changes nothing; an acceptance stores one record with exactly three fields. */
  lemma RegisterEffect(s: State, req: Option<RegisterRequest>)
    ensures !RegisterAnswer(s.db, req).result ==> Registered(s, req) == s
    ensures RegisterAnswer(s.db, req).result ==>
              var r := req.value;
              Registered(s, req) == State(
                s.db[AccountKey(r.id) := map["password" := Printed(r.password), "nickname" := r.nickname, "personalColor" := r.color]],
                s.clients)
  {
    hide Printed;
    RegisterAcceptedIff(s.db, req);
  }

  /** The event registers r and is told so. */
  ghost predicate Accepts(s: System, e: Event, r: RegisterRequest) {
    e.Register? && e.registration == Some(r) && AnswerTo(s, e) == Some(Plain(true, "ok"))
  }

  lemma ApplyNewAccount(s: System, e: Event, id: string)
    requires Enabled(s, e) && AccountKey(id) !in s.server.db && AccountKey(id) in Apply(s, e).server.db
    ensures e.Register? && e.registration.Some? && e.registration.value.id == id
    ensures Accepts(s, e, e.registration.value) && LongEnough(e.registration.value)
    ensures Apply(s, e).server.db[AccountKey(id)] == AccountFields(e.registration.value)
  {
    hide AccountFields;
    hide LoginSucceeds;
    hide LoginId;
    hide Render;
    hide Decimal;
  }

  /**
   * Every account that was not there at start-up is the record of a registration of the run that
   * was accepted, so its three fields were long enough.
   */
  lemma {:induction false} AccountsWereRegistered(ss: seq<System>, es: seq<Event>, i: nat, id: string) returns (k: nat, r: RegisterRequest)
    requires Behaviour(ss, es) && i < |ss| && AccountKey(id) in ss[i].server.db && AccountKey(id) !in ss[0].server.db
    ensures k < i && RegisteredAt(ss, es, k, r) && r.id == id && LongEnough(r)
    ensures ss[i].server.db[AccountKey(id)] == AccountFields(r)
  {
    hide Apply;
    hide Enabled;
    hide Inv;
    hide AnswerTo;
    hide AccountFields;
    StepAt(ss, es, i - 1);
    if AccountKey(id) in ss[i - 1].server.db {
      k, r := AccountsWereRegistered(ss, es, i - 1, id);
      ApplyKeepsAccount(ss[i - 1], es[i - 1], id);
    } else {
      ApplyNewAccount(ss[i - 1], es[i - 1], id);
      k, r := i - 1, es[i - 1].registration.value;
    }
  }

  // ---------------------------------------------------------------- login

  /** The stored password of an account. */
  function StoredPassword(db: Db, id: string): Option<string> {
    HashGet(db, AccountKey(id), "password")
  }

  /** A login is accepted if and only if the account is there, its password is that digest, and nobody holds it. */
  lemma LoginAcceptedIff(db: Db, r: LoginRequest)
    requires LoginAnswer(db, Some(r)) != Undefined
    ensures LoginAnswer(db, Some(r)).result
       <==> AccountKey(r.id) in db && StoredPassword(db, r.id) == Some(Printed(r.password)) && LoginKey(r.id) !in db
    ensures LoginAnswer(db, Some(r)).result <==> LoginAnswer(db, Some(r)).message == "ok"
    ensures LoginAnswer(db, Some(r)).nickname == LoginAnswer(db, Some(r)).color == ""
  {
    hide Printed;
  }

  lemma LoginRefusals(db: Db, req: Option<LoginRequest>)
    requires LoginAnswer(db, req) != Undefined
    ensures var message := LoginAnswer(db, req).message;
            && (message == "parsingError" <==> req.None?)
            && (message == "idDoesNotExsist" <==> req.Some? && AccountKey(req.value.id) !in db)
            && (message == "passwordMismatch"
                <==> req.Some? && AccountKey(req.value.id) in db
                     && StoredPassword(db, req.value.id) != Some(Printed(req.value.password)))
            && (message == "loginedAlready"
                <==> req.Some? && AccountKey(req.value.id) in db
                     && StoredPassword(db, req.value.id) == Some(Printed(req.value.password)) && LoginKey(req.value.id) in db)
            && (LoginAnswer(db, req).result <==> message == "ok")
  {
    hide Printed;
  }

  /** It is undefined if and only if the account has no password. */
  lemma LoginUndefinedIff(db: Db, req: Option<LoginRequest>)
    ensures LoginAnswer(db, req) == Undefined
       <==> req.Some? && AccountKey(req.value.id) in db && StoredPassword(db, req.value.id) == None
  {
    hide Printed;
  }

  /** Without acceptance nothing changes; an acceptance writes the login id, one record and the key in memory. */
  lemma LoginEffect(s: State, t: Token, req: Option<LoginRequest>, time: string, k: Key, u: Token)
    requires t in s.clients
    ensures LoginAnswer(s.db, req) == Undefined || !LoginAnswer(s.db, req).result ==> LoggedIn(s, t, req, time) == s
    ensures LoginAnswer(s.db, req) != Undefined && LoginAnswer(s.db, req).result && req.Some? ==>
              var (id, s') := (req.value.id, LoggedIn(s, t, req, time));
              && FieldsOf(s'.db, ClientKey(t)) == FieldsOf(s.db, ClientKey(t))["loginId" := id]
              && FieldsOf(s'.db, LoginKey(id)) == map["token" := Decimal(t), "loginTime" := time]
              && (k != ClientKey(t) && k != LoginKey(id) ==> (k in s'.db <==> k in s.db) && FieldsOf(s'.db, k) == FieldsOf(s.db, k))
              && s'.clients.Keys == s.clients.Keys && s'.clients[t] == "logined:" + id
              && (u in s.clients && u != t ==> s'.clients[u] == s.clients[u])
  {
    hide Printed;
    hide Decimal;
    if LoginAnswer(s.db, req) != Undefined {
      LoginRefusals(s.db, req);
      LoginSuccessIff(s.db, req);
      hide LoginAnswer;
      hide LoginSucceeds;
    }
  }

  lemma LoginSuccessIff(db: Db, req: Option<LoginRequest>)
    requires LoginAnswer(db, req) != Undefined
    ensures LoginSucceeds(db, req) <==> req.Some? && LoginAnswer(db, req).result
  {
    hide Printed;
  }

  /** In every run: a login that did not parse, or to an id nobody has registered, is refused and changes nothing. */
  lemma UnknownIdRefused(ss: seq<System>, es: seq<Event>, i: nat)
    requires Behaviour(ss, es) && i < |es| && es[i].Login?
    ensures es[i].request == None ==> AnswerTo(ss[i], es[i]) == Some(Plain(false, "parsingError")) && ss[i + 1] == ss[i]
    ensures es[i].request.Some? && AccountKey(es[i].request.value.id) !in ss[0].server.db
            && (forall k, r | 0 <= k < i && RegisteredAt(ss, es, k, r) :: r.id != es[i].request.value.id)
            ==> AnswerTo(ss[i], es[i]) == Some(Plain(false, "idDoesNotExsist")) && ss[i + 1] == ss[i]
  {
    assert ss[i + 1] == Apply(ss[i], es[i]);
    var db, req := ss[i].server.db, es[i].request;
    if req.Some? && AccountKey(req.value.id) !in ss[0].server.db
       && forall k, r | 0 <= k < i && RegisteredAt(ss, es, k, r) :: r.id != req.value.id {
      if AccountKey(req.value.id) in db {
        hide AnswerTo;
        hide Behaviour;
        var k, r := AccountsWereRegistered(ss, es, i, req.value.id);
        assert false;
      }
    }
    hide RegisteredAt;
    hide Behaviour;
    hide Printed;
  }

  // ---------------------------------------------------------------- player data

  /** Where it is defined, player data is given if and only if the client is logged in to a stored account. */
  lemma PlayerDataGivenIff(db: Db, t: Token)
    requires PlayerDataAnswer(db, t, true) != Undefined
    ensures PlayerDataAnswer(db, t, true).result
       <==> LoginId(db, t).Some? && AccountKey(LoginId(db, t).value) in db
  {
  }

  lemma PlayerDataRefusals(db: Db, t: Token, wellFormed: bool)
    requires PlayerDataAnswer(db, t, wellFormed) != Undefined
    ensures var answer := PlayerDataAnswer(db, t, wellFormed);
            && (answer.message == "parsingError" <==> !wellFormed)
            && (answer.message == "invalidToken" <==> wellFormed && ClientKey(t) !in db)
            && (answer.message == "needLogin" <==> wellFormed && ClientKey(t) in db && LoginId(db, t) == None)
            && (answer.message == "invalidId"
                <==> wellFormed && LoginId(db, t).Some? && AccountKey(LoginId(db, t).value) !in db)
            && (answer.result <==> answer.message == "ok")
            && (!answer.result ==> answer.nickname == answer.color == "")
  {
  }

  lemma ApplyKeepsLoggedOut(s: System, e: Event, t: Token)
    requires Inv(s) && Enabled(s, e) && LoginId(s.server.db, t) == None
    requires e.Login? && e.t == t ==> !LoginSucceeds(s.server.db, e.request)
    ensures LoginId(Apply(s, e).server.db, t) == None
  {
    hide ServerInv;
    hide LoginAnswer;
    hide RegisterAnswer;
    hide AccountFields;
    hide Render;
    hide Decimal;
  }

  /** es[i] leaves t without a login. */
  ghost predicate LeavesLoggedOut(e: Event, t: Token) {
    (e.Connect? && e.t == t) || e == Logout(t, true)
  }

  lemma AfterLeaving(s: System, e: Event, t: Token)
    requires Inv(s) && Enabled(s, e) && LeavesLoggedOut(e, t)
    ensures LoginId(Apply(s, e).server.db, t) == None
  {
    hide ClientAgrees;
    hide Render;
    hide Decimal;
  }

  lemma {:induction false} StaysLoggedOut(ss: seq<System>, es: seq<Event>, i: nat, j: nat, t: Token)
    requires Behaviour(ss, es) && i <= j < |ss| && LoginId(ss[i].server.db, t) == None
    requires forall k | i <= k < j && es[k].Login? && es[k].t == t :: !LoginSucceeds(ss[k].server.db, es[k].request)
    ensures LoginId(ss[j].server.db, t) == None
    decreases j
  {
    hide Apply;
    hide Enabled;
    hide Inv;
    hide LoginSucceeds;
    hide LoginId;
    if i < j {
      StaysLoggedOut(ss, es, i, j - 1, t);
      StepAt(ss, es, j - 1);
      ApplyKeepsLoggedOut(ss[j - 1], es[j - 1], t);
    }
  }

  /**
   * From its connect or its logout until its own next accepted login, a client is told "needLogin"
   * and nothing else, whatever other clients do.
   */
  lemma NeedLoginUntilLogin(ss: seq<System>, es: seq<Event>, i: nat, j: nat, t: Token)
    requires Behaviour(ss, es) && i < j < |es| && LeavesLoggedOut(es[i], t)
    requires forall k | i < k < j && es[k].Login? && es[k].t == t :: !LoginSucceeds(ss[k].server.db, es[k].request)
    requires es[j] == PlayerData(t, true)
    ensures AnswerTo(ss[j], es[j]) == Some(Plain(false, "needLogin")) && ss[j + 1] == ss[j]
  {
    hide Inv;
    hide Apply;
    hide Enabled;
    hide LoginSucceeds;
    StepAt(ss, es, i);
    AfterLeaving(ss[i], es[i], t);
    StaysLoggedOut(ss, es, i + 1, j, t);
    StepAt(ss, es, j);
    hide Behaviour;
    hide LoginId;
    ConnectedHasRecord(ss[j], es[j], t);
  }

  lemma ConnectedHasRecord(s: System, e: Event, t: Token)
    requires Inv(s) && Enabled(s, e) && e == PlayerData(t, true)
    ensures ClientKey(t) in s.server.db && Apply(s, e) == s
    ensures LoginId(s.server.db, t).Some? ==> AccountKey(LoginId(s.server.db, t).value) in s.server.db
  {
    hide Render;
    hide Decimal;
    assert ClientAgrees(s.server, t);
  }

  /**
   * Every answer to a request for player data in every run: "invalidToken" and "invalidId" never
   * occur, a request that did not parse is told so, and any other is answered by the login alone.
   */
  lemma PlayerDataAnswered(ss: seq<System>, es: seq<Event>, j: nat, t: Token, wellFormed: bool)
    requires Behaviour(ss, es) && j < |es| && es[j] == PlayerData(t, wellFormed)
    ensures ss[j + 1] == ss[j]
    ensures var db := ss[j].server.db;
            AnswerTo(ss[j], es[j])
            == Some(if !wellFormed then Plain(false, "parsingError")
                    else if LoginId(db, t) == None then Plain(false, "needLogin")
                    else
                      var account := FieldsOf(db, AccountKey(LoginId(db, t).value));
                      if "nickname" in account && "personalColor" in account
                      then Response(true, "ok", account["nickname"], account["personalColor"])
                      else Undefined)
  {
    hide Inv;
    StepAt(ss, es, j);
    hide Behaviour;
    if wellFormed {
      ConnectedHasRecord(ss[j], es[j], t);
    }
  }

  // ---------------------------------------------------------------- no change without acceptance

  /** In every run, whatever is answered with a false result leaves store, memory and sockets as they were. */
  lemma RefusalChangesNothing(ss: seq<System>, es: seq<Event>, i: nat)
    requires Behaviour(ss, es) && i < |es|
    requires AnswerTo(ss[i], es[i]).Some? && AnswerTo(ss[i], es[i]).value.Response? && !AnswerTo(ss[i], es[i]).value.result
    ensures ss[i + 1] == ss[i]
  {
    assert ss[i + 1] == Apply(ss[i], es[i]) && Enabled(ss[i], es[i]);
    hide Behaviour;
    hide RegisterAnswer;
    hide LoginAnswer;
    hide PlayerDataAnswer;
  }

  // ---------------------------------------------------------------- connect, logout and disconnect

  /** A connect writes one record, with the time, and an empty login key. */
  lemma ConnectEffect(s: State, t: Token, time: string)
    requires ClientKey(t) !in s.db
    ensures Connected(s, t, time) == State(s.db[ClientKey(t) := map["ConnectedTime" := time]], s.clients[t := ""])
  {
  }

  /** A logout of a logged-in client removes its login record and its login id and nothing else. */
  lemma LogoutEffect(s: State, t: Token, k: Key)
    requires t in s.clients
    ensures var s' := LoggedOut(s, t);
            match LoginId(s.db, t)
            case None => s' == s
            case Some(id) =>
              && LoginKey(id) !in s'.db
              && FieldsOf(s'.db, ClientKey(t)) == FieldsOf(s.db, ClientKey(t)) - {"loginId"}
              && (k != ClientKey(t) && k != LoginKey(id) ==> (k in s'.db <==> k in s.db) && FieldsOf(s'.db, k) == FieldsOf(s.db, k))
              && s'.clients == s.clients[t := "noLogined"]
  {
  }

  /** A disconnect removes the client, its record and its login record and nothing else. */
  lemma DisconnectEffect(s: State, t: Token, k: Key)
    requires t in s.clients
    ensures var s' := Disconnected(s, t);
            && s'.clients == s.clients - {t} && ClientKey(t) !in s'.db
            && (LoginId(s.db, t).Some? ==> LoginKey(LoginId(s.db, t).value) !in s'.db)
            && (k != ClientKey(t) && (k.LoginKey? ==> LoginId(s.db, t) != Some(k.id))
                ==> (k in s'.db <==> k in s.db) && FieldsOf(s'.db, k) == FieldsOf(s.db, k))
  {
  }

  /** t has logged in since its connect, before event i. */
  ghost predicate HasLoggedIn(ss: seq<System>, es: seq<Event>, i: nat, t: Token)
    requires i <= |es| < |ss|
  {
    i > 0 && !(es[i - 1].Connect? && es[i - 1].t == t)
    && ((es[i - 1].Login? && es[i - 1].t == t && LoginSucceeds(ss[i - 1].server.db, es[i - 1].request))
        || HasLoggedIn(ss, es, i - 1, t))
  }

  /** The login key in memory, from the record and from whether there was a login. */
  ghost predicate MemoryKey(s: State, t: Token, before: bool) {
    t in s.clients ==>
      match LoginId(s.db, t)
      case Some(id) => before && s.clients[t] == "logined:" + id
      case None => s.clients[t] == if before then "noLogined" else ""
  }

  lemma ApplyKeepsMemoryKey(s: System, e: Event, t: Token, before: bool)
    requires Inv(s) && Enabled(s, e) && MemoryKey(s.server, t, before)
    ensures MemoryKey(Apply(s, e).server, t,
                      !(e.Connect? && e.t == t)
                      && ((e.Login? && e.t == t && LoginSucceeds(s.server.db, e.request)) || before))
  {
    hide ClientAgrees;
    hide LoginAnswer;
    hide RegisterAnswer;
    hide AccountFields;
    hide Decimal;
  }

  /**
   * In every run the key in memory is that of the login; without a login it is "noLogined" if the
   * client has logged in since its connect, and empty if it has not.
   */
  lemma {:induction false} MemoryKeyAlways(ss: seq<System>, es: seq<Event>, i: nat, t: Token)
    requires Behaviour(ss, es) && i < |ss|
    ensures MemoryKey(ss[i].server, t, HasLoggedIn(ss, es, i, t))
  {
    if i > 0 {
      hide MemoryKey;
      hide LoginSucceeds;
      hide Apply;
      hide Enabled;
      hide Inv;
      MemoryKeyAlways(ss, es, i - 1, t);
      StepAt(ss, es, i - 1);
      ApplyKeepsMemoryKey(ss[i - 1], es[i - 1], t, HasLoggedIn(ss, es, i - 1, t));
    }
  }
}
