/**
 * The handlers of src/Server.cpp as they run: one Redis operation after another on string
 * keys.  Each is proved to be the corresponding step of Sessions on the typed tables.
 */
module ServerImpl {
  import opened Options
  import opened RedisStore
  import opened PasswordHash
  import opened Sessions

  class Server {
    var store: Store
    var clients: map<Token, string>

    ghost function Abs(): State
      reads this
    {
      State(View(store), clients)
    }

    constructor (store: Store)
      ensures Abs() == State(View(store), map[])
    {
      this.store := store;
      clients := map[];
    }

    method AddClient(t: Token, time: string)
      modifies this
      ensures Abs() == Connected(old(Abs()), t, time)
      ensures SameElsewhere(old(store), store)
    {
      hide Render;
      hide View;
      clients := clients[t := ""];
      var key := Render(ClientKey(t));
      SetCommutes(store, ClientKey(t), "ConnectedTime", time);
      store := HashSet(store, key, "ConnectedTime", time);
    }

    method RemoveClient(t: Token)
      modifies this
      ensures Abs() == State(Del(old(View(store)), ClientKey(t)), old(clients) - {t})
      ensures SameElsewhere(old(store), store)
    {
      hide Render;
      hide View;
      DelCommutes(store, ClientKey(t));
      store := Del(store, Render(ClientKey(t)));
      clients := clients - {t};
    }

    method HandleRequestCreationAccount(req: Option<RegisterRequest>) returns (r: Response)
      requires req.Some? ==> |req.value.password| <= 4096  // it came in one read
      modifies this
      ensures r == RegisterAnswer(old(View(store)), req)
      ensures Abs() == Registered(old(Abs()), req)
      ensures SameElsewhere(old(store), store)
    {
      hide Render;
      hide View;
      hide Printed;
      if req.None? {
        return Plain(false, "parsingError");
      }
      var RegisterRequest(id, password, nickname, color) := req.value;
      var idStr := Render(AccountKey(id));
      GetCommutes(store, AccountKey(id), "");
      if |id| < 2 {
        return Plain(false, "idLength<2");
      } else if |password| < 2 {
        return Plain(false, "passwordLength<2");
      } else if |nickname| < 2 {
        return Plain(false, "nicknameLength<2");
      } else if idStr in store {
        return Plain(false, "idAleadyInUse");
      }
      StoreAccount(req.value);
      r := Plain(true, "ok");
    }

    /** The three writes of a registration, password first. */
    method StoreAccount(q: RegisterRequest)
      requires |q.password| <= 4096 && AccountKey(q.id) !in View(store)
      modifies this`store
      ensures View(store) == old(View(store))[AccountKey(q.id) := AccountFields(q)]
      ensures SameElsewhere(old(store), store)
    {
      hide Render;
      hide View;
      hide Printed;
      hide HashSet;
      hide AccountFields;
      var k, idStr := AccountKey(q.id), Render(AccountKey(q.id));
      AccountWrites(View(store), q);
      var passwordHash := PasswordHashOf(q.password);
      SetCommutes(store, k, "password", passwordHash);
      store := HashSet(store, idStr, "password", passwordHash);
      ghost var s1 := store;
      SetCommutes(store, k, "nickname", q.nickname);
      store := HashSet(store, idStr, "nickname", q.nickname);
      SameElsewhereTransitive(old(store), s1, store);
      ghost var s2 := store;
      SetCommutes(store, k, "personalColor", q.color);
      store := HashSet(store, idStr, "personalColor", q.color);
      SameElsewhereTransitive(old(store), s2, store);
    }

    method HandleRequestLogin(t: Token, req: Option<LoginRequest>, time: string) returns (r: Response)
      requires t in clients
      requires req.Some? ==> |req.value.password| <= 4096
      modifies this
      ensures r == LoginAnswer(old(View(store)), req)
      ensures Abs() == LoggedIn(old(Abs()), t, req, time)
      ensures SameElsewhere(old(store), store)
    {
      hide Render;
      hide View;
      hide Printed;
      hide Decimal;
      hide HashSet;
      if req.None? {
        return Plain(false, "parsingError");
      }
      var LoginRequest(id, password) := req.value;
      var idKey, loginedKey := Render(AccountKey(id)), Render(LoginKey(id));
      var passwordHash := PasswordHashOf(password);
      GetCommutes(store, AccountKey(id), "password");
      GetCommutes(store, LoginKey(id), "");
      if idKey !in store {
        return Plain(false, "idDoesNotExsist");
      }
      var stored := HashGet(store, idKey, "password");
      if stored == None {
        return Undefined;
      } else if stored.value != passwordHash {
        return Plain(false, "passwordMismatch");
      } else if loginedKey in store {
        return Plain(false, "loginedAlready");
      }
      RecordLogin(t, id, time);
      clients := clients[t := loginedKey];
      r := Plain(true, "ok");
    }

    /** The three writes of a login. */
    method RecordLogin(t: Token, id: string, time: string)
      requires LoginKey(id) !in View(store)
      modifies this`store
      ensures View(store) == HashSet(old(View(store)), ClientKey(t), "loginId", id)
                             [LoginKey(id) := map["token" := Decimal(t), "loginTime" := time]]
      ensures SameElsewhere(old(store), store)
    {
      hide Render;
      hide View;
      hide Decimal;
      hide HashSet;
      var clientKey, loginedKey := Render(ClientKey(t)), Render(LoginKey(id));
      LoginWrites(View(store), t, id, time);
      SetCommutes(store, ClientKey(t), "loginId", id);
      store := HashSet(store, clientKey, "loginId", id);
      ghost var s1 := store;
      SetCommutes(store, LoginKey(id), "token", Decimal(t));
      store := HashSet(store, loginedKey, "token", Decimal(t));
      SameElsewhereTransitive(old(store), s1, store);
      ghost var s2 := store;
      SetCommutes(store, LoginKey(id), "loginTime", time);
      store := HashSet(store, loginedKey, "loginTime", time);
      SameElsewhereTransitive(old(store), s2, store);
    }

    /** Reads only. */
    method HandleRequestPlayerData(t: Token, wellFormed: bool) returns (r: Response)
      ensures r == PlayerDataAnswer(View(store), t, wellFormed)
    {
      hide Render;
      hide View;
      if !wellFormed {
        return Plain(false, "parsingError");
      }
      var clientKey := Render(ClientKey(t));
      GetCommutes(store, ClientKey(t), "loginId");
      if clientKey !in store {
        return Plain(false, "invalidToken");
      }
      var loginId := HashGet(store, clientKey, "loginId");
      if loginId == None {
        return Plain(false, "needLogin");
      }
      var id := loginId.value;
      var idKey := Render(AccountKey(id));
      GetCommutes(store, AccountKey(id), "nickname");
      GetCommutes(store, AccountKey(id), "personalColor");
      if idKey !in store {
        return Plain(false, "invalidId");
      }
      var nickname := HashGet(store, idKey, "nickname");
      var color := HashGet(store, idKey, "personalColor");
      if nickname == None || color == None {
        return Undefined;
      }
      r := Response(true, "ok", nickname.value, color.value);
    }

    method HandleRequestLogout(t: Token, wellFormed: bool)
      requires t in clients
      modifies this
      ensures Abs() == if wellFormed then LoggedOut(old(Abs()), t) else old(Abs())
      ensures SameElsewhere(old(store), store)
    {
      if wellFormed {
        LogoutClient(t);
      }
    }

    method LogoutClient(t: Token)
      requires t in clients
      modifies this
      ensures Abs() == LoggedOut(old(Abs()), t)
      ensures SameElsewhere(old(store), store)
    {
      hide Render;
      hide View;
      var clientKey := Render(ClientKey(t));
      GetCommutes(store, ClientKey(t), "loginId");
      if clientKey !in store {
        return;
      }
      var loginId := HashGet(store, clientKey, "loginId");
      if loginId == None {
        return;
      }
      var loginedKey := Render(LoginKey(loginId.value));
      clients := clients[t := "noLogined"];
      DelCommutes(store, LoginKey(loginId.value));
      store := Del(store, loginedKey);
      ghost var s1 := store;
      HashDelCommutes(store, ClientKey(t), "loginId");
      store := HashDel(store, clientKey, "loginId");
      SameElsewhereTransitive(old(store), s1, store);
    }

    /** The error handler a client is given when it is added. */
    method OnDisconnect(t: Token)
      requires t in clients
      modifies this
      ensures Abs() == Disconnected(old(Abs()), t)
      ensures SameElsewhere(old(store), store)
    {
      LogoutClient(t);
      ghost var s1 := store;
      RemoveClient(t);
      SameElsewhereTransitive(old(store), s1, store);
    }
  }

  // ---------------------------------------------------------------- start-up

  /** Scan("p*") lists every key with prefix p at least once, and nothing else. */
  ghost predicate IsScan(store: Store, prefix: string, keys: seq<string>) {
    && (forall k | k in store && prefix <= k :: k in keys)
    && (forall k | k in keys :: prefix <= k)
  }

  predicate IsSessionKey(k: string) {
    "client:" <= k || "logined:" <= k
  }

  /** The start-up loop of src/main.cpp, for any store and any order and repetition of scan results. */
  method StartUp(store: Store, scan1: seq<string>, scan2: seq<string>) returns (r: Store)
    requires IsScan(store, "client:", scan1) && IsScan(store, "logined:", scan2)
    ensures r == map k | k in store && !IsSessionKey(k) :: store[k]
    ensures forall clients :: View(r) == Restarted(State(View(store), clients)).db
    ensures Booted(System(State(View(r), map[]), {}))
  {
    hide View;
    var keys := scan1 + scan2;
    r := store;
    for i := 0 to |keys|
      invariant r == map k | k in store && k !in keys[..i] :: store[k]
    {
      assert keys[..i + 1] == keys[..i] + [keys[i]];
      r := Del(r, keys[i]);
    }
    assert keys[..|keys|] == keys;
    assert forall k | k in store :: k in keys <==> IsSessionKey(k);
    StartUpView(store, r);
  }

  lemma StartUpView(store: Store, r: Store)
    requires r == map k | k in store && !IsSessionKey(k) :: store[k]
    ensures forall clients :: View(r) == Restarted(State(View(store), clients)).db
    ensures forall k | k in View(r) :: k.AccountKey?
  {
    hide View;
    var db := map k | k in View(store) && k.AccountKey? :: View(store)[k];
    forall k: Key
      ensures IsSessionKey(Render(k)) <==> !k.AccountKey?
    {
      SessionKeyFamilies(k);
    }
    hide Render;
    hide IsSessionKey;
    RepresentsUnique(r, View(r), db);
  }

  lemma SessionKeyFamilies(k: Key)
    ensures IsSessionKey(Render(k)) <==> !k.AccountKey?
  {
    if k.AccountKey? {
      assert Render(k)[0] == 'i';
    }
  }
}
