/**
 * The Redis operations the server uses (src/redisService.cpp), on hashes only, and the
 * key families it lays over one flat string key space.
 */
module RedisStore {
  import opened Options

  type Fields = map<string, string>

  // ---------------------------------------------------------------- hashes, for any key type

  function FieldsOf<K>(s: map<K, Fields>, k: K): Fields {
    if k in s then s[k] else map[]
  }

  function HashGet<K>(s: map<K, Fields>, k: K, f: string): Option<string> {
    if f in FieldsOf(s, k) then Some(FieldsOf(s, k)[f]) else None
  }

  function HashSet<K>(s: map<K, Fields>, k: K, f: string, v: string): map<K, Fields> {
    s[k := FieldsOf(s, k)[f := v]]
  }

  /** Removing the last field removes the key. */
  function HashDel<K>(s: map<K, Fields>, k: K, f: string): map<K, Fields> {
    var rest := FieldsOf(s, k) - {f};
    if rest == map[] then s - {k} else s[k := rest]
  }

  function Del<K>(s: map<K, Fields>, k: K): map<K, Fields> {
    s - {k}
  }

  /** Redis keeps no key without a field. */
  ghost predicate NoEmptyHash<K>(s: map<K, Fields>) {
    forall k | k in s :: s[k] != map[]
  }

  lemma OperationsKeepNoEmptyHash<K>(s: map<K, Fields>, k: K, f: string, v: string)
    requires NoEmptyHash(s)
    ensures NoEmptyHash(HashSet(s, k, f, v)) && NoEmptyHash(HashDel(s, k, f)) && NoEmptyHash(Del(s, k))
  {
    assert f in FieldsOf(s, k)[f := v];
  }

  // ---------------------------------------------------------------- decimal tokens

  type Token = t: int | 0 <= t < 0x1_0000_0000_0000_0000

  function Digit(n: nat): char
    requires n < 10
  {
    "0123456789"[n]
  }

  /** What `std::to_string` and `std::format("{}")` print for an unsigned number. */
  function Decimal(n: nat): (s: string)
    ensures |s| > 0
  {
    if n < 10 then [Digit(n)] else Decimal(n / 10) + [Digit(n % 10)]
  }

  lemma DigitInjective(m: nat, n: nat)
    requires m < 10 && n < 10 && Digit(m) == Digit(n)
    ensures m == n
  {
  }

  lemma {:induction false} DecimalInjective(m: nat, n: nat)
    requires Decimal(m) == Decimal(n)
    ensures m == n
  {
    hide Digit;
    var s, t := Decimal(m), Decimal(n);
    assert s[|s| - 1] == Digit(m % 10) && t[|t| - 1] == Digit(n % 10);
    DigitInjective(m % 10, n % 10);
    if m >= 10 && n >= 10 {
      assert Decimal(m / 10) == s[..|s| - 1] && Decimal(n / 10) == t[..|t| - 1];
      DecimalInjective(m / 10, n / 10);
    }
  }

  /** The number a string of digits stands for; no meaning for other strings. */
  function ReadDecimal(s: string): int {
    if s == [] then 0 else 10 * ReadDecimal(s[..|s| - 1]) + (s[|s| - 1] as int - '0' as int)
  }

  lemma DigitReads(n: nat)
    requires n < 10
    ensures '0' <= Digit(n) <= '9' && Digit(n) as int - '0' as int == n
  {
  }

  /** Printed numbers are digits without a leading zero, and read back. */
  lemma {:induction false} DecimalReads(n: nat)
    ensures ReadDecimal(Decimal(n)) == n
    ensures forall i | 0 <= i < |Decimal(n)| :: '0' <= Decimal(n)[i] <= '9'
    ensures n > 0 ==> Decimal(n)[0] != '0'
  {
    hide Digit;
    DigitReads(n % 10);
    if n < 10 {
      assert Decimal(n)[..0] == [];
    } else {
      DecimalReads(n / 10);
      assert Decimal(n)[..|Decimal(n)| - 1] == Decimal(n / 10);
    }
  }

  // ---------------------------------------------------------------- the three key families

  /** The keys the server forms, before they are rendered as strings. */
  datatype Key = ClientKey(token: Token) | AccountKey(id: string) | LoginKey(id: string)

  function Render(k: Key): string {
    match k
    case ClientKey(t) => "client:" + Decimal(t)
    case AccountKey(id) => "id:" + id
    case LoginKey(id) => "logined:" + id
  }

  /** No two keys of the server collide, within a family or across families, for any id strings. */
  lemma RenderInjective(j: Key, k: Key)
    requires Render(j) == Render(k)
    ensures j == k
  {
    assert Render(j)[0] == Render(k)[0];
    match j
    case ClientKey(t) =>
      assert Decimal(t) == Render(j)[7..] == Render(k)[7..];
      DecimalInjective(t, k.token);
    case AccountKey(id) =>
      assert id == Render(j)[3..] == Render(k)[3..];
    case LoginKey(id) =>
      assert id == Render(j)[8..] == Render(k)[8..];
  }

  type Store = map<string, Fields>
  type Db = map<Key, Fields>

  /** db is the typed reading of the flat store s. */
  ghost predicate Represents(s: Store, db: Db) {
    forall k: Key :: (k in db <==> Render(k) in s) && (k in db ==> db[k] == s[Render(k)])
  }

  ghost function KeyOf(key: string): (k: Key)
    requires exists k :: Render(k) == key
    ensures Render(k) == key
  {
    var k :| Render(k) == key;
    k
  }

  /** The typed tables inside a flat store; keys outside the three families are not seen. */
  ghost function View(s: Store): (db: Db)
    ensures Represents(s, db)
  {
    hide Render;
    var db := map key | key in s && exists k :: Render(k) == key :: KeyOf(key) := s[key];
    ViewRepresents(s, db);
    db
  }

  lemma ViewRepresents(s: Store, db: Db)
    requires db == map key | key in s && exists k :: Render(k) == key :: KeyOf(key) := s[key]
    ensures Represents(s, db)
  {
    hide Render;
    forall k: Key
      ensures (k in db <==> Render(k) in s) && (k in db ==> db[k] == s[Render(k)])
    {
      if Render(k) in s {
        RenderInjective(KeyOf(Render(k)), k);
      }
    }
  }

  lemma RepresentsUnique(s: Store, a: Db, b: Db)
    requires Represents(s, a) && Represents(s, b)
    ensures a == b
  {
    hide Render;
    assert forall k :: k in a <==> k in b;
    assert a.Keys == b.Keys;
  }

  /** Where the three tables are in the flat store. */
  lemma FlatKeys(s: Store, t: Token, id: string)
    ensures FieldsOf(View(s), ClientKey(t)) == FieldsOf(s, "client:" + Decimal(t))
    ensures FieldsOf(View(s), AccountKey(id)) == FieldsOf(s, "id:" + id)
    ensures FieldsOf(View(s), LoginKey(id)) == FieldsOf(s, "logined:" + id)
    ensures ClientKey(t) in View(s) <==> "client:" + Decimal(t) in s
    ensures AccountKey(id) in View(s) <==> "id:" + id in s
    ensures LoginKey(id) in View(s) <==> "logined:" + id in s
  {
    hide Decimal;
    hide View;
    assert Render(ClientKey(t)) == "client:" + Decimal(t);
    assert Render(AccountKey(id)) == "id:" + id;
    assert Render(LoginKey(id)) == "logined:" + id;
    hide Render;
    assert Represents(s, View(s));
  }

  // ---------------------------------------------------------------- keys of nobody

  /** The two stores agree on every key that is none of the server's. */
  ghost predicate SameElsewhere(s: Store, s': Store) {
    forall key | forall k :: Render(k) != key :: (key in s <==> key in s') && FieldsOf(s, key) == FieldsOf(s', key)
  }

  lemma OperationsStayInside(s: Store, k: Key, f: string, v: string)
    ensures SameElsewhere(s, HashSet(s, Render(k), f, v))
    ensures SameElsewhere(s, HashDel(s, Render(k), f))
    ensures SameElsewhere(s, Del(s, Render(k)))
  {
    hide Render;
  }

  lemma SameElsewhereTransitive(a: Store, b: Store, c: Store)
    requires SameElsewhere(a, b) && SameElsewhere(b, c)
    ensures SameElsewhere(a, c)
  {
    hide Render;
    hide FieldsOf;
  }

  /** The typed tables and the other keys together are the whole store. */
  lemma StoreDetermined(s: Store, s': Store)
    requires View(s) == View(s') && SameElsewhere(s, s')
    ensures s == s'
  {
    hide Render;
    hide View;
    assert Represents(s, View(s)) && Represents(s', View(s));
    forall key
      ensures (key in s <==> key in s') && FieldsOf(s, key) == FieldsOf(s', key)
    {
      if k :| Render(k) == key {
        assert k in View(s) <==> Render(k) in s;
      }
    }
    assert s.Keys == s'.Keys;
    assert forall key | key in s :: s[key] == FieldsOf(s, key);
  }

  // ---------------------------------------------------------------- the operations on typed tables

  lemma PutCommutes(s: Store, k: Key, fields: Fields)
    ensures View(s[Render(k) := fields]) == View(s)[k := fields]
  {
    hide Render;
    hide View;
    var s', db' := s[Render(k) := fields], View(s)[k := fields];
    forall j: Key
      ensures (j in db' <==> Render(j) in s') && (j in db' ==> db'[j] == s'[Render(j)])
    {
      if Render(j) == Render(k) {
        RenderInjective(j, k);
      }
    }
    RepresentsUnique(s', View(s'), db');
  }

  lemma DelCommutes(s: Store, k: Key)
    ensures View(Del(s, Render(k))) == Del(View(s), k)
    ensures SameElsewhere(s, Del(s, Render(k)))
  {
    OperationsStayInside(s, k, "", "");
    hide Render;
    hide View;
    hide SameElsewhere;
    var s', db' := Del(s, Render(k)), Del(View(s), k);
    forall j: Key
      ensures (j in db' <==> Render(j) in s') && (j in db' ==> db'[j] == s'[Render(j)])
    {
      if Render(j) == Render(k) {
        RenderInjective(j, k);
      }
    }
    RepresentsUnique(s', View(s'), db');
  }

  // Every operation on a rendered key acts on the typed tables as the same operation on the key,
  // and on no other key.

  lemma GetCommutes(s: Store, k: Key, f: string)
    ensures Render(k) in s <==> k in View(s)
    ensures FieldsOf(s, Render(k)) == FieldsOf(View(s), k)
    ensures HashGet(s, Render(k), f) == HashGet(View(s), k, f)
  {
    hide Render;
    hide View;
  }

  lemma SetCommutes(s: Store, k: Key, f: string, v: string)
    ensures View(HashSet(s, Render(k), f, v)) == HashSet(View(s), k, f, v)
    ensures SameElsewhere(s, HashSet(s, Render(k), f, v))
  {
    OperationsStayInside(s, k, f, v);
    hide Render;
    hide View;
    hide SameElsewhere;
    GetCommutes(s, k, f);
    PutCommutes(s, k, FieldsOf(s, Render(k))[f := v]);
  }

  lemma HashDelCommutes(s: Store, k: Key, f: string)
    ensures View(HashDel(s, Render(k), f)) == HashDel(View(s), k, f)
    ensures SameElsewhere(s, HashDel(s, Render(k), f))
  {
    OperationsStayInside(s, k, f, "");
    hide Render;
    hide View;
    hide SameElsewhere;
    GetCommutes(s, k, f);
    PutCommutes(s, k, FieldsOf(s, Render(k)) - {f});
    DelCommutes(s, k);
  }
}
