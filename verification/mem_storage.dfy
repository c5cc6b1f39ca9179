/*
 * The server's in-memory store: three id-keyed tables (users, exchange API
 * keys, user settings) with one id counter each. A JavaScript Map iterates
 * in insertion order, so each table is an association list of entries in
 * insertion order; `set` on a present key replaces the value in place,
 * `delete` drops the entry. Timestamps are passed in as `now`.
 */
module MemStorage {
  import opened Wrappers
  import opened Sequences

  // ------------------------------------------------------------ ordered tables

  datatype Entry<V> = Entry(key: int, value: V)

  /** Some entry holds key k. */
  predicate HasKey<V>(m: seq<Entry<V>>, k: int) {
    exists i :: 0 <= i < |m| && m[i].key == k
  }

  /** Iteration order of `values()`: insertion order. */
  function Values<V>(m: seq<Entry<V>>): (r: seq<V>)
    ensures |r| == |m| && forall i :: 0 <= i < |m| ==> r[i] == m[i].value
  {
    seq(|m|, i requires 0 <= i < |m| => m[i].value)
  }

  /** A Map never holds a key twice. */
  predicate UniqueKeys<V>(m: seq<Entry<V>>) {
    forall i, j :: 0 <= i < j < |m| ==> m[i].key != m[j].key
  }

  /** Where key k sits, or -1. */
  function IndexOf<V>(m: seq<Entry<V>>, k: int): (i: int)
    ensures -1 <= i < |m|
    ensures i == -1 <==> !HasKey(m, k)
    ensures 0 <= i ==> m[i].key == k && forall j :: 0 <= j < i ==> m[j].key != k
  {
    FindFirst((e: Entry<V>) => e.key == k, m)
  }

  /** Tables with the same keys in the same places find every key in the same place. */
  lemma SameKeysSameIndex<V>(m: seq<Entry<V>>, r: seq<Entry<V>>, k: int)
    requires |m| == |r| && forall p :: 0 <= p < |m| ==> m[p].key == r[p].key
    ensures IndexOf(m, k) == IndexOf(r, k)
  {
  }

  /** `get`: the value stored under k, if any. */
  function Get<V>(m: seq<Entry<V>>, k: int): (r: Option<V>)
    ensures r.None? <==> !HasKey(m, k)
    ensures r.Some? ==> exists i :: 0 <= i < |m| && m[i].key == k && m[i].value == r.value
    ensures UniqueKeys(m) ==> forall i :: 0 <= i < |m| && m[i].key == k ==> r == Some(m[i].value)
  {
    var i := IndexOf(m, k);
    if i < 0 then None else Some(m[i].value)
  }

  /** `set`: replace the value of a present key where it stands, or append a new entry. */
  function Set<V>(m: seq<Entry<V>>, k: int, v: V): (r: seq<Entry<V>>)
    ensures HasKey(m, k) ==> |r| == |m| && forall p :: 0 <= p < |m| ==> r[p].key == m[p].key
    ensures !HasKey(m, k) ==> r == m + [Entry(k, v)]
  {
    var i := IndexOf(m, k);
    if i < 0 then m + [Entry(k, v)] else m[i := Entry(k, v)]
  }

  /** After `set`, k reads v and every other key reads as before; a Map stays a Map. */
  lemma SetGet<V>(m: seq<Entry<V>>, k: int, v: V)
    ensures Get(Set(m, k, v), k) == Some(v)
    ensures forall j :: j != k ==> Get(Set(m, k, v), j) == Get(m, j)
    ensures UniqueKeys(m) ==> UniqueKeys(Set(m, k, v))
  {
    var r := Set(m, k, v);
    if HasKey(m, k) {
      forall j ensures IndexOf(r, j) == IndexOf(m, j) {
        SameKeysSameIndex(m, r, j);
      }
    } else {
      forall j | j != k ensures Get(r, j) == Get(m, j) {
        var i := IndexOf(m, j);
        if i < 0 {
          assert !HasKey(r, j);
        } else {
          assert r[i].key == j;
          assert IndexOf(r, j) == i;
        }
      }
      assert r[|m|].key == k;
      assert forall p :: 0 <= p < |m| ==> r[p].key != k;
      assert IndexOf(r, k) == |m|;
    }
  }

  /** `delete`: drop the entry of key k, if there is one. */
  function Delete<V(==,!new)>(m: seq<Entry<V>>, k: int): (r: seq<Entry<V>>)
    ensures !HasKey(r, k)
    ensures forall e :: e in r <==> e in m && e.key != k
    ensures !HasKey(m, k) ==> r == m
    ensures IsSubsequence(r, m)
  {
    var r := Filter((e: Entry<V>) => e.key != k, m);
    assert forall i :: 0 <= i < |r| ==> r[i].key != k by {
      forall i | 0 <= i < |r| ensures r[i].key != k {
        assert r[i] in r;
      }
    }
    assert !HasKey(m, k) ==> r == m by {
      if !HasKey(m, k) {
        FilterKeepsAll((e: Entry<V>) => e.key != k, m);
      }
    }
    r
  }

  /** After `delete`, k reads nothing and every other key of a Map reads as before; a Map stays a Map. */
  lemma DeleteGet<V(!new)>(m: seq<Entry<V>>, k: int)
    requires UniqueKeys(m)
    ensures Get(Delete(m, k), k).None?
    ensures forall j :: j != k ==> Get(Delete(m, k), j) == Get(m, j)
    ensures UniqueKeys(Delete(m, k))
  {
    var r := Delete(m, k);
    FilterNoDuplicates((e: Entry<V>) => e.key != k, m);
    assert UniqueKeys(r) by {
      forall i, j | 0 <= i < j < |r| ensures r[i].key != r[j].key {
        assert r[i] != r[j] by { assert NoDuplicates(r); }
        assert r[i] in m && r[j] in m;
        var a :| 0 <= a < |m| && m[a] == r[i];
        var b :| 0 <= b < |m| && m[b] == r[j];
      }
    }
    forall j | j != k ensures Get(r, j) == Get(m, j) {
      var gr, gm := Get(r, j), Get(m, j);
      if gm.Some? {
        var i :| 0 <= i < |m| && m[i].key == j && m[i].value == gm.value;
        assert m[i] in r;
        var p :| 0 <= p < |r| && r[p] == m[i];
      }
      if gr.Some? {
        var p :| 0 <= p < |r| && r[p].key == j && r[p].value == gr.value;
        assert r[p] in m;
      }
    }
  }

  // ------------------------------------------------------------ records

  /** A stored user; `phone` and `country` are optional. */
  datatype User = User(
    id: int,
    username: string,
    password: string,
    email: string,
    firstName: string,
    lastName: string,
    phone: Option<string>,
    country: Option<string>,
    createdAt: int,
    updatedAt: int,
    subscription: string,
    apiUsageLimit: int,
    apiUsageCount: int)

  datatype InsertUser = InsertUser(
    username: string,
    password: string,
    email: string,
    firstName: string,
    lastName: string,
    phone: Option<string>,
    country: Option<string>)

  datatype ApiKey = ApiKey(
    id: int,
    userId: int,
    name: string,
    apiKey: string,
    apiSecret: string,
    createdAt: int,
    updatedAt: int,
    isActive: bool)

  datatype InsertApiKey = InsertApiKey(userId: int, name: string, apiKey: string, apiSecret: string)

  /**
   * Stored settings. The store copies whatever the insert object holds, so
   * a switch the caller left out stays unset (None): the column defaults
   * belong to the database, not to this store.
   */
  datatype Settings = Settings(
    id: int,
    userId: int,
    darkMode: Option<bool>,
    realTimeUpdates: Option<bool>,
    autoExecuteTrades: Option<bool>,
    priceAlerts: Option<bool>,
    updatedAt: int)

  datatype InsertSettings = InsertSettings(
    userId: int,
    darkMode: Option<bool>,
    realTimeUpdates: Option<bool>,
    autoExecuteTrades: Option<bool>,
    priceAlerts: Option<bool>)

  /** A partial update: None leaves the field alone, Some replaces it. */
  datatype SettingsPatch = SettingsPatch(
    userId: Option<int>,
    darkMode: Option<bool>,
    realTimeUpdates: Option<bool>,
    autoExecuteTrades: Option<bool>,
    priceAlerts: Option<bool>)

  const DefaultSubscription: string := "Free"
  const DefaultApiUsageLimit: int := 100

  // ------------------------------------------------------------ the store

  datatype Store = Store(
    users: seq<Entry<User>>,
    apiKeys: seq<Entry<ApiKey>>,
    settings: seq<Entry<Settings>>,
    userCurrentId: int,
    apiKeyCurrentId: int,
    settingsCurrentId: int)

  /** A fresh store: empty tables, every counter at 1. */
  const Empty: Store := Store([], [], [], 1, 1, 1)

  /** Every key lies in [1, bound), and each record sits under its own id. */
  predicate TableValid<V>(m: seq<Entry<V>>, bound: int, id: V -> int) {
    UniqueKeys(m) && forall i :: 0 <= i < |m| ==> 1 <= m[i].key < bound && id(m[i].value) == m[i].key
  }

  /** Every id in use lies in [1, counter) of its table, and each record sits under its own id. */
  predicate Valid(s: Store) {
    && TableValid(s.users, s.userCurrentId, (u: User) => u.id)
    && TableValid(s.apiKeys, s.apiKeyCurrentId, (k: ApiKey) => k.id)
    && TableValid(s.settings, s.settingsCurrentId, (st: Settings) => st.id)
    && s.userCurrentId >= 1 && s.apiKeyCurrentId >= 1 && s.settingsCurrentId >= 1
  }

  lemma EmptyValid()
    ensures Valid(Empty)
  {
  }

  /** Storing a record under the table's counter, then bumping it, keeps the table valid; the counter was free. */
  lemma TableInsert<V>(m: seq<Entry<V>>, bound: int, id: V -> int, v: V)
    requires TableValid(m, bound, id) && id(v) == bound && bound >= 1
    ensures !HasKey(m, bound)
    ensures Set(m, bound, v) == m + [Entry(bound, v)]
    ensures TableValid(Set(m, bound, v), bound + 1, id)
  {
  }

  /** Replacing the record under a present key by one with the same id keeps the table valid. */
  lemma TableReplace<V>(m: seq<Entry<V>>, bound: int, id: V -> int, k: int, v: V)
    requires TableValid(m, bound, id) && HasKey(m, k) && id(v) == k
    ensures TableValid(Set(m, k, v), bound, id)
  {
    var r := Set(m, k, v);
    SetGet(m, k, v);
    forall p | 0 <= p < |r| ensures id(r[p].value) == r[p].key {
      if r[p].key == k {
        assert Get(r, k) == Some(r[p].value);
      } else {
        assert Get(r, r[p].key) == Some(r[p].value);
        assert Get(m, m[p].key) == Some(m[p].value);
      }
    }
  }

  /** Dropping a key keeps the table valid. */
  lemma TableDelete<V(!new)>(m: seq<Entry<V>>, bound: int, id: V -> int, k: int)
    requires TableValid(m, bound, id)
    ensures TableValid(Delete(m, k), bound, id)
  {
    DeleteGet(m, k);
    var r := Delete(m, k);
    forall p | 0 <= p < |r| ensures 1 <= r[p].key < bound && id(r[p].value) == r[p].key {
      assert r[p] in m;
      var q :| 0 <= q < |m| && m[q] == r[p];
    }
  }

  // ------------------------------------------------------------ users

  /** `getUser`: the stored user with that id, if any. */
  function GetUser(s: Store, id: int): (r: Option<User>)
    ensures r.Some? <==> HasKey(s.users, id)
    ensures Valid(s) ==> forall i :: 0 <= i < |s.users| && s.users[i].key == id ==> r == Some(s.users[i].value)
    ensures Valid(s) && r.Some? ==> r.value.id == id
    ensures Valid(s) && (id < 1 || id >= s.userCurrentId) ==> r.None?
  {
    Get(s.users, id)
  }

  /** `getUserByUsername`: the earliest-inserted user with that name, if any. */
  function GetUserByUsername(s: Store, username: string): (r: Option<User>)
    ensures r.None? <==> forall i :: 0 <= i < |s.users| ==> s.users[i].value.username != username
    ensures r.Some? ==>
      exists i :: (0 <= i < |s.users| && r.value == s.users[i].value
        && r.value.username == username
        && forall j :: 0 <= j < i ==> s.users[j].value.username != username)
  {
    Find((u: User) => u.username == username, Values(s.users))
  }

  /**
   * `createUser`: takes the current user counter as id and bumps it, stamps
   * both times with `now`, and fills in the Free plan with 100 calls and
   * none used. Names are not checked for duplicates.
   */
  function CreateUser(s: Store, input: InsertUser, now: int): (r: (Store, User))
    ensures r.1.id == s.userCurrentId && r.0.userCurrentId == s.userCurrentId + 1
    ensures r.1.username == input.username && r.1.password == input.password && r.1.email == input.email
      && r.1.firstName == input.firstName && r.1.lastName == input.lastName
      && r.1.phone == input.phone && r.1.country == input.country
    ensures r.1.createdAt == now && r.1.updatedAt == now
      && r.1.subscription == DefaultSubscription && r.1.apiUsageLimit == DefaultApiUsageLimit
      && r.1.apiUsageCount == 0
    ensures GetUser(r.0, r.1.id) == Some(r.1)
    ensures forall id :: id != r.1.id ==> GetUser(r.0, id) == GetUser(s, id)
    ensures r.0.apiKeys == s.apiKeys && r.0.settings == s.settings
      && r.0.apiKeyCurrentId == s.apiKeyCurrentId && r.0.settingsCurrentId == s.settingsCurrentId
    ensures Valid(s) ==> Valid(r.0) && GetUser(s, r.1.id).None? && r.0.users == s.users + [Entry(r.1.id, r.1)]
  {
    var id := s.userCurrentId;
    var u := User(id, input.username, input.password, input.email, input.firstName, input.lastName,
                  input.phone, input.country, now, now, DefaultSubscription, DefaultApiUsageLimit, 0);
    SetGet(s.users, id, u);
    assert Valid(s) ==> TableValid(Set(s.users, id, u), id + 1, (x: User) => x.id)
                        && Set(s.users, id, u) == s.users + [Entry(id, u)] by {
      if Valid(s) { TableInsert(s.users, id, (x: User) => x.id, u); }
    }
    (s.(users := Set(s.users, id, u), userCurrentId := id + 1), u)
  }

  /** Each new user gets a larger id than every earlier one. */
  lemma UserIdsIncrease(s: Store, a: InsertUser, b: InsertUser, t1: int, t2: int)
    ensures CreateUser(s, a, t1).1.id < CreateUser(CreateUser(s, a, t1).0, b, t2).1.id
  {
  }

  /**
   * A second user with a taken name is stored, but lookups by name keep
   * returning the first one.
   */
  lemma DuplicateUsernameFindsFirst(s: Store, a: InsertUser, b: InsertUser, t1: int, t2: int)
    requires Valid(s) && a.username == b.username
    requires GetUserByUsername(s, a.username).None?
    ensures var s1 := CreateUser(s, a, t1).0;
            GetUser(CreateUser(s1, b, t2).0, CreateUser(s1, b, t2).1.id) == Some(CreateUser(s1, b, t2).1)
            && GetUserByUsername(CreateUser(s1, b, t2).0, b.username) == Some(CreateUser(s, a, t1).1)
  {
    var (s1, u1) := CreateUser(s, a, t1);
    assert Valid(s1) && s1.users == s.users + [Entry(u1.id, u1)];
    var (s2, u2) := CreateUser(s1, b, t2);
    assert s2.users == s.users + [Entry(u1.id, u1), Entry(u2.id, u2)];
    FirstMatchAfterMisses(s.users, u1, u2, b.username);
    assert GetUserByUsername(s2, b.username) == Some(u1);
  }

  /** Behind users none of whom has the name, the first of two new users with it is found. */
  lemma FirstMatchAfterMisses(m: seq<Entry<User>>, u1: User, u2: User, name: string)
    requires forall i :: 0 <= i < |m| ==> m[i].value.username != name
    requires u1.username == name
    ensures Find((u: User) => u.username == name, Values(m + [Entry(u1.id, u1), Entry(u2.id, u2)])) == Some(u1)
  {
    var all := m + [Entry(u1.id, u1), Entry(u2.id, u2)];
    var r := Find((u: User) => u.username == name, Values(all));
    assert Values(all)[|m|] == u1;
    var i :| 0 <= i < |Values(all)| && r.value == Values(all)[i]
      && forall j :: 0 <= j < i ==> Values(all)[j].username != name;
    assert i == |m|;
  }

  // ------------------------------------------------------------ API keys

  /** `createExchangeApiKey`: its own counter, both times `now`, always active. */
  function CreateExchangeApiKey(s: Store, input: InsertApiKey, now: int): (r: (Store, ApiKey))
    ensures r.1.id == s.apiKeyCurrentId && r.0.apiKeyCurrentId == s.apiKeyCurrentId + 1
    ensures r.1.userId == input.userId && r.1.name == input.name
      && r.1.apiKey == input.apiKey && r.1.apiSecret == input.apiSecret
      && r.1.createdAt == now && r.1.updatedAt == now && r.1.isActive
    ensures Get(r.0.apiKeys, r.1.id) == Some(r.1)
    ensures forall id :: id != r.1.id ==> Get(r.0.apiKeys, id) == Get(s.apiKeys, id)
    ensures r.0.users == s.users && r.0.settings == s.settings
      && r.0.userCurrentId == s.userCurrentId && r.0.settingsCurrentId == s.settingsCurrentId
    ensures Valid(s) ==> Valid(r.0) && Get(s.apiKeys, r.1.id).None? && r.0.apiKeys == s.apiKeys + [Entry(r.1.id, r.1)]
  {
    var id := s.apiKeyCurrentId;
    var k := ApiKey(id, input.userId, input.name, input.apiKey, input.apiSecret, now, now, true);
    SetGet(s.apiKeys, id, k);
    assert Valid(s) ==> TableValid(Set(s.apiKeys, id, k), id + 1, (x: ApiKey) => x.id)
                        && Set(s.apiKeys, id, k) == s.apiKeys + [Entry(id, k)] by {
      if Valid(s) { TableInsert(s.apiKeys, id, (x: ApiKey) => x.id, k); }
    }
    (s.(apiKeys := Set(s.apiKeys, id, k), apiKeyCurrentId := id + 1), k)
  }

  /** `getExchangeApiKeysByUserId`: exactly the user's keys, in insertion order. */
  function GetExchangeApiKeysByUserId(s: Store, userId: int): (r: seq<ApiKey>)
    ensures forall k :: k in r <==> k in Values(s.apiKeys) && k.userId == userId
    ensures IsSubsequence(r, Values(s.apiKeys))
  {
    Filter((k: ApiKey) => k.userId == userId, Values(s.apiKeys))
  }

  /** `deleteExchangeApiKey`: only that id goes; an absent id changes nothing. */
  function DeleteExchangeApiKey(s: Store, id: int): (t: Store)
    ensures Get(t.apiKeys, id).None?
    ensures Valid(s) ==> forall j :: j != id ==> Get(t.apiKeys, j) == Get(s.apiKeys, j)
    ensures Get(s.apiKeys, id).None? ==> t == s
    ensures t.users == s.users && t.settings == s.settings
    ensures t.userCurrentId == s.userCurrentId && t.apiKeyCurrentId == s.apiKeyCurrentId
      && t.settingsCurrentId == s.settingsCurrentId
    ensures Valid(s) ==> Valid(t)
  {
    assert Valid(s) ==> TableValid(Delete(s.apiKeys, id), s.apiKeyCurrentId, (x: ApiKey) => x.id)
                        && forall j :: j != id ==> Get(Delete(s.apiKeys, id), j) == Get(s.apiKeys, j) by {
      if Valid(s) {
        DeleteGet(s.apiKeys, id);
        TableDelete(s.apiKeys, s.apiKeyCurrentId, (x: ApiKey) => x.id, id);
      }
    }
    s.(apiKeys := Delete(s.apiKeys, id))
  }

  // ------------------------------------------------------------ settings

  /** `createUserSettings`: its own counter; the switches are copied as given. */
  function CreateUserSettings(s: Store, input: InsertSettings, now: int): (r: (Store, Settings))
    ensures r.1.id == s.settingsCurrentId && r.0.settingsCurrentId == s.settingsCurrentId + 1
    ensures r.1.userId == input.userId && r.1.darkMode == input.darkMode
      && r.1.realTimeUpdates == input.realTimeUpdates && r.1.autoExecuteTrades == input.autoExecuteTrades
      && r.1.priceAlerts == input.priceAlerts && r.1.updatedAt == now
    ensures Get(r.0.settings, r.1.id) == Some(r.1)
    ensures forall id :: id != r.1.id ==> Get(r.0.settings, id) == Get(s.settings, id)
    ensures r.0.users == s.users && r.0.apiKeys == s.apiKeys
      && r.0.userCurrentId == s.userCurrentId && r.0.apiKeyCurrentId == s.apiKeyCurrentId
    ensures Valid(s) ==> Valid(r.0) && r.0.settings == s.settings + [Entry(r.1.id, r.1)]
  {
    var id := s.settingsCurrentId;
    var st := Settings(id, input.userId, input.darkMode, input.realTimeUpdates, input.autoExecuteTrades,
                       input.priceAlerts, now);
    SetGet(s.settings, id, st);
    assert Valid(s) ==> TableValid(Set(s.settings, id, st), id + 1, (x: Settings) => x.id)
                        && Set(s.settings, id, st) == s.settings + [Entry(id, st)] by {
      if Valid(s) { TableInsert(s.settings, id, (x: Settings) => x.id, st); }
    }
    (s.(settings := Set(s.settings, id, st), settingsCurrentId := id + 1), st)
  }

  /** `getUserSettingsByUserId`: the earliest-inserted settings of the user, if any. */
  function GetUserSettingsByUserId(s: Store, userId: int): (r: Option<Settings>)
    ensures r.None? <==> forall i :: 0 <= i < |s.settings| ==> s.settings[i].value.userId != userId
    ensures r.Some? ==>
      exists i :: (0 <= i < |s.settings| && r.value == s.settings[i].value
        && r.value.userId == userId
        && forall j :: 0 <= j < i ==> s.settings[j].value.userId != userId)
  {
    Find((st: Settings) => st.userId == userId, Values(s.settings))
  }

  /** Spreading a patch over existing settings: given fields win, the id stays, the time is `now`. */
  function Merge(e: Settings, p: SettingsPatch, now: int): (r: Settings)
    ensures r.id == e.id && r.updatedAt == now
    ensures p.userId.Some? ==> r.userId == p.userId.value
    ensures p.userId.None? ==> r.userId == e.userId
    ensures p.darkMode.Some? ==> r.darkMode == p.darkMode
    ensures p.darkMode.None? ==> r.darkMode == e.darkMode
    ensures p.realTimeUpdates.Some? ==> r.realTimeUpdates == p.realTimeUpdates
    ensures p.realTimeUpdates.None? ==> r.realTimeUpdates == e.realTimeUpdates
    ensures p.autoExecuteTrades.Some? ==> r.autoExecuteTrades == p.autoExecuteTrades
    ensures p.autoExecuteTrades.None? ==> r.autoExecuteTrades == e.autoExecuteTrades
    ensures p.priceAlerts.Some? ==> r.priceAlerts == p.priceAlerts
    ensures p.priceAlerts.None? ==> r.priceAlerts == e.priceAlerts
  {
    Settings(e.id,
             if p.userId.Some? then p.userId.value else e.userId,
             if p.darkMode.Some? then p.darkMode else e.darkMode,
             if p.realTimeUpdates.Some? then p.realTimeUpdates else e.realTimeUpdates,
             if p.autoExecuteTrades.Some? then p.autoExecuteTrades else e.autoExecuteTrades,
             if p.priceAlerts.Some? then p.priceAlerts else e.priceAlerts,
             now)
  }

  /** Applying the same patch twice is applying it once. */
  lemma MergeIdempotent(e: Settings, p: SettingsPatch, t1: int, t2: int)
    ensures Merge(Merge(e, p, t1), p, t2) == Merge(e, p, t2)
  {
  }

  /** An empty patch only moves the timestamp. */
  lemma MergeEmpty(e: Settings, now: int)
    ensures Merge(e, SettingsPatch(None, None, None, None, None), now) == e.(updatedAt := now)
  {
  }

  /**
   * `updateUserSettings`: nothing when the user has no settings; otherwise
   * the merged record replaces the user's first settings under the same id.
   */
  function UpdateUserSettings(s: Store, userId: int, p: SettingsPatch, now: int): (r: (Store, Option<Settings>))
    ensures GetUserSettingsByUserId(s, userId).None? ==> r == (s, None)
    ensures GetUserSettingsByUserId(s, userId).Some? ==>
      var e := GetUserSettingsByUserId(s, userId).value;
      && r.1 == Some(Merge(e, p, now))
      && Get(r.0.settings, e.id) == Some(Merge(e, p, now))
      && (forall id :: id != e.id ==> Get(r.0.settings, id) == Get(s.settings, id))
    ensures r.0.users == s.users && r.0.apiKeys == s.apiKeys
    ensures r.0.userCurrentId == s.userCurrentId && r.0.apiKeyCurrentId == s.apiKeyCurrentId
      && r.0.settingsCurrentId == s.settingsCurrentId
    ensures Valid(s) ==> Valid(r.0) && |r.0.settings| == |s.settings|
  {
    match GetUserSettingsByUserId(s, userId)
    case None => (s, None)
    case Some(e) =>
      var u := Merge(e, p, now);
      SetGet(s.settings, e.id, u);
      assert Valid(s) ==> TableValid(Set(s.settings, e.id, u), s.settingsCurrentId, (x: Settings) => x.id)
                          && |Set(s.settings, e.id, u)| == |s.settings| by {
        if Valid(s) {
          var i :| 0 <= i < |s.settings| && e == s.settings[i].value;
          assert s.settings[i].key == e.id;
          TableReplace(s.settings, s.settingsCurrentId, (x: Settings) => x.id, e.id, u);
        }
      }
      (s.(settings := Set(s.settings, e.id, u)), Some(u))
  }
}
