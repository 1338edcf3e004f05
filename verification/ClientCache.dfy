/** The per-tenant client cache (multitenant.py).

    Each client owns a connection pool, so every client ever created must end up either cached or
    handed to close, and exactly once. */
module ClientCache {
  import opened Basics
  import opened TenantConfig

  datatype ClientKey = ClientKey(
    baseUrl: string, apiKey: string, authUser: string, verifySsl: bool, timeout: real,
    defaultBackends: seq<string>, maxConnections: int, maxKeepalive: int)

  /** `_client_key`. */
  function KeyOf(cfg: Config): ClientKey {
    ClientKey(cfg.baseUrl, cfg.apiKey, cfg.authUser, cfg.verifySsl, cfg.timeout,
              cfg.defaultBackends, cfg.maxConnections, cfg.maxKeepalive)
  }

  /** A client: which one it is, and the configuration it was built from. */
  datatype Client = Client(id: nat, cfg: Config)

  datatype Slot = Slot(key: ClientKey, client: Client)

  function Find(slots: seq<Slot>, k: ClientKey): (r: Option<Client>)
    ensures r.None? <==> forall s :: s in slots ==> s.key != k
    ensures r.Some? ==> Slot(k, r.value) in slots
  {
    if slots == [] then None
    else if slots[0].key == k then Some(slots[0].client)
    else Find(slots[1..], k)
  }

  /** The list without the slot of `k`, and that slot. */
  function Without(slots: seq<Slot>, k: ClientKey): seq<Slot> {
    if slots == [] then []
    else if slots[0].key == k then slots[1..]
    else [slots[0]] + Without(slots[1..], k)
  }

  function Clients(slots: seq<Slot>): seq<Client> {
    if slots == [] then [] else [slots[0].client] + Clients(slots[1..])
  }

  ghost predicate Distinct(slots: seq<Slot>) {
    forall i, j :: 0 <= i < j < |slots| ==> slots[i].key != slots[j].key
  }

  lemma {:induction false} ClientsAppend(a: seq<Slot>, b: seq<Slot>)
    ensures Clients(a + b) == Clients(a) + Clients(b)
  {
    if a == [] {
      assert a + b == b;
    } else {
      assert (a + b)[1..] == a[1..] + b && (a + b)[0] == a[0];
      ClientsAppend(a[1..], b);
      assert Clients(a + b) == [a[0].client] + (Clients(a[1..]) + Clients(b));
    }
  }

  lemma PrependDistinct(s: Slot, slots: seq<Slot>)
    requires Distinct(slots) && forall x :: x in slots ==> x.key != s.key
    ensures Distinct([s] + slots)
  {
  }

  lemma HeadIsDistinct(slots: seq<Slot>)
    requires Distinct(slots) && slots != []
    ensures Distinct(slots[1..]) && forall s :: s in slots[1..] ==> s.key != slots[0].key
  {
    forall s | s in slots[1..] ensures s.key != slots[0].key {
      var i :| 1 <= i < |slots| && slots[i] == s;
    }
  }

  lemma {:induction false} WithoutKeepsRest(slots: seq<Slot>, k: ClientKey)
    requires Distinct(slots)
    ensures forall s :: s in Without(slots, k) <==> s in slots && s.key != k
    ensures Distinct(Without(slots, k))
  {
    if slots == [] {
    } else {
      HeadIsDistinct(slots);
      assert slots == [slots[0]] + slots[1..];
      if slots[0].key != k {
        WithoutKeepsRest(slots[1..], k);
        PrependDistinct(slots[0], Without(slots[1..], k));
      }
    }
  }

  /** Moving a slot to the end loses no client. */
  lemma {:induction false} MoveToEnd(slots: seq<Slot>, k: ClientKey)
    requires Find(slots, k).Some?
    ensures multiset(Clients(Without(slots, k))) + multiset{Find(slots, k).value} == multiset(Clients(slots))
    ensures |Without(slots, k)| == |slots| - 1
  {
    var first, rest := slots[0].client, slots[1..];
    if slots[0].key != k {
      MoveToEnd(rest, k);
      assert multiset(Clients(slots)) == multiset{first} + multiset(Clients(rest));
      assert Without(slots, k)[1..] == Without(rest, k);
      assert multiset(Clients(Without(slots, k))) == multiset{first} + multiset(Clients(Without(rest, k)));
    } else {
      assert multiset(Clients(slots)) == multiset{first} + multiset(Clients(rest));
    }
  }

  lemma AppendDistinct(slots: seq<Slot>, s: Slot)
    requires Distinct(slots) && forall x :: x in slots ==> x.key != s.key
    ensures Distinct(slots + [s])
  {
  }

  /** Every client created is cached or closed, as often as it was created. */
  ghost predicate Conserved(slots: seq<Slot>, closed: seq<Client>, created: seq<Client>) {
    multiset(Clients(slots)) + multiset(closed) == multiset(created)
  }

  /** Each client sits under the key of its own configuration. */
  ghost predicate RightlyKeyed(slots: seq<Slot>) {
    forall s :: s in slots ==> KeyOf(s.client.cfg) == s.key
  }

  /** Each client was created once. */
  ghost predicate Numbered(created: seq<Client>) {
    forall i :: 0 <= i < |created| ==> created[i].id == i
  }

  lemma NextNumber(created: seq<Client>, c: Client)
    requires Numbered(created) && c.id == |created|
    ensures Numbered(created + [c]) && c !in created
  {
  }

  lemma HitKeeps(slots: seq<Slot>, k: ClientKey)
    requires Distinct(slots) && Find(slots, k).Some?
    ensures var after := Without(slots, k) + [Slot(k, Find(slots, k).value)];
      && Distinct(after) && |after| == |slots| && (forall s :: s in after ==> s in slots)
      && forall closed, created :: Conserved(slots, closed, created) ==> Conserved(after, closed, created)
  {
    var s := Slot(k, Find(slots, k).value);
    WithoutKeepsRest(slots, k);
    MoveToEnd(slots, k);
    ClientsAppend(Without(slots, k), [s]);
    AppendDistinct(Without(slots, k), s);
  }

  /** A new slot at the end, and the oldest one gone when there is no room. */
  function AfterMiss(slots: seq<Slot>, s: Slot, full: bool): seq<Slot>
    requires full ==> slots != []
  {
    (if full then slots[1..] else slots) + [s]
  }

  lemma MissKeeps(slots: seq<Slot>, s: Slot, full: bool)
    requires Distinct(slots) && (forall x :: x in slots ==> x.key != s.key) && (full ==> slots != [])
    requires RightlyKeyed(slots) && KeyOf(s.client.cfg) == s.key
    ensures Distinct(AfterMiss(slots, s, full)) && RightlyKeyed(AfterMiss(slots, s, full))
    ensures AfterMiss(slots, s, full) == if full then (slots + [s])[1..] else slots + [s]
  {
    AppendDistinct(slots, s);
    if full {
      AppendDistinct(slots[1..], s);
    }
  }

  lemma AddConserves(slots: seq<Slot>, s: Slot, closed: seq<Client>, created: seq<Client>)
    requires Conserved(slots, closed, created)
    ensures Conserved(slots + [s], closed, created + [s.client])
  {
    ClientsAppend(slots, [s]);
    assert [s][1..] == [];
    assert Clients([s]) == [s.client];
  }

  lemma EvictConserves(slots: seq<Slot>, closed: seq<Client>, created: seq<Client>)
    requires Conserved(slots, closed, created) && slots != []
    ensures Conserved(slots[1..], closed + [slots[0].client], created)
  {
    assert Clients(slots) == [slots[0].client] + Clients(slots[1..]);
  }

  lemma MissConserves(slots: seq<Slot>, s: Slot, full: bool, closed: seq<Client>, created: seq<Client>)
    requires Conserved(slots, closed, created) && (full ==> slots != [])
    ensures var evicted := if full then [slots[0].client] else [];
      Conserved(AfterMiss(slots, s, full), closed + evicted, created + [s.client])
  {
    if full {
      EvictConserves(slots, closed, created);
      AddConserves(slots[1..], s, closed + [slots[0].client], created);
    } else {
      AddConserves(slots, s, closed, created);
      assert closed + [] == closed;
    }
  }

  class Cache {
    const maxsize: int
    var slots: seq<Slot>
    /** Clients handed to close, in that order. */
    var closed: seq<Client>
    /** Every client created so far, in that order. */
    ghost var created: seq<Client>
    var nextId: nat

    ghost predicate Valid()
      reads this
    {
      && maxsize >= 1 && |slots| <= maxsize && Distinct(slots)
      && RightlyKeyed(slots)
      && Conserved(slots, closed, created)
      && nextId == |created| && Numbered(created)
    }

    constructor (size: int)
      ensures Valid() && maxsize == (if size < 1 then 1 else size)
      ensures slots == [] && closed == [] && created == []
    {
      maxsize := if size < 1 then 1 else size;
      slots, closed, created, nextId := [], [], [], 0;
    }

    /** Evict from the front while there are too many. */
    method Shrink(slots0: seq<Slot>) returns (kept: seq<Slot>, evicted: seq<Client>)
      requires maxsize >= 1 && 0 < |slots0| <= maxsize + 1
      ensures var full := |slots0| > maxsize;
        && kept == (if full then slots0[1..] else slots0)
        && evicted == (if full then [slots0[0].client] else [])
    {
      kept, evicted := slots0, [];
      while |kept| > maxsize
        invariant (kept == slots0 && evicted == []) ||
                  (|slots0| > maxsize && kept == slots0[1..] && evicted == [slots0[0].client])
        decreases |kept|
      {
        evicted := evicted + [kept[0].client];
        kept := kept[1..];
      }
    }

    /** A hit returns the cached client and marks it as used; a miss builds one, and whatever no longer
        fits is handed to close. */
    method Get(cfg: Config) returns (client: Client)
      requires Valid()
      modifies this
      ensures Valid()
      ensures KeyOf(client.cfg) == KeyOf(cfg) && slots != [] && Slot(KeyOf(cfg), client) == slots[|slots| - 1]
      ensures var hit := Find(old(slots), KeyOf(cfg));
        if hit.Some? then
          && client == hit.value && created == old(created) && closed == old(closed)
          && slots == Without(old(slots), KeyOf(cfg)) + [Slot(KeyOf(cfg), client)]
        else
          && client == Client(|old(created)|, cfg) && created == old(created) + [client] && client !in old(created)
          && var full := |old(slots)| == maxsize;
          && slots == AfterMiss(old(slots), Slot(KeyOf(cfg), client), full)
          && closed == old(closed) + (if full then [old(slots)[0].client] else [])
    {
      var k := KeyOf(cfg);
      var hit := Find(slots, k);
      if hit.Some? {
        client := hit.value;
        HitKeeps(slots, k);
        slots := Without(slots, k) + [Slot(k, client)];
      } else {
        client := Build(cfg);
      }
    }

    /** The miss: create, insert, evict, close. */
    method Build(cfg: Config) returns (client: Client)
      requires Valid() && Find(slots, KeyOf(cfg)).None?
      modifies this
      ensures Valid()
      ensures client == Client(|old(created)|, cfg) && created == old(created) + [client] && client !in old(created)
      ensures slots == AfterMiss(old(slots), Slot(KeyOf(cfg), client), |old(slots)| == maxsize)
      ensures closed == old(closed) + (if |old(slots)| == maxsize then [old(slots)[0].client] else [])
    {
      client := Client(nextId, cfg);
      var s := Slot(KeyOf(cfg), client);
      MissKeeps(slots, s, |slots| == maxsize);
      MissConserves(slots, s, |slots| == maxsize, closed, created);
      NextNumber(created, client);
      var kept, evicted := Shrink(slots + [s]);
      slots, closed, created, nextId := kept, closed + evicted, created + [client], nextId + 1;
    }

    /** Everything cached is handed to close. */
    method CloseAll()
      requires Valid()
      modifies this
      ensures Valid() && slots == [] && created == old(created)
      ensures closed == old(closed) + Clients(old(slots))
    {
      var clients := Clients(slots);
      slots := [];
      closed := closed + clients;
    }
  }

  /** No client is ever both cached and closed, or closed twice, or forgotten. */
  lemma CachedOrClosedOnce(cached: seq<Client>, closed: seq<Client>, created: seq<Client>, c: Client)
    requires multiset(cached) + multiset(closed) == multiset(created)
    requires Numbered(created)
    requires c in created
    ensures multiset(cached)[c] + multiset(closed)[c] == 1
  {
    var i :| 0 <= i < |created| && created[i] == c;
    assert created == created[..i] + [c] + created[i + 1..];
    assert c !in created[..i] && c !in created[i + 1..];
    assert multiset(created) == multiset(created[..i]) + multiset{c} + multiset(created[i + 1..]);
    assert multiset(created)[c] == 1;
    assert (multiset(cached) + multiset(closed))[c] == 1;
  }

  // ---- Requests ----------------------------------------------------------------------------------------

  /** Among the configurations of one server the key leaves nothing out. */
  lemma KeyDetermines(base: Config, a: Config, b: Config)
    requires SameKnobs(base, a) && SameKnobs(base, b)
    ensures KeyOf(a) == KeyOf(b) <==> a == b
  {
    if KeyOf(a) == KeyOf(b) {
      assert KeyOf(a).baseUrl == a.baseUrl && KeyOf(a).apiKey == a.apiKey;
    }
  }

  ghost predicate AllFrom(base: Config, slots: seq<Slot>) {
    forall s :: s in slots ==> SameKnobs(base, s.client.cfg)
  }

  /** What a request is answered with. */
  datatype Answer = Unauthorized | Bound(cfg: Config, client: Client)

  datatype Served = Served(slots: seq<Slot>, created: seq<Client>, answer: Answer)

  /** One request: refused without a key, else looked up under its own configuration. */
  function Serve(base: Config, maxsize: int, slots: seq<Slot>, created: seq<Client>, headers: Headers): Served
    requires maxsize >= 1
  {
    match FromHeaders(base, headers)
    case None => Served(slots, created, Unauthorized)
    case Some(cfg) =>
      var k := KeyOf(cfg);
      match Find(slots, k)
      case Some(client) => Served(Without(slots, k) + [Slot(k, client)], created, Bound(cfg, client))
      case None =>
        var client := Client(|created|, cfg);
        Served(AfterMiss(slots, Slot(k, client), |slots| >= maxsize), created + [client], Bound(cfg, client))
  }

  /** `HeaderAuthMiddleware`: one base configuration, one cache. */
  class HeaderAuthMiddleware {
    const base: Config
    const cache: Cache

    ghost predicate Valid()
      reads this, cache
    {
      cache.Valid() && AllFrom(base, cache.slots)
    }

    constructor (base: Config, cache: Cache)
      requires cache.Valid() && cache.slots == []
      ensures Valid() && this.base == base && this.cache == cache
    {
      this.base, this.cache := base, cache;
    }

    /** `__call__` on an HTTP request: the client bound was built from exactly the configuration the headers
        ask for. */
    method Call(lower: string -> string, raw: seq<(string, string)>) returns (answer: Answer)
      requires Valid()
      modifies cache
      ensures Valid()
      ensures Served(cache.slots, cache.created, answer) ==
        Serve(base, cache.maxsize, old(cache.slots), old(cache.created), AddHeaders(lower, map[], raw))
      ensures match FromHeaders(base, AddHeaders(lower, map[], raw))
        case None => answer == Unauthorized && cache.closed == old(cache.closed)
        case Some(cfg) => answer.Bound? && answer.cfg == cfg && answer.client.cfg == cfg
    {
      var headers := LowerHeaders(lower, raw);
      var cfg := FromHeaders(base, headers);
      if cfg.None? {
        return Unauthorized;
      }
      ghost var slots, created := cache.slots, cache.created;
      ServeKeeps(base, cache.maxsize, slots, created, headers);
      var client := cache.Get(cfg.value);
      return Bound(cfg.value, client);
    }
  }

  /** What holds between requests. */
  ghost predicate Sound(base: Config, slots: seq<Slot>, created: seq<Client>) {
    && Distinct(slots) && RightlyKeyed(slots) && AllFrom(base, slots) && Numbered(created)
    && forall s :: s in slots ==> s.client in created
  }

  /** Every request keeps it and is answered with a client of its own configuration. */
  lemma ServeKeeps(base: Config, maxsize: int, slots: seq<Slot>, created: seq<Client>, headers: Headers)
    requires maxsize >= 1 && Distinct(slots) && RightlyKeyed(slots) && AllFrom(base, slots)
    ensures var r := Serve(base, maxsize, slots, created, headers);
      && AllFrom(base, r.slots)
      && (Sound(base, slots, created) ==> Sound(base, r.slots, r.created))
      && (Sound(base, slots, created) && r.answer.Bound? ==> r.answer.client in r.created)
      && match FromHeaders(base, headers)
         case None => r.answer == Unauthorized
         case Some(cfg) => r.answer.Bound? && r.answer.cfg == cfg && r.answer.client.cfg == cfg
  {
    var r := Serve(base, maxsize, slots, created, headers);
    match FromHeaders(base, headers)
    case None =>
    case Some(cfg) =>
      var k := KeyOf(cfg);
      match Find(slots, k) {
        case Some(client) =>
          HitKeeps(slots, k);
          KeyDetermines(base, client.cfg, cfg);
        case None =>
          var client := Client(|created|, cfg);
          MissKeeps(slots, Slot(k, client), |slots| >= maxsize);
          if Numbered(created) {
            NextNumber(created, client);
          }
      }
  }

  /** A run: requests one after the other, from an empty cache. */
  function Answers(base: Config, maxsize: int, slots: seq<Slot>, created: seq<Client>, requests: seq<Headers>):
      (r: seq<Answer>)
    requires maxsize >= 1
    ensures |r| == |requests|
    decreases |requests|
  {
    if requests == [] then []
    else
      var r := Serve(base, maxsize, slots, created, requests[0]);
      [r.answer] + Answers(base, maxsize, r.slots, r.created, requests[1..])
  }

  function AllCreated(base: Config, maxsize: int, slots: seq<Slot>, created: seq<Client>, requests: seq<Headers>):
      seq<Client>
    requires maxsize >= 1
    decreases |requests|
  {
    if requests == [] then created
    else
      var r := Serve(base, maxsize, slots, created, requests[0]);
      AllCreated(base, maxsize, r.slots, r.created, requests[1..])
  }

  lemma {:induction false} CreatedStay(base: Config, maxsize: int, slots: seq<Slot>, created: seq<Client>,
                                       requests: seq<Headers>)
    requires maxsize >= 1 && Sound(base, slots, created)
    ensures var all := AllCreated(base, maxsize, slots, created, requests);
      Numbered(all) && forall c :: c in created ==> c in all
    decreases |requests|
  {
    if requests == [] {
    } else {
      var r := Serve(base, maxsize, slots, created, requests[0]);
      ServeKeeps(base, maxsize, slots, created, requests[0]);
      CreatedStay(base, maxsize, r.slots, r.created, requests[1..]);
    }
  }

  /** Refused without a key, else bound to the configuration asked for and a client of exactly that. */
  ghost predicate Fits(base: Config, headers: Headers, a: Answer, created: seq<Client>) {
    match FromHeaders(base, headers)
    case None => a == Unauthorized
    case Some(cfg) => a.Bound? && a.cfg == cfg && a.client.cfg == cfg && a.client in created
  }

  lemma ServeFits(base: Config, maxsize: int, slots: seq<Slot>, created: seq<Client>, headers: Headers)
    requires maxsize >= 1 && Sound(base, slots, created)
    ensures var r := Serve(base, maxsize, slots, created, headers);
      Sound(base, r.slots, r.created) && Fits(base, headers, r.answer, r.created)
  {
    ServeKeeps(base, maxsize, slots, created, headers);
  }

  lemma NextAnswer(base: Config, maxsize: int, slots: seq<Slot>, created: seq<Client>, requests: seq<Headers>, i: nat)
    requires maxsize >= 1 && i < |requests|
    ensures var r := Serve(base, maxsize, slots, created, requests[0]);
      Answers(base, maxsize, slots, created, requests)[i] ==
        if i == 0 then r.answer else Answers(base, maxsize, r.slots, r.created, requests[1..])[i - 1]
  {
  }

  lemma {:induction false} AnswerIsExact(base: Config, maxsize: int, slots: seq<Slot>, created: seq<Client>,
                                         requests: seq<Headers>, i: nat)
    requires maxsize >= 1 && Sound(base, slots, created) && i < |requests|
    ensures Fits(base, requests[i], Answers(base, maxsize, slots, created, requests)[i],
                 AllCreated(base, maxsize, slots, created, requests))
    decreases |requests|
  {
    var r := Serve(base, maxsize, slots, created, requests[0]);
    ServeFits(base, maxsize, slots, created, requests[0]);
    NextAnswer(base, maxsize, slots, created, requests, i);
    if i == 0 {
      CreatedStay(base, maxsize, r.slots, r.created, requests[1..]);
    } else {
      AnswerIsExact(base, maxsize, r.slots, r.created, requests[1..], i - 1);
    }
  }

  /** Over every run from an empty cache, a request is refused exactly when it brings no key, and otherwise gets a
      client built from exactly the configuration it asks for. */
  lemma RunIsExact(base: Config, maxsize: int, requests: seq<Headers>, i: nat)
    requires maxsize >= 1 && i < |requests|
    ensures var a := Answers(base, maxsize, [], [], requests)[i];
      && (a == Unauthorized <==> HeaderText(requests[i], AUTH_KEY) == "")
      && (a.Bound? ==> Some(a.cfg) == FromHeaders(base, requests[i]) && a.client.cfg == a.cfg)
  {
    AnswerIsExact(base, maxsize, [], [], requests, i);
  }

  /** Two requests of a run that are handed the same client asked for the same configuration: tenants do not mix. */
  lemma TenantsDoNotMix(base: Config, maxsize: int, requests: seq<Headers>, i: nat, j: nat)
    requires maxsize >= 1 && i < |requests| && j < |requests|
    ensures var a, b := Answers(base, maxsize, [], [], requests)[i], Answers(base, maxsize, [], [], requests)[j];
      a.Bound? && b.Bound? && a.client.id == b.client.id ==>
        FromHeaders(base, requests[i]) == FromHeaders(base, requests[j])
  {
    var all := AllCreated(base, maxsize, [], [], requests);
    CreatedStay(base, maxsize, [], [], requests);
    AnswerIsExact(base, maxsize, [], [], requests, i);
    AnswerIsExact(base, maxsize, [], [], requests, j);
    var a, b := Answers(base, maxsize, [], [], requests)[i], Answers(base, maxsize, [], [], requests)[j];
    if a.Bound? && b.Bound? && a.client.id == b.client.id {
      var m :| 0 <= m < |all| && all[m] == a.client;
      var n :| 0 <= n < |all| && all[n] == b.client;
    }
  }

  lemma {:induction false} FoundLast(slots: seq<Slot>, s: Slot)
    requires forall x :: x in slots ==> x.key != s.key
    ensures Find(slots + [s], s.key) == Some(s.client) && Without(slots + [s], s.key) == slots
  {
    if slots == [] {
      assert [] + [s] == [s];
    } else {
      assert (slots + [s])[1..] == slots[1..] + [s] && slots[0] in slots;
      FoundLast(slots[1..], s);
    }
  }

  /** Conversely, a request repeated at once is handed the same client again, and none is created. */
  lemma RepeatedAtOnce(base: Config, maxsize: int, slots: seq<Slot>, created: seq<Client>, headers: Headers)
    requires maxsize >= 1 && Distinct(slots)
    ensures var r := Serve(base, maxsize, slots, created, headers);
      Serve(base, maxsize, r.slots, r.created, headers) == r
  {
    var r := Serve(base, maxsize, slots, created, headers);
    match FromHeaders(base, headers)
    case None =>
    case Some(cfg) =>
      var k := KeyOf(cfg);
      WithoutKeepsRest(slots, k);
      match Find(slots, k) {
        case Some(client) => FoundLast(Without(slots, k), Slot(k, client));
        case None =>
          FoundLast(if |slots| >= maxsize then slots[1..] else slots, Slot(k, Client(|created|, cfg)));
      }
  }
}
