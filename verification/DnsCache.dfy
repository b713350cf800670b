/** The resolver's TTL cache and its use (master/dns/resolver.go:103-136, 376-411). */
module DnsCache {
  import opened Wrappers
  import opened Bytes
  import opened DnsWire
  import opened DnsEncoding

  // Times are in nanoseconds.
  const SECOND := 1_000_000_000
  const HOUR := 3600 * SECOND
  const CAPACITY := 4096

  const TYPE_AAAA: uint16 := 28

  datatype CacheEntry = CacheEntry(resp: seq<byte>, expires: int)

  type Cache = map<seq<byte>, CacheEntry>

  function Get(m: Cache, key: seq<byte>, now: int): Option<seq<byte>> {
    if key !in m || now > m[key].expires then None else Some(m[key].resp)
  }

  function Lifetime(ttl: uint32): int {
    if ttl * SECOND > HOUR then HOUR else ttl * SECOND
  }

  function Put(m: Cache, key: seq<byte>, resp: seq<byte>, ttl: uint32, now: int): Cache {
    if ttl == 0 then m
    else
      var room := if |m| > CAPACITY then map[] else m;
      room[key := CacheEntry(resp, now + Lifetime(ttl))]
  }

  datatype Error = Malformed | Upstream

  /** What `Query` does before, and perhaps instead of, asking upstream. */
  datatype Answer =
    | Rejected
    | Forward
    | Suppressed(reply: seq<byte>)
    | Cached(reply: seq<byte>)

  /** How the resolver is set up: the suppression switch, and the Unicode lower-casing in use. */
  datatype Setup = Setup(suppressAAAA: bool, uni: Label -> Label)

  function Cacheable(s: Setup, query: seq<byte>): Option<seq<byte>> {
    match QuestionOf(s.uni, query)
    case None => None
    case Some((name, qtype)) =>
      if s.suppressAAAA && qtype == TYPE_AAAA then None else Some(CacheKey(name, qtype))
  }

  function WithId(resp: seq<byte>, query: seq<byte>): seq<byte>
    requires |query| >= 2
  {
    if |resp| < 2 then query[..|resp|] else query[..2] + resp[2..]
  }

  function AnswerLocally(s: Setup, m: Cache, query: seq<byte>, now: int): Answer {
    if |query| < 12 then Rejected
    else
      match QuestionOf(s.uni, query)
      case None => Forward
      case Some((name, qtype)) =>
        if s.suppressAAAA && qtype == TYPE_AAAA then Suppressed(EmptyAnswerOf(query))
        else
          match Get(m, CacheKey(name, qtype), now)
          case Some(resp) => Cached(WithId(resp, query))
          case None => Forward
  }

  function AfterReply(s: Setup, m: Cache, query: seq<byte>, resp: seq<byte>, now: int): Cache {
    match Cacheable(s, query)
    case None => m
    case Some(key) => Put(m, key, resp, Least(AllTtls(resp)), now)
  }

  class Resolver {
    const setup: Setup
    var m: Cache

    constructor (setup: Setup)
      ensures this.setup == setup && m == map[]
    {
      this.setup := setup;
      m := map[];
    }

    /**
     One query: looked up when the clock shows `asked`; if upstream is asked, its
     reply (or none) is `reply` and arrives when the clock shows `replied`.
     */
    method Query(query: seq<byte>, asked: int, reply: Option<seq<byte>>, replied: int)
      returns (r: Result<seq<byte>, Error>)
      modifies this
      ensures match AnswerLocally(setup, old(m), query, asked)
              case Rejected => r == Err(Malformed) && m == old(m)
              case Suppressed(out) => r == Ok(out) && m == old(m)
              case Cached(out) => r == Ok(out) && m == old(m)
              case Forward =>
                match reply
                case None => r == Err(Upstream) && m == old(m)
                case Some(resp) => r == Ok(resp) && m == AfterReply(setup, old(m), query, resp, replied)
    {
      if |query| < 12 {
        return Err(Malformed);
      }
      var parsed := ParseQuestion(setup.uni, query);
      if parsed.None? {
        return if reply.None? then Err(Upstream) else Ok(reply.value);
      }
      var (name, qtype) := parsed.value;
      if setup.suppressAAAA && qtype == TYPE_AAAA {
        var out := EmptyAnswer(query);
        return Ok(out[..]);
      }
      var key := CacheKey(name, qtype);
      if key in m && asked <= m[key].expires {
        return Ok(WithId(m[key].resp, query));
      }
      if reply.None? {
        return Err(Upstream);
      }
      var ttl := MinTtl(reply.value);
      if ttl > 0 {
        m := Put(m, key, reply.value, ttl, replied);
      }
      return Ok(reply.value);
    }
  }

  // ----- runs -----

  /** Queries may overlap: a look-up and the arrival of an upstream reply are separate events. */
  datatype Event =
    | Ask(query: seq<byte>, now: int)
    | Reply(query: seq<byte>, resp: seq<byte>, now: int)

  function CacheAfter(s: Setup, es: seq<Event>, n: nat): Cache
    requires n <= |es|
  {
    if n == 0 then map[]
    else
      match es[n - 1]
      case Ask(_, _) => CacheAfter(s, es, n - 1)
      case Reply(query, resp, now) => AfterReply(s, CacheAfter(s, es, n - 1), query, resp, now)
  }

  /** Event `k` is the arrival of `resp` for a query with this key, alive until `expires`. */
  ghost predicate Source(s: Setup, es: seq<Event>, k: nat, key: seq<byte>, resp: seq<byte>, expires: int) {
    && k < |es| && es[k].Reply? && es[k].resp == resp
    && Cacheable(s, es[k].query) == Some(key)
    && Least(AllTtls(resp)) > 0
    && expires == es[k].now + Lifetime(Least(AllTtls(resp)))
  }

  lemma {:induction false} EntriesHaveSources(s: Setup, es: seq<Event>, n: nat, key: seq<byte>) returns (k: nat)
    requires n <= |es| && key in CacheAfter(s, es, n)
    ensures k < n
    ensures var e := CacheAfter(s, es, n)[key]; Source(s, es, k, key, e.resp, e.expires)
  {
    EntryStep(s, es, n - 1, key);
    if Stores(s, es[n - 1], key) {
      k := n - 1;
    } else {
      k := EntriesHaveSources(s, es, n - 1, key);
    }
  }

  predicate Stores(s: Setup, e: Event, key: seq<byte>) {
    e.Reply? && Cacheable(s, e.query) == Some(key) && Least(AllTtls(e.resp)) > 0
  }

  /** An event that does not store the entry for a key leaves it alone or drops it. */
  lemma EntryStep(s: Setup, es: seq<Event>, n: nat, key: seq<byte>)
    requires n < |es| && key in CacheAfter(s, es, n + 1)
    ensures var before, e := CacheAfter(s, es, n), CacheAfter(s, es, n + 1)[key];
            if Stores(s, es[n], key) then Source(s, es, n, key, e.resp, e.expires)
            else key in before && before[key] == e
  {
  }

  lemma {:induction false} CacheBounded(s: Setup, es: seq<Event>, n: nat)
    requires n <= |es|
    ensures |CacheAfter(s, es, n)| <= CAPACITY + 1
  {
    if n > 0 {
      CacheBounded(s, es, n - 1);
      var m := CacheAfter(s, es, n - 1);
      if es[n - 1].Reply? && Cacheable(s, es[n - 1].query).Some? {
        var key := Cacheable(s, es[n - 1].query).value;
        var e := CacheEntry(es[n - 1].resp, 0);
        assert |m[key := e]| <= |m| + 1;
      }
    }
  }

  /** A reply the scan finds a TTL in has room for its identifier. */
  lemma TtlNeedsHeader(resp: seq<byte>)
    requires Least(AllTtls(resp)) > 0
    ensures |resp| >= 12
  {
    LeastIsLeast(AllTtls(resp));
  }

  /**
   Whatever the interleaving of look-ups and upstream replies, a reply from the
   cache is, but for the two identifier bytes taken from the query, what upstream
   sent for the same name and type, at most the least TTL of its answers, and at
   most an hour, earlier.
   */
  lemma CachedReplySound(s: Setup, es: seq<Event>, n: nat) returns (k: nat)
    requires n < |es| && forall i :: 0 <= i < n && es[i].Reply? ==> es[i].now <= es[n].now
    requires es[n].Ask? && AnswerLocally(s, CacheAfter(s, es, n), es[n].query, es[n].now).Cached?
    ensures k < n && es[k].Reply?
    ensures var query, resp := es[n].query, es[k].resp;
            && QuestionOf(s.uni, es[k].query).Some? && QuestionOf(s.uni, es[k].query) == QuestionOf(s.uni, query)
            && |query| >= 12 && |resp| >= 12
            && AnswerLocally(s, CacheAfter(s, es, n), query, es[n].now).reply == query[..2] + resp[2..]
            && 0 <= es[n].now - es[k].now <= Least(AllTtls(resp)) * SECOND
            && es[n].now - es[k].now <= HOUR
  {
    var query, m := es[n].query, CacheAfter(s, es, n);
    var (name, qtype) := QuestionOf(s.uni, query).value;
    var key := CacheKey(name, qtype);
    k := EntriesHaveSources(s, es, n, key);
    TtlNeedsHeader(es[k].resp);
    var (name', qtype') := QuestionOf(s.uni, es[k].query).value;
    CacheKeyInjective(name', qtype', name, qtype);
  }

  // ----- exactly what is answered from the cache -----

  /** The cache key of what is asked, if the query parses and is not for a suppressed IPv6 address. */
  function AskedKey(s: Setup, query: seq<byte>): Option<seq<byte>> {
    match QuestionOf(s.uni, query)
    case None => None
    case Some((name, qtype)) => if s.suppressAAAA && qtype == 28 then None else Some(CacheKey(name, qtype))
  }

  /** An answer to what is asked under a key, and when it runs out. */
  datatype Stored = Stored(key: seq<byte>, resp: seq<byte>, until: int)

  /** What an event stores: a reply with a TTL, for that many seconds or an hour. */
  function StoredBy(s: Setup, e: Event): Option<Stored> {
    if e.Ask? || AskedKey(s, e.query) == None || Least(AllTtls(e.resp)) == 0 then None
    else
      var v := Least(AllTtls(e.resp));
      Some(Stored(AskedKey(s, e.query).value, e.resp, e.now + (if v < 3600 then v else 3600) * 1_000_000_000))
  }

  type History = seq<Option<Stored>>

  function HistoryOf(s: Setup, es: seq<Event>): History {
    seq(|es|, i requires 0 <= i < |es| => StoredBy(s, es[i]))
  }

  /** The keys there is an answer for: all answered since more than 4096 were last there when one came. */
  function Held(h: History, n: nat): set<seq<byte>>
    requires n <= |h|
  {
    if n == 0 then {}
    else if h[n - 1] == None then Held(h, n - 1)
    else (if Flushes(h, n - 1, Held(h, n - 1)) then {} else Held(h, n - 1)) + {h[n - 1].value.key}
  }

  /** The event empties the map before its answer goes in. */
  predicate Flushes(h: History, k: nat, held: set<seq<byte>>)
    requires k < |h|
  {
    h[k].Some? && |held| > 4096
  }

  /** The answer under a key that is there after `n` events: the last one, if there was no flush since. */
  function Latest(h: History, n: nat, key: seq<byte>): Option<Stored>
    requires n <= |h|
  {
    if n == 0 then None
    else if h[n - 1].Some? && h[n - 1].value.key == key then h[n - 1]
    else if Flushes(h, n - 1, Held(h, n - 1)) then None
    else Latest(h, n - 1, key)
  }

  /** The map with an answer put into it. */
  function WithStored(m: Cache, st: Option<Stored>): Cache {
    match st
    case None => m
    case Some(st) => (if |m| > 4096 then map[] else m)[st.key := CacheEntry(st.resp, st.until)]
  }

  lemma PutStores(m: Cache, key: seq<byte>, resp: seq<byte>, ttl: uint32, now: int)
    ensures Put(m, key, resp, ttl, now) ==
              WithStored(m, if ttl == 0 then None
                            else Some(Stored(key, resp, now + (if ttl < 3600 then ttl else 3600) * 1_000_000_000)))
  {
  }

  lemma CacheableIsAsked(s: Setup, query: seq<byte>)
    ensures Cacheable(s, query) == AskedKey(s, query)
  {
  }

  lemma ReplyStores(s: Setup, m: Cache, query: seq<byte>, resp: seq<byte>, now: int)
    ensures AfterReply(s, m, query, resp, now) == WithStored(m, StoredBy(s, Reply(query, resp, now)))
  {
    CacheableIsAsked(s, query);
    if AskedKey(s, query).Some? {
      PutStores(m, AskedKey(s, query).value, resp, Least(AllTtls(resp)), now);
    }
  }

  lemma EventStores(s: Setup, es: seq<Event>, n: nat)
    requires n < |es|
    ensures CacheAfter(s, es, n + 1) == WithStored(CacheAfter(s, es, n), StoredBy(s, es[n]))
  {
    match es[n]
    case Ask(_, _) =>
    case Reply(query, resp, now) => ReplyStores(s, CacheAfter(s, es, n), query, resp, now);
  }

  /** Keys and entries agree with the history. */
  ghost predicate Holds(m: Cache, held: set<seq<byte>>, key: seq<byte>, latest: Option<Stored>) {
    && m.Keys == held
    && (latest == None ==> key !in m)
    && (latest.Some? ==>
          && key in m && latest.value.key == key
          && m[key] == CacheEntry(latest.value.resp, latest.value.until))
  }

  lemma HoldsNext(m: Cache, h: History, n: nat, key: seq<byte>)
    requires n < |h| && Holds(m, Held(h, n), key, Latest(h, n, key))
    ensures Holds(WithStored(m, h[n]), Held(h, n + 1), key, Latest(h, n + 1, key))
  {
    assert |m| == |m.Keys|;
  }

  /** The map has exactly the keys held, and under each the latest answer. */
  lemma CacheIsHeld(s: Setup, es: seq<Event>, n: nat, key: seq<byte>)
    requires n <= |es|
    ensures Holds(CacheAfter(s, es, n), Held(HistoryOf(s, es), n), key, Latest(HistoryOf(s, es), n, key))
  {
    var ms := seq(|es| + 1, i requires 0 <= i <= |es| => CacheAfter(s, es, i));
    forall i | 0 <= i < |es| ensures ms[i + 1] == WithStored(ms[i], HistoryOf(s, es)[i]) {
      EventStores(s, es, i);
    }
    HoldsAlong(ms, HistoryOf(s, es), n, key);
  }

  lemma {:induction false} HoldsAlong(ms: seq<Cache>, h: History, n: nat, key: seq<byte>)
    requires n <= |h| && |ms| == |h| + 1 && ms[0] == map[]
    requires forall i :: 0 <= i < |h| ==> ms[i + 1] == WithStored(ms[i], h[i])
    ensures Holds(ms[n], Held(h, n), key, Latest(h, n, key))
  {
    if n > 0 {
      HoldsAlong(ms, h, n - 1, key);
      HoldsNext(ms[n - 1], h, n - 1, key);
    }
  }

  predicate Long(st: Option<Stored>) {
    st.Some? ==> |st.value.resp| >= 12
  }

  lemma {:induction false} LatestLong(h: History, n: nat, key: seq<byte>)
    requires n <= |h| && forall i :: 0 <= i < |h| ==> Long(h[i])
    ensures Long(Latest(h, n, key))
  {
    if n > 0 {
      LatestLong(h, n - 1, key);
    }
  }

  lemma HistoryLong(s: Setup, es: seq<Event>)
    ensures forall i :: 0 <= i < |HistoryOf(s, es)| ==> Long(HistoryOf(s, es)[i])
  {
    forall i | 0 <= i < |es| ensures Long(StoredBy(s, es[i])) {
      if StoredBy(s, es[i]).Some? {
        TtlNeedsHeader(es[i].resp);
      }
    }
  }

  /** What an asking is answered before upstream is: the latest answer, if there is one that has not run out. */
  predicate AnsweredFrom(latest: Option<Stored>, query: seq<byte>, now: int, answer: Answer)
    requires |query| >= 2
  {
    match latest
    case None => answer == Forward
    case Some(st) =>
      |st.resp| >= 2 && answer == if now <= st.until then Cached(query[..2] + st.resp[2..]) else Forward
  }

  /**
   After any events every query is answered like this: one without a full header is
   rejected, one that does not parse goes upstream, a suppressed one gets its empty
   answer, and any other gets the latest answer held for its name and type, with its
   own identifier, until that answer's least TTL, at most an hour, has run out; else
   it goes upstream.
   */
  lemma AnsweredExactly(s: Setup, es: seq<Event>, n: nat, query: seq<byte>, now: int)
    requires n <= |es|
    ensures var answer, question := AnswerLocally(s, CacheAfter(s, es, n), query, now), QuestionOf(s.uni, query);
            && (answer == Rejected <==> |query| < 12)
            && (|query| >= 12 && question == None ==> answer == Forward)
            && (question.Some? ==> |query| >= 12)
            && (question.Some? && s.suppressAAAA && question.value.1 == 28 ==>
                  answer == Suppressed(EmptyAnswerOf(query)))
            && (question.Some? && !(s.suppressAAAA && question.value.1 == 28) ==>
                  var key := CacheKey(question.value.0, question.value.1);
                  AnsweredFrom(Latest(HistoryOf(s, es), n, key), query, now, answer))
  {
    if AskedKey(s, query).Some? {
      var key := AskedKey(s, query).value;
      CacheIsHeld(s, es, n, key);
      HistoryLong(s, es);
      LatestLong(HistoryOf(s, es), n, key);
    }
  }
}
