/** connectors/web/cache.go and fetch.go: the response cache in front of page fetching. */
module WebCache {
  import opened Wrappers
  import opened Text

  const DEFAULT_USER_AGENT := "Mozilla/5.0 (X11; Linux x86_64) pantograf/0.1 (+https://github.com/sistemica/pantograf)"

  datatype Entry = Entry(fetchedAt: int, status: int, contentType: string, finalURL: string, body: string, js: bool)

  datatype Request = Request(url: string, js: bool, waitFor: string, userAgent: string, ttl: int)

  /** What the world does during one call: the time of the cache check, whether the store can be read,
      what the fetch brings (nothing on an error), and whether the store can be written. */
  datatype World = World(now: int, readable: bool, page: Option<Entry>, writable: bool)

  datatype Reply = Failed | Page(entry: Entry, fromCache: bool)

  /** A fetch that really happened. */
  datatype Fetch = Fetch(url: string, js: bool, agent: string, entry: Entry, stored: bool)

  /* ---------- Keys ---------- */

  function Preimage(url: string, js: bool, agent: string): string {
    url + ['\0'] + ((if js then "js" else "http") + ['\0'] + agent)
  }

  /** cacheKey; the digest is a parameter. */
  function CacheKey(digest: string -> string, url: string, js: bool, agent: string): string {
    "page:" + digest(Preimage(url, js, agent))
  }

  ghost predicate Ideal(digest: string -> string) {
    forall a, b :: digest(a) == digest(b) ==> a == b
  }

  lemma ModeHasNoNul(js: bool)
    ensures '\0' !in (if js then "js" else "http")
  {
  }

  /** The hashed text determines the URL, the mode and the user agent when URLs hold no NUL;
      the user agent may hold anything. */
  lemma PreimageInjective(url: string, js: bool, agent: string, url': string, js': bool, agent': string)
    requires '\0' !in url && '\0' !in url'
    requires Preimage(url, js, agent) == Preimage(url', js', agent')
    ensures url == url' && js == js' && agent == agent'
  {
    PreimageFields(url, js, agent);
    PreimageFields(url', js', agent');
    var a, b := Split(Preimage(url, js, agent), '\0'), Split(Preimage(url', js', agent'), '\0');
    assert a[0] == url && b[0] == url' && a[1][0] == (if js then 'j' else 'h') && b[1][0] == (if js' then 'j' else 'h');
    assert a[2..] == Split(agent, '\0') && b[2..] == Split(agent', '\0');
    JoinOfSplit(agent, '\0');
    JoinOfSplit(agent', '\0');
  }

  lemma PreimageFields(url: string, js: bool, agent: string)
    requires '\0' !in url
    ensures Split(Preimage(url, js, agent), '\0') == [url, if js then "js" else "http"] + Split(agent, '\0')
  {
    ModeHasNoNul(js);
    SplitTwice(url, if js then "js" else "http", agent, '\0');
  }

  lemma SplitTwice(a: string, b: string, rest: string, c: char)
    requires c !in a && c !in b
    ensures Split(a + [c] + (b + [c] + rest), c) == [a, b] + Split(rest, c)
  {
    SplitFirst(a, b + [c] + rest, c);
    SplitFirst(b, rest, c);
    assert [a] + ([b] + Split(rest, c)) == [a, b] + Split(rest, c);
  }

  /** The key function alone does not tell these two apart. No request reaches it with a NUL in its URL: such a
      URL does not parse. */
  lemma NulCollision(digest: string -> string)
    ensures CacheKey(digest, "a", false, "b\0http\0c") == CacheKey(digest, "a\0http\0b", false, "c")
  {
    assert Preimage("a", false, "b\0http\0c") == "a\0http\0b\0http\0c" == Preimage("a\0http\0b", false, "c");
  }

  /* ---------- One call ---------- */

  function Agent(requested: string, configured: string): string {
    if requested != "" then requested else if configured != "" then configured else DEFAULT_USER_AGENT
  }

  /** The session's store of entries, and every fetch so far. */
  datatype State = State(store: map<string, Entry>, fetches: seq<Fetch>)

  predicate IsFresh(e: Entry, now: int, ttl: int) { now - e.fetchedAt <= ttl }

  /** fetchOrCache on values. Without a store nothing is read or written. */
  function Answer(s: State, digest: string -> string, configured: string, hasStore: bool, q: Request, w: World): (State, Reply) {
    var agent := Agent(q.userAgent, configured);
    var key := CacheKey(digest, q.url, q.js, agent);
    if q.ttl > 0 && hasStore && w.readable && key in s.store && IsFresh(s.store[key], w.now, q.ttl) then
      (s, Page(s.store[key], true))
    else if w.page.None? then (s, Failed)
    else
      var stored := hasStore && w.writable;
      (State(if stored then s.store[key := w.page.value] else s.store,
             s.fetches + [Fetch(q.url, q.js, agent, w.page.value, stored)]),
       Page(w.page.value, false))
  }

  class Session {
    const digest: string -> string
    const configured: string
    const hasStore: bool
    var store: map<string, Entry>
    ghost var fetches: seq<Fetch>

    constructor (digest: string -> string, configured: string, hasStore: bool)
      ensures this.digest == digest && this.configured == configured && this.hasStore == hasStore
      ensures store == map[] && fetches == []
    {
      this.digest, this.configured, this.hasStore := digest, configured, hasStore;
      store, fetches := map[], [];
    }

    method ReadCache(key: string, ttl: int, w: World) returns (hit: Option<Entry>)
      ensures hit == if ttl > 0 && hasStore && w.readable && key in store && IsFresh(store[key], w.now, ttl)
                     then Some(store[key]) else None
    {
      if ttl <= 0 || !hasStore {
        return None;
      }
      if !w.readable || key !in store {
        return None;
      }
      var e := store[key];
      if w.now - e.fetchedAt > ttl {
        return None;
      }
      hit := Some(e);
    }

    method WriteCache(key: string, e: Entry, w: World) returns (stored: bool)
      modifies this`store
      ensures stored == (hasStore && w.writable)
      ensures store == if stored then old(store)[key := e] else old(store)
    {
      if !hasStore || !w.writable {
        return false;
      }
      store := store[key := e];
      stored := true;
    }

    method FetchOrCache(q: Request, w: World) returns (reply: Reply)
      modifies this`store, this`fetches
      ensures (State(store, fetches), reply) ==
                Answer(State(old(store), old(fetches)), digest, configured, hasStore, q, w)
    {
      var ua := q.userAgent;
      if ua == "" {
        ua := configured;
      }
      if ua == "" {
        ua := DEFAULT_USER_AGENT;
      }
      var key := CacheKey(digest, q.url, q.js, ua);
      var hit := ReadCache(key, q.ttl, w);
      if hit.Some? {
        return Page(hit.value, true);
      }
      if w.page.None? {
        return Failed;
      }
      var stored := WriteCache(key, w.page.value, w);
      fetches := fetches + [Fetch(q.url, q.js, ua, w.page.value, stored)];
      reply := Page(w.page.value, false);
    }
  }

  /* ---------- Runs ---------- */

  /** A session's fixed surroundings and the calls made on it. */
  datatype Setup = Setup(digest: string -> string, configured: string, hasStore: bool)

  datatype CallIn = CallIn(q: Request, w: World)

  function After(u: Setup, calls: seq<CallIn>, n: nat): State
    requires n <= |calls|
  {
    if n == 0 then State(map[], [])
    else Answer(After(u, calls, n - 1), u.digest, u.configured, u.hasStore, calls[n - 1].q, calls[n - 1].w).0
  }

  function ReplyTo(u: Setup, calls: seq<CallIn>, n: nat): Reply
    requires n < |calls|
  {
    Answer(After(u, calls, n), u.digest, u.configured, u.hasStore, calls[n].q, calls[n].w).1
  }

  /** The entry most recently stored by a real fetch of this URL, mode and user agent. */
  function Latest(fetches: seq<Fetch>, url: string, js: bool, agent: string): Option<Entry> {
    if fetches == [] then None
    else
      var f := fetches[|fetches| - 1];
      if f.stored && f.url == url && f.js == js && f.agent == agent then Some(f.entry)
      else Latest(fetches[..|fetches| - 1], url, js, agent)
  }

  /** The store holds, under the key of every NUL-free URL, mode and agent, the latest stored entry. */
  ghost predicate Faithful(s: State, digest: string -> string) {
    forall url: string, js: bool, agent: string | '\0' !in url ::
      (if CacheKey(digest, url, js, agent) in s.store then Some(s.store[CacheKey(digest, url, js, agent)]) else None)
        == Latest(s.fetches, url, js, agent)
  }

  lemma KeysApart(digest: string -> string, url: string, js: bool, agent: string, url': string, js': bool, agent': string)
    requires Ideal(digest) && '\0' !in url && '\0' !in url'
    ensures CacheKey(digest, url, js, agent) == CacheKey(digest, url', js', agent')
       <==> url == url' && js == js' && agent == agent'
  {
    var a, b := CacheKey(digest, url, js, agent), CacheKey(digest, url', js', agent');
    if a == b {
      assert a[5..] == digest(Preimage(url, js, agent)) && b[5..] == digest(Preimage(url', js', agent'));
      PreimageInjective(url, js, agent, url', js', agent');
    }
  }

  lemma AnswerKeeps(s: State, u: Setup, q: Request, w: World)
    requires Ideal(u.digest) && Faithful(s, u.digest) && '\0' !in q.url
    ensures Faithful(Answer(s, u.digest, u.configured, u.hasStore, q, w).0, u.digest)
  {
    var t := Answer(s, u.digest, u.configured, u.hasStore, q, w).0;
    var agent := Agent(q.userAgent, u.configured);
    if t.fetches != s.fetches {
      forall url: string, js: bool, a: string | '\0' !in url
        ensures (if CacheKey(u.digest, url, js, a) in t.store then Some(t.store[CacheKey(u.digest, url, js, a)]) else None)
                  == Latest(t.fetches, url, js, a)
      {
        KeysApart(u.digest, url, js, a, q.url, q.js, agent);
        assert t.fetches[..|t.fetches| - 1] == s.fetches;
      }
    }
  }

  lemma {:induction false} RunFaithful(u: Setup, calls: seq<CallIn>, n: nat)
    requires Ideal(u.digest) && n <= |calls| && forall i | 0 <= i < n :: '\0' !in calls[i].q.url
    ensures Faithful(After(u, calls, n), u.digest)
  {
    if n > 0 {
      RunFaithful(u, calls, n - 1);
      AnswerKeeps(After(u, calls, n - 1), u, calls[n - 1].q, calls[n - 1].w);
    }
  }

  /** A reply comes from the cache exactly when the cache is on and readable and the entry most recently
      stored by a real fetch of the same URL, mode and effective user agent is no older than the
      caller's limit; it is then that entry. */
  lemma CacheAgreesWithFetching(u: Setup, calls: seq<CallIn>, n: nat)
    requires Ideal(u.digest) && n < |calls| && forall i | 0 <= i <= n :: '\0' !in calls[i].q.url
    ensures var q, w, s := calls[n].q, calls[n].w, After(u, calls, n);
            var latest := Latest(s.fetches, q.url, q.js, Agent(q.userAgent, u.configured));
            var reply := ReplyTo(u, calls, n);
            && ((reply.Page? && reply.fromCache) <==>
                  q.ttl > 0 && u.hasStore && w.readable && latest.Some? && w.now - latest.value.fetchedAt <= q.ttl)
            && (reply.Page? && reply.fromCache ==> reply.entry == latest.value)
  {
    RunFaithful(u, calls, n);
    var q := calls[n].q;
    assert CacheKey(u.digest, q.url, q.js, Agent(q.userAgent, u.configured)) ==
           CacheKey(u.digest, q.url, q.js, Agent(q.userAgent, u.configured));
  }

  /** The clock does not run backwards, and fetched pages carry the time of their fetch. */
  ghost predicate ClockMoves(calls: seq<CallIn>) {
    && (forall i, j | 0 <= i < j < |calls| :: calls[i].w.now <= calls[j].w.now)
    && (forall i, j | 0 <= i < j < |calls| && calls[i].w.page.Some? :: calls[i].w.page.value.fetchedAt <= calls[j].w.now)
  }

  lemma {:induction false} FetchesArePast(u: Setup, calls: seq<CallIn>, n: nat, k: nat)
    requires ClockMoves(calls) && n <= k < |calls|
    ensures forall f | f in After(u, calls, n).fetches :: f.entry.fetchedAt <= calls[k].w.now
  {
    if n > 0 {
      FetchesArePast(u, calls, n - 1, k);
    }
  }

  lemma {:induction false} LatestIsAFetch(fetches: seq<Fetch>, url: string, js: bool, agent: string)
    ensures var latest := Latest(fetches, url, js, agent);
            latest.Some? ==> exists f :: f in fetches && f.stored && f.entry == latest.value
                               && f.url == url && f.js == js && f.agent == agent
  {
    if fetches != [] {
      LatestIsAFetch(fetches[..|fetches| - 1], url, js, agent);
      var f := fetches[|fetches| - 1];
      assert f in fetches;
    }
  }

  /** With a clock that does not run backwards, a cached reply is between 0 and the caller's limit old. */
  lemma CachedAge(u: Setup, calls: seq<CallIn>, n: nat)
    requires Ideal(u.digest) && ClockMoves(calls) && n < |calls|
    requires forall i | 0 <= i <= n :: '\0' !in calls[i].q.url
    ensures var reply := ReplyTo(u, calls, n);
            reply.Page? && reply.fromCache ==> 0 <= calls[n].w.now - reply.entry.fetchedAt <= calls[n].q.ttl
  {
    CacheAgreesWithFetching(u, calls, n);
    FetchesArePast(u, calls, n, n);
    var q := calls[n].q;
    LatestIsAFetch(After(u, calls, n).fetches, q.url, q.js, Agent(q.userAgent, u.configured));
  }

  /** The selector to wait for is not part of the key: the page of a fetch that waited for one selector
      answers a request that waits for another, whatever that one's own fetch would bring. */
  lemma WaitForIsIgnored(u: Setup, q: Request, first: World, second: World, waitFor: string)
    requires u.hasStore && q.ttl > 0 && first.page.Some? && first.writable && second.readable
    requires IsFresh(first.page.value, second.now, q.ttl)
    ensures ReplyTo(u, [CallIn(q, first), CallIn(q.(waitFor := waitFor), second)], 1) == Page(first.page.value, true)
  {
    var calls := [CallIn(q, first), CallIn(q.(waitFor := waitFor), second)];
    assert After(u, calls, 0) == State(map[], []);
    assert After(u, calls, 1) == Answer(After(u, calls, 0), u.digest, u.configured, u.hasStore, q, first).0;
  }

  /* ---------- Whose user agent, and what a miss brings ---------- */

  /** A reply that is not from the cache is that of a fetch: an error when the fetch fails, and nothing is then
      recorded or stored; otherwise the fetched page, and the fetch was made under the request's own user agent,
      else the configured one, else the default. A reply from the cache leaves everything as it was. */
  lemma MissFetches(u: Setup, calls: seq<CallIn>, n: nat, m: nat)
    requires m == n + 1 <= |calls|
    ensures var q, w, s, t := calls[n].q, calls[n].w, After(u, calls, n), After(u, calls, m);
            var agent := if q.userAgent != "" then q.userAgent
                         else if u.configured != "" then u.configured else DEFAULT_USER_AGENT;
            match ReplyTo(u, calls, n)
            case Failed => w.page == None && t == s
            case Page(e, true) => t == s
            case Page(e, false) => w.page == Some(e) && t.fetches == s.fetches + [Fetch(q.url, q.js, agent, e, u.hasStore && w.writable)]
  {
  }

  /** Fetch, then ask again: the page that a call replied is, if it could be stored, the reply to the same
      request at once after it, as long as it is within the limit. */
  lemma FetchedThenCached(u: Setup, calls: seq<CallIn>, n: nat, m: nat)
    requires m == n + 1 < |calls| && u.hasStore
    requires calls[m].q == calls[n].q && calls[n].w.writable && calls[m].w.readable && calls[m].q.ttl > 0
    ensures var reply, e := ReplyTo(u, calls, n), ReplyTo(u, calls, m);
            reply.Page? && !reply.fromCache && calls[m].w.now - reply.entry.fetchedAt <= calls[m].q.ttl
            ==> e == Page(reply.entry, true)
  {
    var q := calls[n].q;
    var key := CacheKey(u.digest, q.url, q.js, Agent(q.userAgent, u.configured));
    var reply := ReplyTo(u, calls, n);
    if reply.Page? && !reply.fromCache {
      assert After(u, calls, m).store == After(u, calls, n).store[key := reply.entry];
    }
  }
}
