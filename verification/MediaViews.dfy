/** Cached presigned URLs (doci/media/service.py `view_url`, doci/media/config.py): how much
    life is left in a URL when a caller receives it. */
module MediaViews {
  import opened CacheService
  import opened Caching
  import opened Options

  /** A presigned GET URL: good for `life` seconds from `signedAt`. */
  datatype Url = Url(key: string, signedAt: real, life: int)

  /** `view_expiry * 9 // 10` */
  function DefaultCacheTtl(viewExpiry: int): int { viewExpiry * 9 / 10 }

  /** `MediaConfig.from_env`: the cache TTL, derived from the URL lifetime unless given. */
  function CacheTtl(viewExpiry: int, given: Option<int>): int {
    match given case Some(ttl) => ttl case None => DefaultCacheTtl(viewExpiry)
  }

  /** Seconds of life left at time `now`. */
  function Left(u: Url, now: real): real { u.signedAt + u.life as real - now }

  /** Everything the history stored came from `view_url`: a URL signed for its key at most
      `delay` before it was cached, under the configured TTL. */
  ghost predicate Signed(s: seq<Step<Url>>, namespace: string, viewExpiry: int, ttl: int, delay: real) {
    forall i :: 0 <= i < |s| && (s[i].KvSet? || s[i].MemSet?) ==>
      && s[i].key == KeyText(namespace, s[i].value.key) && s[i].ttl == ttl && s[i].value.life == viewExpiry
      && s[i].value.signedAt <= s[i].at <= s[i].value.signedAt + delay
  }

  lemma KeyTextInjective(namespace: string, a: string, b: string)
    requires KeyText(namespace, a) == KeyText(namespace, b)
    ensures a == b
  {
    if namespace != "" {
      var n := |namespace| + 1;
      assert (namespace + ":" + a)[n..] == a && (namespace + ":" + b)[n..] == b;
    }
  }

  /** Through any KV outage, recovery and eviction: a URL the cache returns was signed for the
      asked key and outlives the read by more than the cache TTL leaves over. */
  lemma CachedUrlLives(c: Config, s: seq<Step<Url>>, namespace: string, viewExpiry: int, ttl: int, delay: real)
    requires s != [] && Possible(c, s) && Signed(s, namespace, viewExpiry, ttl, delay) && Returned(s).Some?
    ensures KeyText(namespace, Returned(s).value.key) == Top(s).key
    ensures Left(Returned(s).value, Top(s).at) > viewExpiry as real - ttl as real - delay
  {
    var d := ValueIsRecent(c, s);
    hide Possible, Returned;
  }

  /** With the default TTL that is a tenth of the URL's lifetime, rounded up, less the delay. */
  lemma DefaultUrlLives(c: Config, s: seq<Step<Url>>, namespace: string, viewExpiry: int, delay: real)
    requires s != [] && Possible(c, s) && Signed(s, namespace, viewExpiry, CacheTtl(viewExpiry, None), delay)
    requires Returned(s).Some?
    ensures Left(Returned(s).value, Top(s).at) > ((viewExpiry + 9) / 10) as real - delay
  {
    CachedUrlLives(c, s, namespace, viewExpiry, DefaultCacheTtl(viewExpiry), delay);
    assert viewExpiry - DefaultCacheTtl(viewExpiry) == (viewExpiry + 9) / 10;
    hide Possible, Returned, Signed;
  }

  /** The default TTL is accepted by the cache exactly for URL lifetimes of two seconds or
      more; below that, `view_url` fails on every miss. */
  lemma DefaultTtlAcceptedIff(viewExpiry: int, default: Option<int>)
    ensures EffectiveTtl(Some(CacheTtl(viewExpiry, None)), default).Some? <==> viewExpiry >= 2
  {}

  class MediaService {
    const cache: Cache<Url>
    const viewExpiry: int
    const cacheTtl: int

    constructor (cache: Cache<Url>, viewExpiry: int, given: Option<int>)
      ensures this.cache == cache && this.viewExpiry == viewExpiry && cacheTtl == CacheTtl(viewExpiry, given)
      ensures given.Some? ==> cacheTtl == given.value
      ensures given.None? ==> 10 * cacheTtl <= 9 * viewExpiry < 10 * cacheTtl + 10
    {
      this.cache, this.viewExpiry, this.cacheTtl := cache, viewExpiry, CacheTtl(viewExpiry, given);
    }

    ghost predicate Valid(c: Config, delay: real)
      reads cache, cache.kv
    { cache.Valid(c) && Signed(cache.kv.log, cache.namespace, viewExpiry, cacheTtl, delay) }

    /** Look up; on a miss sign at `signed` and cache.  None when the cache refuses the TTL.
        `read` and `stored` are when the two cache calls finish. */
    method ViewUrl(ghost c: Config, ghost delay: real, key: string, at: real, read: real, signed: real, stored: real,
                   first: Outcome, second: Outcome, evicted: set<string>)
      returns (r: Option<Url>, done: real)
      requires Valid(c, delay) && cache.kv.NotAfter(at)
      requires at <= read <= signed <= stored <= signed + delay
      modifies cache, cache.kv
      ensures Valid(c, delay) && at <= done && cache.kv.NotAfter(done)
      ensures var k, entry := KeyText(cache.namespace, key), Entry(Url(key, signed, viewExpiry), stored + cacheTtl as real);
              var up := cache.mode.KvThenMem? && at >= old(cache.kvDownUntil);
              var m := if up && first.Answered? then old(cache.kv.data) else old(cache.mem);
              var down := if up && !first.Answered? then read + cache.cooldown else old(cache.kvDownUntil);
              var up' := cache.mode.KvThenMem? && signed >= down;
              if k in m && read < m[k].expires then
                r == Some(m[k].value) && done == read && cache.kv.data == old(cache.kv.data) && cache.mem == old(cache.mem)
              else if cacheTtl <= 0 then r == None
              else
                && r == Some(entry.value) && done == stored
                && cache.kv.data == (if up' && !second.Lost? then old(cache.kv.data)[k := entry] else old(cache.kv.data))
                && cache.mem == (if up' && second.Answered? then old(cache.mem) else old(cache.mem)[k := entry] - evicted)
      ensures r.None? ==> cacheTtl <= 0
      ensures r.Some? ==> r.value.key == key && r.value.life == viewExpiry
                          && Left(r.value, done) >= viewExpiry as real - MaxTtl(cacheTtl) as real - delay
    {
      hide Possible, Kv, Mem, InstOf, UsesKv, DownUntil, Returned, GetTrail, SetTrail, Signed;
      GetStoresNothing(cache.kv.log, cache.namespace, viewExpiry, cacheTtl, delay,
                       cache.Up(at), cache.kv.calls, cache.id, cache.Key(key), at, read, first);
      var hit := cache.Get(c, key, at, read, first);
      if hit.Some? {
        ReadUrl(c, cache.kv.log, cache.namespace, viewExpiry, cacheTtl, delay, key);
        return hit, read;
      }
      var url := Url(key, signed, viewExpiry);
      SetStoresUrl(cache.kv.log, cache.namespace, viewExpiry, cacheTtl, delay,
                   cache.Up(signed), cache.kv.calls, cache.id, url, signed, stored, second, evicted);
      var ok := cache.Set(c, key, Some(url), Some(cacheTtl), signed, stored, second, evicted);
      if !ok { return None, signed; }
      return Some(url), stored;
    }
  }

  /** A cache hit needs a positive TTL; a fresh URL has its whole life. */
  function MaxTtl(ttl: int): int { if ttl > 0 then ttl else 0 }

  lemma GetStoresNothing(s: seq<Step<Url>>, namespace: string, viewExpiry: int, ttl: int, delay: real,
                         up: bool, call: nat, inst: nat, k: string, at: real, done: real, answer: Outcome)
    requires Signed(s, namespace, viewExpiry, ttl, delay)
    ensures Signed(s + GetTrail(up, call, inst, k, at, done, answer), namespace, viewExpiry, ttl, delay)
  {
    SignedMore(s, GetTrail(up, call, inst, k, at, done, answer), namespace, viewExpiry, ttl, delay);
  }

  lemma SetStoresUrl(s: seq<Step<Url>>, namespace: string, viewExpiry: int, ttl: int, delay: real, up: bool, call: nat,
                     inst: nat, url: Url, at: real, stored: real, answer: Outcome, evicted: set<string>)
    requires Signed(s, namespace, viewExpiry, ttl, delay)
    requires url.life == viewExpiry && url.signedAt <= stored <= url.signedAt + delay
    ensures Signed(s + SetTrail(up, call, inst, KeyText(namespace, url.key), url, ttl, at, stored, answer, evicted),
                   namespace, viewExpiry, ttl, delay)
  {
    SignedMore(s, SetTrail(up, call, inst, KeyText(namespace, url.key), url, ttl, at, stored, answer, evicted),
               namespace, viewExpiry, ttl, delay);
  }

  lemma SignedMore(s: seq<Step<Url>>, more: seq<Step<Url>>, namespace: string, viewExpiry: int, ttl: int, delay: real)
    requires Signed(s, namespace, viewExpiry, ttl, delay) && Signed(more, namespace, viewExpiry, ttl, delay)
    ensures Signed(s + more, namespace, viewExpiry, ttl, delay)
  {
    hide KeyText;
  }

  lemma ReadUrl(c: Config, s: seq<Step<Url>>, namespace: string, viewExpiry: int, ttl: int, delay: real, key: string)
    requires s != [] && Possible(c, s) && Signed(s, namespace, viewExpiry, ttl, delay) && Returned(s).Some?
    requires Top(s).key == KeyText(namespace, key)
    ensures Returned(s).value.key == key && Returned(s).value.life == viewExpiry && ttl > 0
    ensures Left(Returned(s).value, Top(s).at) >= viewExpiry as real - ttl as real - delay
  {
    var d := ValueIsRecent(c, s);
    KeyTextInjective(namespace, Returned(s).value.key, key);
    hide Possible, Returned;
  }
}
