/**
 * The service worker of the chat page: it pre-caches the application shell on install,
 * answers model-artifact requests cache-first and every other request network-first,
 * and on activation deletes every cache whose name is not one of the two current ones.
 *
 * The browser's cache storage is a list of named caches (kept in creation order, which is
 * the order `caches.keys()` reports and `caches.match` searches) and, per name, a map from
 * request key to response. The network is an oracle: each fetch yields a response (ok or
 * not) or a rejection.
 */
module ServiceWorker {
  import opened Common

  /** Name of the application-shell cache. */
  const CacheName: string := "nexus-ai-model-v1"
  /** Name of the model-artifact cache. */
  const ModelCache: string := "nexus-ai-models"

  /** The origin the page and its worker are deployed at (the page's "Open in New Tab" link). */
  const Origin: string := "https://ywet290-beep.github.io"

  /** The paths the install handler hands to `cache.addAll`. */
  const ShellPaths: seq<string> :=
    ["/ai-nexus-chat/", "/ai-nexus-chat/index.html", "/ai-nexus-chat/app.js", "/ai-nexus-chat/styles.css"]

  /** The request URLs `cache.addAll` stores them under: each path resolved against the origin. */
  const ShellUrls: seq<string> := seq(|ShellPaths|, k requires 0 <= k < |ShellPaths| => Origin + ShellPaths[k])

  datatype Response = Response(status: int, body: string)
  {
    /** `response.ok`: the status is in the range 200-299. */
    predicate Ok()
    {
      200 <= status <= 299
    }

    /** A partial response (206), which `cache.put` and `cache.addAll` reject. */
    predicate Partial()
    {
      status == 206
    }

    /** What `cache.addAll` accepts, and what the handlers' ok test lets `cache.put` store. */
    predicate Storable()
    {
      Ok() && !Partial()
    }
  }

  /** What one network fetch yields. */
  datatype NetResult = Got(response: Response) | NetError

  /** What the fetch handler hands to `respondWith`: a response, `undefined`, or a rejection. */
  datatype Reply = Served(response: Response) | Empty | Rejected

  /** One named cache: request key (the URL) to response. */
  type Cache = map<string, Response>

  /** The whole cache storage: cache names in creation order, and each cache's contents. */
  datatype Storage = Storage(names: seq<string>, caches: map<string, Cache>)

  /** Outcome of one intercepted fetch: the storage afterwards, the reply, whether the network was used. */
  datatype Step = Step(after: Storage, reply: Reply, fetched: bool)

  ghost predicate Distinct(s: seq<string>)
  {
    forall i, j :: 0 <= i < j < |s| ==> s[i] != s[j]
  }

  /** The name list and the map of caches describe the same caches, each name once. */
  ghost predicate Wf(st: Storage)
  {
    Distinct(st.names) && forall n :: n in st.caches <==> n in st.names
  }

  // ----- Classification -------------------------------------------------------------------

  /** The fetch handler's test for a model artifact: a plain substring test on the URL. */
  function IsModelArtifact(url: string): bool
  {
    Includes(url, ".wasm") || Includes(url, "tokenizer") || Includes(url, "model")
  }

  /** A request is a model artifact exactly when one of the three markers occurs in its URL. */
  lemma ModelArtifactIff(url: string)
    ensures IsModelArtifact(url) <==>
      exists i: nat :: OccursAt(url, ".wasm", i) || OccursAt(url, "tokenizer", i) || OccursAt(url, "model", i)
  {
    IncludesIff(url, ".wasm");
    IncludesIff(url, "tokenizer");
    IncludesIff(url, "model");
  }

  /** Any URL with "model" in it, such as a weight shard under a model directory, goes cache-first. */
  lemma ModelDirectoryIsArtifact(pre: string, post: string)
    ensures IsModelArtifact(pre + "model" + post)
  {
    IncludesInfix(pre, "model", post);
  }

  /**
   * None of the pre-cached shell URLs is a model artifact: all of them go network-first. The
   * handler tests the absolute URL, so the origin is part of the string classified.
   */
  lemma ShellUrlsAreNotArtifacts()
    ensures forall u :: u in ShellUrls ==> !IsModelArtifact(u)
  {
    ShellPathsLackMarkerChars();
    forall u | u in ShellUrls ensures !IsModelArtifact(u) {
      var k :| 0 <= k < |ShellUrls| && ShellUrls[k] == u;
      assert ShellPaths[k] in ShellPaths;
      UnderOriginIsNotArtifact(ShellPaths[k]);
    }
  }

  /** The characters 'w', 'k' and 'o' (one from each marker) are absent from `p`. */
  predicate LacksMarkerChars(p: string)
  {
    'w' !in p && 'k' !in p && 'o' !in p
  }

  lemma ShellPathsLackMarkerChars()
    ensures forall p :: p in ShellPaths ==> LacksMarkerChars(p)
  {
  }

  /**
   * A path without 'w', 'k' and 'o', resolved against the origin, contains none of the three
   * markers: the origin has no 'k', no 'a' and does not end in 'w' (so ".wasm" cannot start
   * in it), and no 'm' (so "model" cannot start in it).
   */
  lemma UnderOriginIsNotArtifact(p: string)
    requires LacksMarkerChars(p)
    ensures !IsModelArtifact(Origin + p)
  {
    assert Origin[|Origin| - 1] == 'o';
    AdjacentCharsSplit(Origin, p, ".wasm", 1);
    MissingCharExcludes(Origin + p, "tokenizer", 'k');
    MissingCharExcludes(p, "model", 'o');
    FirstCharOutside(Origin, p, "model");
  }

  // ----- Primitive operations of the cache storage ---------------------------------------

  /** `caches.open(name)`: the storage with that cache, created empty at the end when absent. */
  function Opened(st: Storage, name: string): (r: Storage)
    ensures name in r.caches
  {
    if name in st.caches then st else Storage(st.names + [name], st.caches[name := map[]])
  }

  /**
   * `cache.put(url, resp)` on the cache called `name`. The put rejects, storing nothing, a
   * partial (206) response; any other status, ok or not, is stored.
   */
  function Stored(st: Storage, name: string, url: string, resp: Response): Storage
    requires name in st.caches
  {
    if !resp.Partial() then Storage(st.names, st.caches[name := st.caches[name][url := resp]]) else st
  }

  /** The list `s` with every occurrence of `x` removed. */
  function Without(s: seq<string>, x: string): seq<string>
  {
    if s == [] then [] else (if s[0] == x then [] else [s[0]]) + Without(s[1..], x)
  }

  /** `caches.delete(name)`. */
  function Deleted(st: Storage, name: string): Storage
  {
    Storage(Without(st.names, name), st.caches - {name})
  }

  /** `caches.match(url)`: the first cache, in creation order, that holds the URL. */
  function FirstMatch(names: seq<string>, caches: map<string, Cache>, url: string): Option<Response>
  {
    if names == [] then None
    else if names[0] in caches && url in caches[names[0]] then Some(caches[names[0]][url])
    else FirstMatch(names[1..], caches, url)
  }

  /** The `k`-th cache in creation order exists and holds the URL. */
  ghost predicate HoldsAt(names: seq<string>, caches: map<string, Cache>, url: string, k: int)
  {
    0 <= k < |names| && names[k] in caches && url in caches[names[k]]
  }

  /**
   * `caches.match` finds a response exactly when some cache holds the URL, and the response
   * is the one in the first such cache in creation order, so an older cache shadows a newer.
   */
  lemma {:induction false} FirstMatchSpec(names: seq<string>, caches: map<string, Cache>, url: string)
    ensures FirstMatch(names, caches, url).Some? <==>
      exists n :: n in names && n in caches && url in caches[n]
    ensures FirstMatch(names, caches, url).Some? ==>
      exists k :: HoldsAt(names, caches, url, k) && FirstMatch(names, caches, url).value == caches[names[k]][url]
        && forall m :: 0 <= m < k ==> !HoldsAt(names, caches, url, m)
  {
    if names != [] {
      FirstMatchSpec(names[1..], caches, url);
      if names[0] in caches && url in caches[names[0]] {
        assert HoldsAt(names, caches, url, 0);
      } else {
        forall n | n in names && n in caches && url in caches[n] ensures n in names[1..] {
          var k :| 0 <= k < |names| && names[k] == n;
          assert k != 0;
          assert names[1..][k - 1] == n;
        }
        if FirstMatch(names, caches, url).Some? {
          var k :| HoldsAt(names[1..], caches, url, k) && FirstMatch(names[1..], caches, url).value == caches[names[1..][k]][url]
            && forall m :: 0 <= m < k ==> !HoldsAt(names[1..], caches, url, m);
          assert HoldsAt(names, caches, url, k + 1);
          forall m | 0 <= m < k + 1 ensures !HoldsAt(names, caches, url, m) {
            if m > 0 {
              assert !HoldsAt(names[1..], caches, url, m - 1);
            }
          }
        }
      }
    }
  }

  // ----- Install ----------------------------------------------------------------------------

  /** `cache.addAll` succeeds only when every path is fetched and every response is ok. */
  predicate AddAllSucceeds(net: string -> NetResult)
  {
    forall u :: u in ShellUrls ==> net(u).Got? && net(u).response.Storable()
  }

  /**
   * The install handler: open the shell cache, then `addAll` the four shell paths. `addAll`
   * writes all of them in one batch or, when it rejects, none; the rejection is swallowed.
   */
  function Installed(st: Storage, net: string -> NetResult): Storage
  {
    var withCache := Opened(st, CacheName);
    if AddAllSucceeds(net) then
      Storage(withCache.names, withCache.caches[CacheName :=
        withCache.caches[CacheName] + map u | u in ShellUrls :: net(u).response])
    else withCache
  }

  /** The shell cache before install: its contents, or empty when it does not exist yet. */
  function PriorShell(st: Storage): Cache
  {
    if CacheName in st.caches then st.caches[CacheName] else map[]
  }

  /** Install never fails, writes the shell cache all-or-nothing and leaves other caches alone. */
  lemma InstallAllOrNothing(st: Storage, net: string -> NetResult)
    requires Wf(st)
    ensures var after := Installed(st, net);
      && Wf(after)
      && CacheName in after.caches
      && (AddAllSucceeds(net) ==>
            && (forall u :: u in ShellUrls ==> u in after.caches[CacheName] && after.caches[CacheName][u] == net(u).response)
            && (forall u :: u !in ShellUrls ==>
                  (u in after.caches[CacheName] <==> u in PriorShell(st))
                  && (u in PriorShell(st) ==> after.caches[CacheName][u] == PriorShell(st)[u])))
      && (!AddAllSucceeds(net) ==> after.caches[CacheName] == PriorShell(st))
      && (forall n :: n in st.caches && n != CacheName ==> n in after.caches && after.caches[n] == st.caches[n])
      && after.caches.Keys == st.caches.Keys + {CacheName}
  {
    OpenedWf(st, CacheName);
  }

  // ----- Fetch ------------------------------------------------------------------------------

  /** Cache-first: serve from the model cache; on a miss fetch, and keep the response if ok. */
  function CacheFirst(st: Storage, url: string, net: NetResult): Step
  {
    var withCache := Opened(st, ModelCache);
    var cache := withCache.caches[ModelCache];
    if url in cache then Step(withCache, Served(cache[url]), false)
    else match net
      case NetError => Step(withCache, Rejected, true)
      case Got(resp) => Step(if resp.Ok() then Stored(withCache, ModelCache, url, resp) else withCache, Served(resp), true)
  }

  /** Network-first: fetch; keep an ok response in the shell cache; only a rejection falls back. */
  function NetworkFirst(st: Storage, url: string, net: NetResult): Step
  {
    match net
    case Got(resp) =>
      Step(if resp.Ok() then Stored(Opened(st, CacheName), CacheName, url, resp) else st, Served(resp), true)
    case NetError =>
      Step(st, match FirstMatch(st.names, st.caches, url) case Some(r) => Served(r) case None => Empty, true)
  }

  /** The fetch handler. */
  function Fetch(st: Storage, url: string, net: NetResult): Step
  {
    if IsModelArtifact(url) then CacheFirst(st, url, net) else NetworkFirst(st, url, net)
  }

  /** The cache the fetch handler may write for a URL. */
  function WrittenCache(url: string): string
  {
    if IsModelArtifact(url) then ModelCache else CacheName
  }

  /** A cache-first hit returns the cached response without fetching and changes nothing. */
  lemma CacheFirstHit(st: Storage, url: string, net: NetResult)
    requires IsModelArtifact(url)
    requires ModelCache in st.caches && url in st.caches[ModelCache]
    ensures Fetch(st, url, net) == Step(st, Served(st.caches[ModelCache][url]), false)
  {
  }

  /**
   * A cache-first miss fetches; it stores the response only when ok and not partial, returns
   * it whatever its status, and a rejection propagates. No content changes except the store of an ok response
   * (opening the model cache creates it, empty, when it was absent).
   */
  lemma CacheFirstMiss(st: Storage, url: string, net: NetResult)
    requires IsModelArtifact(url)
    requires !(ModelCache in st.caches && url in st.caches[ModelCache])
    ensures var s := Fetch(st, url, net);
      && s.fetched
      && s.reply == (if net.Got? then Served(net.response) else Rejected)
      && (net.Got? && net.response.Storable() ==>
            var o := Opened(st, ModelCache);
            s.after == Storage(o.names, o.caches[ModelCache := o.caches[ModelCache][url := net.response]]))
      && (!(net.Got? && net.response.Storable()) ==> s.after == Opened(st, ModelCache))
  {
  }

  /**
   * Repeating a model-artifact request: the second one is served from the model cache, with
   * the same reply and no fetch, exactly when the first was a hit or fetched a storable
   * response (ok and not partial).
   */
  lemma RepeatedArtifactRequest(st: Storage, url: string, net1: NetResult, net2: NetResult)
    requires IsModelArtifact(url)
    ensures var s1 := Fetch(st, url, net1);
      var s2 := Fetch(s1.after, url, net2);
      && (!s2.fetched <==> !s1.fetched || (net1.Got? && net1.response.Storable()))
      && (!s2.fetched ==> s2.reply == s1.reply && s2.after == s1.after)
  {
  }

  /**
   * Network-first: an ok response is stored in the shell cache (unless partial, which the put
   * rejects after the cache was opened) and returned; a non-ok one is returned, not stored and
   * not replaced by a cached copy; only a rejection consults `caches.match`, which answers
   * from the first cache in creation order that holds the URL, or not at all.
   */
  lemma NetworkFirstOutcomes(st: Storage, url: string, net: NetResult)
    requires !IsModelArtifact(url)
    ensures var s := Fetch(st, url, net);
      && s.fetched
      && (net.Got? ==> s.reply == Served(net.response))
      && (net.Got? && net.response.Storable() ==>
            var o := Opened(st, CacheName);
            s.after == Storage(o.names, o.caches[CacheName := o.caches[CacheName][url := net.response]]))
      && (net.Got? && net.response.Ok() && !net.response.Storable() ==> s.after == Opened(st, CacheName))
      && (net.Got? && !net.response.Ok() ==> s.after == st)
      && (net.NetError? ==> s.after == st)
      && (net.NetError? ==> (s.reply.Served? <==> exists n :: n in st.names && n in st.caches && url in st.caches[n]))
      && (net.NetError? && s.reply.Served? ==>
            exists k :: HoldsAt(st.names, st.caches, url, k) && st.caches[st.names[k]][url] == s.reply.response
              && forall m :: 0 <= m < k ==> !HoldsAt(st.names, st.caches, url, m))
  {
    FirstMatchSpec(st.names, st.caches, url);
  }

  /**
   * A fetch writes at most the one cache its class names: model artifacts never touch the
   * shell cache, shell requests never touch the model cache, and no other cache changes.
   */
  lemma FetchFrame(st: Storage, url: string, net: NetResult)
    requires Wf(st)
    ensures var after := Fetch(st, url, net).after;
      && Wf(after)
      && after.caches.Keys <= st.caches.Keys + {WrittenCache(url)}
      && (forall n :: n in st.caches && n != WrittenCache(url) ==> n in after.caches && after.caches[n] == st.caches[n])
      && st.names <= after.names
  {
    var name := WrittenCache(url);
    var after := Fetch(st, url, net).after;
    OpenedWf(st, name);
    var withCache := Opened(st, name);
    OpenedFrame(st, name);
    if after != st && after != withCache {
      assert net.Got? && after == Stored(withCache, name, url, net.response);
      StoredWf(withCache, name, url, net.response);
    }
  }

  /** Opening a cache only ever adds that one cache, at the end of the name list. */
  lemma OpenedFrame(st: Storage, name: string)
    ensures var o := Opened(st, name);
      && o.caches.Keys == st.caches.Keys + {name}
      && (forall n :: n in st.caches ==> n in o.caches && o.caches[n] == st.caches[n])
      && st.names <= o.names
  {
  }

  lemma StoredWf(st: Storage, name: string, url: string, resp: Response)
    requires Wf(st) && name in st.caches
    ensures Wf(Stored(st, name, url, resp))
    ensures Stored(st, name, url, resp).caches.Keys == st.caches.Keys
  {
  }

  lemma OpenedWf(st: Storage, name: string)
    requires Wf(st)
    ensures Wf(Opened(st, name))
  {
    if name !in st.caches {
      var ns := st.names + [name];
      forall i, j | 0 <= i < j < |ns| ensures ns[i] != ns[j] {
        if j == |ns| - 1 {
          assert ns[i] in st.names;
        }
      }
    }
  }

  // ----- Activation ----------------------------------------------------------------------

  predicate IsCurrent(name: string)
  {
    name == CacheName || name == ModelCache
  }

  /** The name list restricted to the two current names. */
  function KeepCurrent(s: seq<string>): seq<string>
  {
    if s == [] then [] else (if IsCurrent(s[0]) then [s[0]] else []) + KeepCurrent(s[1..])
  }

  /** The activate handler: every cache whose name is not current is deleted. */
  function Pruned(st: Storage): Storage
  {
    Storage(KeepCurrent(st.names), map n | n in st.caches && IsCurrent(n) :: st.caches[n])
  }

  lemma {:induction false} KeepCurrentMembers(s: seq<string>)
    ensures forall y :: y in KeepCurrent(s) <==> y in s && IsCurrent(y)
  {
    if s != [] {
      KeepCurrentMembers(s[1..]);
      assert s == [s[0]] + s[1..];
    }
  }

  lemma {:induction false} KeepCurrentDistinct(s: seq<string>)
    requires Distinct(s)
    ensures Distinct(KeepCurrent(s))
  {
    if s != [] {
      KeepCurrentDistinct(s[1..]);
      KeepCurrentMembers(s[1..]);
      assert s[0] !in s[1..] by {
        forall k | 0 <= k < |s| - 1 ensures s[1..][k] != s[0] {
          assert s[1..][k] == s[k + 1];
        }
      }
      ConsDistinct(if IsCurrent(s[0]) then [s[0]] else [], KeepCurrent(s[1..]));
    }
  }

  lemma {:induction false} KeepCurrentAppend(a: seq<string>, b: seq<string>)
    ensures KeepCurrent(a + b) == KeepCurrent(a) + KeepCurrent(b)
  {
    if a != [] {
      KeepCurrentAppend(a[1..], b);
      assert (a + b)[1..] == a[1..] + b;
    } else {
      assert a + b == b;
    }
  }

  lemma {:induction false} KeepCurrentIdempotent(s: seq<string>)
    ensures KeepCurrent(KeepCurrent(s)) == KeepCurrent(s)
  {
    if s != [] {
      KeepCurrentIdempotent(s[1..]);
      var head := if IsCurrent(s[0]) then [s[0]] else [];
      KeepCurrentAppend(head, KeepCurrent(s[1..]));
      if IsCurrent(s[0]) {
        assert [s[0]][1..] == [];
      }
    }
  }

  /** A list with no repeats stays so when a value not in it is put in front. */
  lemma ConsDistinct(head: seq<string>, tail: seq<string>)
    requires |head| <= 1 && Distinct(tail)
    requires forall x :: x in head ==> x !in tail
    ensures Distinct(head + tail)
  {
    var s := head + tail;
    forall i, j | 0 <= i < j < |s| ensures s[i] != s[j] {
      if i < |head| {
        assert s[j] == tail[j - |head|];
        assert s[i] in head;
      } else {
        assert s[i] == tail[i - |head|] && s[j] == tail[j - |head|];
      }
    }
  }

  lemma {:induction false} WithoutMembers(s: seq<string>, x: string)
    ensures forall y :: y in Without(s, x) <==> y in s && y != x
  {
    if s != [] {
      WithoutMembers(s[1..], x);
      assert s == [s[0]] + s[1..];
    }
  }

  lemma {:induction false} WithoutDistinct(s: seq<string>, x: string)
    requires Distinct(s)
    ensures Distinct(Without(s, x))
  {
    if s != [] {
      WithoutDistinct(s[1..], x);
      WithoutMembers(s[1..], x);
      assert s[0] !in s[1..] by {
        forall k | 0 <= k < |s| - 1 ensures s[1..][k] != s[0] {
          assert s[1..][k] == s[k + 1];
        }
      }
      ConsDistinct(if s[0] == x then [] else [s[0]], Without(s[1..], x));
    }
  }

  lemma {:induction false} WithoutAbsent(s: seq<string>, x: string)
    requires x !in s
    ensures Without(s, x) == s
  {
    if s != [] {
      WithoutAbsent(s[1..], x);
    }
  }

  lemma {:induction false} WithoutAppend(a: seq<string>, b: seq<string>, x: string)
    ensures Without(a + b, x) == Without(a, x) + Without(b, x)
  {
    if a != [] {
      WithoutAppend(a[1..], b, x);
      assert (a + b)[1..] == a[1..] + b;
    } else {
      assert a + b == b;
    }
  }

  lemma DeletedWf(st: Storage, name: string)
    requires Wf(st)
    ensures Wf(Deleted(st, name))
  {
    WithoutDistinct(st.names, name);
    WithoutMembers(st.names, name);
  }

  /** The storage once the activate handler has visited the first `i` of the names `ns`. */
  ghost function PartlyPruned(ns: seq<string>, before: map<string, Cache>, i: nat): Storage
    requires i <= |ns|
  {
    Storage(KeepCurrent(ns[..i]) + ns[i..], map n | n in before && (IsCurrent(n) || n !in ns[..i]) :: before[n])
  }

  lemma PartlyPrunedStart(st: Storage)
    ensures PartlyPruned(st.names, st.caches, 0) == st
  {
    assert st.names[..0] == [];
  }

  lemma PartlyPrunedEnd(st: Storage)
    requires Wf(st)
    ensures PartlyPruned(st.names, st.caches, |st.names|) == Pruned(st)
  {
    assert st.names[..|st.names|] == st.names;
  }

  /** Visiting a current name changes nothing. */
  lemma PruneKeep(ns: seq<string>, before: map<string, Cache>, i: nat)
    requires i < |ns| && IsCurrent(ns[i])
    ensures PartlyPruned(ns, before, i + 1) == PartlyPruned(ns, before, i)
  {
    assert ns[..i + 1] == ns[..i] + [ns[i]];
    KeepCurrentAppend(ns[..i], [ns[i]]);
    assert ns[i..] == [ns[i]] + ns[i + 1..];
  }

  /** Visiting a stale name deletes exactly that cache. */
  lemma PruneDelete(ns: seq<string>, before: map<string, Cache>, i: nat)
    requires Distinct(ns)
    requires i < |ns| && !IsCurrent(ns[i])
    ensures PartlyPruned(ns, before, i + 1) == Deleted(PartlyPruned(ns, before, i), ns[i])
  {
    PruneDeleteNames(ns, i);
    PruneDeleteCaches(ns, before, i);
  }

  lemma PruneDeleteNames(ns: seq<string>, i: nat)
    requires Distinct(ns)
    requires i < |ns| && !IsCurrent(ns[i])
    ensures KeepCurrent(ns[..i + 1]) + ns[i + 1..] == Without(KeepCurrent(ns[..i]) + ns[i..], ns[i])
  {
    var name, done, rest := ns[i], ns[..i], ns[i + 1..];
    assert ns[..i + 1] == done + [name];
    assert ns[i..] == [name] + rest;
    assert name !in rest by {
      forall k | 0 <= k < |rest| ensures rest[k] != name {
        assert rest[k] == ns[i + 1 + k];
      }
    }
    KeepCurrentDropsStale(done, name);
    WithoutAtHead(KeepCurrent(done), name, rest);
  }

  lemma KeepCurrentDropsStale(done: seq<string>, name: string)
    requires !IsCurrent(name)
    ensures KeepCurrent(done + [name]) == KeepCurrent(done)
    ensures name !in KeepCurrent(done)
  {
    KeepCurrentAppend(done, [name]);
    assert KeepCurrent([name]) == [];
    KeepCurrentMembers(done);
  }

  lemma WithoutAtHead(kept: seq<string>, name: string, rest: seq<string>)
    requires name !in kept && name !in rest
    ensures Without(kept + ([name] + rest), name) == kept + rest
  {
    var tail := [name] + rest;
    WithoutAppend(kept, tail, name);
    WithoutAbsent(kept, name);
    WithoutHead(tail, name);
    assert tail[1..] == rest;
    WithoutAbsent(rest, name);
  }

  lemma WithoutHead(s: seq<string>, x: string)
    requires s != [] && s[0] == x
    ensures Without(s, x) == Without(s[1..], x)
  {
  }

  lemma PruneDeleteCaches(ns: seq<string>, before: map<string, Cache>, i: nat)
    requires i < |ns| && !IsCurrent(ns[i])
    ensures (map n | n in before && (IsCurrent(n) || n !in ns[..i + 1]) :: before[n])
         == (map n | n in before && (IsCurrent(n) || n !in ns[..i]) :: before[n]) - {ns[i]}
  {
    assert ns[..i + 1] == ns[..i] + [ns[i]];
  }

  /**
   * After activation only the two current caches can remain, those keep their contents, no
   * name list entry is left for a deleted cache, and activating again changes nothing.
   */
  lemma ActivationKeepsOnlyCurrent(st: Storage)
    requires Wf(st)
    ensures var after := Pruned(st);
      && Wf(after)
      && after.caches.Keys <= {CacheName, ModelCache}
      && (forall n :: n in st.caches && IsCurrent(n) ==> n in after.caches && after.caches[n] == st.caches[n])
      && Pruned(after) == after
  {
    KeepCurrentDistinct(st.names);
    KeepCurrentMembers(st.names);
    KeepCurrentIdempotent(st.names);
    var after := Pruned(st);
    assert after.caches == map n | n in after.caches && IsCurrent(n) :: after.caches[n];
  }

  // ----- The cache storage as a mutable object ------------------------------------------

  /** The browser's cache storage, updated in place by the three event handlers. */
  class CacheStorage {
    var names: seq<string>
    var caches: map<string, Cache>

    function Value(): Storage
      reads this
    {
      Storage(names, caches)
    }

    ghost predicate Valid()
      reads this
    {
      Wf(Value())
    }

    /** A storage with no caches, as on a first visit. */
    constructor ()
      ensures Valid() && Value() == Storage([], map[])
    {
      names := [];
      caches := map[];
    }

    /** `caches.open(name)`. */
    method Open(name: string)
      requires Valid()
      modifies this
      ensures Valid() && Value() == Opened(old(Value()), name)
    {
      OpenedWf(Value(), name);
      if name !in caches {
        names := names + [name];
        caches := caches[name := map[]];
      }
    }

    /** `cache.put(url, resp)` on an open cache. */
    method Put(name: string, url: string, resp: Response)
      requires Valid() && name in caches
      modifies this
      ensures Valid() && Value() == Stored(old(Value()), name, url, resp)
    {
      if !resp.Partial() {
        caches := caches[name := caches[name][url := resp]];
      }
    }

    /** `caches.delete(name)`. */
    method Delete(name: string)
      requires Valid()
      modifies this
      ensures Valid() && Value() == Deleted(old(Value()), name)
    {
      DeletedWf(Value(), name);
      names := Without(names, name);
      caches := caches - {name};
    }

    /** The install handler. */
    method Install(net: string -> NetResult)
      requires Valid()
      modifies this
      ensures Valid() && Value() == Installed(old(Value()), net)
    {
      InstallAllOrNothing(Value(), net);
      Open(CacheName);
      if AddAllSucceeds(net) {
        caches := caches[CacheName := caches[CacheName] + map u | u in ShellUrls :: net(u).response];
      }
    }

    /** The fetch handler: returns what is passed to `respondWith` and whether the network was used. */
    method HandleFetch(url: string, net: NetResult) returns (reply: Reply, fetched: bool)
      requires Valid()
      modifies this
      ensures Valid() && Step(Value(), reply, fetched) == Fetch(old(Value()), url, net)
    {
      if IsModelArtifact(url) {
        Open(ModelCache);
        if url in caches[ModelCache] {
          return Served(caches[ModelCache][url]), false;
        }
        fetched := true;
        match net
        case NetError =>
          reply := Rejected;
        case Got(resp) =>
          if resp.Ok() {
            Put(ModelCache, url, resp);
          }
          reply := Served(resp);
      } else {
        fetched := true;
        match net
        case Got(resp) =>
          if resp.Ok() {
            Open(CacheName);
            Put(CacheName, url, resp);
          }
          reply := Served(resp);
        case NetError =>
          var found := FirstMatch(names, caches, url);
          reply := if found.Some? then Served(found.value) else Empty;
      }
    }

    /** The activate handler: walk the names `caches.keys()` reported and delete the stale ones. */
    method Activate()
      requires Valid()
      modifies this
      ensures Valid() && Value() == Pruned(old(Value()))
    {
      var cacheNames := names;
      ghost var before := caches;
      PartlyPrunedStart(Value());
      for i := 0 to |cacheNames|
        invariant Valid()
        invariant Value() == PartlyPruned(cacheNames, before, i)
      {
        var name := cacheNames[i];
        if IsCurrent(name) {
          PruneKeep(cacheNames, before, i);
        } else {
          PruneDelete(cacheNames, before, i);
          Delete(name);
        }
      }
      PartlyPrunedEnd(old(Value()));
    }
  }
}
