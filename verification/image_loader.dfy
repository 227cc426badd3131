/**
 The V6 image loader: a cache of loaded images with an expiry, the
 in-flight loads keyed by file name so that concurrent requests share one
 load, a bounded retry schedule with per-attempt delays, error and
 fallback records, and the progress and clearing operations over them.

 `loadImage` awaits its load, so it is modelled as two steps: `Request`
 (the cache check, the in-flight check, and the start of a load) and
 `Settle` (what happens once the load resolved or failed). The clock
 reading, the browser's answer to each attempt and the fallback drawing
 are inputs; a fallback image is identified by the name it was drawn for.
 */
module ImageLoader {
  import opened Wrappers
  import opened Strings
  import opened OrderedMap

  datatype Config = Config(
    basePath: string,
    maxRetries: nat,
    retryDelays: seq<nat>,
    cacheExpiry: int,
    enableFallbacks: bool)

  /** The options from the keys the caller gave: a given key wins over its default, as the spread comes last. */
  function MakeConfig(basePath: Option<string>, maxRetries: Option<nat>, retryDelays: Option<seq<nat>>,
                      cacheExpiry: Option<int>, enableFallbacks: Option<bool>): (c: Config)
    ensures basePath.None? ==> c.basePath == "./images/"
    ensures maxRetries.None? ==> c.maxRetries == 3
    ensures retryDelays.None? ==> c.retryDelays == [1000, 2000, 4000]
    ensures cacheExpiry.None? ==> c.cacheExpiry == 3600000
    ensures enableFallbacks.None? ==> c.enableFallbacks
    ensures basePath.Some? ==> c.basePath == basePath.value
    ensures maxRetries.Some? ==> c.maxRetries == maxRetries.value
    ensures retryDelays.Some? ==> c.retryDelays == retryDelays.value
    ensures cacheExpiry.Some? ==> c.cacheExpiry == cacheExpiry.value
    ensures enableFallbacks.Some? ==> c.enableFallbacks == enableFallbacks.value
  {
    Config(basePath.GetOr("./images/"), maxRetries.GetOr(3), retryDelays.GetOr([1000, 2000, 4000]),
      cacheExpiry.GetOr(3600000), enableFallbacks.GetOr(true))
  }

  /** A decoded image, or the fallback drawn for a name. */
  datatype Picture = Decoded(id: nat, width: nat, height: nat) | Fallback(name: string)

  /** What the browser reports for one attempt: the image's load event, or its error event. */
  datatype Fetch = OnLoad(id: nat, width: nat, height: nat) | OnError

  /** `loadSingleImage`: an error event, or a zero dimension, rejects with a message naming the path. */
  function LoadSingle(path: string, f: Fetch): (r: Result<Picture, string>)
    ensures r.Success? <==> f.OnLoad? && f.width > 0 && f.height > 0
    ensures r.Success? ==> r.value == Decoded(f.id, f.width, f.height)
    ensures f.OnError? ==> r == Failure("Failed to load image: " + path)
    ensures f.OnLoad? && (f.width == 0 || f.height == 0) ==> r == Failure("Image has invalid dimensions: " + path)
  {
    match f
    case OnError => Failure("Failed to load image: " + path)
    case OnLoad(id, w, h) =>
      if w == 0 || h == 0 then Failure("Image has invalid dimensions: " + path) else Success(Decoded(id, w, h))
  }

  /** `retryDelays[attempt - 1] || 4000`: a missing or zero entry waits 4000 ms. */
  function DelayBefore(cfg: Config, attempt: nat): (d: nat)
    requires attempt > 0
    ensures d > 0
    ensures attempt - 1 < |cfg.retryDelays| && cfg.retryDelays[attempt - 1] != 0 ==> d == cfg.retryDelays[attempt - 1]
    ensures attempt - 1 >= |cfg.retryDelays| ==> d == 4000
  {
    if attempt - 1 < |cfg.retryDelays| && cfg.retryDelays[attempt - 1] != 0 then cfg.retryDelays[attempt - 1] else 4000
  }

  function ImagePath(cfg: Config, name: string, extension: string): string {
    cfg.basePath + name + extension
  }

  function ExhaustedMessage(cfg: Config, path: string, last: string): string {
    "Failed to load image after " + NatToString(cfg.maxRetries + 1) + " attempts: " + path + ". Last error: " + last
  }

  /** What one `loadImageWithRetry` did: the delays it waited, the attempts it made, and its outcome. */
  datatype RetryRun = RetryRun(delays: seq<nat>, attempts: nat, result: Result<Picture, string>)

  /**
   `loadImageWithRetry`: attempt 0 at once, then attempt k after
   `DelayBefore(k)`, stopping at the first success, and after the last of
   `maxRetries + 1` failures a message naming that count and the last error.
   */
  method LoadWithRetry(cfg: Config, name: string, extension: string, fetch: nat -> Fetch) returns (run: RetryRun)
    ensures 1 <= run.attempts <= cfg.maxRetries + 1
    ensures |run.delays| == run.attempts - 1
    ensures forall k :: 0 <= k < |run.delays| ==> run.delays[k] == DelayBefore(cfg, k + 1)
    ensures forall k :: 0 <= k < run.attempts - 1 ==> LoadSingle(ImagePath(cfg, name, extension), fetch(k)).Failure?
    ensures run.result.Success? ==> run.result == LoadSingle(ImagePath(cfg, name, extension), fetch(run.attempts - 1))
    ensures run.result.Failure? ==>
      && run.attempts == cfg.maxRetries + 1
      && LoadSingle(ImagePath(cfg, name, extension), fetch(cfg.maxRetries)).Failure?
      && run.result.error == ExhaustedMessage(cfg, ImagePath(cfg, name, extension),
                               LoadSingle(ImagePath(cfg, name, extension), fetch(cfg.maxRetries)).error)
  {
    var path := ImagePath(cfg, name, extension);
    var attempt: nat := 0;
    var delays: seq<nat> := [];
    while true
      invariant attempt <= cfg.maxRetries
      invariant |delays| == if attempt == 0 then 0 else attempt - 1
      invariant forall k :: 0 <= k < |delays| ==> delays[k] == DelayBefore(cfg, k + 1)
      invariant forall k :: 0 <= k < attempt ==> LoadSingle(path, fetch(k)).Failure?
      decreases cfg.maxRetries - attempt
    {
      if attempt > 0 {
        delays := delays + [DelayBefore(cfg, attempt)];
      }
      var outcome := LoadSingle(path, fetch(attempt));
      if outcome.Success? {
        return RetryRun(delays, attempt + 1, outcome);
      }
      if attempt == cfg.maxRetries {
        return RetryRun(delays, attempt + 1, Failure(ExhaustedMessage(cfg, path, outcome.error)));
      }
      attempt := attempt + 1;
    }
  }

  // ---------------------------------------------------------------------
  // The loader's maps

  datatype Cached = Cached(image: Picture, timestamp: int)

  datatype Loader = Loader(
    images: Entries<string, Cached>,
    loading: Entries<string, nat>,
    errors: Entries<string, string>,
    fallbacks: Entries<string, Picture>,
    nextLoad: nat)

  const Fresh: Loader := Loader([], [], [], [], 0)

  /**
   The answer to a request: a cached image, the load already under way, or
   a load just started. A joining caller awaits the raw retry load itself,
   so it gets that load's own outcome: on failure the rejection, without the
   fallback that `Settle` gives the caller who started the load.
   */
  datatype Lookup = Hit(image: Picture) | Joined(load: nat) | Started(load: nat)

  /** A cached entry younger than the expiry is served; an older one is dropped. */
  predicate Live(cfg: Config, c: Cached, now: int) {
    now - c.timestamp < cfg.cacheExpiry
  }

  /** `loadImage` up to its await: the cache check, the in-flight check, and the start of a load. */
  function Request(cfg: Config, s: Loader, name: string, extension: string, now: int): (r: (Loader, Lookup))
    ensures r.1.Started? ==> r.1.load == s.nextLoad && r.0.nextLoad == s.nextLoad + 1
    ensures !r.1.Started? ==> r.0.nextLoad == s.nextLoad
    ensures r.0.errors == s.errors && r.0.fallbacks == s.fallbacks
  {
    var key := name + extension;
    var cached := Get(s.images, key);
    if cached.Some? && Live(cfg, cached.value, now) then (s, Hit(cached.value.image))
    else
      var s1 := if cached.Some? then s.(images := Delete(s.images, key)) else s;
      match Get(s1.loading, key)
      case Some(load) => (s1, Joined(load))
      case None =>
        (s1.(loading := Put(s1.loading, key, s1.nextLoad), nextLoad := s1.nextLoad + 1), Started(s1.nextLoad))
  }

  /**
   `loadImage` after its await: a loaded image is cached with the time it
   arrived; a failure is recorded, and answered with the fallback drawn for
   the name when fallbacks are enabled. Either way the load is no longer in
   flight.
   */
  function Settle(cfg: Config, s: Loader, name: string, extension: string, outcome: Result<Picture, string>, now: int)
    : (r: (Loader, Result<Picture, string>))
    ensures r.0.nextLoad == s.nextLoad
  {
    var key := name + extension;
    var s1 := s.(loading := Delete(s.loading, key));
    match outcome
    case Success(image) => (s1.(images := Put(s1.images, key, Cached(image, now))), Success(image))
    case Failure(error) =>
      var s2 := s1.(errors := Put(s1.errors, key, error));
      if cfg.enableFallbacks then
        (s2.(fallbacks := Put(s2.fallbacks, key, Fallback(name))), Success(Fallback(name)))
      else (s2, Failure(error))
  }

  // ---------------------------------------------------------------------
  // Queries and clearing

  /** The index of the first entry whose key starts with `prefix`. */
  function FirstWithPrefix<V>(m: Entries<string, V>, prefix: string): (r: Option<nat>)
    ensures r.Some? ==> r.value < |m| && StartsWith(m[r.value].0, prefix)
    ensures r.Some? ==> forall j :: 0 <= j < r.value ==> !StartsWith(m[j].0, prefix)
    ensures r.None? ==> forall j :: 0 <= j < |m| ==> !StartsWith(m[j].0, prefix)
  {
    if |m| == 0 then None
    else if StartsWith(m[0].0, prefix) then Some(0)
    else
      var rest := FirstWithPrefix(m[1..], prefix);
      assert forall j :: 1 <= j < |m| ==> m[1..][j - 1] == m[j];
      match rest
      case None => None
      case Some(i) => Some(i + 1)
  }

  /** `getImage`: the first cached image whose key starts with `name`, else the first such fallback. */
  function GetImage(s: Loader, name: string): (r: Option<Picture>)
    ensures r.None? <==>
      (forall j :: 0 <= j < |s.images| ==> !StartsWith(s.images[j].0, name))
      && (forall j :: 0 <= j < |s.fallbacks| ==> !StartsWith(s.fallbacks[j].0, name))
  {
    match FirstWithPrefix(s.images, name)
    case Some(i) => Some(s.images[i].1.image)
    case None =>
      match FirstWithPrefix(s.fallbacks, name)
      case Some(i) => Some(s.fallbacks[i].1)
      case None => None
  }

  /** `isLoaded` */
  predicate IsLoaded(s: Loader, name: string) {
    GetImage(s, name).Some?
  }

  /** The extension the expression `/\.[^/.]+$/` matches: a dot at `i` followed by one or more characters other than '/' and '.' up to the end. */
  predicate ExtensionAt(s: string, i: int) {
    0 <= i && i + 1 < |s| && s[i] == '.' && forall j :: i < j < |s| ==> s[j] != '/' && s[j] != '.'
  }

  predicate Plain(c: char) { c != '/' && c != '.' }

  /** The length of the longest suffix of characters other than '/' and '.'. */
  function PlainTail(s: string): (n: nat)
    ensures n <= |s|
    ensures forall j :: |s| - n <= j < |s| ==> Plain(s[j])
    ensures n < |s| ==> !Plain(s[|s| - n - 1])
  {
    if |s| == 0 || !Plain(s[|s| - 1]) then 0
    else
      var init := s[..|s| - 1];
      var k := PlainTail(init);
      assert forall j :: |init| - k <= j < |init| ==> init[j] == s[j];
      1 + k
  }

  /** The key with its extension removed, as `key.replace(/\.[^/.]+$/, '')` does. */
  function StripExtension(s: string): (r: string)
    ensures forall i :: ExtensionAt(s, i) ==> r == s[..i]
    ensures (forall i :: !ExtensionAt(s, i)) ==> r == s
  {
    var n := PlainTail(s);
    var i := |s| - n - 1;
    forall k | ExtensionAt(s, k) ensures k == i && n > 0 {
      assert |s| - n <= k + 1;
    }
    if n > 0 && i >= 0 && s[i] == '.' then
      assert ExtensionAt(s, i);
      s[..i]
    else s
  }

  /** A name with a dotted extension (".png", ".jpg") comes back out of `StripExtension`. */
  lemma StripExtensionOf(name: string, extension: string)
    requires |extension| >= 2 && extension[0] == '.'
    requires forall j :: 1 <= j < |extension| ==> Plain(extension[j])
    ensures StripExtension(name + extension) == name
  {
    var s := name + extension;
    assert ExtensionAt(s, |name|) by {
      forall j | |name| < j < |s| ensures Plain(s[j]) {
        assert s[j] == extension[j - |name|];
      }
    }
    assert s[..|name|] == name;
  }

  /** `getLoadedImages`: the cached keys, in insertion order, without their extensions. */
  function LoadedImages(s: Loader): (names: seq<string>)
    ensures |names| == |s.images|
    ensures forall i :: 0 <= i < |names| ==> names[i] == StripExtension(s.images[i].0)
  {
    seq(|s.images|, i requires 0 <= i < |s.images| => StripExtension(s.images[i].0))
  }

  const TotalExpected: nat := 4

  datatype Progress = Progress(total: nat, loaded: nat, loading: nat, errors: nat, progress: real, isComplete: bool)

  /** `getLoadingProgress` */
  function LoadingProgress(s: Loader): (p: Progress)
    ensures p.loaded == |s.images| && p.loading == |s.loading| && p.errors == |s.errors|
    ensures 0.0 <= p.progress <= 100.0
    ensures p.progress == if |s.images| >= 4 then 100.0 else (|s.images| * 25) as real
    ensures p.isComplete <==> |s.images| == 4
  {
    var loaded := |s.images|;
    var ratio := (loaded as real / TotalExpected as real) * 100.0;
    Progress(TotalExpected, loaded, |s.loading|, |s.errors|, if ratio <= 100.0 then ratio else 100.0, loaded == TotalExpected)
  }

  /**
   `clearCache(name)`: a non-empty name removes the first cached key that
   starts with it and nothing else; no name (or an empty one) clears the
   images, the fallbacks and the errors, but not the loads in flight.
   */
  function ClearCache(s: Loader, name: Option<string>): (r: Loader)
    ensures r.loading == s.loading && r.nextLoad == s.nextLoad
    ensures (name.None? || name.value == "") ==> r.images == [] && r.fallbacks == [] && r.errors == []
    ensures name.Some? && name.value != "" ==> r.fallbacks == s.fallbacks && r.errors == s.errors
  {
    if name.Some? && name.value != "" then
      match FirstWithPrefix(s.images, name.value)
      case None => s
      case Some(i) => s.(images := Delete(s.images, s.images[i].0))
    else s.(images := [], fallbacks := [], errors := [])
  }

  // ---------------------------------------------------------------------
  // Properties

  /** A live cached entry is served as it is, and nothing changes. */
  lemma LiveEntryServed(cfg: Config, s: Loader, name: string, extension: string, now: int)
    requires Get(s.images, name + extension).Some?
    requires Live(cfg, Get(s.images, name + extension).value, now)
    ensures Request(cfg, s, name, extension, now) == (s, Hit(Get(s.images, name + extension).value.image))
  {
  }

  /** An expired entry is removed before the load starts or is joined. */
  lemma ExpiredEntryDropped(cfg: Config, s: Loader, name: string, extension: string, now: int)
    requires Get(s.images, name + extension).Some?
    requires !Live(cfg, Get(s.images, name + extension).value, now)
    ensures var (s', r) := Request(cfg, s, name, extension, now);
      && !r.Hit?
      && Get(s'.images, name + extension).None?
      && forall k :: k != name + extension ==> Get(s'.images, k) == Get(s.images, k)
  {
    var key := name + extension;
    DeleteGet(s.images, key, key);
    forall k | k != key ensures Get(Delete(s.images, key), k) == Get(s.images, k) {
      DeleteGet(s.images, key, k);
    }
  }

  /**
   A request for a key with no live cached image joins the load in flight
   for it, if there is one; otherwise it starts a new load and records it.
   */
  lemma RequestWithoutHit(cfg: Config, s: Loader, name: string, extension: string, now: int)
    requires var c := Get(s.images, name + extension); c.None? || !Live(cfg, c.value, now)
    ensures var (s', r) := Request(cfg, s, name, extension, now);
      && (Get(s.loading, name + extension).Some? ==> r == Joined(Get(s.loading, name + extension).value) && s'.loading == s.loading)
      && (Get(s.loading, name + extension).None? ==> r == Started(s.nextLoad) && Get(s'.loading, name + extension) == Some(s.nextLoad))
  {
    var key := name + extension;
    PutGet(s.loading, key, s.nextLoad, key);
  }

  /** A second request for a key while its load is in flight shares that load, and starts no other. */
  lemma ConcurrentRequestsShareLoad(cfg: Config, s: Loader, name: string, extension: string, now: int, later: int)
    requires Get(s.images, name + extension).None?
    requires Get(s.loading, name + extension).None?
    ensures var (s1, r1) := Request(cfg, s, name, extension, now);
      var (s2, r2) := Request(cfg, s1, name, extension, later);
      && r1 == Started(s.nextLoad)
      && r2 == Joined(s.nextLoad)
      && s2 == s1
  {
    var key := name + extension;
    PutGet(s.loading, key, s.nextLoad, key);
  }

  /**
   After a load settles its key is no longer in flight. A success is cached
   with its arrival time and recorded as no error; a failure is recorded as
   an error, is not cached, and comes back as the fallback when fallbacks are
   enabled and as the error otherwise.
   */
  lemma SettleOutcome(cfg: Config, s: Loader, name: string, extension: string, outcome: Result<Picture, string>, now: int)
    ensures var (s', r) := Settle(cfg, s, name, extension, outcome, now);
      var key := name + extension;
      && Get(s'.loading, key).None?
      && (outcome.Success? ==> Get(s'.images, key) == Some(Cached(outcome.value, now)) && r == outcome && s'.errors == s.errors)
      && (outcome.Failure? ==> Get(s'.errors, key) == Some(outcome.error) && s'.images == s.images)
      && (outcome.Failure? && cfg.enableFallbacks ==> r == Success(Fallback(name)) && Get(s'.fallbacks, key) == Some(Fallback(name)))
      && (outcome.Failure? && !cfg.enableFallbacks ==> r == outcome && s'.fallbacks == s.fallbacks)
  {
    var key := name + extension;
    DeleteGet(s.loading, key, key);
    match outcome
    case Success(image) =>
      PutGet(s.images, key, Cached(image, now), key);
    case Failure(error) =>
      PutGet(s.errors, key, error, key);
      PutGet(s.fallbacks, key, Fallback(name), key);
  }

  /** A settled success is what a later request for the same key is served while it is live. */
  lemma SettledImageServed(cfg: Config, s: Loader, name: string, extension: string, image: Picture, now: int, later: int)
    requires later - now < cfg.cacheExpiry
    ensures var s' := Settle(cfg, s, name, extension, Success(image), now).0;
      Request(cfg, s', name, extension, later) == (s', Hit(image))
  {
    PutGet(s.images, name + extension, Cached(image, now), name + extension);
  }

  /** `clearCache(name)` removes at most the first cached key starting with `name`, leaving the others. */
  lemma ClearOneRemovesFirstMatch(s: Loader, name: string, k: string)
    requires name != ""
    ensures var r := ClearCache(s, Some(name));
      && |r.images| <= |s.images|
      && ((forall j :: 0 <= j < |s.images| ==> !StartsWith(s.images[j].0, name)) ==> r == s)
      && (FirstWithPrefix(s.images, name).Some? ==>
            var first := s.images[FirstWithPrefix(s.images, name).value].0;
            && Get(r.images, first).None?
            && (k != first ==> Get(r.images, k) == Get(s.images, k)))
  {
    match FirstWithPrefix(s.images, name)
    case None =>
    case Some(i) =>
      DeleteGet(s.images, s.images[i].0, k);
      DeleteGet(s.images, s.images[i].0, s.images[i].0);
  }

  /** With no cached keys, the loader reports no progress and is not complete; with four it is done. */
  lemma ProgressEnds(s: Loader)
    ensures |s.images| == 0 ==> LoadingProgress(s).progress == 0.0 && !LoadingProgress(s).isComplete
    ensures |s.images| == 4 ==> LoadingProgress(s).progress == 100.0 && LoadingProgress(s).isComplete
  {
  }
}
