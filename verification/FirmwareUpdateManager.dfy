/** FirmwareUpdateManager.kt: the ETag cache in front of the release server, and the update banner. */
module FirmwareUpdateManager {
  import opened Basics
  import opened Versions

  datatype Release = Release(tagName: string, assets: seq<string>)

  datatype Reply =
    | NotModified
    | Fresh(etag: Option<string>, release: Release, parses: bool)
    | HttpError
    | NoConnection

  /** lastETag and cachedRelease. */
  datatype Cache = Cache(etag: Option<string>, release: Option<Release>)

  function CacheAfter(c: Cache, r: Reply): Cache {
    if r.Fresh? then Cache(r.etag, if r.parses then Some(r.release) else c.release) else c
  }

  /** The returned release, or none for the exception. */
  function Fetched(c: Cache, r: Reply): Option<Release> {
    match r
    case NotModified => c.release
    case Fresh(_, release, parses) => if parses then Some(release) else None
    case _ => None
  }

  // ---- the server ---------------------------------------------------------------------------------

  /** A server tags every release with its ETag, two releases never with the same one. */
  ghost predicate Identifying(etagOf: Release -> string) {
    forall a, b :: etagOf(a) == etagOf(b) ==> a == b
  }

  /** An honest answer to a request carrying `sent`: 304 only for the tag of the release held now, 200
      with that release and its tag, or no answer. */
  ghost predicate Honest(etagOf: Release -> string, held: Release, sent: Option<string>, r: Reply) {
    match r
    case NotModified => sent == Some(etagOf(held))
    case Fresh(etag, release, _) => release == held && (etag.Some? ==> etag.value == etagOf(held))
    case _ => true
  }

  /** A stored tag is the tag of the cached release. */
  ghost predicate Coherent(etagOf: Release -> string, c: Cache) {
    c.etag.Some? ==> c.release.Some? && etagOf(c.release.value) == c.etag.value
  }

  datatype Event = Publish(release: Release) | Fetch(reply: Reply)

  datatype World = World(held: Release, cache: Cache)

  function Step(w: World, e: Event): World {
    match e
    case Publish(release) => w.(held := release)
    case Fetch(reply) => w.(cache := CacheAfter(w.cache, reply))
  }

  function Run(w: World, es: seq<Event>): World {
    if es == [] then w else Step(Run(w, es[..|es| - 1]), es[|es| - 1])
  }

  ghost predicate HonestRun(etagOf: Release -> string, w: World, es: seq<Event>) {
    forall i :: 0 <= i < |es| && es[i].Fetch? ==>
                  Honest(etagOf, Run(w, es[..i]).held, Run(w, es[..i]).cache.etag, es[i].reply)
  }

  predicate AllParse(es: seq<Event>) {
    forall i :: 0 <= i < |es| && es[i].Fetch? && es[i].reply.Fresh? ==> es[i].reply.parses
  }

  /** The last 200 of the run, if any, parsed, or carried no tag, or repeated the tag of the release cached
      before it. Earlier replies do not matter. */
  ghost predicate LastBodyKept(etagOf: Release -> string, w: World, es: seq<Event>) {
    if es == [] then true
    else
      var before, e := es[..|es| - 1], es[|es| - 1];
      if e.Fetch? && e.reply.Fresh? then
        var cached := Run(w, before).cache.release;
        e.reply.parses || e.reply.etag.None? || (cached.Some? && etagOf(cached.value) == e.reply.etag.value)
      else LastBodyKept(etagOf, w, before)
  }

  lemma HonestPrefix(etagOf: Release -> string, w: World, es: seq<Event>)
    requires es != [] && HonestRun(etagOf, w, es)
    ensures HonestRun(etagOf, w, es[..|es| - 1])
  {
    var init := es[..|es| - 1];
    forall i | 0 <= i < |init| ensures init[..i] == es[..i] && init[i] == es[i] {}
  }

  /** In every honest run from a coherent cache, bodies that do not parse included, the stored tag is that of
      the cached release exactly when the last body was kept: one failure does damage until the next 200. */
  lemma {:induction false} CoherentIffLastBodyKept(etagOf: Release -> string, w: World, es: seq<Event>)
    requires Coherent(etagOf, w.cache) && HonestRun(etagOf, w, es)
    ensures Coherent(etagOf, Run(w, es).cache) <==> LastBodyKept(etagOf, w, es)
    decreases |es|
  {
    if es != [] {
      var before, e := es[..|es| - 1], es[|es| - 1];
      HonestPrefix(etagOf, w, es);
      if e.Fetch? && e.reply.Fresh? {
        assert Honest(etagOf, Run(w, before).held, Run(w, before).cache.etag, e.reply);
      } else {
        CoherentIffLastBodyKept(etagOf, w, before);
      }
    }
  }

  lemma {:induction false} AllParseKeepsLast(etagOf: Release -> string, w: World, es: seq<Event>)
    requires AllParse(es)
    ensures LastBodyKept(etagOf, w, es)
    decreases |es|
  {
    if es != [] { AllParseKeepsLast(etagOf, w, es[..|es| - 1]); }
  }

  /** While every body parses the cache stays coherent. */
  lemma RunStaysCoherent(etagOf: Release -> string, w: World, es: seq<Event>)
    requires Coherent(etagOf, w.cache) && HonestRun(etagOf, w, es) && AllParse(es)
    ensures Coherent(etagOf, Run(w, es).cache)
  {
    CoherentIffLastBodyKept(etagOf, w, es);
    AllParseKeepsLast(etagOf, w, es);
  }

  /** After any run of releases and fetches: a fetch answered 200 with a body that parses returns the release
      the server holds at that moment, and one answered 304 does exactly when the last body was kept. */
  lemma AnsweredFetchIsCurrent(etagOf: Release -> string, w: World, es: seq<Event>, reply: Reply)
    requires Identifying(etagOf) && w.cache == Cache(None, None) && HonestRun(etagOf, w, es)
    requires var now := Run(w, es); Honest(etagOf, now.held, now.cache.etag, reply)
    ensures reply.Fresh? && reply.parses ==> Fetched(Run(w, es).cache, reply) == Some(Run(w, es).held)
    ensures reply.NotModified? ==>
              (Fetched(Run(w, es).cache, reply) == Some(Run(w, es).held) <==> LastBodyKept(etagOf, w, es))
    ensures AllParse(es) ==> LastBodyKept(etagOf, w, es)
  {
    CoherentIffLastBodyKept(etagOf, w, es);
    if AllParse(es) { AllParseKeepsLast(etagOf, w, es); }
  }

  /** One reply: its tag is stored before its body is parsed, so coherence after it, whatever it was before,
      takes a body that parses, or no tag, or a cached release with that tag already. */
  lemma ParseFailureBreaksCoherence(etagOf: Release -> string, c: Cache, held: Release, r: Reply)
    requires r.Fresh? && Honest(etagOf, held, c.etag, r)
    ensures Coherent(etagOf, CacheAfter(c, r))
       <==> r.parses || r.etag.None? || (c.release.Some? && etagOf(c.release.value) == etagOf(held))
  {
  }

  /** The damage: after such a failure the next 304 hands out the previous release as the latest. */
  lemma ParseFailureServesStaleRelease(etagOf: Release -> string, a: Release, b: Release)
    requires a != b
    ensures var es := [Fetch(Fresh(Some(etagOf(a)), a, true)), Publish(b), Fetch(Fresh(Some(etagOf(b)), b, false))];
            var now := Run(World(a, Cache(None, None)), es);
            && now.held == b && Honest(etagOf, now.held, now.cache.etag, NotModified)
            && Fetched(now.cache, NotModified) == Some(a)
  {
    var es := [Fetch(Fresh(Some(etagOf(a)), a, true)), Publish(b), Fetch(Fresh(Some(etagOf(b)), b, false))];
    var w := World(a, Cache(None, None));
    assert es[..2][..1] == es[..1] && es[..1][..0] == [];
    assert Run(w, es[..1]) == Step(w, es[0]);
    assert Run(w, es[..2]) == Step(Run(w, es[..1]), es[1]);
  }

  // ---- the code -----------------------------------------------------------------------------------

  class Manager {
    var latestVersionState: Option<string>     // the banner
    var deviceVersion: Option<string>
    var latestGithubVersion: Option<string>
    var isPaused: bool
    var lastETag: Option<string>
    var cachedRelease: Option<Release>

    constructor ()
      ensures View() == Cache(None, None) && !isPaused
      ensures latestVersionState == None && deviceVersion == None && latestGithubVersion == None
    {
      latestVersionState, deviceVersion, latestGithubVersion := None, None, None;
      isPaused, lastETag, cachedRelease := false, None, None;
    }

    function View(): Cache
      reads this
    {
      Cache(lastETag, cachedRelease)
    }

    method FetchReleaseInfo(reply: Reply) returns (release: Option<Release>)
      modifies this`lastETag, this`cachedRelease
      ensures View() == CacheAfter(old(View()), reply) && release == Fetched(old(View()), reply)
    {
      match reply {
        case NotModified => return cachedRelease;
        case Fresh(etag, body, parses) =>
          lastETag := etag;
          if !parses { return None; }
          cachedRelease := Some(body);
          return Some(body);
        case _ => return None;
      }
    }

    /** A failed fetch keeps the last known version. */
    method FetchLatestRelease(reply: Reply)
      modifies this`lastETag, this`cachedRelease, this`latestGithubVersion
      ensures View() == CacheAfter(old(View()), reply)
      ensures latestGithubVersion == TagOr(Fetched(old(View()), reply), old(latestGithubVersion))
    {
      var release := FetchReleaseInfo(reply);
      if release.Some? { latestGithubVersion := Some(release.value.tagName); }
    }

    /** The banner becomes the comparison of the two known versions, or stays while one is unknown. */
    method CheckIfUpdateNeeded()
      modifies this`latestVersionState
      ensures latestVersionState == BannerFor(latestGithubVersion, deviceVersion, old(latestVersionState))
    {
      if latestGithubVersion.None? || deviceVersion.None? { return; }
      latestVersionState := GetHigherVersionOrNull(latestGithubVersion.value, deviceVersion.value);
    }

    /** One turn of the periodic check; paused turns touch nothing. */
    method PeriodicCheck(reply: Reply)
      modifies this`lastETag, this`cachedRelease, this`latestGithubVersion, this`latestVersionState
      ensures isPaused ==> View() == old(View()) && latestVersionState == old(latestVersionState)
                           && latestGithubVersion == old(latestGithubVersion)
      ensures !isPaused ==>
                && View() == CacheAfter(old(View()), reply)
                && latestGithubVersion == TagOr(Fetched(old(View()), reply), old(latestGithubVersion))
                && latestVersionState == BannerFor(latestGithubVersion, deviceVersion, old(latestVersionState))
    {
      if !isPaused {
        FetchLatestRelease(reply);
        CheckIfUpdateNeeded();
      }
    }

    /** manualCheck also ends a pause. */
    method ManualCheck(reply: Reply)
      modifies this`isPaused, this`lastETag, this`cachedRelease, this`latestGithubVersion, this`latestVersionState
      ensures !isPaused && View() == CacheAfter(old(View()), reply)
      ensures latestGithubVersion == TagOr(Fetched(old(View()), reply), old(latestGithubVersion))
      ensures latestVersionState == BannerFor(latestGithubVersion, deviceVersion, old(latestVersionState))
    {
      isPaused := false;
      FetchLatestRelease(reply);
      CheckIfUpdateNeeded();
    }

    method OnDeviceVersionReceived(version: string)
      modifies this`deviceVersion, this`latestVersionState
      ensures deviceVersion == Some(version)
      ensures latestVersionState == BannerFor(latestGithubVersion, deviceVersion, old(latestVersionState))
    {
      deviceVersion := Some(version);
      CheckIfUpdateNeeded();
    }

    method PauseChecks()
      modifies this`isPaused, this`latestVersionState
      ensures isPaused && latestVersionState == None
    {
      isPaused, latestVersionState := true, None;
    }

    method ResumeChecks()
      modifies this`isPaused
      ensures !isPaused
    {
      isPaused := false;
    }

    method HideBanner()
      modifies this`latestVersionState
      ensures latestVersionState == None
    {
      latestVersionState := None;
    }
  }

  /** The tag of a fetched release, or what was known when there is none. */
  function TagOr(release: Option<Release>, known: Option<string>): Option<string> {
    if release.Some? then Some(release.value.tagName) else known
  }

  ghost function BannerFor(latest: Option<string>, device: Option<string>, shown: Option<string>): Option<string> {
    if latest.None? || device.None? then shown
    else if Greater(Parse(latest.value), Parse(device.value)) then Some(CleanVersionString(latest.value))
    else None
  }
}
