/** What FirmwareUpdateManager.kt must know and show, read off the calls it received alone. */
module UpdateChecks {
  import opened Basics
  import opened FirmwareUpdateManager
  import opened Versions

  /** `Download` is the fetch a firmware download starts with; it only touches the cache. */
  datatype Call =
    | PeriodicCheck(reply: Reply)
    | ManualCheck(reply: Reply)
    | Download(reply: Reply)
    | DeviceVersion(version: string)
    | Pause
    | Resume
    | Hide

  /** The last pause, resume or manual check decides. */
  predicate PausedAfter(calls: seq<Call>) {
    if calls == [] then false
    else
      match calls[|calls| - 1]
      case Pause => true
      case Resume => false
      case ManualCheck(_) => false
      case _ => PausedAfter(calls[..|calls| - 1])
  }

  /** Calls that reach the server: the periodic one only outside a pause. */
  predicate Asks(before: seq<Call>, c: Call) {
    c.ManualCheck? || c.Download? || (c.PeriodicCheck? && !PausedAfter(before))
  }

  /** The tag of the last 200, parsed or not. */
  function StoredTag(calls: seq<Call>): Option<string> {
    if calls == [] then None
    else
      var before, c := calls[..|calls| - 1], calls[|calls| - 1];
      if Asks(before, c) && c.reply.Fresh? then c.reply.etag else StoredTag(before)
  }

  /** The last body that parsed. */
  function LastBody(calls: seq<Call>): Option<Release> {
    if calls == [] then None
    else
      var before, c := calls[..|calls| - 1], calls[|calls| - 1];
      if Asks(before, c) && c.reply.Fresh? && c.reply.parses then Some(c.reply.release) else LastBody(before)
  }

  /** The release a fetch answers with: its own body, or on a 304 the last one that parsed. */
  function Answer(before: seq<Call>, reply: Reply): Option<Release> {
    match reply
    case NotModified => LastBody(before)
    case Fresh(_, release, true) => Some(release)
    case _ => None
  }

  /** The tag of the last release a check was answered with. */
  function LastTag(calls: seq<Call>): Option<string> {
    if calls == [] then None
    else
      var before, c := calls[..|calls| - 1], calls[|calls| - 1];
      if Asks(before, c) && !c.Download? && Answer(before, c.reply).Some?
      then Some(Answer(before, c.reply).value.tagName) else LastTag(before)
  }

  function LastDevice(calls: seq<Call>): Option<string> {
    if calls == [] then None
    else if calls[|calls| - 1].DeviceVersion? then Some(calls[|calls| - 1].version)
    else LastDevice(calls[..|calls| - 1])
  }

  /** Calls that compare the versions. */
  predicate Compares(before: seq<Call>, c: Call) { c.DeviceVersion? || (Asks(before, c) && !c.Download?) }

  /** The banner: gone after a pause or when hidden, otherwise as the last comparison of two known versions left it. */
  ghost function Banner(calls: seq<Call>): Option<string> {
    if calls == [] then None
    else
      var before, c := calls[..|calls| - 1], calls[|calls| - 1];
      if c.Pause? || c.Hide? then None
      else if Compares(before, c) && LastTag(calls).Some? && LastDevice(calls).Some? then
        var latest, device := LastTag(calls).value, LastDevice(calls).value;
        if Offered(latest, device) then Some(CleanVersionString(latest)) else None
      else Banner(before)
  }

  ghost predicate Follows(m: Manager, calls: seq<Call>)
    reads m
  {
    && m.isPaused == PausedAfter(calls)
    && m.lastETag == StoredTag(calls) && m.cachedRelease == LastBody(calls)
    && m.latestGithubVersion == LastTag(calls) && m.deviceVersion == LastDevice(calls)
    && m.latestVersionState == Banner(calls)
  }

  method Perform(m: Manager, c: Call, ghost before: seq<Call>)
    requires Follows(m, before)
    modifies m
    ensures Follows(m, before + [c])
  {
    assert (before + [c])[..|before|] == before;
    match c {
      case PeriodicCheck(reply) => m.PeriodicCheck(reply);
      case ManualCheck(reply) => m.ManualCheck(reply);
      case Download(reply) => var ignored := m.FetchReleaseInfo(reply);
      case DeviceVersion(version) => m.OnDeviceVersionReceived(version);
      case Pause => m.PauseChecks();
      case Resume => m.ResumeChecks();
      case Hide => m.HideBanner();
    }
  }

  /** After any calls from the start: pause, stored tag, cached release, the two known versions and the banner
      are those of the calls. */
  method ReceiveAll(calls: seq<Call>) returns (m: Manager)
    ensures fresh(m) && Follows(m, calls)
  {
    m := new Manager();
    for i := 0 to |calls|
      invariant fresh(m) && Follows(m, calls[..i])
    {
      assert calls[..i + 1] == calls[..i] + [calls[i]];
      Perform(m, calls[i], calls[..i]);
    }
    assert calls[..|calls|] == calls;
  }

  /** Once the device version and some release are known, an unpaused check leaves the banner exactly as
      the comparison of the last answered release with the last device version says. */
  lemma CheckedBannerIsCurrent(calls: seq<Call>, reply: Reply)
    requires !PausedAfter(calls)
    ensures var all := calls + [PeriodicCheck(reply)];
            LastTag(all).Some? && LastDevice(calls).Some? ==>
              Banner(all) == if Offered(LastTag(all).value, LastDevice(calls).value)
              then Some(CleanVersionString(LastTag(all).value)) else None
    ensures reply.Fresh? && reply.parses ==>
              LastTag(calls + [PeriodicCheck(reply)]) == Some(reply.release.tagName)
  {
    assert (calls + [PeriodicCheck(reply)])[..|calls|] == calls;
  }
}
