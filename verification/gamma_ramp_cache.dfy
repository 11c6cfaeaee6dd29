/** GammaRampCache's bookkeeping: the cached displays keyed by device key, the cached
    profiles keyed by path, the display count last seen, and the refresh that reconciles
    them with what Windows reports. The Win32 lookups and the file system are parameters. */
module RampCache {
  import opened Results
  import opened BigEndian
  import opened IccModels
  import opened Displays
  import opened IccProfileHelper
  import opened CachedDisplays

  /** The cache's three fields. A display's linked profile is held by value: the cache never
      changes a CachedProfile after adding it, so the display and the list hold the same record. */
  datatype Cache = Cache(displays: seq<CachedDisplay>, profiles: seq<CachedProfile>, overallDisplaysCount: int)

  /** A new cache: no displays, no profiles, count 0. */
  function NewCache(): (c: Cache)
    ensures c.displays == [] && c.profiles == [] && c.overallDisplaysCount == 0
  {
    Cache([], [], 0)
  }

  /** What the operating system answers. `perUser` and `defaultProfile` stand for the two
      colour management calls behind GetDefaultColorProfilePath; `readFile` for opening and
      reading a profile file (None when that throws). */
  datatype Os = Os(
    perUser: string -> PerUserAnswer,
    defaultProfile: (Scope, string) -> Option<string>,
    readFile: string -> Option<Bytes>)

  /** Why a refresh ends with an exception. */
  datatype CacheError =
    | NoDisplays                    // InvalidOperationException("Cannot retrieve information for displays.")
    | LoadFailed(reason: LoadError) // whatever LoadIccProfileAsync threw

  /** The cache after an operation, and what the operation returned or threw. */
  datatype Outcome<+T> = Outcome(cache: Cache, result: Result<T, CacheError>)

  /** Profile paths are unique, and every linked profile is the cached record for its path. */
  predicate Wf(c: Cache) {
    (forall i, j :: 0 <= i < j < |c.profiles| ==> c.profiles[i].profilePath != c.profiles[j].profilePath)
    && forall k :: 0 <= k < |c.displays| && c.displays[k].profile.Some? ==> c.displays[k].profile.value in c.profiles
  }

  function ResolvePath(os: Os, deviceKey: string): Option<string> {
    GetDefaultColorProfilePath(deviceKey, os.perUser, os.defaultProfile)
  }

  // ---------------------------------------------------------------- lookups

  /** Display `i` has the key, and no display before it does. */
  predicate IsFirstDisplay(ds: seq<CachedDisplay>, key: string, i: nat) {
    i < |ds| && ds[i].deviceKey == key && forall j :: 0 <= j < i ==> ds[j].deviceKey != key
  }

  /** _cachedDisplays.FirstOrDefault(d => d.DeviceKey == key), as an index. */
  function FindDisplay(ds: seq<CachedDisplay>, key: string): (r: Option<nat>)
    ensures r.Some? ==> IsFirstDisplay(ds, key, r.value)
    ensures r.None? <==> forall j :: 0 <= j < |ds| ==> ds[j].deviceKey != key
    decreases |ds|
  {
    if |ds| == 0 then None
    else if ds[0].deviceKey == key then Some(0)
    else
      match FindDisplay(ds[1..], key)
      case None => None
      case Some(i) => Some(i + 1)
  }

  /** _cachedProfiles.FirstOrDefault(p => p.ProfilePath == path), as an index. */
  function FindProfile(ps: seq<CachedProfile>, path: string): (r: Option<nat>)
    ensures r.Some? ==> r.value < |ps| && ps[r.value].profilePath == path
    ensures r.Some? ==> forall j :: 0 <= j < r.value ==> ps[j].profilePath != path
    ensures r.None? <==> forall j :: 0 <= j < |ps| ==> ps[j].profilePath != path
    decreases |ps|
  {
    if |ps| == 0 then None
    else if ps[0].profilePath == path then Some(0)
    else
      match FindProfile(ps[1..], path)
      case None => None
      case Some(i) => Some(i + 1)
  }

  lemma FirstDisplayUnique(ds: seq<CachedDisplay>, key: string, i: nat, j: nat)
    requires IsFirstDisplay(ds, key, i) && IsFirstDisplay(ds, key, j)
    ensures i == j
  {
  }

  /** The lookup sees only the keys: two lists with the same keys answer alike. */
  lemma FindDisplaySameKeys(a: seq<CachedDisplay>, b: seq<CachedDisplay>, key: string)
    requires |a| == |b| && forall k :: 0 <= k < |a| ==> a[k].deviceKey == b[k].deviceKey
    ensures FindDisplay(a, key) == FindDisplay(b, key)
  {
    var ra := FindDisplay(a, key);
    var rb := FindDisplay(b, key);
    if ra.Some? {
      assert IsFirstDisplay(b, key, ra.value);
      FirstDisplayUnique(b, key, ra.value, rb.value);
    }
  }

  /** Appending a display finds it only under its own key, and only when the key was absent. */
  lemma FindDisplayAppend(ds: seq<CachedDisplay>, d: CachedDisplay, key: string)
    ensures d.deviceKey != key ==> FindDisplay(ds + [d], key) == FindDisplay(ds, key)
    ensures d.deviceKey == key && FindDisplay(ds, key).None? ==> FindDisplay(ds + [d], key) == Some(|ds|)
  {
    var longer := ds + [d];
    var r := FindDisplay(ds, key);
    var rl := FindDisplay(longer, key);
    if r.Some? {
      assert IsFirstDisplay(longer, key, r.value);
      FirstDisplayUnique(longer, key, r.value, rl.value);
    } else if d.deviceKey == key {
      assert IsFirstDisplay(longer, key, |ds|);
      FirstDisplayUnique(longer, key, |ds|, rl.value);
    }
  }

  /** The display for `key` is missing, or linked to another path than the one resolved now. */
  predicate NeedsRefresh(c: Cache, key: string, os: Os) {
    match FindDisplay(c.displays, key)
    case None => true
    case Some(i) => LinkedPath(c.displays[i]) != ResolvePath(os, key)
  }

  // ---------------------------------------------------------------- transitions

  /** Display `i` relinked to `profile`; nothing else changes. */
  function Link(c: Cache, i: nat, profile: Option<CachedProfile>): (r: Cache)
    requires i < |c.displays|
    ensures |r.displays| == |c.displays| && r.profiles == c.profiles && r.overallDisplaysCount == c.overallDisplaysCount
    ensures r.displays[i] == c.displays[i].(profile := profile)
    ensures forall k :: 0 <= k < |c.displays| && k != i ==> r.displays[k] == c.displays[k]
  {
    c.(displays := c.displays[i := c.displays[i].(profile := profile)])
  }

  /** The ramp a profile file yields: LoadIccProfileAsync, then GetVcgtGammaRampFromProfile. */
  function LoadRamp(os: Os, path: string): (r: Result<Option<GammaRamp>, LoadError>)
    ensures r.Ok? <==> LoadIccProfile(Some(path), os.readFile).Ok?
    ensures r.Ok? ==> r.value == GetVcgtGammaRampFromProfile(LoadIccProfile(Some(path), os.readFile).value)
  {
    var profile :- LoadIccProfile(Some(path), os.readFile);
    Ok(GetVcgtGammaRampFromProfile(profile))
  }

  /** UpdateDisplayProfileAsync for display `i`. A null path unlinks it; a cached path links
      the cached record; any other path is first unlinked (FirstOrDefault found nothing),
      then loaded, and on success linked and appended to the profile cache. */
  function UpdateDisplayProfile(c: Cache, i: nat, path: Option<string>, os: Os): (r: Outcome<()>)
    requires i < |c.displays|
    ensures |r.cache.displays| == |c.displays| && r.cache.overallDisplaysCount == c.overallDisplaysCount
    ensures forall k :: 0 <= k < |c.displays| && k != i ==> r.cache.displays[k] == c.displays[k]
    ensures r.cache.displays[i] == c.displays[i].(profile := r.cache.displays[i].profile)
    ensures c.profiles <= r.cache.profiles && |r.cache.profiles| <= |c.profiles| + 1
    ensures r.result.Ok? ==> LinkedPath(r.cache.displays[i]) == path
    ensures r.result.Err? ==> r.cache.displays[i].profile.None? && r.cache.profiles == c.profiles
    ensures r.result.Err? ==> path.Some? && FindProfile(c.profiles, path.value).None?
    ensures path.Some? && FindProfile(c.profiles, path.value).Some? ==>
      r == Outcome(Link(c, i, Some(c.profiles[FindProfile(c.profiles, path.value).value])), Ok(()))
    ensures |r.cache.profiles| == |c.profiles| + 1 ==>
      path.Some? && FindProfile(c.profiles, path.value).None? && r.cache.displays[i].profile == Some(r.cache.profiles[|c.profiles|])
    ensures path.Some? && FindProfile(c.profiles, path.value).None? ==>
      (r.result.Err? <==> LoadRamp(os, path.value).Err?)
    ensures path.Some? && FindProfile(c.profiles, path.value).None? && LoadRamp(os, path.value).Ok? ==>
      r.cache.profiles == c.profiles + [CachedProfile(path.value, LoadRamp(os, path.value).value)]
  {
    match path
    case None => Outcome(Link(c, i, None), Ok(()))
    case Some(p) =>
      match FindProfile(c.profiles, p)
      case Some(j) => Outcome(Link(c, i, Some(c.profiles[j])), Ok(()))
      case None =>
        var unlinked := Link(c, i, None);
        match LoadRamp(os, p)
        case Err(e) => Outcome(unlinked, Err(LoadFailed(e)))
        case Ok(ramp) =>
          var cached := CachedProfile(p, ramp);
          Outcome(Link(unlinked, i, Some(cached)).(profiles := c.profiles + [cached]), Ok(()))
  }

  /** AddNewDisplayProfileAsync: the display goes on the end of the list with no profile,
      and only then is its profile resolved, so it stays even when loading throws. */
  function AddNewDisplayProfile(c: Cache, info: DisplayInfo, path: Option<string>, os: Os): (r: Outcome<()>)
    ensures |r.cache.displays| == |c.displays| + 1 && r.cache.overallDisplaysCount == c.overallDisplaysCount
    ensures r.cache.displays[..|c.displays|] == c.displays
    ensures var d := r.cache.displays[|c.displays|];
      d.displayName == info.displayName && d.deviceName == info.deviceName && d.deviceKey == info.deviceKey
    ensures c.profiles <= r.cache.profiles
    ensures r.result.Ok? ==> LinkedPath(r.cache.displays[|c.displays|]) == path
    ensures r.result.Err? ==> r.cache.displays[|c.displays|].profile.None? && r.cache.profiles == c.profiles
  {
    var added := CachedDisplay(info.displayName, info.deviceName, info.deviceKey, None);
    var c1 := c.(displays := c.displays + [added]);
    var r := UpdateDisplayProfile(c1, |c.displays|, path, os);
    assert r.cache.displays[..|c.displays|] == c.displays;
    r
  }

  /** One pass of RefreshDisplayProfilesAsync's loop: add the display when its key is new,
      re-resolve its profile when the linked path differs, otherwise leave it. The flag says
      whether anything was done. */
  function RefreshOne(c: Cache, info: DisplayInfo, os: Os): (r: Outcome<bool>)
    ensures c.profiles <= r.cache.profiles && r.cache.overallDisplaysCount == c.overallDisplaysCount
    ensures |c.displays| <= |r.cache.displays| <= |c.displays| + 1
    ensures forall k :: 0 <= k < |c.displays| ==> r.cache.displays[k].deviceKey == c.displays[k].deviceKey
    ensures |r.cache.displays| == |c.displays| + 1 ==> r.cache.displays[|c.displays|].deviceKey == info.deviceKey
    ensures !NeedsRefresh(c, info.deviceKey, os) ==> r == Outcome(c, Ok(false))
    ensures r.result.Ok? ==> r.result.value == NeedsRefresh(c, info.deviceKey, os)
  {
    var path := ResolvePath(os, info.deviceKey);
    match FindDisplay(c.displays, info.deviceKey)
    case None =>
      var u := AddNewDisplayProfile(c, info, path, os);
      Outcome(u.cache, if u.result.Ok? then Ok(true) else Err(u.result.error))
    case Some(i) =>
      if LinkedPath(c.displays[i]) != path then
        var u := UpdateDisplayProfile(c, i, path, os);
        Outcome(u.cache, if u.result.Ok? then Ok(true) else Err(u.result.error))
      else
        Outcome(c, Ok(false))
  }

  /** Some enumerated display has this key. */
  predicate Enumerated(infos: seq<DisplayInfo>, key: string) {
    exists j :: 0 <= j < |infos| && infos[j].deviceKey == key
  }

  lemma EnumeratedTail(infos: seq<DisplayInfo>, key: string)
    requires |infos| > 0 && Enumerated(infos[1..], key)
    ensures Enumerated(infos, key)
  {
    var j :| 0 <= j < |infos[1..]| && infos[1..][j].deviceKey == key;
    assert infos[j + 1] == infos[1..][j];
  }

  /** RefreshDisplayProfilesAsync: the loop over the enumerated displays in order. The first
      exception ends it; otherwise it reports whether any pass did something. */
  function RefreshDisplayProfiles(c: Cache, infos: seq<DisplayInfo>, os: Os): (r: Outcome<bool>)
    ensures c.profiles <= r.cache.profiles && r.cache.overallDisplaysCount == c.overallDisplaysCount
    ensures |c.displays| <= |r.cache.displays|
    ensures forall k :: 0 <= k < |c.displays| ==> r.cache.displays[k].deviceKey == c.displays[k].deviceKey
    ensures forall k :: |c.displays| <= k < |r.cache.displays| ==> Enumerated(infos, r.cache.displays[k].deviceKey)
    decreases |infos|
  {
    if |infos| == 0 then Outcome(c, Ok(false))
    else
      var first := RefreshOne(c, infos[0], os);
      if first.result.Err? then Outcome(first.cache, Err(first.result.error))
      else
        var rest := RefreshDisplayProfiles(first.cache, infos[1..], os);
        assert forall k :: |first.cache.displays| <= k < |rest.cache.displays| ==> Enumerated(infos, rest.cache.displays[k].deviceKey)
        by {
          forall k | |first.cache.displays| <= k < |rest.cache.displays|
            ensures Enumerated(infos, rest.cache.displays[k].deviceKey)
          {
            EnumeratedTail(infos, rest.cache.displays[k].deviceKey);
          }
        }
        match rest.result
        case Err(e) => rest
        case Ok(later) => Outcome(rest.cache, Ok(first.result.value || later))
  }

  /** RefreshCache: an empty or missing enumeration throws before anything changes; a
      display count other than the last one clears the display list (never the profile
      list) and records the new count; then the displays are reconciled. */
  function RefreshCache(c: Cache, enumeration: Option<seq<DisplayInfo>>, os: Os): (r: Outcome<bool>)
    ensures enumeration.None? || |enumeration.value| == 0 ==> r == Outcome(c, Err(NoDisplays))
    ensures enumeration.Some? && |enumeration.value| > 0 ==> r.cache.overallDisplaysCount == |enumeration.value|
    ensures c.profiles <= r.cache.profiles
    ensures enumeration.Some? && |enumeration.value| == c.overallDisplaysCount ==>
      |c.displays| <= |r.cache.displays| &&
      forall k :: 0 <= k < |c.displays| ==> r.cache.displays[k].deviceKey == c.displays[k].deviceKey
    ensures enumeration.Some? && |enumeration.value| > 0 && |enumeration.value| != c.overallDisplaysCount ==>
      forall k :: 0 <= k < |r.cache.displays| ==> Enumerated(enumeration.value, r.cache.displays[k].deviceKey)
  {
    match enumeration
    case None => Outcome(c, Err(NoDisplays))
    case Some(infos) =>
      if |infos| == 0 then Outcome(c, Err(NoDisplays))
      else
        var counted := if |infos| != c.overallDisplaysCount then c.(displays := [], overallDisplaysCount := |infos|) else c;
        RefreshDisplayProfiles(counted, infos, os)
  }

  // ---------------------------------------------------------------- what a refresh reports

  /** A pass settles its own key and leaves every other key's need for a refresh as it was. */
  lemma RefreshOneSettles(c: Cache, info: DisplayInfo, os: Os, key: string)
    requires RefreshOne(c, info, os).result.Ok?
    ensures !NeedsRefresh(RefreshOne(c, info, os).cache, info.deviceKey, os)
    ensures key != info.deviceKey ==> NeedsRefresh(RefreshOne(c, info, os).cache, key, os) == NeedsRefresh(c, key, os)
  {
    var path := ResolvePath(os, info.deviceKey);
    var after := RefreshOne(c, info, os).cache;
    match FindDisplay(c.displays, info.deviceKey)
    case None =>
      var added := CachedDisplay(info.displayName, info.deviceName, info.deviceKey, None);
      var c1 := c.(displays := c.displays + [added]);
      FindDisplayAppend(c.displays, added, key);
      FindDisplayAppend(c.displays, added, info.deviceKey);
      FindDisplaySameKeys(c1.displays, after.displays, key);
      FindDisplaySameKeys(c1.displays, after.displays, info.deviceKey);
    case Some(i) =>
      if LinkedPath(c.displays[i]) != path {
        FindDisplaySameKeys(c.displays, after.displays, key);
        FindDisplaySameKeys(c.displays, after.displays, info.deviceKey);
      }
  }

  /** After a pass, another key needs a refresh exactly when it did before. */
  lemma RefreshOneOthers(c: Cache, info: DisplayInfo, os: Os)
    requires RefreshOne(c, info, os).result.Ok?
    ensures forall key :: NeedsRefresh(RefreshOne(c, info, os).cache, key, os) <==>
      key != info.deviceKey && NeedsRefresh(c, key, os)
  {
    forall key
      ensures NeedsRefresh(RefreshOne(c, info, os).cache, key, os) <==> key != info.deviceKey && NeedsRefresh(c, key, os)
    {
      RefreshOneSettles(c, info, os, key);
    }
  }

  /** The refresh returns true exactly when some enumerated key was missing from the cache
      or linked to another path than the one resolved now. */
  lemma {:induction false} RefreshReportsChange(c: Cache, infos: seq<DisplayInfo>, os: Os)
    requires RefreshDisplayProfiles(c, infos, os).result.Ok?
    ensures RefreshDisplayProfiles(c, infos, os).result.value <==>
      exists j :: 0 <= j < |infos| && NeedsRefresh(c, infos[j].deviceKey, os)
    decreases |infos|
  {
    if |infos| > 0 {
      RefreshReportsChange(RefreshOne(c, infos[0], os).cache, infos[1..], os);
      NeedAfterFirstPass(c, infos, os);
    }
  }

  /** Some key needs a refresh exactly when the first one does or, after the first pass,
      some later one still does. */
  lemma NeedAfterFirstPass(c: Cache, infos: seq<DisplayInfo>, os: Os)
    requires |infos| > 0 && RefreshOne(c, infos[0], os).result.Ok?
    ensures (exists j :: 0 <= j < |infos| && NeedsRefresh(c, infos[j].deviceKey, os)) <==>
      NeedsRefresh(c, infos[0].deviceKey, os) ||
      exists m :: 0 <= m < |infos[1..]| && NeedsRefresh(RefreshOne(c, infos[0], os).cache, infos[1..][m].deviceKey, os)
  {
    var c1 := RefreshOne(c, infos[0], os).cache;
    var tail := infos[1..];
    RefreshOneOthers(c, infos[0], os);
    if exists j :: 0 <= j < |infos| && NeedsRefresh(c, infos[j].deviceKey, os) {
      var j :| 0 <= j < |infos| && NeedsRefresh(c, infos[j].deviceKey, os);
      if j > 0 && infos[j].deviceKey != infos[0].deviceKey {
        assert tail[j - 1] == infos[j];
      }
    }
    if exists m :: 0 <= m < |tail| && NeedsRefresh(c1, tail[m].deviceKey, os) {
      var m :| 0 <= m < |tail| && NeedsRefresh(c1, tail[m].deviceKey, os);
      assert tail[m] == infos[m + 1];
    }
  }

  /** After a successful refresh no enumerated key needs one. */
  lemma {:induction false} RefreshSettlesAll(c: Cache, infos: seq<DisplayInfo>, os: Os)
    requires RefreshDisplayProfiles(c, infos, os).result.Ok?
    ensures forall j :: 0 <= j < |infos| ==> !NeedsRefresh(RefreshDisplayProfiles(c, infos, os).cache, infos[j].deviceKey, os)
    decreases |infos|
  {
    if |infos| > 0 {
      var c1 := RefreshOne(c, infos[0], os).cache;
      var tail := infos[1..];
      RefreshSettlesAll(c1, tail, os);
      var after := RefreshDisplayProfiles(c1, tail, os).cache;
      assert after == RefreshDisplayProfiles(c, infos, os).cache;
      RefreshOneSettles(c, infos[0], os, infos[0].deviceKey);
      SettledKeyStays(c1, tail, os, infos[0].deviceKey);
      forall j | 1 <= j < |infos|
        ensures !NeedsRefresh(after, infos[j].deviceKey, os)
      {
        assert infos[j] == tail[j - 1];
      }
    }
  }

  /** A key that is settled before a loop that settles all its own keys is settled after it,
      whether or not the loop visits it again. */
  lemma SettledKeyStays(c: Cache, infos: seq<DisplayInfo>, os: Os, key: string)
    requires RefreshDisplayProfiles(c, infos, os).result.Ok?
    requires !NeedsRefresh(c, key, os)
    requires forall j :: 0 <= j < |infos| ==> !NeedsRefresh(RefreshDisplayProfiles(c, infos, os).cache, infos[j].deviceKey, os)
    ensures !NeedsRefresh(RefreshDisplayProfiles(c, infos, os).cache, key, os)
  {
    if Enumerated(infos, key) {
      var m :| 0 <= m < |infos| && infos[m].deviceKey == key;
    } else {
      StaysSettled(c, infos, os, key);
    }
  }

  /** A key no later pass touches keeps its settled state. */
  lemma {:induction false} StaysSettled(c: Cache, infos: seq<DisplayInfo>, os: Os, key: string)
    requires RefreshDisplayProfiles(c, infos, os).result.Ok?
    requires forall j :: 0 <= j < |infos| ==> infos[j].deviceKey != key
    requires !NeedsRefresh(c, key, os)
    ensures !NeedsRefresh(RefreshDisplayProfiles(c, infos, os).cache, key, os)
    decreases |infos|
  {
    if |infos| > 0 {
      RefreshOneSettles(c, infos[0], os, key);
      StaysSettled(RefreshOne(c, infos[0], os).cache, infos[1..], os, key);
    }
  }

  /** When no enumerated key needs a refresh, the loop changes nothing, loads nothing and
      returns false. */
  lemma {:induction false} SettledRefreshIsQuiet(c: Cache, infos: seq<DisplayInfo>, os: Os)
    requires forall j :: 0 <= j < |infos| ==> !NeedsRefresh(c, infos[j].deviceKey, os)
    ensures RefreshDisplayProfiles(c, infos, os) == Outcome(c, Ok(false))
    decreases |infos|
  {
    if |infos| > 0 {
      SettledRefreshIsQuiet(c, infos[1..], os);
    }
  }

  /** Refreshing again right after a successful refresh, with the same displays and the same
      answers from Windows, returns false and leaves the cache exactly as it was. */
  lemma RepeatRefreshIsQuiet(c: Cache, infos: seq<DisplayInfo>, os: Os)
    requires RefreshCache(c, Some(infos), os).result.Ok?
    ensures var once := RefreshCache(c, Some(infos), os).cache;
      RefreshCache(once, Some(infos), os) == Outcome(once, Ok(false))
  {
    var counted := if |infos| != c.overallDisplaysCount then c.(displays := [], overallDisplaysCount := |infos|) else c;
    RefreshSettlesAll(counted, infos, os);
    var once := RefreshCache(c, Some(infos), os).cache;
    SettledRefreshIsQuiet(once, infos, os);
  }

  // ---------------------------------------------------------------- a changed display count

  /** The first enumerated display with the key, as an index. */
  function FirstInfo(infos: seq<DisplayInfo>, key: string): (r: Option<nat>)
    ensures r.Some? ==> r.value < |infos| && infos[r.value].deviceKey == key
    ensures r.Some? ==> forall j :: 0 <= j < r.value ==> infos[j].deviceKey != key
    ensures r.None? <==> !Enumerated(infos, key)
    decreases |infos|
  {
    if |infos| == 0 then None
    else if infos[0].deviceKey == key then Some(0)
    else
      match FirstInfo(infos[1..], key)
      case None =>
        assert forall j :: 1 <= j < |infos| ==> infos[j] == infos[1..][j - 1];
        None
      case Some(i) => Some(i + 1)
  }

  /** The display was created from the enumeration: its names are those of the first
      enumerated display with its key. */
  predicate BuiltFrom(d: CachedDisplay, infos: seq<DisplayInfo>) {
    match FirstInfo(infos, d.deviceKey)
    case None => false
    case Some(j) => d.displayName == infos[j].displayName && d.deviceName == infos[j].deviceName
  }

  /** `a` is the display `b`, relinked at most. */
  predicate SameRecord(a: CachedDisplay, b: CachedDisplay) {
    a == b.(profile := a.profile)
  }

  /** A pass relinks the displays it finds and appends, under a key that was absent, a
      display named after the info. */
  lemma RefreshOneRecords(c: Cache, info: DisplayInfo, os: Os)
    ensures var r := RefreshOne(c, info, os).cache;
      forall k :: 0 <= k < |c.displays| ==> SameRecord(r.displays[k], c.displays[k])
    ensures var r := RefreshOne(c, info, os).cache;
      |r.displays| == |c.displays| + 1 ==>
        FindDisplay(c.displays, info.deviceKey).None? &&
        r.displays[|c.displays|].displayName == info.displayName &&
        r.displays[|c.displays|].deviceName == info.deviceName
  {
  }

  /** The loop relinks the displays it started with and appends only displays under keys
      that none of them had. */
  lemma RefreshKeepsOld(c: Cache, infos: seq<DisplayInfo>, os: Os)
    ensures var r := RefreshDisplayProfiles(c, infos, os).cache;
      forall k :: 0 <= k < |c.displays| ==> SameRecord(r.displays[k], c.displays[k])
    ensures var r := RefreshDisplayProfiles(c, infos, os).cache;
      forall k, m :: 0 <= m < |c.displays| <= k < |r.displays| ==> r.displays[k].deviceKey != c.displays[m].deviceKey
  {
    RefreshKeepsRecords(c, infos, os);
    RefreshAddsFreshKeys(c, infos, os);
  }

  lemma {:induction false} RefreshKeepsRecords(c: Cache, infos: seq<DisplayInfo>, os: Os)
    ensures var r := RefreshDisplayProfiles(c, infos, os).cache;
      forall k :: 0 <= k < |c.displays| ==> SameRecord(r.displays[k], c.displays[k])
    decreases |infos|
  {
    if |infos| > 0 {
      var first := RefreshOne(c, infos[0], os);
      var c1 := first.cache;
      RefreshOneRecords(c, infos[0], os);
      if first.result.Ok? {
        var r := RefreshDisplayProfiles(c1, infos[1..], os).cache;
        assert r == RefreshDisplayProfiles(c, infos, os).cache;
        RefreshKeepsRecords(c1, infos[1..], os);
        forall k | 0 <= k < |c.displays|
          ensures SameRecord(r.displays[k], c.displays[k])
        {
          assert SameRecord(r.displays[k], c1.displays[k]);
        }
      }
    }
  }

  lemma {:induction false} RefreshAddsFreshKeys(c: Cache, infos: seq<DisplayInfo>, os: Os)
    ensures var r := RefreshDisplayProfiles(c, infos, os).cache;
      forall k, m :: 0 <= m < |c.displays| <= k < |r.displays| ==> r.displays[k].deviceKey != c.displays[m].deviceKey
    decreases |infos|
  {
    if |infos| > 0 {
      var first := RefreshOne(c, infos[0], os);
      var c1 := first.cache;
      RefreshOneRecords(c, infos[0], os);
      if first.result.Ok? {
        var r := RefreshDisplayProfiles(c1, infos[1..], os).cache;
        assert r == RefreshDisplayProfiles(c, infos, os).cache;
        RefreshAddsFreshKeys(c1, infos[1..], os);
        RefreshKeepsRecords(c1, infos[1..], os);
        forall k, m | 0 <= m < |c.displays| <= k < |r.displays|
          ensures r.displays[k].deviceKey != c.displays[m].deviceKey
        {
          assert c1.displays[m].deviceKey == c.displays[m].deviceKey;
          if k < |c1.displays| {
            assert SameRecord(r.displays[k], c1.displays[k]);
          }
        }
      }
    }
  }

  /** A display named after the tail's first info with its key is named after the whole
      list's, when the head has another key. */
  lemma BuiltFromTail(infos: seq<DisplayInfo>, d: CachedDisplay)
    requires |infos| > 0 && d.deviceKey != infos[0].deviceKey && BuiltFrom(d, infos[1..])
    ensures BuiltFrom(d, infos)
  {
    var j := FirstInfo(infos[1..], d.deviceKey).value;
    assert infos[j + 1] == infos[1..][j];
  }

  /** Every display the loop appends is named after the first enumerated display with its key. */
  lemma {:induction false} RefreshNamesNew(c: Cache, infos: seq<DisplayInfo>, os: Os)
    ensures var r := RefreshDisplayProfiles(c, infos, os).cache;
      forall k :: |c.displays| <= k < |r.displays| ==> BuiltFrom(r.displays[k], infos)
    decreases |infos|
  {
    if |infos| > 0 {
      var first := RefreshOne(c, infos[0], os);
      var c1 := first.cache;
      var tail := infos[1..];
      RefreshOneRecords(c, infos[0], os);
      if first.result.Ok? {
        var r := RefreshDisplayProfiles(c1, tail, os).cache;
        assert r == RefreshDisplayProfiles(c, infos, os).cache;
        RefreshNamesNew(c1, tail, os);
        RefreshKeepsOld(c1, tail, os);
        RefreshOneSettles(c, infos[0], os, infos[0].deviceKey);
        var m := FindDisplay(c1.displays, infos[0].deviceKey).value;
        forall k | |c.displays| <= k < |r.displays|
          ensures BuiltFrom(r.displays[k], infos)
        {
          if k < |c1.displays| {
            assert SameRecord(r.displays[k], c1.displays[k]);
          } else {
            assert r.displays[k].deviceKey != c1.displays[m].deviceKey;
            BuiltFromTail(infos, r.displays[k]);
          }
        }
      }
    }
  }

  /** A refresh that finds a display count other than the last one rebuilds the display
      list from the enumeration alone: no display of before survives, every display is named
      after the first enumerated display with its key, the result is true, and on success
      every enumerated key has its display. */
  lemma RefreshCacheRebuilds(c: Cache, infos: seq<DisplayInfo>, os: Os)
    requires |infos| > 0 && |infos| != c.overallDisplaysCount
    ensures var r := RefreshCache(c, Some(infos), os);
      forall k :: 0 <= k < |r.cache.displays| ==> BuiltFrom(r.cache.displays[k], infos)
    ensures var r := RefreshCache(c, Some(infos), os);
      r.result.Ok? ==> r.result.value
    ensures var r := RefreshCache(c, Some(infos), os);
      r.result.Ok? ==> forall j :: 0 <= j < |infos| ==> FindDisplay(r.cache.displays, infos[j].deviceKey).Some?
  {
    var counted := c.(displays := [], overallDisplaysCount := |infos|);
    assert RefreshCache(c, Some(infos), os) == RefreshDisplayProfiles(counted, infos, os);
    RefreshNamesNew(counted, infos, os);
    if RefreshDisplayProfiles(counted, infos, os).result.Ok? {
      RefreshReportsChange(counted, infos, os);
      assert NeedsRefresh(counted, infos[0].deviceKey, os);
      RefreshSettlesAll(counted, infos, os);
    }
  }

  // ---------------------------------------------------------------- the invariant

  /** Resolving one display's profile keeps paths unique and links only cached records. */
  lemma UpdateKeepsWf(c: Cache, i: nat, path: Option<string>, os: Os)
    requires Wf(c) && i < |c.displays|
    ensures Wf(UpdateDisplayProfile(c, i, path, os).cache)
  {
    var r := UpdateDisplayProfile(c, i, path, os);
    if path.Some? && FindProfile(c.profiles, path.value).None? && r.result.Ok? {
      var p := path.value;
      var cached := r.cache.profiles[|c.profiles|];
      assert r.cache.profiles == c.profiles + [cached];
      assert cached.profilePath == p;
      forall k | 0 <= k < |r.cache.displays| && r.cache.displays[k].profile.Some?
        ensures r.cache.displays[k].profile.value in r.cache.profiles
      {
        if k != i {
          assert r.cache.displays[k] == c.displays[k];
        }
      }
    }
  }

  lemma RefreshOneKeepsWf(c: Cache, info: DisplayInfo, os: Os)
    requires Wf(c)
    ensures Wf(RefreshOne(c, info, os).cache)
  {
    var path := ResolvePath(os, info.deviceKey);
    match FindDisplay(c.displays, info.deviceKey)
    case None =>
      var added := CachedDisplay(info.displayName, info.deviceName, info.deviceKey, None);
      var c1 := c.(displays := c.displays + [added]);
      UpdateKeepsWf(c1, |c.displays|, path, os);
    case Some(i) =>
      UpdateKeepsWf(c, i, path, os);
  }

  lemma {:induction false} RefreshDisplayProfilesKeepsWf(c: Cache, infos: seq<DisplayInfo>, os: Os)
    requires Wf(c)
    ensures Wf(RefreshDisplayProfiles(c, infos, os).cache)
    decreases |infos|
  {
    if |infos| > 0 {
      RefreshOneKeepsWf(c, infos[0], os);
      RefreshDisplayProfilesKeepsWf(RefreshOne(c, infos[0], os).cache, infos[1..], os);
    }
  }

  /** Whether it returns or throws, a refresh keeps the profile paths unique (each file is
      loaded at most once while cached) and links displays only to cached profiles. */
  lemma RefreshCacheKeepsWf(c: Cache, enumeration: Option<seq<DisplayInfo>>, os: Os)
    requires Wf(c)
    ensures Wf(RefreshCache(c, enumeration, os).cache)
  {
    if enumeration.Some? && |enumeration.value| > 0 {
      var infos := enumeration.value;
      var counted := if |infos| != c.overallDisplaysCount then c.(displays := [], overallDisplaysCount := |infos|) else c;
      RefreshDisplayProfilesKeepsWf(counted, infos, os);
    }
  }

  // ---------------------------------------------------------------- description

  /** GetProfilesDescripton: none, the single display's profile name, or a count. */
  function GetProfilesDescription(c: Cache, getFileName: string -> string): (text: string)
    ensures |c.displays| == 0 ==> text == "No displays detected."
    ensures |c.displays| == 1 ==> text == ProfileName(c.displays[0], getFileName)
    ensures |c.displays| > 1 ==> text == "Multi display setup (" + NatToString(|c.displays|) + ")."
  {
    if |c.displays| > 1 then "Multi display setup (" + NatToString(|c.displays|) + ")."
    else if |c.displays| == 1 then ProfileName(c.displays[0], getFileName)
    else "No displays detected."
  }

  /** Decimal digits of `n`, as string interpolation writes an int: no sign, no leading zero. */
  function NatToString(n: nat): (s: string)
    ensures |s| >= 1 && (|s| > 1 ==> s[0] != '0')
    ensures forall k :: 0 <= k < |s| ==> '0' <= s[k] <= '9'
    decreases n
  {
    if n < 10 then [Digit(n)] else NatToString(n / 10) + [Digit(n % 10)]
  }

  function Digit(d: nat): (c: char)
    requires d < 10
    ensures '0' <= c <= '9' && c as int - '0' as int == d
  {
    ('0' as int + d) as char
  }

  /** Reading decimal digits back, most significant first. */
  function DigitsValue(s: string): nat
    requires forall k :: 0 <= k < |s| ==> '0' <= s[k] <= '9'
    decreases |s|
  {
    if |s| == 0 then 0 else DigitsValue(s[..|s| - 1]) * 10 + (s[|s| - 1] as int - '0' as int)
  }

  /** The digits read back give the count again. */
  lemma {:induction false} NatToStringRoundTrip(n: nat)
    ensures DigitsValue(NatToString(n)) == n
    decreases n
  {
    if n >= 10 {
      NatToStringRoundTrip(n / 10);
      var s := NatToString(n);
      assert s[..|s| - 1] == NatToString(n / 10);
    }
  }
}
