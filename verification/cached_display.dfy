/** The records the gamma ramp cache keeps: a display as enumerated, a display as cached,
    and a profile's ramp cached under its path. */
module CachedDisplays {
  import opened Results
  import opened BigEndian
  import opened Displays

  /** DisplayInfo as GetDisplays fills it. */
  datatype DisplayInfo = DisplayInfo(id: uint32, deviceName: string, displayName: string, deviceId: string, deviceKey: string)

  /** CachedProfile: the profile path and the ramp taken from it, null when the profile has none.
      Nothing changes either field once the cache has built the record, so the cache can share
      it by value. */
  datatype CachedProfile = CachedProfile(profilePath: string, gammaRamp: Option<GammaRamp>)

  /** CachedDisplay: three names, and the linked profile if any. */
  datatype CachedDisplay = CachedDisplay(displayName: string, deviceName: string, deviceKey: string, profile: Option<CachedProfile>)

  /** A CachedDisplay as constructed: empty names, no profile. */
  function NewCachedDisplay(): (d: CachedDisplay)
    ensures d.displayName == "" && d.deviceName == "" && d.deviceKey == "" && d.profile.None?
  {
    CachedDisplay("", "", "", None)
  }

  /** Shown in place of a file name when no profile is linked. */
  const NoProfileName: string := "[no color profile]"

  /** ProfileName; `getFileName` stands for Path.GetFileName. */
  function ProfileName(d: CachedDisplay, getFileName: string -> string): (name: string)
    ensures d.profile.None? ==> name == NoProfileName
    ensures d.profile.Some? ==> name == getFileName(d.profile.value.profilePath)
  {
    match d.profile
    case None => NoProfileName
    case Some(p) => getFileName(p.profilePath)
  }

  /** The path of the linked profile, null when none is linked: `Profile?.ProfilePath`. */
  function LinkedPath(d: CachedDisplay): (path: Option<string>)
    ensures path.None? <==> d.profile.None?
    ensures path.Some? ==> path.value == d.profile.value.profilePath
  {
    match d.profile
    case None => None
    case Some(p) => Some(p.profilePath)
  }

  /** ToString: the display name, a colon and a space, then the profile name. */
  function DisplayText(d: CachedDisplay, getFileName: string -> string): (text: string)
    ensures |text| == |d.displayName| + 2 + |ProfileName(d, getFileName)|
    ensures text[..|d.displayName|] == d.displayName
    ensures text[|d.displayName|..|d.displayName| + 2] == ": "
    ensures text[|d.displayName| + 2..] == ProfileName(d, getFileName)
  {
    d.displayName + ": " + ProfileName(d, getFileName)
  }

  /** A display with no profile reads "<name>: [no color profile]". */
  lemma UnlinkedDisplayText(d: CachedDisplay, getFileName: string -> string)
    requires d.profile.None?
    ensures DisplayText(d, getFileName) == d.displayName + ": [no color profile]"
  {
  }
}
