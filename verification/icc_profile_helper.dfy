/** IccProfileHelper: loading a profile from a path, and taking the video card gamma
    ramp out of a decoded profile. Opening and reading the file is a parameter. */
module IccProfileHelper {
  import opened Results
  import opened BigEndian
  import opened IccModels
  import opened IccParser
  import opened Displays

  /** char.IsWhiteSpace: the Unicode space separators, line and paragraph separators, and
      the control characters U+0009 to U+000D, U+0085. */
  predicate IsWhiteSpace(c: char) {
    c == ' ' || '\t' <= c <= '\r' || c == '\U{0085}' || c == '\U{00A0}' || c == '\U{1680}'
    || '\U{2000}' <= c <= '\U{200A}' || c == '\U{2028}' || c == '\U{2029}' || c == '\U{202F}'
    || c == '\U{205F}' || c == '\U{3000}'
  }

  /** string.IsNullOrWhiteSpace. */
  predicate IsNullOrWhiteSpace(s: Option<string>) {
    match s
    case None => true
    case Some(text) => forall k :: 0 <= k < |text| ==> IsWhiteSpace(text[k])
  }

  /** Why loading can fail: the file could not be opened or read, or its bytes do not decode. */
  datatype LoadError = FileUnreadable | InvalidProfile(reason: DecodeError)

  /** LoadIccProfileAsync. `readFile` stands for opening the file and draining it through the
      pipe: None when that throws, else all of its bytes. */
  function LoadIccProfile(fileName: Option<string>, readFile: string -> Option<Bytes>): (res: Result<Option<IccProfile>, LoadError>)
    ensures IsNullOrWhiteSpace(fileName) ==> res == Ok(None)
    ensures !IsNullOrWhiteSpace(fileName) && readFile(fileName.value).None? ==> res == Err(FileUnreadable)
    ensures !IsNullOrWhiteSpace(fileName) && readFile(fileName.value).Some? ==>
      match ParseProfile(readFile(fileName.value).value)
      case Ok(profile) => res == Ok(Some(profile))
      case Err(e) => res == Err(InvalidProfile(e))
  {
    if IsNullOrWhiteSpace(fileName) then Ok(None)
    else
      match readFile(fileName.value)
      case None => Err(FileUnreadable)
      case Some(bytes) =>
        match ParseProfile(bytes)
        case Ok(profile) => Ok(Some(profile))
        case Err(e) => Err(InvalidProfile(e))
  }

  /** A null, empty or blank path opens nothing: the answer is null whatever the file
      system would have said. */
  lemma BlankPathOpensNothing(fileName: Option<string>, files: string -> Option<Bytes>, otherFiles: string -> Option<Bytes>)
    requires IsNullOrWhiteSpace(fileName)
    ensures LoadIccProfile(fileName, files) == LoadIccProfile(fileName, otherFiles) == Ok(None)
  {
  }

  /** A path with one visible character is loaded: the result is a profile exactly when
      the file can be read and decodes. */
  lemma LoadedProfileIsParsed(fileName: string, readFile: string -> Option<Bytes>)
    requires exists k :: 0 <= k < |fileName| && !IsWhiteSpace(fileName[k])
    ensures LoadIccProfile(Some(fileName), readFile).Ok? <==>
      readFile(fileName).Some? && ParseProfile(readFile(fileName).value).Ok?
    ensures LoadIccProfile(Some(fileName), readFile).Ok? ==>
      LoadIccProfile(Some(fileName), readFile).value == Some(ParseProfile(readFile(fileName).value).value)
  {
  }

  /** Tag `i` is named "vcgt" and no tag before it is. */
  predicate IsFirstVcgt(tags: seq<IccProfileTag>, i: nat) {
    i < |tags| && TagNameIs(tags[i], "vcgt") && forall j :: 0 <= j < i ==> !TagNameIs(tags[j], "vcgt")
  }

  /** The tag holds a table and `ramp` carries its channels. */
  predicate TableRampIs(t: IccProfileTag, ramp: GammaRamp) {
    t.data.Some? && ramp == RampOf(t.data.value)
  }

  /** FirstOrDefault(t => t.TagName == "vcgt"): the first tag so named, in list order. */
  function FirstVcgtTag(tags: seq<IccProfileTag>): (r: Option<nat>)
    ensures r.Some? ==> IsFirstVcgt(tags, r.value)
    ensures r.None? ==> forall j :: 0 <= j < |tags| ==> !TagNameIs(tags[j], "vcgt")
    decreases |tags|
  {
    if |tags| == 0 then None
    else if TagNameIs(tags[0], "vcgt") then Some(0)
    else
      match FirstVcgtTag(tags[1..])
      case None => None
      case Some(i) => Some(i + 1)
  }

  /** GetVcgtGammaRampFromProfile: the channels of the first 'vcgt' tag's table, or null
      when there is no profile, no such tag, or that tag holds no table. */
  function GetVcgtGammaRampFromProfile(profile: Option<IccProfile>): (ramp: Option<GammaRamp>)
    ensures profile.None? ==> ramp.None?
    ensures ramp.Some? ==> exists i: nat :: IsFirstVcgt(profile.value.tags, i) && TableRampIs(profile.value.tags[i], ramp.value)
  {
    match profile
    case None => None
    case Some(p) =>
      match FirstVcgtTag(p.tags)
      case None => None
      case Some(i) =>
        match p.tags[i].data
        case None => None
        case Some(table) => Some(RampOf(table))
  }

  /** A ramp holding the table's three channels as they are. */
  function RampOf(table: VideoCardGammaTable): GammaRamp {
    GammaRamp(table.red, table.green, table.blue)
  }

  /** The first tag named "vcgt" decides: its table is the ramp, and when it has none the
      answer is null even if a later tag of that name has one. */
  lemma FirstVcgtDecides(p: IccProfile, i: nat)
    requires IsFirstVcgt(p.tags, i)
    ensures p.tags[i].data.None? ==> GetVcgtGammaRampFromProfile(Some(p)).None?
    ensures p.tags[i].data.Some? ==> GetVcgtGammaRampFromProfile(Some(p)) == Some(RampOf(p.tags[i].data.value))
  {
    FirstIsFound(p.tags, i);
  }

  lemma {:induction false} FirstIsFound(tags: seq<IccProfileTag>, i: nat)
    requires IsFirstVcgt(tags, i)
    ensures FirstVcgtTag(tags) == Some(i)
    decreases i
  {
    if i > 0 {
      assert !TagNameIs(tags[0], "vcgt");
      FirstIsFound(tags[1..], i - 1);
    }
  }

  /** Tags after the first "vcgt" one are never looked at. */
  lemma LaterTagsIgnored(p: IccProfile, i: nat, later: seq<IccProfileTag>)
    requires IsFirstVcgt(p.tags, i)
    ensures GetVcgtGammaRampFromProfile(Some(p)) == GetVcgtGammaRampFromProfile(Some(p.(tags := p.tags[..i + 1] + later)))
  {
    var q := p.(tags := p.tags[..i + 1] + later);
    assert q.tags[i] == p.tags[i];
    FirstVcgtDecides(p, i);
    FirstVcgtDecides(q, i);
  }

  /** The choice goes by the directory signature, not by what the payload holds: when no
      tag is signed 'vcgt', the answer is null whatever tables the tags carry. */
  lemma NameNotPayloadDecides(p: IccProfile)
    requires forall j :: 0 <= j < |p.tags| ==> p.tags[j].tag != VcgtSignature
    ensures GetVcgtGammaRampFromProfile(Some(p)).None?
  {
    forall j | 0 <= j < |p.tags|
      ensures !TagNameIs(p.tags[j], "vcgt")
    {
      VcgtName(p.tags[j]);
    }
  }

  /** A ramp taken from a decoded profile has 256 levels per channel. */
  lemma RampFromParsedProfile(stream: Bytes)
    ensures ParseProfile(stream).Ok? && GetVcgtGammaRampFromProfile(Some(ParseProfile(stream).value)).Some? ==>
      var ramp := GetVcgtGammaRampFromProfile(Some(ParseProfile(stream).value)).value;
      |ramp.red| == 256 && |ramp.green| == 256 && |ramp.blue| == 256
  {
    if ParseProfile(stream).Ok? && GetVcgtGammaRampFromProfile(Some(ParseProfile(stream).value)).Some? {
      var p := ParseProfile(stream).value;
      var i := FirstVcgtTag(p.tags).value;
      var t := p.tags[i];
      ParseProfileOk(stream);
      assert t in p.tags;
      VcgtPayloadWindow(stream, t);
    }
  }
}
