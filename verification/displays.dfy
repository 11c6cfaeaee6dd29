/** DisplayHelper without its Win32 calls: the identity gamma ramp, ramp comparison, and
    how the default profile path is assembled from what the colour system returns. */
module Displays {
  import opened Results
  import opened BigEndian

  /** A gamma ramp: three channels of 16-bit levels, 256 of them when filled by Windows. */
  datatype GammaRamp = GammaRamp(red: seq<uint16>, green: seq<uint16>, blue: seq<uint16>)

  const RampLength: nat := 256

  /** Reference identity channel: level i maps to i * 257, spreading 0..255 over 0..65535. */
  function IdentityChannel(): (c: seq<uint16>)
    ensures |c| == RampLength
  {
    seq(RampLength, i requires 0 <= i < RampLength => i * 257)
  }

  function IdentityRamp(): GammaRamp {
    GammaRamp(IdentityChannel(), IdentityChannel(), IdentityChannel())
  }

  /** GetEmptyGammaRamp: three new arrays filled by one loop with (ushort)(i * 257). */
  method GetEmptyGammaRamp() returns (ramp: GammaRamp)
    ensures |ramp.red| == |ramp.green| == |ramp.blue| == RampLength
    ensures forall i :: 0 <= i < RampLength ==>
      ramp.red[i] == i * 257 && ramp.green[i] == i * 257 && ramp.blue[i] == i * 257
  {
    var red := new uint16[RampLength];
    var green := new uint16[RampLength];
    var blue := new uint16[RampLength];
    var i := 0;
    while i < RampLength
      invariant 0 <= i <= RampLength
      invariant forall k :: 0 <= k < i ==> red[k] == k * 257 && green[k] == k * 257 && blue[k] == k * 257
    {
      var level := (i * 257) % 0x1_0000;
      red[i] := level;
      green[i] := level;
      blue[i] := level;
      i := i + 1;
    }
    ramp := GammaRamp(red[..], green[..], blue[..]);
  }

  /** The loop builds exactly the reference identity ramp. */
  method EmptyRampIsIdentity() returns (ramp: GammaRamp)
    ensures ramp == IdentityRamp()
  {
    ramp := GetEmptyGammaRamp();
    assert ramp.red == IdentityChannel();
    assert ramp.green == IdentityChannel();
    assert ramp.blue == IdentityChannel();
  }

  /** The identity channel starts at 0, ends at 65535 and rises strictly: the 16-bit cast
      never wraps. */
  lemma IdentityChannelShape()
    ensures IdentityChannel()[0] == 0 && IdentityChannel()[RampLength - 1] == 0xFFFF
    ensures forall i, j :: 0 <= i < j < RampLength ==> IdentityChannel()[i] < IdentityChannel()[j]
  {
  }

  /** Span.SequenceEqual over two ushort arrays: same length, then element by element. */
  function SequenceEqual(a: seq<uint16>, b: seq<uint16>): (r: bool)
    ensures r <==> a == b
  {
    if |a| != |b| then false else ElementsEqual(a, b, 0)
  }

  /** The element loop of SequenceEqual from index `from` on. */
  function ElementsEqual(a: seq<uint16>, b: seq<uint16>, from: nat): (r: bool)
    requires |a| == |b| && from <= |a|
    ensures r <==> a[from..] == b[from..]
    decreases |a| - from
  {
    if from == |a| then true
    else if a[from] != b[from] then false
    else
      var rest := ElementsEqual(a, b, from + 1);
      assert a[from..] == [a[from]] + a[from + 1..];
      assert b[from..] == [b[from]] + b[from + 1..];
      rest
  }

  /** AreGammaRampsEqual: red, then green, then blue, each compared as a sequence. */
  function AreGammaRampsEqual(first: GammaRamp, second: GammaRamp): (r: bool)
    ensures r <==> first.red == second.red && first.green == second.green && first.blue == second.blue
    ensures r <==> first == second
  {
    SequenceEqual(first.red, second.red)
      && SequenceEqual(first.green, second.green)
      && SequenceEqual(first.blue, second.blue)
  }

  /** Equality is reflexive and symmetric. */
  lemma RampEqualityIsSymmetric(a: GammaRamp, b: GammaRamp)
    ensures AreGammaRampsEqual(a, a)
    ensures AreGammaRampsEqual(a, b) == AreGammaRampsEqual(b, a)
  {
  }

  /** Changing one level of one channel makes a ramp differ from the original. */
  lemma SingleChangeDiffers(a: GammaRamp, channel: nat, i: nat, level: uint16)
    requires channel < 3
    requires channel == 0 ==> i < |a.red| && a.red[i] != level
    requires channel == 1 ==> i < |a.green| && a.green[i] != level
    requires channel == 2 ==> i < |a.blue| && a.blue[i] != level
    ensures channel == 0 ==> !AreGammaRampsEqual(a, a.(red := a.red[i := level]))
    ensures channel == 1 ==> !AreGammaRampsEqual(a, a.(green := a.green[i := level]))
    ensures channel == 2 ==> !AreGammaRampsEqual(a, a.(blue := a.blue[i := level]))
  {
    if channel == 0 {
      assert a.red[i := level][i] != a.red[i];
    } else if channel == 1 {
      assert a.green[i := level][i] != a.green[i];
    } else {
      assert a.blue[i := level][i] != a.blue[i];
    }
  }

  // ---------------------------------------------------------------- profile path

  /** The colour directory, with its trailing backslash. */
  const ColorProfilePath: string := "C:\\Windows\\system32\\spool\\drivers\\color\\"

  /** string.IndexOf(char): the first index holding `c`, or -1. */
  function IndexOf(s: string, c: char): (r: int)
    ensures -1 <= r < |s|
    ensures r >= 0 ==> s[r] == c && forall k :: 0 <= k < r ==> s[k] != c
    ensures r == -1 <==> forall k :: 0 <= k < |s| ==> s[k] != c
    decreases |s|
  {
    if |s| == 0 then -1
    else if s[0] == c then 0
    else
      var rest := IndexOf(s[1..], c);
      assert forall k :: 1 <= k < |s| ==> s[k] == s[1..][k - 1];
      if rest == -1 then -1 else rest + 1
  }

  /** The file name inside the returned buffer: everything before the first NUL, or
      nothing at all when there is no NUL (Math.Max(0, -1)). */
  function NameBeforeNul(buffer: string): (name: string)
    ensures name <= buffer
    ensures forall k :: 0 <= k < |name| ==> name[k] != '\0'
    ensures (exists k :: 0 <= k < |buffer| && buffer[k] == '\0') ==> |name| < |buffer| && buffer[|name|] == '\0'
    ensures (forall k :: 0 <= k < |buffer| ==> buffer[k] != '\0') ==> name == []
  {
    var at := IndexOf(buffer, '\0');
    buffer[..if at < 0 then 0 else at]
  }

  /** Which profile store WcsGetDefaultColorProfile is asked about. */
  datatype Scope = SystemWide | CurrentUser

  /** What WcsGetUsePerUserProfiles reports: whether it succeeded, and its out flag. */
  datatype PerUserAnswer = PerUserAnswer(succeeded: bool, perUser: bool)

  /** GetDefaultColorProfilePath. `perUser` stands for WcsGetUsePerUserProfiles and
      `defaultProfile` for WcsGetDefaultColorProfile: None when it returns false, else the
      whole character buffer it filled, as `new string(buffer)` sees it. */
  function GetDefaultColorProfilePath(deviceKey: string, perUser: string -> PerUserAnswer,
                                      defaultProfile: (Scope, string) -> Option<string>): (path: Option<string>)
    ensures path.None? <==> defaultProfile(ProfileScope(perUser(deviceKey)), deviceKey).None?
    ensures path.Some? ==>
      path.value == ColorProfilePath + "\\" + NameBeforeNul(defaultProfile(ProfileScope(perUser(deviceKey)), deviceKey).value)
  {
    var scope := ProfileScope(perUser(deviceKey));
    match defaultProfile(scope, deviceKey)
    case None => None
    case Some(buffer) => Some(ColorProfilePath + "\\" + NameBeforeNul(buffer))
  }

  /** The per-user store is used only when the query succeeded and said so. */
  function ProfileScope(answer: PerUserAnswer): (scope: Scope)
    ensures scope == CurrentUser <==> answer.succeeded && answer.perUser
  {
    if answer.succeeded && answer.perUser then CurrentUser else SystemWide
  }

  /** The assembled path is the colour directory, a second backslash, then the name; the
      directory already ends in one, so the separator comes out doubled. */
  lemma ProfilePathLayout(buffer: string)
    ensures var path := ColorProfilePath + "\\" + NameBeforeNul(buffer);
      path[..|ColorProfilePath|] == ColorProfilePath
      && path[|ColorProfilePath| - 1] == '\\' && path[|ColorProfilePath|] == '\\'
      && path[|ColorProfilePath| + 1..] == NameBeforeNul(buffer)
      && forall k :: |ColorProfilePath| < k < |path| ==> path[k] != '\0'
  {
    var path := ColorProfilePath + "\\" + NameBeforeNul(buffer);
    assert path[|ColorProfilePath| + 1..] == NameBeforeNul(buffer);
  }

  /** A buffer with no NUL at all gives the directory and the separator, with no name. */
  lemma NoNulGivesNoName(buffer: string)
    requires forall k :: 0 <= k < |buffer| ==> buffer[k] != '\0'
    ensures ColorProfilePath + "\\" + NameBeforeNul(buffer) == ColorProfilePath + "\\"
  {
  }
}
