/** GammaRampCache's writes to the display hardware: for every cached display, open a
    device context, let the update or reset action decide what to write, and release the
    context. The GDI calls are parameters; what the cache asks of them is returned as a
    call trace. */
module RampWrites {
  import opened Results
  import opened Displays
  import opened CachedDisplays
  import opened RampCache

  /** What CreateDC gives for a device name: a handle (zero when it failed) or an exception. */
  datatype Context = Handle(handle: int) | CreateThrew

  /** The GDI side. `readRamp` stands for GetDeviceGammaRamp (None when it returns false),
      `setThrows` says whether SetDeviceGammaRamp throws for that context and ramp. */
  datatype Hardware = Hardware(
    createContext: string -> Context,
    readRamp: int -> Option<GammaRamp>,
    setThrows: (int, GammaRamp) -> bool)

  /** A call the cache makes on an open device context. */
  datatype Call = SetRamp(handle: int, ramp: GammaRamp) | Release(handle: int)

  /** Which per-display action ModifyGammaRamps is given. */
  datatype Action = UpdateAction | ResetAction

  /** The calls made, and whether every display was gone through without an exception. */
  datatype Applied = Applied(calls: seq<Call>, completed: bool)

  /** The ramp a display should carry: its profile's ramp, or identity when no profile is
      linked or the linked one has no ramp. */
  function TargetRamp(d: CachedDisplay): GammaRamp {
    match d.profile
    case Some(CachedProfile(_, Some(ramp))) => ramp
    case _ => IdentityRamp()
  }

  /** UpdateGammaRampForDisplay: the ramps handed to SetDeviceGammaRamp. Nothing when the
      current ramp cannot be read; otherwise the target, and only when it differs from what
      the hardware holds. */
  function UpdateGammaRampForDisplay(hw: Hardware, h: int, d: CachedDisplay): (writes: seq<GammaRamp>)
    ensures hw.readRamp(h).None? ==> writes == []
    ensures hw.readRamp(h).Some? ==> (writes == [TargetRamp(d)] <==> hw.readRamp(h).value != TargetRamp(d))
    ensures hw.readRamp(h).Some? ==> (writes == [] <==> hw.readRamp(h).value == TargetRamp(d))
  {
    match hw.readRamp(h)
    case None => []
    case Some(current) =>
      var profileRamp := if d.profile.Some? then d.profile.value.gammaRamp else None;
      match profileRamp
      case None =>
        if !AreGammaRampsEqual(current, IdentityRamp()) then ResetGammaRampForDisplay() else []
      case Some(ramp) =>
        if !AreGammaRampsEqual(current, ramp) then [ramp] else []
  }

  /** ResetGammaRampForDisplay: the identity ramp, whatever the hardware holds. */
  function ResetGammaRampForDisplay(): (writes: seq<GammaRamp>)
    ensures |writes| == 1 && writes[0] == IdentityRamp()
    ensures writes[0].red[0] == 0 && writes[0].red[RampLength - 1] == 0xFFFF
  {
    [IdentityRamp()]
  }

  function ActionWrites(action: Action, hw: Hardware, h: int, d: CachedDisplay): seq<GammaRamp> {
    match action
    case UpdateAction => UpdateGammaRampForDisplay(hw, h, d)
    case ResetAction => ResetGammaRampForDisplay()
  }

  /** The display is left out: its context is zero or could not be created. */
  predicate Skipped(hw: Hardware, d: CachedDisplay) {
    hw.createContext(d.deviceName) == CreateThrew || hw.createContext(d.deviceName) == Handle(0)
  }

  /** One display with an open context: the action's write, if any, then the release in
      `finally`. The flag says the write threw. */
  function Visit(action: Action, hw: Hardware, h: int, d: CachedDisplay): (r: (seq<Call>, bool))
    ensures ActionWrites(action, hw, h, d) == [] ==> r == ([Release(h)], false)
    ensures ActionWrites(action, hw, h, d) != [] ==> var ramp := ActionWrites(action, hw, h, d)[0];
      r == ([SetRamp(h, ramp), Release(h)], hw.setThrows(h, ramp))
  {
    var writes := ActionWrites(action, hw, h, d);
    if |writes| == 1 then ([SetRamp(h, writes[0]), Release(h)], hw.setThrows(h, writes[0]))
    else ([Release(h)], false)
  }

  /** ModifyGammaRamps over the cached displays in order. A skipped display adds nothing;
      an exception from the action ends the loop after its context is released. */
  function ModifyGammaRamps(ds: seq<CachedDisplay>, action: Action, hw: Hardware): (r: Applied)
    ensures |ds| == 0 ==> r == Applied([], true)
    ensures |r.calls| > 0 ==> r.calls[|r.calls| - 1].Release?
    decreases |ds|
  {
    if |ds| == 0 then Applied([], true)
    else if Skipped(hw, ds[0]) then ModifyGammaRamps(ds[1..], action, hw)
    else
      var h := hw.createContext(ds[0].deviceName).handle;
      var (calls, threw) := Visit(action, hw, h, ds[0]);
      if threw then Applied(calls, false)
      else
        var rest := ModifyGammaRamps(ds[1..], action, hw);
        Applied(calls + rest.calls, rest.completed)
  }

  /** UpdateGammaRamps: every cached display whose ramp can be read and differs from its
      target gets the target written, and every opened context is released. */
  function UpdateGammaRamps(c: Cache, hw: Hardware): (r: Applied)
    ensures |c.displays| == 0 ==> r == Applied([], true)
    ensures r.completed ==> Releases(r.calls) == Acquired(hw, c.displays)
    ensures r.completed ==> r.calls == UpdateCalls(hw, c.displays)
  {
    EveryAcquiredReleased(c.displays, UpdateAction, hw);
    UpdateWritesTargets(c.displays, hw);
    ModifyGammaRamps(c.displays, UpdateAction, hw)
  }

  /** ResetGammaRamps: every cached display set back to identity. */
  function ResetGammaRamps(c: Cache, hw: Hardware): (r: Applied)
    ensures |c.displays| == 0 ==> r == Applied([], true)
    ensures r.completed ==> r.calls == ResetCalls(Acquired(hw, c.displays))
  {
    ResetWritesIdentity(c.displays, hw);
    ModifyGammaRamps(c.displays, ResetAction, hw)
  }

  // ---------------------------------------------------------------- reference traces

  /** The handles opened, in display order. */
  function Acquired(hw: Hardware, ds: seq<CachedDisplay>): seq<int>
    decreases |ds|
  {
    if |ds| == 0 then []
    else if Skipped(hw, ds[0]) then Acquired(hw, ds[1..])
    else [hw.createContext(ds[0].deviceName).handle] + Acquired(hw, ds[1..])
  }

  /** The handles released, in call order. */
  function Releases(calls: seq<Call>): seq<int>
    decreases |calls|
  {
    if |calls| == 0 then []
    else if calls[0].Release? then [calls[0].handle] + Releases(calls[1..])
    else Releases(calls[1..])
  }

  lemma {:induction false} ReleasesAppend(a: seq<Call>, b: seq<Call>)
    ensures Releases(a + b) == Releases(a) + Releases(b)
    decreases |a|
  {
    if |a| > 0 {
      assert (a + b)[1..] == a[1..] + b;
      ReleasesAppend(a[1..], b);
    } else {
      assert a + b == b;
    }
  }

  /** Identity written to each handle, each followed by its release. */
  function ResetCalls(handles: seq<int>): seq<Call>
    decreases |handles|
  {
    if |handles| == 0 then []
    else [SetRamp(handles[0], IdentityRamp()), Release(handles[0])] + ResetCalls(handles[1..])
  }

  /** What an update should do to one opened context: write the display's target ramp when
      the current ramp can be read and differs from it, then release. */
  function UpdateCall(hw: Hardware, h: int, d: CachedDisplay): seq<Call> {
    if hw.readRamp(h).Some? && hw.readRamp(h).value != TargetRamp(d) then [SetRamp(h, TargetRamp(d)), Release(h)]
    else [Release(h)]
  }

  /** The update's calls over every display whose context opens, in display order. */
  function UpdateCalls(hw: Hardware, ds: seq<CachedDisplay>): seq<Call>
    decreases |ds|
  {
    if |ds| == 0 then []
    else if Skipped(hw, ds[0]) then UpdateCalls(hw, ds[1..])
    else UpdateCall(hw, hw.createContext(ds[0].deviceName).handle, ds[0]) + UpdateCalls(hw, ds[1..])
  }

  // ---------------------------------------------------------------- properties

  /** One visit releases its context once, and any write comes just before the release. */
  lemma VisitReleasesOnce(action: Action, hw: Hardware, h: int, d: CachedDisplay)
    ensures Releases(Visit(action, hw, h, d).0) == [h]
    ensures var calls := Visit(action, hw, h, d).0;
      forall i :: 0 <= i < |calls| && calls[i].SetRamp? ==> i == 0 && |calls| == 2 && calls[1] == Release(calls[i].handle)
  {
    var calls := Visit(action, hw, h, d).0;
    if ActionWrites(action, hw, h, d) == [] {
      assert calls[1..] == [];
    } else {
      assert calls[1..] == [Release(h)];
      assert calls[1..][1..] == [];
      assert Releases(calls[1..]) == [h];
    }
  }

  /** Every context opened is released, in the order opened: all of them when the loop
      completes, a leading run of them when a write throws. */
  lemma {:induction false} EveryAcquiredReleased(ds: seq<CachedDisplay>, action: Action, hw: Hardware)
    ensures Releases(ModifyGammaRamps(ds, action, hw).calls) <= Acquired(hw, ds)
    ensures ModifyGammaRamps(ds, action, hw).completed ==> Releases(ModifyGammaRamps(ds, action, hw).calls) == Acquired(hw, ds)
    decreases |ds|
  {
    if |ds| > 0 {
      EveryAcquiredReleased(ds[1..], action, hw);
      if !Skipped(hw, ds[0]) {
        var h := hw.createContext(ds[0].deviceName).handle;
        var (calls, threw) := Visit(action, hw, h, ds[0]);
        VisitReleasesOnce(action, hw, h, ds[0]);
        if !threw {
          ReleasesAppend(calls, ModifyGammaRamps(ds[1..], action, hw).calls);
        }
      }
    }
  }

  /** Every write in the trace is followed at once by the release of its context. */
  predicate WritesReleased(calls: seq<Call>) {
    forall i :: 0 <= i < |calls| && calls[i].SetRamp? ==> i + 1 < |calls| && calls[i + 1] == Release(calls[i].handle)
  }

  /** A write to a context is immediately followed by that context's release, also when
      the write throws. */
  lemma {:induction false} WriteThenRelease(ds: seq<CachedDisplay>, action: Action, hw: Hardware)
    ensures WritesReleased(ModifyGammaRamps(ds, action, hw).calls)
    decreases |ds|
  {
    if |ds| > 0 {
      WriteThenRelease(ds[1..], action, hw);
      if !Skipped(hw, ds[0]) {
        var h := hw.createContext(ds[0].deviceName).handle;
        var calls := Visit(action, hw, h, ds[0]).0;
        VisitReleasesOnce(action, hw, h, ds[0]);
        if !Visit(action, hw, h, ds[0]).1 {
          var rest := ModifyGammaRamps(ds[1..], action, hw).calls;
          var all := calls + rest;
          assert ModifyGammaRamps(ds, action, hw).calls == all;
          forall i | 0 <= i < |all| && all[i].SetRamp?
            ensures i + 1 < |all| && all[i + 1] == Release(all[i].handle)
          {
            if i >= |calls| {
              assert all[i] == rest[i - |calls|];
              assert all[i + 1] == rest[i + 1 - |calls|];
            } else {
              assert all[i] == calls[i] && all[i + 1] == calls[i + 1];
            }
          }
        }
      }
    }
  }

  /** A display whose context is zero or throws changes nothing: the loop over the other
      displays makes exactly the same calls. */
  lemma {:induction false} SkippedDisplayIgnored(ds: seq<CachedDisplay>, k: nat, action: Action, hw: Hardware)
    requires k < |ds| && Skipped(hw, ds[k])
    ensures ModifyGammaRamps(ds, action, hw) == ModifyGammaRamps(ds[..k] + ds[k + 1..], action, hw)
    decreases k
  {
    if k == 0 {
      assert ds[..0] + ds[1..] == ds[1..];
    } else {
      var without := ds[..k] + ds[k + 1..];
      assert without[0] == ds[0];
      assert without[1..] == ds[1..][..k - 1] + ds[1..][k..];
      SkippedDisplayIgnored(ds[1..], k - 1, action, hw);
    }
  }

  /** A loop that ends early ended on a write that threw, after releasing its context. */
  lemma {:induction false} AbortEndsOnThrow(ds: seq<CachedDisplay>, action: Action, hw: Hardware)
    requires !ModifyGammaRamps(ds, action, hw).completed
    ensures var calls := ModifyGammaRamps(ds, action, hw).calls;
      |calls| >= 2 && calls[|calls| - 2].SetRamp? && calls[|calls| - 1] == Release(calls[|calls| - 2].handle)
      && hw.setThrows(calls[|calls| - 2].handle, calls[|calls| - 2].ramp)
    decreases |ds|
  {
    if !Skipped(hw, ds[0]) {
      var h := hw.createContext(ds[0].deviceName).handle;
      var (calls, threw) := Visit(action, hw, h, ds[0]);
      if !threw {
        AbortEndsOnThrow(ds[1..], action, hw);
        var rest := ModifyGammaRamps(ds[1..], action, hw).calls;
        assert (calls + rest)[|calls + rest| - 2] == rest[|rest| - 2];
      }
    } else {
      AbortEndsOnThrow(ds[1..], action, hw);
    }
  }

  /** A reset that completes wrote identity to every opened context, one write each, and
      released each right after. */
  lemma {:induction false} ResetWritesIdentity(ds: seq<CachedDisplay>, hw: Hardware)
    ensures ModifyGammaRamps(ds, ResetAction, hw).completed ==>
      ModifyGammaRamps(ds, ResetAction, hw).calls == ResetCalls(Acquired(hw, ds))
    decreases |ds|
  {
    if |ds| > 0 {
      ResetWritesIdentity(ds[1..], hw);
    }
  }

  /** One update visit whose read succeeds: a display already at its target ramp gets only
      the release; any other gets its target, then the release. */
  lemma UpdateWritesOnlyDifferences(hw: Hardware, h: int, d: CachedDisplay)
    requires hw.readRamp(h).Some?
    ensures hw.readRamp(h).value == TargetRamp(d) ==> Visit(UpdateAction, hw, h, d) == ([Release(h)], false)
    ensures hw.readRamp(h).value != TargetRamp(d) ==>
      Visit(UpdateAction, hw, h, d) == ([SetRamp(h, TargetRamp(d)), Release(h)], hw.setThrows(h, TargetRamp(d)))
  {
  }

  /** An update that completes wrote each opened context's target ramp exactly when the
      current ramp could be read and differed from it, and released each context. */
  lemma {:induction false} UpdateWritesTargets(ds: seq<CachedDisplay>, hw: Hardware)
    ensures ModifyGammaRamps(ds, UpdateAction, hw).completed ==>
      ModifyGammaRamps(ds, UpdateAction, hw).calls == UpdateCalls(hw, ds)
    decreases |ds|
  {
    if |ds| > 0 {
      UpdateWritesTargets(ds[1..], hw);
      if !Skipped(hw, ds[0]) {
        var h := hw.createContext(ds[0].deviceName).handle;
        assert Visit(UpdateAction, hw, h, ds[0]).0 == UpdateCall(hw, h, ds[0]);
      }
    }
  }
}
