// The special (non-filtering) properties a session is created with, and the two walkers over
// the configuration list that collect them.
module Special {
  import opened Config
  import opened PropNames
  import opened VplTypes

  // Each "is set" flag with its value is one Option; bIsSet_ExtBuffer is extBuffers != [].
  datatype SpecialConfig = SpecialConfig(
    deviceHandleType: Option<u32>,
    deviceHandle: Option<Data>,
    accelerationMode: Option<u32>,
    apiVersion: Option<Version>,
    dxgiAdapterIdx: Option<u32>,
    numThread: Option<u32>,
    deviceCopy: Option<u16>,
    extBuffers: seq<Data>)

  const NO_SPECIAL := SpecialConfig(None, None, None, None, None, None, None, [])

  // ---- the last configuration that sets a property ------------------------------------------

  function Last(cs: seq<Config>, i: int): (r: Option<Data>)
    ensures r.Some? <==> exists k | 0 <= k < |cs| :: IsSet(cs[k], i)
  {
    if cs == [] then None
    else if IsSet(cs[|cs| - 1], i) then Some(cs[|cs| - 1][i].data)
    else
      var r := Last(cs[..|cs| - 1], i);
      assert forall k | 0 <= k < |cs| :: IsSet(cs[k], i) ==> k < |cs| - 1 && cs[k] == cs[..|cs| - 1][k];
      r
  }

  // Last really is the last: it is the data of a configuration none after which sets i.
  lemma {:induction false} LastIsLast(cs: seq<Config>, k: nat, i: int)
    requires k < |cs| && IsSet(cs[k], i)
    requires forall j | k < j < |cs| :: !IsSet(cs[j], i)
    ensures Last(cs, i) == Some(cs[k][i].data)
  {
    if k < |cs| - 1 {
      assert !IsSet(cs[|cs| - 1], i);
      LastIsLast(cs[..|cs| - 1], k, i);
    }
  }

  lemma LastAppend(cs: seq<Config>, c: Config, i: int)
    ensures Last(cs + [c], i) == if IsSet(c, i) then Some(c[i].data) else Last(cs, i)
  {
    assert (cs + [c])[..|cs|] == cs;
  }

  function WrittenU32(old_: Option<u32>, cs: seq<Config>, i: int): Option<u32> {
    if Last(cs, i).Some? then Some(Last(cs, i).value.U32()) else old_
  }

  // Extension buffers in configuration order, one per configuration that sets one.
  function ExtBuffers(cs: seq<Config>): seq<Data> {
    if cs == [] then [] else
      ExtBuffers(cs[..|cs| - 1])
      + (if IsSet(cs[|cs| - 1], SPECIAL_EXT_BUFFER) then [cs[|cs| - 1][SPECIAL_EXT_BUFFER].data] else [])
  }

  // Every field but the API version: the last writer's value, or what was there before.
  function Overlay(sp: SpecialConfig, cs: seq<Config>): SpecialConfig {
    SpecialConfig(
      WrittenU32(sp.deviceHandleType, cs, SPECIAL_HANDLE_TYPE),
      if Last(cs, SPECIAL_HANDLE).Some? then Last(cs, SPECIAL_HANDLE) else sp.deviceHandle,
      WrittenU32(sp.accelerationMode, cs, MAIN_ACCELERATION_MODE),
      sp.apiVersion,
      WrittenU32(sp.dxgiAdapterIdx, cs, SPECIAL_DXGI_ADAPTER_INDEX),
      WrittenU32(sp.numThread, cs, SPECIAL_NUM_THREAD),
      if Last(cs, SPECIAL_DEVICE_COPY).Some? then Some(Last(cs, SPECIAL_DEVICE_COPY).value.U16()) else sp.deviceCopy,
      ExtBuffers(cs))
  }

  // One more configuration overlays each field it sets.
  lemma OverlayAppend(sp: SpecialConfig, cs: seq<Config>, c: Config)
    ensures Overlay(sp, cs + [c]) == OverlayWith(Overlay(sp, cs), c)
  {
    LastAppend(cs, c, SPECIAL_HANDLE_TYPE);
    LastAppend(cs, c, SPECIAL_HANDLE);
    LastAppend(cs, c, MAIN_ACCELERATION_MODE);
    LastAppend(cs, c, SPECIAL_DXGI_ADAPTER_INDEX);
    LastAppend(cs, c, SPECIAL_NUM_THREAD);
    LastAppend(cs, c, SPECIAL_DEVICE_COPY);
    assert (cs + [c])[..|cs|] == cs;
  }

  function OverlayWith(sp: SpecialConfig, c: Config): SpecialConfig {
    SpecialConfig(
      if IsSet(c, SPECIAL_HANDLE_TYPE) then Some(c[SPECIAL_HANDLE_TYPE].data.U32()) else sp.deviceHandleType,
      if IsSet(c, SPECIAL_HANDLE) then Some(c[SPECIAL_HANDLE].data) else sp.deviceHandle,
      if IsSet(c, MAIN_ACCELERATION_MODE) then Some(c[MAIN_ACCELERATION_MODE].data.U32()) else sp.accelerationMode,
      sp.apiVersion,
      if IsSet(c, SPECIAL_DXGI_ADAPTER_INDEX)
      then Some(c[SPECIAL_DXGI_ADAPTER_INDEX].data.U32()) else sp.dxgiAdapterIdx,
      if IsSet(c, SPECIAL_NUM_THREAD) then Some(c[SPECIAL_NUM_THREAD].data.U32()) else sp.numThread,
      if IsSet(c, SPECIAL_DEVICE_COPY) then Some(c[SPECIAL_DEVICE_COPY].data.U16()) else sp.deviceCopy,
      sp.extBuffers + (if IsSet(c, SPECIAL_EXT_BUFFER) then [c[SPECIAL_EXT_BUFFER].data] else []))
  }

  lemma OverlayIdempotent(sp: SpecialConfig, cs: seq<Config>)
    ensures Overlay(Overlay(sp, cs), cs) == Overlay(sp, cs)
  {}

  // ---- API version: either one number, or halves that may sit in different objects --------------

  function MajorIn(c: Config): Option<u16> {
    if IsSet(c, MAIN_API_VERSION) then Some(VersionOf(c[MAIN_API_VERSION].data.U32()).major)
    else if IsSet(c, MAIN_API_VERSION_MAJOR) then Some(c[MAIN_API_VERSION_MAJOR].data.U16())
    else None
  }

  function MinorIn(c: Config): Option<u16> {
    if IsSet(c, MAIN_API_VERSION) then Some(VersionOf(c[MAIN_API_VERSION].data.U32()).minor)
    else if IsSet(c, MAIN_API_VERSION_MINOR) then Some(c[MAIN_API_VERSION_MINOR].data.U16())
    else None
  }

  function LastMajor(cs: seq<Config>): Option<u16> {
    if cs == [] then None
    else if MajorIn(cs[|cs| - 1]).Some? then MajorIn(cs[|cs| - 1])
    else LastMajor(cs[..|cs| - 1])
  }

  function LastMinor(cs: seq<Config>): Option<u16> {
    if cs == [] then None
    else if MinorIn(cs[|cs| - 1]).Some? then MinorIn(cs[|cs| - 1])
    else LastMinor(cs[..|cs| - 1])
  }

  // The version asked for, known once both halves have been written.
  function RequestedVersion(cs: seq<Config>): Option<Version> {
    if LastMajor(cs).Some? && LastMinor(cs).Some?
    then Some(Version(LastMajor(cs).value, LastMinor(cs).value)) else None
  }

  // ---- what each walker leaves behind -------------------------------------------------------------

  // ValidateConfig, run for one implementation whose description is not null.
  function AfterValidate(sp: SpecialConfig, cs: seq<Config>): SpecialConfig {
    var v := RequestedVersion(cs);
    Overlay(sp, cs).(apiVersion := if v.Some? then v else sp.apiVersion)
  }

  // CheckLowLatencyConfig, which only looks at the single-number form of the version.
  function AfterLowLatencyCheck(sp: SpecialConfig, cs: seq<Config>): SpecialConfig {
    var v := Last(cs, MAIN_API_VERSION);
    Overlay(sp, cs).(apiVersion := if v.Some? then Some(VersionOf(v.value.U32())) else sp.apiVersion)
  }

  function ValidateTimes(sp: SpecialConfig, cs: seq<Config>, n: nat): SpecialConfig {
    if n == 0 then sp else AfterValidate(ValidateTimes(sp, cs, n - 1), cs)
  }

  predicate NoHalfVersions(cs: seq<Config>) {
    forall k | 0 <= k < |cs| :: !IsSet(cs[k], MAIN_API_VERSION_MAJOR) && !IsSet(cs[k], MAIN_API_VERSION_MINOR)
  }

  lemma {:induction false} WholeVersionOnly(cs: seq<Config>)
    requires NoHalfVersions(cs)
    ensures var v := Last(cs, MAIN_API_VERSION);
            RequestedVersion(cs) == if v.Some? then Some(VersionOf(v.value.U32())) else None
  {
    if cs != [] {
      var init, last := cs[..|cs| - 1], cs[|cs| - 1];
      assert !IsSet(last, MAIN_API_VERSION_MAJOR) && !IsSet(last, MAIN_API_VERSION_MINOR);
      WholeVersionOnly(init);
      if IsSet(last, MAIN_API_VERSION) {
        assert Last(cs, MAIN_API_VERSION) == Some(last[MAIN_API_VERSION].data);
      }
    }
  }

  // From the same start, validating any positive number of implementations and checking for low
  // latency once leave the same special configuration, except for the API version; that agrees
  // too whenever no configuration uses the Major or Minor form.
  lemma {:induction false} WalkersAgree(sp: SpecialConfig, cs: seq<Config>, n: nat)
    requires n > 0
    ensures var v, l := ValidateTimes(sp, cs, n), AfterLowLatencyCheck(sp, cs);
            v.(apiVersion := l.apiVersion) == l && (NoHalfVersions(cs) ==> v == l)
    ensures ValidateTimes(sp, cs, n) == AfterValidate(sp, cs)
  {
    assert ValidateTimes(sp, cs, 1) == AfterValidate(ValidateTimes(sp, cs, 0), cs);
    if n > 1 { WalkersAgree(sp, cs, n - 1); }
    if NoHalfVersions(cs) { WholeVersionOnly(cs); }
  }

  // ---- CheckLowLatencyConfig ------------------------------------------------------------------------

  // Properties that may be set without ruling low latency out.
  predicate AllowedInLowLatency(i: int) {
    || i == MAIN_IMPL || i == MAIN_IMPL_NAME || i == MAIN_VENDOR_ID || i == MAIN_ACCELERATION_MODE
    || i == MAIN_API_VERSION
    || i == SPECIAL_HANDLE_TYPE || i == SPECIAL_HANDLE || i == SPECIAL_NUM_THREAD || i == SPECIAL_DEVICE_COPY
    || i == SPECIAL_EXT_BUFFER || i == SPECIAL_DXGI_ADAPTER_INDEX
  }

  predicate LastIsNumber(cs: seq<Config>, i: int, n: u32) {
    Last(cs, i).Some? && Last(cs, i).value.U32() == n
  }

  // The four required settings hold and nothing outside the allowed set is set anywhere.
  ghost predicate LowLatency(cs: seq<Config>) {
    && LastIsNumber(cs, MAIN_IMPL, IMPL_TYPE_HARDWARE)
    && Last(cs, MAIN_IMPL_NAME) == Some(Text("mfx-gen"))
    && LastIsNumber(cs, MAIN_VENDOR_ID, VENDOR_INTEL)
    && Last(cs, MAIN_ACCELERATION_MODE).Some?
    && forall k, i | 0 <= k < |cs| && IsSet(cs[k], i) :: AllowedInLowLatency(i)
  }

  // The overlaid slot array after walking a list of configurations.
  ghost predicate Overlaid(all: seq<Slot>, cs: seq<Config>) {
    && |all| == TOTAL_PROPS
    && forall i | 0 <= i < TOTAL_PROPS ::
         && (all[i].Set() <==> Last(cs, i).Some?)
         && (all[i].Set() ==> all[i].typ == TypeOf(i) && all[i].data == Last(cs, i).value && DataFits(i, all[i].data))
  }

  method OverlayOne(all: seq<Slot>, buffers: seq<Data>, c: Config, ghost before: seq<Config>)
    returns (all': seq<Slot>, buffers': seq<Data>)
    requires Overlaid(all, before) && buffers == ExtBuffers(before)
    ensures Overlaid(all', before + [c]) && buffers' == ExtBuffers(before + [c])
  {
    all', buffers' := all, buffers;
    for i := 0 to TOTAL_PROPS
      invariant |all'| == TOTAL_PROPS
      invariant forall j | 0 <= j < TOTAL_PROPS :: all'[j] == if j < i && IsSet(c, j) then c[j] else all[j]
      invariant buffers' == buffers + (if i > SPECIAL_EXT_BUFFER && IsSet(c, SPECIAL_EXT_BUFFER)
                                       then [c[SPECIAL_EXT_BUFFER].data] else [])
    {
      if c[i].typ == TypeUnset { continue; }
      all' := all'[i := c[i]];
      if i == SPECIAL_EXT_BUFFER { buffers' := buffers' + [c[i].data]; }
    }
    assert (before + [c])[..|before|] == before;
    forall i | 0 <= i < TOTAL_PROPS
      ensures Last(before + [c], i) == if IsSet(c, i) then Some(c[i].data) else Last(before, i)
    {}
  }

  // One pass of the second loop, over slot idx.
  function SpecialOf(sp: SpecialConfig, i: int, s: Slot): SpecialConfig {
    if !s.Set() then sp
    else if i == MAIN_ACCELERATION_MODE then sp.(accelerationMode := Some(s.data.U32()))
    else if i == MAIN_API_VERSION then sp.(apiVersion := Some(VersionOf(s.data.U32())))
    else if i == SPECIAL_HANDLE_TYPE then sp.(deviceHandleType := Some(s.data.U32()))
    else if i == SPECIAL_HANDLE then sp.(deviceHandle := Some(s.data))
    else if i == SPECIAL_NUM_THREAD then sp.(numThread := Some(s.data.U32()))
    else if i == SPECIAL_DEVICE_COPY then sp.(deviceCopy := Some(s.data.U16()))
    else if i == SPECIAL_DXGI_ADAPTER_INDEX then sp.(dxgiAdapterIdx := Some(s.data.U32()))
    else sp
  }

  // Whether slot i, as overlaid, keeps low latency possible.
  predicate KeepsLowLatency(i: int, s: Slot) {
    if i == MAIN_IMPL then s.typ == TypeU32 && s.data.U32() == IMPL_TYPE_HARDWARE
    else if i == MAIN_IMPL_NAME then s.typ == TypePtr && s.data == Text("mfx-gen")
    else if i == MAIN_VENDOR_ID then s.typ == TypeU32 && s.data.U32() == VENDOR_INTEL
    else if i == MAIN_ACCELERATION_MODE then s.typ == TypeU32
    else if AllowedInLowLatency(i) then true
    else s.typ == TypeUnset
  }

  method CheckLowLatencyConfig(cs: seq<Config>, sp: SpecialConfig) returns (lowLatency: bool, sp': SpecialConfig)
    ensures lowLatency <==> LowLatency(cs)
    ensures sp' == AfterLowLatencyCheck(sp, cs)
  {
    hide KeepsLowLatency, SpecialOf;
    var all := seq(TOTAL_PROPS, i => Slot(TypeUnset, Num(0)));
    var buffers := [];
    for k := 0 to |cs|
      invariant Overlaid(all, cs[..k]) && buffers == ExtBuffers(cs[..k])
    {
      all, buffers := OverlayOne(all, buffers, cs[k], cs[..k]);
      assert cs[..k] + [cs[k]] == cs[..k + 1];
    }
    assert cs[..|cs|] == cs;
    lowLatency, sp' := true, sp.(extBuffers := buffers);
    for i := 0 to TOTAL_PROPS
      invariant lowLatency <==> forall j | 0 <= j < i :: KeepsLowLatency(j, all[j])
      invariant sp' == OverlayUpTo(sp.(extBuffers := buffers), all, i)
    {
      if !KeepsLowLatency(i, all[i]) { lowLatency := false; }
      sp' := SpecialOf(sp', i, all[i]);
    }
    OverlayUpToAll(sp.(extBuffers := buffers), all);
    LowLatencyMeans(all, cs);
  }

  ghost function OverlayUpTo(sp: SpecialConfig, all: seq<Slot>, n: nat): SpecialConfig
    requires n <= |all|
  {
    if n == 0 then sp else SpecialOf(OverlayUpTo(sp, all, n - 1), n - 1, all[n - 1])
  }

  // The number in slot i, if that slot is set and below n.
  function NumberBelow(all: seq<Slot>, n: nat, i: nat, old_: Option<u32>): Option<u32>
    requires i < |all|
  {
    if i < n && all[i].Set() then Some(all[i].data.U32()) else old_
  }

  // Each field is touched at one index only.
  lemma {:induction false} OverlayUpToIs(sp: SpecialConfig, all: seq<Slot>, n: nat)
    requires n <= |all| == TOTAL_PROPS
    ensures OverlayUpTo(sp, all, n) == SpecialConfig(
              NumberBelow(all, n, SPECIAL_HANDLE_TYPE, sp.deviceHandleType),
              if n > SPECIAL_HANDLE && all[SPECIAL_HANDLE].Set()
              then Some(all[SPECIAL_HANDLE].data) else sp.deviceHandle,
              NumberBelow(all, n, MAIN_ACCELERATION_MODE, sp.accelerationMode),
              if n > MAIN_API_VERSION && all[MAIN_API_VERSION].Set()
              then Some(VersionOf(all[MAIN_API_VERSION].data.U32())) else sp.apiVersion,
              NumberBelow(all, n, SPECIAL_DXGI_ADAPTER_INDEX, sp.dxgiAdapterIdx),
              NumberBelow(all, n, SPECIAL_NUM_THREAD, sp.numThread),
              if n > SPECIAL_DEVICE_COPY && all[SPECIAL_DEVICE_COPY].Set()
              then Some(all[SPECIAL_DEVICE_COPY].data.U16()) else sp.deviceCopy,
              sp.extBuffers)
  {
    if n > 0 { OverlayUpToIs(sp, all, n - 1); }
  }

  lemma OverlayUpToAll(sp: SpecialConfig, all: seq<Slot>)
    requires |all| == TOTAL_PROPS
    ensures var r := OverlayUpTo(sp, all, TOTAL_PROPS);
            forall cs | Overlaid(all, cs) :: r == AfterLowLatencyCheck(sp, cs).(extBuffers := sp.extBuffers)
  {
    OverlayUpToIs(sp, all, TOTAL_PROPS);
  }

  lemma LowLatencyMeans(all: seq<Slot>, cs: seq<Config>)
    requires Overlaid(all, cs)
    ensures (forall j | 0 <= j < TOTAL_PROPS :: KeepsLowLatency(j, all[j])) <==> LowLatency(cs)
  {
    if LowLatency(cs) {
      forall j | 0 <= j < TOTAL_PROPS ensures KeepsLowLatency(j, all[j]) {
        if all[j].Set() {
          var k :| 0 <= k < |cs| && IsSet(cs[k], j);
        }
      }
    }
    if forall j | 0 <= j < TOTAL_PROPS :: KeepsLowLatency(j, all[j]) {
      assert KeepsLowLatency(MAIN_IMPL, all[MAIN_IMPL]);
      assert KeepsLowLatency(MAIN_IMPL_NAME, all[MAIN_IMPL_NAME]);
      assert KeepsLowLatency(MAIN_VENDOR_ID, all[MAIN_VENDOR_ID]);
      assert KeepsLowLatency(MAIN_ACCELERATION_MODE, all[MAIN_ACCELERATION_MODE]);
      forall k, i | 0 <= k < |cs| && IsSet(cs[k], i) ensures AllowedInLowLatency(i) {
        assert Last(cs, i).Some?;
        assert KeepsLowLatency(i, all[i]);
      }
    }
  }
}
