// Matching one implementation against the whole configuration list.
module Filters {
  import opened CapsTree
  import opened Config
  import opened DeviceId
  import opened PropNames
  import opened Special
  import opened Tokens
  import opened VplTypes

  // ---- what each property asks of an implementation ----------------------------------------------

  function TokenSet(s: string): set<string> { set t | t in Split(s, ',') }

  // Every comma-separated token of filt also occurs in impl.
  predicate TokensIncluded(filt: string, impl: string) { TokenSet(filt) <= TokenSet(impl) }

  predicate IsGeneralProp(i: int) { MAIN_IMPL <= i <= DEVICE_MEDIA_ADAPTER_TYPE && !IsVersionProp(i) }

  ghost predicate MeetsGeneral(i: int, s: Data, d: ImplDesc)
    requires DataFits(i, s)
  {
    if i == MAIN_IMPL then s.U32() == d.impl
    else if i == MAIN_VENDOR_ID then s.U32() == d.vendorID
    else if i == MAIN_VENDOR_IMPL_ID then s.U32() == d.vendorImplID
    else if i == MAIN_ACCELERATION_MODE then
      if d.accelerationModes != [] then s.U32() in d.accelerationModes else s.U32() == d.accelerationMode
    else if i == MAIN_POOL_ALLOCATION_POLICY then d.structVersion >= 0x0102 && s.U32() in d.poolPolicies
    else if i == MAIN_IMPL_NAME then s.text == d.implName
    else if i == MAIN_LICENSE then TokensIncluded(s.text, d.license)
    else if i == MAIN_KEYWORDS then TokensIncluded(s.text, d.keywords)
    else if i == DEVICE_DEVICE_ID then
      Stoi(d.dev.deviceID, 16).Some? && Stoi(d.dev.deviceID, 16).value % 0x1_0000_0000 == s.U16()
    else if i == DEVICE_DEVICE_ID_STR then s.text == d.dev.deviceID
    else if i == DEVICE_MEDIA_ADAPTER_TYPE then
      d.apiVersion.major >= 2 ==> d.dev.version >= 0x0101 && s.U16() == d.dev.mediaAdapterType
    else true
  }

  predicate Contains(cap: Range32U, asked: Range32U) {
    asked.max <= cap.max && asked.min >= cap.min && asked.step >= cap.step
  }

  predicate MeetsDec(i: int, s: Data, x: DecLeaf)
    requires DataFits(i, s)
  {
    if i == DEC_CODEC_ID then s.U32() == x.a.codecID
    else if i == DEC_MAXCODEC_LEVEL then s.U16() == x.a.maxcodecLevel
    else if i == DEC_PROFILE then s.U32() == x.b
    else if i == DEC_MEM_HANDLE_TYPE then s.U32() == x.c.memHandleType
    else if i == DEC_WIDTH then Contains(x.c.width, s.range)
    else if i == DEC_HEIGHT then Contains(x.c.height, s.range)
    else if i == DEC_COLOR_FORMATS then s.U32() == x.d
    else true
  }

  predicate MeetsEnc(i: int, s: Data, x: EncLeaf)
    requires DataFits(i, s)
  {
    if i == ENC_CODEC_ID then s.U32() == x.a.codecID
    else if i == ENC_MAXCODEC_LEVEL then s.U16() == x.a.maxcodecLevel
    else if i == ENC_BIDIRECTIONAL_PREDICTION then s.U16() == x.a.biDirectionalPrediction
    else if i == ENC_PROFILE then s.U32() == x.b
    else if i == ENC_MEM_HANDLE_TYPE then s.U32() == x.c.memHandleType
    else if i == ENC_WIDTH then Contains(x.c.width, s.range)
    else if i == ENC_HEIGHT then Contains(x.c.height, s.range)
    else if i == ENC_COLOR_FORMATS then s.U32() == x.d
    else true
  }

  predicate MeetsVPP(i: int, s: Data, x: VPPLeaf)
    requires DataFits(i, s)
  {
    if i == VPP_FILTER_FOURCC then s.U32() == x.a.filterFourCC
    else if i == VPP_MAX_DELAY_IN_FRAMES then s.U16() == x.a.maxDelayInFrames
    else if i == VPP_MEM_HANDLE_TYPE then s.U32() == x.b.memHandleType
    else if i == VPP_WIDTH then Contains(x.b.width, s.range)
    else if i == VPP_HEIGHT then Contains(x.b.height, s.range)
    else if i == VPP_IN_FORMAT then s.U32() == x.c
    else if i == VPP_OUT_FORMAT then s.U32() == x.d
    else true
  }

  predicate MeetsExtDev(i: int, s: Data, e: ExtDeviceID)
    requires DataFits(i, s)
  {
    if i == EXTDEV_VENDOR_ID then s.U16() == e.vendorID
    else if i == EXTDEV_DEVICE_ID then s.U16() == e.deviceID
    else if i == EXTDEV_PCI_DOMAIN then s.U32() == e.pciDomain
    else if i == EXTDEV_PCI_BUS then s.U32() == e.pciBus
    else if i == EXTDEV_PCI_DEVICE then s.U32() == e.pciDevice
    else if i == EXTDEV_PCI_FUNCTION then s.U32() == e.pciFunction
    else if i == EXTDEV_DEVICE_LUID then e.luidValid && s.bytes == e.deviceLUID
    else if i == EXTDEV_LUID_DEVICE_NODE_MASK then e.luidValid && s.U32() == e.luidDeviceNodeMask
    else if i == EXTDEV_DRM_RENDER_NODE_NUM then e.drmRenderNodeNum != 0 && s.U32() == e.drmRenderNodeNum
    // the guard tests the render node, although the structure documents 0x7FFFFFFF for the primary one
    else if i == EXTDEV_DRM_PRIMARY_NODE_NUM then e.drmRenderNodeNum != 0x7FFF_FFFF && s.U32() == e.drmPrimaryNodeNum
    else if i == EXTDEV_REVISION_ID then s.U16() == e.revisionID
    else if i == EXTDEV_DEVICE_NAME then s.text == e.deviceName
    else true
  }

  // ---- the verdict, declaratively -------------------------------------------------------------------

  ghost predicate GeneralOk(c: Config, d: ImplDesc) {
    forall i | IsGeneralProp(i) && IsSet(c, i) :: MeetsGeneral(i, c[i].data, d)
  }

  ghost predicate DecLeafOk(c: Config, x: DecLeaf) {
    forall i | IsDecProp(i) && IsSet(c, i) :: MeetsDec(i, c[i].data, x)
  }

  ghost predicate EncLeafOk(c: Config, x: EncLeaf) {
    forall i | IsEncProp(i) && IsSet(c, i) :: MeetsEnc(i, c[i].data, x)
  }

  ghost predicate VPPLeafOk(c: Config, x: VPPLeaf) {
    forall i | IsVPPProp(i) && IsSet(c, i) :: MeetsVPP(i, c[i].data, x)
  }

  ghost predicate ExtDevOk(c: Config, e: ExtDeviceID) {
    forall i | IsExtDevProp(i) && IsSet(c, i) :: MeetsExtDev(i, c[i].data, e)
  }

  datatype Group = DecGroup | EncGroup | VPPGroup | ExtDevGroup | SurfaceGroup

  function GroupOf(i: int): Option<Group> {
    if IsDecProp(i) then Some(DecGroup)
    else if IsEncProp(i) then Some(EncGroup)
    else if IsVPPProp(i) then Some(VPPGroup)
    else if IsExtDevProp(i) then Some(ExtDevGroup)
    else if IsSurfaceProp(i) then Some(SurfaceGroup)
    else None
  }

  ghost predicate InGroup(c: Config, i: int, g: Group) { IsSet(c, i) && GroupOf(i) == Some(g) }

  // The configuration itself sets some property of the group.
  ghost predicate Has(c: Config, g: Group) { exists i :: InGroup(c, i, g) }

  // Some root-to-leaf path of the tree satisfies every decoder property set in c.
  ghost predicate DecOk(c: Config, t: DecTree) { exists x :: HasPath(t, x) && DecLeafOk(c, x) }
  ghost predicate EncOk(c: Config, t: EncTree) { exists x :: HasPath(t, x) && EncLeafOk(c, x) }
  ghost predicate VPPOk(c: Config, t: VPPTree) { exists x :: HasPath(t, x) && VPPLeafOk(c, x) }

  // What one configuration demands by itself, apart from API version and functions.
  ghost predicate ConfigAccepts(c: Config, d: ImplDesc, ext: Option<ExtDeviceID>, lt: LibType) {
    && GeneralOk(c, d)
    && (Has(c, ExtDevGroup) ==> ext.Some? && ExtDevOk(c, ext.value))
    && !Has(c, SurfaceGroup)
    && (lt != LibTypeMSDK ==>
          && (Has(c, DecGroup) ==> DecOk(c, d.dec))
          && (Has(c, EncGroup) ==> EncOk(c, d.enc))
          && (Has(c, VPPGroup) ==> VPPOk(c, d.vpp)))
  }

  ghost predicate FunctionOk(c: Config, funcs: Option<seq<string>>) {
    IsSet(c, FUNC_FUNCTION_NAME) ==> funcs.Some? && c[FUNC_FUNCTION_NAME].data.text in funcs.value
  }

  predicate VersionOk(cs: seq<Config>, v: Version) {
    RequestedVersion(cs).Some? ==> RequestedVersion(cs).value.Number() <= v.Number()
  }

  // The capabilities one implementation reports; a pointer that may be null is an Option.
  datatype Caps = Caps(desc: ImplDesc, funcs: Option<seq<string>>, ext: Option<ExtDeviceID>)

  ghost predicate Accepts(p: Caps, cs: seq<Config>, lt: LibType) {
    && (forall k | 0 <= k < |cs| :: ConfigAccepts(cs[k], p.desc, p.ext, lt) && FunctionOk(cs[k], p.funcs))
    && VersionOk(cs, p.desc.apiVersion)
  }

  // ---- the property checks ------------------------------------------------------------------------------

  method CheckPropString(implString: string, filtString: string) returns (sts: Status)
    ensures sts == if TokensIncluded(filtString, implString) then ErrNone else ErrUnsupported
  {
    var tokens := Tokenize(implString, ',');
    var rest := filtString;
    while rest != ""
      invariant TokensIncluded(filtString, implString) <==> TokenSet(rest) <= TokenSet(implString)
      decreases |rest|
    {
      var s := FirstToken(rest, ',');
      assert Split(rest, ',') == [s] + (if |s| == |rest| then [] else Split(rest[|s| + 1..], ','));
      assert s in Split(rest, ',') && s in TokenSet(rest);
      if s !in tokens { return ErrUnsupported; }
      rest := if |s| == |rest| then "" else rest[|s| + 1..];
    }
    return ErrNone;
  }

  // The string filters are a preorder on token sets: any two ways of writing the same tokens,
  // in any order and with repetitions, are interchangeable on either side.
  lemma TokenOrderIrrelevant(ts: seq<string>, us: seq<string>, other: string)
    requires forall i | 0 <= i < |ts| :: ',' !in ts[i]
    requires forall i | 0 <= i < |us| :: ',' !in us[i]
    requires ts != [] && us != [] && ts[|ts| - 1] != "" && us[|us| - 1] != ""
    requires (set t | t in ts) == (set t | t in us)
    ensures TokensIncluded(Join(ts, ','), other) <==> TokensIncluded(Join(us, ','), other)
    ensures TokensIncluded(other, Join(ts, ',')) <==> TokensIncluded(other, Join(us, ','))
    ensures TokensIncluded(Join(ts, ','), Join(us, ','))
  {
    SplitOfJoin(ts, ',');
    SplitOfJoin(us, ',');
  }

  method CheckPropsGeneral(c: Config, d: ImplDesc) returns (sts: Status)
    ensures sts == if GeneralOk(c, d) then ErrNone else ErrUnsupported
  {
    hide MeetsGeneral;
    var numbers := CheckPropsGeneralNumbers(c, d);
    var strings := CheckPropsGeneralStrings(c, d);
    var device := CheckPropsGeneralDevice(c, d);
    sts := if numbers && strings && device then ErrNone else ErrUnsupported;
  }

  predicate EarlyProp(i: int) {
    || i == MAIN_IMPL || i == MAIN_VENDOR_ID || i == MAIN_VENDOR_IMPL_ID
    || i == MAIN_ACCELERATION_MODE || i == MAIN_POOL_ALLOCATION_POLICY
  }

  // The first part of the general checks.
  method CheckPropsGeneralNumbers(c: Config, d: ImplDesc) returns (isCompatible: bool)
    ensures isCompatible <==> forall i | EarlyProp(i) && IsSet(c, i) :: MeetsGeneral(i, c[i].data, d)
  {
    isCompatible := true;
    if IsSet(c, MAIN_IMPL) && c[MAIN_IMPL].data.U32() != d.impl { isCompatible := false; }
    if IsSet(c, MAIN_VENDOR_ID) && c[MAIN_VENDOR_ID].data.U32() != d.vendorID { isCompatible := false; }
    if IsSet(c, MAIN_VENDOR_IMPL_ID) && c[MAIN_VENDOR_IMPL_ID].data.U32() != d.vendorImplID { isCompatible := false; }
    if |d.accelerationModes| > 0 {
      if IsSet(c, MAIN_ACCELERATION_MODE) {
        if c[MAIN_ACCELERATION_MODE].data.U32() !in d.accelerationModes { isCompatible := false; }
      }
    } else if IsSet(c, MAIN_ACCELERATION_MODE) && c[MAIN_ACCELERATION_MODE].data.U32() != d.accelerationMode {
      isCompatible := false;
    }
    if IsSet(c, MAIN_POOL_ALLOCATION_POLICY) {
      var policies := if d.structVersion >= 0x0102 then d.poolPolicies else [];
      if isCompatible && |policies| > 0 {
        if c[MAIN_POOL_ALLOCATION_POLICY].data.U32() !in policies { isCompatible := false; }
      } else {
        isCompatible := false;
      }
    }
  }

  predicate DeviceProp(i: int) {
    i == DEVICE_DEVICE_ID || i == DEVICE_DEVICE_ID_STR || i == DEVICE_MEDIA_ADAPTER_TYPE
  }

  // The rest of the general checks: names and token lists, and then the device description.
  method CheckPropsGeneralStrings(c: Config, d: ImplDesc) returns (isCompatible: bool)
    ensures isCompatible <==>
            forall i | IsGeneralProp(i) && IsSet(c, i) && !EarlyProp(i) && !DeviceProp(i) ::
              MeetsGeneral(i, c[i].data, d)
  {
    hide TokensIncluded;
    isCompatible := true;
    if IsSet(c, MAIN_IMPL_NAME) && c[MAIN_IMPL_NAME].data.text != d.implName { isCompatible := false; }
    if IsSet(c, MAIN_LICENSE) {
      var r := CheckPropString(d.license, c[MAIN_LICENSE].data.text);
      if r != ErrNone { isCompatible := false; }
    }
    if IsSet(c, MAIN_KEYWORDS) {
      var r := CheckPropString(d.keywords, c[MAIN_KEYWORDS].data.text);
      if r != ErrNone { isCompatible := false; }
    }
  }

  method CheckPropsGeneralDevice(c: Config, d: ImplDesc) returns (isCompatible: bool)
    ensures isCompatible <==> forall i | DeviceProp(i) && IsSet(c, i) :: MeetsGeneral(i, c[i].data, d)
  {
    hide TokensIncluded;
    isCompatible := true;
    if IsSet(c, DEVICE_DEVICE_ID) {
      var n := Stoi(d.dev.deviceID, 16);
      if n.None? { return false; }
      if n.value % 0x1_0000_0000 != c[DEVICE_DEVICE_ID].data.U16() { isCompatible := false; }
    }
    if IsSet(c, DEVICE_DEVICE_ID_STR) && c[DEVICE_DEVICE_ID_STR].data.text != d.dev.deviceID { isCompatible := false; }
    if d.apiVersion.major >= 2 && IsSet(c, DEVICE_MEDIA_ADAPTER_TYPE) {
      if d.dev.version < 0x0101 { isCompatible := false; }
      if c[DEVICE_MEDIA_ADAPTER_TYPE].data.U16() != d.dev.mediaAdapterType { isCompatible := false; }
    }
  }

  method DecCompatible(c: Config, dc: DecLeaf) returns (isCompatible: bool)
    ensures isCompatible <==> DecLeafOk(c, dc)
  {
    isCompatible := true;
    if IsSet(c, DEC_CODEC_ID) && c[DEC_CODEC_ID].data.U32() != dc.a.codecID { isCompatible := false; }
    if IsSet(c, DEC_MAXCODEC_LEVEL) && c[DEC_MAXCODEC_LEVEL].data.U16() != dc.a.maxcodecLevel { isCompatible := false; }
    if IsSet(c, DEC_PROFILE) && c[DEC_PROFILE].data.U32() != dc.b { isCompatible := false; }
    if IsSet(c, DEC_MEM_HANDLE_TYPE) && c[DEC_MEM_HANDLE_TYPE].data.U32() != dc.c.memHandleType {
      isCompatible := false;
    }
    if IsSet(c, DEC_COLOR_FORMATS) && c[DEC_COLOR_FORMATS].data.U32() != dc.d { isCompatible := false; }
    if IsSet(c, DEC_WIDTH) && OutOfRange(c[DEC_WIDTH].data.range, dc.c.width) { isCompatible := false; }
    if IsSet(c, DEC_HEIGHT) && OutOfRange(c[DEC_HEIGHT].data.range, dc.c.height) { isCompatible := false; }
  }

  method CheckPropsDec(c: Config, leaves: seq<DecLeaf>) returns (sts: Status)
    ensures sts == if exists x | x in leaves :: DecLeafOk(c, x) then ErrNone else ErrUnsupported
  {
    hide DecLeafOk;
    for n := 0 to |leaves|
      invariant forall m | 0 <= m < n :: !DecLeafOk(c, leaves[m])
    {
      var isCompatible := DecCompatible(c, leaves[n]);
      if isCompatible { return ErrNone; }
    }
    return ErrUnsupported;
  }

  predicate OutOfRange(asked: Range32U, cap: Range32U) {
    asked.max > cap.max || asked.min < cap.min || asked.step < cap.step
  }

  predicate EncCodecProp(i: int) {
    i == ENC_CODEC_ID || i == ENC_MAXCODEC_LEVEL || i == ENC_BIDIRECTIONAL_PREDICTION || i == ENC_PROFILE
  }

  method EncCodecCompatible(c: Config, ec: EncLeaf) returns (isCompatible: bool)
    ensures isCompatible <==> forall i | EncCodecProp(i) && IsSet(c, i) :: MeetsEnc(i, c[i].data, ec)
  {
    isCompatible := true;
    if IsSet(c, ENC_CODEC_ID) && c[ENC_CODEC_ID].data.U32() != ec.a.codecID { isCompatible := false; }
    if IsSet(c, ENC_MAXCODEC_LEVEL) && c[ENC_MAXCODEC_LEVEL].data.U16() != ec.a.maxcodecLevel { isCompatible := false; }
    if IsSet(c, ENC_BIDIRECTIONAL_PREDICTION)
       && c[ENC_BIDIRECTIONAL_PREDICTION].data.U16() != ec.a.biDirectionalPrediction { isCompatible := false; }
    if IsSet(c, ENC_PROFILE) && c[ENC_PROFILE].data.U32() != ec.b { isCompatible := false; }
  }

  method EncMemCompatible(c: Config, ec: EncLeaf) returns (isCompatible: bool)
    ensures isCompatible <==> forall i | IsEncProp(i) && !EncCodecProp(i) && IsSet(c, i) :: MeetsEnc(i, c[i].data, ec)
  {
    isCompatible := true;
    if IsSet(c, ENC_MEM_HANDLE_TYPE) && c[ENC_MEM_HANDLE_TYPE].data.U32() != ec.c.memHandleType {
      isCompatible := false;
    }
    if IsSet(c, ENC_COLOR_FORMATS) && c[ENC_COLOR_FORMATS].data.U32() != ec.d { isCompatible := false; }
    if IsSet(c, ENC_WIDTH) && OutOfRange(c[ENC_WIDTH].data.range, ec.c.width) { isCompatible := false; }
    if IsSet(c, ENC_HEIGHT) && OutOfRange(c[ENC_HEIGHT].data.range, ec.c.height) { isCompatible := false; }
  }

  lemma EncSplits(c: Config, ec: EncLeaf)
    ensures EncLeafOk(c, ec) <==>
            && (forall i | EncCodecProp(i) && IsSet(c, i) :: MeetsEnc(i, c[i].data, ec))
            && (forall i | IsEncProp(i) && !EncCodecProp(i) && IsSet(c, i) :: MeetsEnc(i, c[i].data, ec))
  {
    hide MeetsEnc;
  }

  method CheckPropsEnc(c: Config, leaves: seq<EncLeaf>) returns (sts: Status)
    ensures sts == if exists x | x in leaves :: EncLeafOk(c, x) then ErrNone else ErrUnsupported
  {
    hide EncLeafOk, MeetsEnc;
    for n := 0 to |leaves|
      invariant forall m | 0 <= m < n :: !EncLeafOk(c, leaves[m])
    {
      var codec := EncCodecCompatible(c, leaves[n]);
      var mem := EncMemCompatible(c, leaves[n]);
      EncSplits(c, leaves[n]);
      if codec && mem { return ErrNone; }
    }
    return ErrUnsupported;
  }

  method VPPCompatible(c: Config, vc: VPPLeaf) returns (isCompatible: bool)
    ensures isCompatible <==> VPPLeafOk(c, vc)
  {
    isCompatible := true;
    if IsSet(c, VPP_FILTER_FOURCC) && c[VPP_FILTER_FOURCC].data.U32() != vc.a.filterFourCC { isCompatible := false; }
    if IsSet(c, VPP_MAX_DELAY_IN_FRAMES) && c[VPP_MAX_DELAY_IN_FRAMES].data.U16() != vc.a.maxDelayInFrames {
      isCompatible := false;
    }
    if IsSet(c, VPP_MEM_HANDLE_TYPE) && c[VPP_MEM_HANDLE_TYPE].data.U32() != vc.b.memHandleType {
      isCompatible := false;
    }
    if IsSet(c, VPP_IN_FORMAT) && c[VPP_IN_FORMAT].data.U32() != vc.c { isCompatible := false; }
    if IsSet(c, VPP_OUT_FORMAT) && c[VPP_OUT_FORMAT].data.U32() != vc.d { isCompatible := false; }
    if IsSet(c, VPP_WIDTH) && OutOfRange(c[VPP_WIDTH].data.range, vc.b.width) { isCompatible := false; }
    if IsSet(c, VPP_HEIGHT) && OutOfRange(c[VPP_HEIGHT].data.range, vc.b.height) { isCompatible := false; }
  }

  method CheckPropsVPP(c: Config, leaves: seq<VPPLeaf>) returns (sts: Status)
    ensures sts == if exists x | x in leaves :: VPPLeafOk(c, x) then ErrNone else ErrUnsupported
  {
    hide VPPLeafOk;
    for n := 0 to |leaves|
      invariant forall m | 0 <= m < n :: !VPPLeafOk(c, leaves[m])
    {
      var isCompatible := VPPCompatible(c, leaves[n]);
      if isCompatible { return ErrNone; }
    }
    return ErrUnsupported;
  }

  // All eight bytes are compared, without stopping at the first difference.
  method SameLUID(a: Bytes8, b: Bytes8) returns (same: bool)
    ensures same <==> a == b
  {
    same := true;
    for j := 0 to 8
      invariant same <==> forall k | 0 <= k < j :: a[k] == b[k]
    {
      if a[j] != b[j] { same := false; }
    }
  }

  method CheckPropsExtDevID(c: Config, e: ExtDeviceID) returns (sts: Status)
    ensures sts == if ExtDevOk(c, e) then ErrNone else ErrUnsupported
  {
    var isCompatible := CheckPropsExtDevNumbers(c, e);
    var rest := CheckPropsExtDevNodes(c, e);
    sts := if isCompatible && rest then ErrNone else ErrUnsupported;
  }

  // The first half of the extended device checks: vendor, device and PCI location.
  method CheckPropsExtDevNumbers(c: Config, e: ExtDeviceID) returns (isCompatible: bool)
    ensures isCompatible <==>
            forall i | IsExtDevProp(i) && IsSet(c, i) && i < EXTDEV_DEVICE_LUID :: MeetsExtDev(i, c[i].data, e)
  {
    isCompatible := true;
    if IsSet(c, EXTDEV_VENDOR_ID) && c[EXTDEV_VENDOR_ID].data.U16() != e.vendorID { isCompatible := false; }
    if IsSet(c, EXTDEV_DEVICE_ID) && c[EXTDEV_DEVICE_ID].data.U16() != e.deviceID { isCompatible := false; }
    if IsSet(c, EXTDEV_PCI_DOMAIN) && c[EXTDEV_PCI_DOMAIN].data.U32() != e.pciDomain { isCompatible := false; }
    if IsSet(c, EXTDEV_PCI_BUS) && c[EXTDEV_PCI_BUS].data.U32() != e.pciBus { isCompatible := false; }
    if IsSet(c, EXTDEV_PCI_DEVICE) && c[EXTDEV_PCI_DEVICE].data.U32() != e.pciDevice { isCompatible := false; }
    if IsSet(c, EXTDEV_PCI_FUNCTION) && c[EXTDEV_PCI_FUNCTION].data.U32() != e.pciFunction { isCompatible := false; }
  }

  // The second half of the extended device checks: LUID, node numbers, revision and name.
  method CheckPropsExtDevNodes(c: Config, e: ExtDeviceID) returns (isCompatible: bool)
    ensures isCompatible <==>
            forall i | IsExtDevProp(i) && IsSet(c, i) && i >= EXTDEV_DEVICE_LUID :: MeetsExtDev(i, c[i].data, e)
  {
    isCompatible := true;
    if IsSet(c, EXTDEV_DEVICE_LUID) {
      if e.luidValid {
        isCompatible := SameLUID(c[EXTDEV_DEVICE_LUID].data.bytes, e.deviceLUID);
      } else {
        isCompatible := false;
      }
    }
    if IsSet(c, EXTDEV_LUID_DEVICE_NODE_MASK) {
      if e.luidValid {
        if c[EXTDEV_LUID_DEVICE_NODE_MASK].data.U32() != e.luidDeviceNodeMask { isCompatible := false; }
      } else {
        isCompatible := false;
      }
    }
    if IsSet(c, EXTDEV_DRM_RENDER_NODE_NUM) {
      if e.drmRenderNodeNum != 0 {
        if c[EXTDEV_DRM_RENDER_NODE_NUM].data.U32() != e.drmRenderNodeNum { isCompatible := false; }
      } else {
        isCompatible := false;
      }
    }
    if IsSet(c, EXTDEV_DRM_PRIMARY_NODE_NUM) {
      if e.drmRenderNodeNum != 0x7FFF_FFFF {
        if c[EXTDEV_DRM_PRIMARY_NODE_NUM].data.U32() != e.drmPrimaryNodeNum { isCompatible := false; }
      } else {
        isCompatible := false;
      }
    }
    if IsSet(c, EXTDEV_REVISION_ID) && c[EXTDEV_REVISION_ID].data.U16() != e.revisionID { isCompatible := false; }
    if IsSet(c, EXTDEV_DEVICE_NAME) && c[EXTDEV_DEVICE_NAME].data.text != e.deviceName { isCompatible := false; }
  }

  // ---- ValidateConfig -----------------------------------------------------------------------------------

  // The five "requested" flags, as the set of groups asked for so far. Never reset between
  // configurations.
  ghost function RequestedBelow(c: Config, r: set<Group>, n: nat): set<Group> {
    if n == 0 then r
    else RequestedBelow(c, r, n - 1) + (if IsSet(c, n - 1) && GroupOf(n - 1).Some? then {GroupOf(n - 1).value} else {})
  }

  lemma {:induction false} RequestedBelowIs(c: Config, r: set<Group>, n: nat, g: Group)
    ensures g in RequestedBelow(c, r, n) <==> g in r || exists j | 0 <= j < n :: InGroup(c, j, g)
  {
    if n > 0 {
      RequestedBelowIs(c, r, n - 1, g);
      assert g in RequestedBelow(c, r, n) <==> g in RequestedBelow(c, r, n - 1) || InGroup(c, n - 1, g);
    }
  }

  lemma RequestedBelowAll(c: Config, r: set<Group>)
    ensures forall g :: g in RequestedBelow(c, r, TOTAL_PROPS) <==> g in r || Has(c, g)
  {
    hide RequestedBelow;
    forall g ensures g in RequestedBelow(c, r, TOTAL_PROPS) <==> g in r || Has(c, g) {
      RequestedBelowIs(c, r, TOTAL_PROPS, g);
    }
  }

  // Populate cfgPropsAll from one configuration; the function name goes to its own list.
  method CollectProps(c: Config, req: set<Group>) returns (all: Config, req': set<Group>, function_: Option<string>)
    ensures forall i | 0 <= i < TOTAL_PROPS && i != FUNC_FUNCTION_NAME ::
              IsSet(all, i) == IsSet(c, i) && (IsSet(c, i) ==> all[i] == c[i])
    ensures forall g :: g in req' <==> g in req || Has(c, g)
    ensures function_ == if IsSet(c, FUNC_FUNCTION_NAME) then Some(c[FUNC_FUNCTION_NAME].data.text) else None
  {
    hide Has;
    all, req', function_ := EmptyConfig(), req, None;
    for i := 0 to TOTAL_PROPS
      invariant forall j | 0 <= j < TOTAL_PROPS && j != FUNC_FUNCTION_NAME ::
                  if j < i && IsSet(c, j) then all[j] == c[j] else !all[j].Set()
      invariant req' == RequestedBelow(c, req, i)
      invariant function_ == if i > FUNC_FUNCTION_NAME && IsSet(c, FUNC_FUNCTION_NAME)
                             then Some(c[FUNC_FUNCTION_NAME].data.text) else None
    {
      if !c[i].Set() { continue; }
      if i == FUNC_FUNCTION_NAME {
        function_ := Some(c[i].data.text);
        continue;
      }
      all := all[i := c[i]];
      if GroupOf(i).Some? { req' := req' + {GroupOf(i).value}; }
    }
    RequestedBelowAll(c, req);
  }

  ghost predicate SameButFunction(all: Config, c: Config) {
    forall i | 0 <= i < TOTAL_PROPS && i != FUNC_FUNCTION_NAME ::
      IsSet(all, i) == IsSet(c, i) && (IsSet(c, i) ==> all[i] == c[i])
  }

  // The flattened trees of one implementation.
  datatype Flat = Flat(dec: seq<DecLeaf>, enc: seq<EncLeaf>, vpp: seq<VPPLeaf>)

  ghost predicate FlatOf(f: Flat, d: ImplDesc) {
    f.dec == Leaves(d.dec) && f.enc == Leaves(d.enc) && f.vpp == Leaves(d.vpp)
  }

  // The block guarded by bImplValid: the checks made for one configuration, given every group
  // requested up to and including it.
  method CheckConfig(all: Config, req: set<Group>, p: Caps, flat: Flat, lt: LibType, ghost c: Config)
    returns (valid: bool)
    requires SameButFunction(all, c) && FlatOf(flat, p.desc)
    requires forall g :: Has(c, g) ==> g in req
    ensures valid <==> CheckedOk(c, req, p, lt)
  {
    valid := true;
    var general := CheckPropsGeneral(all, p.desc);
    if general != ErrNone { valid := false; }
    if ExtDevGroup in req {
      if p.ext.None? {
        valid := false;
      } else {
        var r := CheckPropsExtDevID(all, p.ext.value);
        if r != ErrNone { valid := false; }
      }
    }
    if SurfaceGroup in req { valid := false; }
    if lt != LibTypeMSDK {
      if DecGroup in req {
        var r := CheckPropsDec(all, flat.dec);
        if r != ErrNone { valid := false; }
      }
      if EncGroup in req {
        var r := CheckPropsEnc(all, flat.enc);
        if r != ErrNone { valid := false; }
      }
      if VPPGroup in req {
        var r := CheckPropsVPP(all, flat.vpp);
        if r != ErrNone { valid := false; }
      }
    }
    CheckedCongruent(all, c, p, flat);
  }

  // The same verdict stated on the configuration and the trees.
  ghost predicate CheckedOk(c: Config, req: set<Group>, p: Caps, lt: LibType) {
    && GeneralOk(c, p.desc)
    && (ExtDevGroup in req ==> p.ext.Some? && ExtDevOk(c, p.ext.value))
    && SurfaceGroup !in req
    && (lt != LibTypeMSDK ==>
          && (DecGroup in req ==> DecOk(c, p.desc.dec))
          && (EncGroup in req ==> EncOk(c, p.desc.enc))
          && (VPPGroup in req ==> VPPOk(c, p.desc.vpp)))
  }

  lemma CheckedCongruent(all: Config, c: Config, p: Caps, flat: Flat)
    requires SameButFunction(all, c) && FlatOf(flat, p.desc)
    ensures GeneralOk(all, p.desc) == GeneralOk(c, p.desc)
    ensures p.ext.Some? ==> ExtDevOk(all, p.ext.value) == ExtDevOk(c, p.ext.value)
    ensures (exists x | x in flat.dec :: DecLeafOk(all, x)) <==> DecOk(c, p.desc.dec)
    ensures (exists x | x in flat.enc :: EncLeafOk(all, x)) <==> EncOk(c, p.desc.enc)
    ensures (exists x | x in flat.vpp :: VPPLeafOk(all, x)) <==> VPPOk(c, p.desc.vpp)
  {
    forall x ensures (x in flat.dec <==> HasPath(p.desc.dec, x)) && DecLeafOk(all, x) == DecLeafOk(c, x) {
      LeavesArePaths(p.desc.dec, x);
    }
    forall x ensures (x in flat.enc <==> HasPath(p.desc.enc, x)) && EncLeafOk(all, x) == EncLeafOk(c, x) {
      LeavesArePaths(p.desc.enc, x);
    }
    forall x ensures (x in flat.vpp <==> HasPath(p.desc.vpp, x)) && VPPLeafOk(all, x) == VPPLeafOk(c, x) {
      LeavesArePaths(p.desc.vpp, x);
    }
  }

  // Why the flags need no reset: once the earlier configurations have been accepted, a group that
  // only they asked for is satisfied by any leaf (or device id) that satisfied them.
  lemma StickyFlagsHarmless(cs: seq<Config>, c: Config, p: Caps, lt: LibType, req: set<Group>)
    requires forall k | 0 <= k < |cs| :: ConfigAccepts(cs[k], p.desc, p.ext, lt)
    requires forall g :: g in req <==> Has(c, g) || exists k | 0 <= k < |cs| :: Has(cs[k], g)
    ensures CheckedOk(c, req, p, lt) <==> ConfigAccepts(c, p.desc, p.ext, lt)
  {
    if !Has(c, DecGroup) { NoDecAnyLeaf(c); }
    if !Has(c, EncGroup) { NoEncAnyLeaf(c); }
    if !Has(c, VPPGroup) { NoVPPAnyLeaf(c); }
    if !Has(c, ExtDevGroup) {
      forall i | IsExtDevProp(i) ensures !IsSet(c, i) { assert InGroup(c, i, ExtDevGroup) <==> IsSet(c, i); }
    }
  }

  lemma NoDecAnyLeaf(c: Config)
    requires !Has(c, DecGroup)
    ensures forall x :: DecLeafOk(c, x)
  {
    forall i | IsDecProp(i) ensures !IsSet(c, i) { assert InGroup(c, i, DecGroup) <==> IsSet(c, i); }
  }

  lemma NoEncAnyLeaf(c: Config)
    requires !Has(c, EncGroup)
    ensures forall x :: EncLeafOk(c, x)
  {
    forall i | IsEncProp(i) ensures !IsSet(c, i) { assert InGroup(c, i, EncGroup) <==> IsSet(c, i); }
  }

  lemma NoVPPAnyLeaf(c: Config)
    requires !Has(c, VPPGroup)
    ensures forall x :: VPPLeafOk(c, x)
  {
    forall i | IsVPPProp(i) ensures !IsSet(c, i) { assert InGroup(c, i, VPPGroup) <==> IsSet(c, i); }
  }

  // Collect the special properties of one configuration: a later writer wins.
  method UpdateSpecial(all: Config, sp: SpecialConfig, ghost c: Config) returns (sp': SpecialConfig)
    requires SameButFunction(all, c)
    ensures sp' == OverlayWith(sp, c)
  {
    sp' := UpdateSessionProps(all, sp, c);
    if IsSet(all, SPECIAL_DXGI_ADAPTER_INDEX) {
      sp' := sp'.(dxgiAdapterIdx := Some(all[SPECIAL_DXGI_ADAPTER_INDEX].data.U32()));
    }
    if IsSet(all, MAIN_ACCELERATION_MODE) {
      sp' := sp'.(accelerationMode := Some(all[MAIN_ACCELERATION_MODE].data.U32()));
    }
    if IsSet(all, SPECIAL_EXT_BUFFER) { sp' := sp'.(extBuffers := sp'.extBuffers + [all[SPECIAL_EXT_BUFFER].data]); }
  }

  method UpdateSessionProps(all: Config, sp: SpecialConfig, ghost c: Config) returns (sp': SpecialConfig)
    requires SameButFunction(all, c)
    ensures sp' == OverlayWith(sp, c).(accelerationMode := sp.accelerationMode, dxgiAdapterIdx := sp.dxgiAdapterIdx,
                                       extBuffers := sp.extBuffers)
  {
    sp' := sp;
    if IsSet(all, SPECIAL_HANDLE_TYPE) { sp' := sp'.(deviceHandleType := Some(all[SPECIAL_HANDLE_TYPE].data.U32())); }
    if IsSet(all, SPECIAL_HANDLE) { sp' := sp'.(deviceHandle := Some(all[SPECIAL_HANDLE].data)); }
    if IsSet(all, SPECIAL_NUM_THREAD) { sp' := sp'.(numThread := Some(all[SPECIAL_NUM_THREAD].data.U32())); }
    if IsSet(all, SPECIAL_DEVICE_COPY) { sp' := sp'.(deviceCopy := Some(all[SPECIAL_DEVICE_COPY].data.U16())); }
  }

  // The API version gathered so far, as one number or as halves from different objects.
  datatype VersionSoFar = VersionSoFar(version: Version, majorSet: bool, minorSet: bool)

  ghost predicate VersionFor(v: VersionSoFar, cs: seq<Config>) {
    && v.majorSet == LastMajor(cs).Some? && (v.majorSet ==> v.version.major == LastMajor(cs).value)
    && v.minorSet == LastMinor(cs).Some? && (v.minorSet ==> v.version.minor == LastMinor(cs).value)
  }

  method UpdateVersion(all: Config, v: VersionSoFar, ghost before: seq<Config>, ghost c: Config)
    returns (v': VersionSoFar)
    requires SameButFunction(all, c) && VersionFor(v, before)
    ensures VersionFor(v', before + [c])
  {
    assert (before + [c])[..|before|] == before;
    v' := v;
    if IsSet(all, MAIN_API_VERSION) {
      v' := VersionSoFar(VersionOf(all[MAIN_API_VERSION].data.U32()), true, true);
    } else {
      if IsSet(all, MAIN_API_VERSION_MAJOR) {
        v' := v'.(version := v'.version.(major := all[MAIN_API_VERSION_MAJOR].data.U16()), majorSet := true);
      }
      if IsSet(all, MAIN_API_VERSION_MINOR) {
        v' := v'.(version := v'.version.(minor := all[MAIN_API_VERSION_MINOR].data.U16()), minorSet := true);
      }
    }
  }

  // Every requested function must appear in the implementation's list.
  method CheckFunctions(names: seq<string>, funcs: Option<seq<string>>) returns (sts: Status)
    ensures sts == if forall n | n in names :: funcs.Some? && n in funcs.value then ErrNone else ErrUnsupported
  {
    if names == [] { return ErrNone; }
    if funcs.None? {
      assert names[0] in names;
      return ErrUnsupported;
    }
    for n := 0 to |names|
      invariant forall m | 0 <= m < n :: names[m] in funcs.value
    {
      var fnIdx := 0;
      while fnIdx < |funcs.value| && names[n] != funcs.value[fnIdx]
        invariant 0 <= fnIdx <= |funcs.value|
        invariant names[n] !in funcs.value[..fnIdx]
      {
        fnIdx := fnIdx + 1;
      }
      if fnIdx == |funcs.value| {
        assert funcs.value[..fnIdx] == funcs.value && names[n] in names;
        return ErrUnsupported;
      }
    }
    return ErrNone;
  }

  ghost predicate RequestedFor(req: set<Group>, cs: seq<Config>) {
    forall g :: g in req <==> exists k | 0 <= k < |cs| :: Has(cs[k], g)
  }

  ghost predicate AllAccept(cs: seq<Config>, p: Caps, lt: LibType) {
    forall k | 0 <= k < |cs| :: ConfigAccepts(cs[k], p.desc, p.ext, lt)
  }

  ghost predicate NamesFor(names: seq<string>, cs: seq<Config>) {
    forall f :: f in names <==> exists k | 0 <= k < |cs| :: Asks(cs[k], f)
  }

  ghost predicate Asks(c: Config, f: string) { IsSet(c, FUNC_FUNCTION_NAME) && c[FUNC_FUNCTION_NAME].data.text == f }

  // What the pass over the configurations has gathered.
  datatype Gathered = Gathered(valid: bool, req: set<Group>, names: seq<string>, version: VersionSoFar,
                               sp: SpecialConfig)

  ghost predicate GatheredFrom(g: Gathered, cs: seq<Config>, p: Caps, lt: LibType, sp: SpecialConfig) {
    && g.valid == AllAccept(cs, p, lt)
    && RequestedFor(g.req, cs)
    && NamesFor(g.names, cs)
    && VersionFor(g.version, cs)
    && g.sp == Overlay(sp, cs)
  }

  lemma NamesAppend(names: seq<string>, cs: seq<Config>, c: Config, f: Option<string>)
    requires NamesFor(names, cs)
    requires f == if IsSet(c, FUNC_FUNCTION_NAME) then Some(c[FUNC_FUNCTION_NAME].data.text) else None
    ensures NamesFor(if f.Some? then names + [f.value] else names, cs + [c])
  {
    forall h ensures (exists k | 0 <= k < |cs| + 1 :: Asks((cs + [c])[k], h)) <==>
                     (exists k | 0 <= k < |cs| :: Asks(cs[k], h)) || Asks(c, h)
    {
      assert (cs + [c])[|cs|] == c;
      assert forall k | 0 <= k < |cs| :: (cs + [c])[k] == cs[k];
    }
  }

  lemma RequestedAppend(req: set<Group>, req': set<Group>, cs: seq<Config>, c: Config)
    requires RequestedFor(req, cs)
    requires forall g :: g in req' <==> g in req || Has(c, g)
    ensures RequestedFor(req', cs + [c])
  {
    var all := cs + [c];
    assert all[|cs|] == c && forall k | 0 <= k < |cs| :: all[k] == cs[k];
    forall g ensures g in req' <==> exists k | 0 <= k < |all| :: Has(all[k], g) {
      if g in req {
        var k :| 0 <= k < |cs| && Has(cs[k], g);
        assert Has(all[k], g);
      }
    }
  }

  lemma AcceptAppend(cs: seq<Config>, c: Config, p: Caps, lt: LibType)
    ensures AllAccept(cs + [c], p, lt) <==> AllAccept(cs, p, lt) && ConfigAccepts(c, p.desc, p.ext, lt)
  {
    assert (cs + [c])[|cs|] == c;
    assert forall k | 0 <= k < |cs| :: (cs + [c])[k] == cs[k];
  }

  // The body of the loop over configurations.
  method Gather(g: Gathered, c: Config, p: Caps, flat: Flat, lt: LibType,
                ghost before: seq<Config>, ghost sp: SpecialConfig)
    returns (g': Gathered)
    requires GatheredFrom(g, before, p, lt, sp) && FlatOf(flat, p.desc)
    ensures GatheredFrom(g', before + [c], p, lt, sp)
  {
    var all, req, function_ := CollectProps(c, g.req);
    RequestedAppend(g.req, req, before, c);
    NamesAppend(g.names, before, c, function_);
    AcceptAppend(before, c, p, lt);
    OverlayAppend(sp, before, c);
    var names := if function_.Some? then g.names + [function_.value] else g.names;
    var valid := g.valid;
    if valid {
      valid := CheckConfig(all, req, p, flat, lt, c);
      StickyFlagsHarmless(before, c, p, lt, req);
    }
    var special := UpdateSpecial(all, g.sp, c);
    var version := UpdateVersion(all, g.version, before, c);
    g' := Gathered(valid, req, names, version, special);
  }

  // Compare the capabilities of one implementation with every configuration. All of them are walked
  // even after a failure, to collect the special properties.
  method ValidateConfig(desc: Option<ImplDesc>, funcs: Option<seq<string>>, ext: Option<ExtDeviceID>,
                        cs: seq<Config>, lt: LibType, sp: SpecialConfig)
    returns (sts: Status, sp': SpecialConfig)
    ensures desc.None? ==> sts == ErrNullPtr && sp' == sp
    ensures desc.Some? ==> sp' == AfterValidate(sp, cs)
    ensures desc.Some? ==> sts == if Accepts(Caps(desc.value, funcs, ext), cs, lt) then ErrNone else ErrUnsupported
  {
    hide ConfigAccepts, FunctionOk, FlatOf, GatheredFrom, AfterValidate, VersionOk;
    if desc.None? { return ErrNullPtr, sp; }
    var p := Caps(desc.value, funcs, ext);
    var flat := FlattenAll(p.desc);
    var g := Gathered(true, {}, [], VersionSoFar(Version(0, 0), false, false), sp.(extBuffers := []));
    NothingGathered(g, p, lt, sp);
    for n := 0 to |cs|
      invariant GatheredFrom(g, cs[..n], p, lt, sp)
    {
      g := Gather(g, cs[n], p, flat, lt, cs[..n], sp);
      assert cs[..n + 1] == cs[..n] + [cs[n]];
    }
    assert cs[..|cs|] == cs;
    var valid;
    valid, sp' := CheckVersion(g, cs, p, lt, sp);
    if !valid { return ErrUnsupported, sp'; }
    sts := CheckFunctions(g.names, funcs);
    FunctionsAsked(cs, g.names, funcs);
  }

  lemma NothingGathered(g: Gathered, p: Caps, lt: LibType, sp: SpecialConfig)
    requires g == Gathered(true, {}, [], VersionSoFar(Version(0, 0), false, false), sp.(extBuffers := []))
    ensures GatheredFrom(g, [], p, lt, sp)
  {}

  // A version asked for in whole or in both halves is compared once all configurations were walked.
  method CheckVersion(g: Gathered, ghost cs: seq<Config>, p: Caps, ghost lt: LibType, ghost sp: SpecialConfig)
    returns (valid: bool, sp': SpecialConfig)
    requires GatheredFrom(g, cs, p, lt, sp)
    ensures valid <==> AllAccept(cs, p, lt) && VersionOk(cs, p.desc.apiVersion)
    ensures sp' == AfterValidate(sp, cs) && NamesFor(g.names, cs)
  {
    hide AllAccept, RequestedFor, NamesFor;
    valid, sp' := g.valid, g.sp;
    if g.version.majorSet && g.version.minorSet {
      if p.desc.apiVersion.Number() < g.version.version.Number() { valid := false; }
      sp' := sp'.(apiVersion := Some(g.version.version));
    }
  }

  method FlattenAll(d: ImplDesc) returns (flat: Flat)
    ensures FlatOf(flat, d)
  {
    var _, dec := Flatten(d.dec);
    var _, enc := Flatten(d.enc);
    var _, vpp := Flatten(d.vpp);
    flat := Flat(dec, enc, vpp);
  }

  lemma FunctionsAsked(cs: seq<Config>, names: seq<string>, funcs: Option<seq<string>>)
    requires NamesFor(names, cs)
    ensures (forall n | n in names :: funcs.Some? && n in funcs.value) <==>
            forall k | 0 <= k < |cs| :: FunctionOk(cs[k], funcs)
  {
    forall k | 0 <= k < |cs| && IsSet(cs[k], FUNC_FUNCTION_NAME) ensures cs[k][FUNC_FUNCTION_NAME].data.text in names {
      assert Asks(cs[k], cs[k][FUNC_FUNCTION_NAME].data.text);
    }
  }
}
