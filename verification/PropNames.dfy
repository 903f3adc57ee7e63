// The filter property slots, the value type each one takes, and the dotted names that
// reach them.
module PropNames {
  import opened Tokens
  import opened VplTypes

  datatype VariantType = TypeUnset | TypeU16 | TypeU32 | TypePtr | TypeOther(code: int)

  const MAIN_IMPL := 0
  const MAIN_ACCELERATION_MODE := 1
  const MAIN_API_VERSION := 2
  const MAIN_API_VERSION_MAJOR := 3
  const MAIN_API_VERSION_MINOR := 4
  const MAIN_IMPL_NAME := 5
  const MAIN_LICENSE := 6
  const MAIN_KEYWORDS := 7
  const MAIN_VENDOR_ID := 8
  const MAIN_VENDOR_IMPL_ID := 9
  const MAIN_POOL_ALLOCATION_POLICY := 10
  const DEVICE_DEVICE_ID := 11
  const DEVICE_DEVICE_ID_STR := 12
  const DEVICE_MEDIA_ADAPTER_TYPE := 13
  const DEC_CODEC_ID := 14
  const DEC_MAXCODEC_LEVEL := 15
  const DEC_PROFILE := 16
  const DEC_MEM_HANDLE_TYPE := 17
  const DEC_WIDTH := 18
  const DEC_HEIGHT := 19
  const DEC_COLOR_FORMATS := 20
  const ENC_CODEC_ID := 21
  const ENC_MAXCODEC_LEVEL := 22
  const ENC_BIDIRECTIONAL_PREDICTION := 23
  const ENC_PROFILE := 24
  const ENC_MEM_HANDLE_TYPE := 25
  const ENC_WIDTH := 26
  const ENC_HEIGHT := 27
  const ENC_COLOR_FORMATS := 28
  const VPP_FILTER_FOURCC := 29
  const VPP_MAX_DELAY_IN_FRAMES := 30
  const VPP_MEM_HANDLE_TYPE := 31
  const VPP_WIDTH := 32
  const VPP_HEIGHT := 33
  const VPP_IN_FORMAT := 34
  const VPP_OUT_FORMAT := 35
  const EXTDEV_VENDOR_ID := 36
  const EXTDEV_DEVICE_ID := 37
  const EXTDEV_PCI_DOMAIN := 38
  const EXTDEV_PCI_BUS := 39
  const EXTDEV_PCI_DEVICE := 40
  const EXTDEV_PCI_FUNCTION := 41
  const EXTDEV_DEVICE_LUID := 42
  const EXTDEV_LUID_DEVICE_NODE_MASK := 43
  const EXTDEV_DRM_RENDER_NODE_NUM := 44
  const EXTDEV_DRM_PRIMARY_NODE_NUM := 45
  const EXTDEV_REVISION_ID := 46
  const EXTDEV_DEVICE_NAME := 47
  const SURFACE_SURFACE_TYPE := 48
  const SURFACE_SURFACE_FLAGS := 50
  const SPECIAL_HANDLE_TYPE := 51
  const SPECIAL_HANDLE := 52
  const SPECIAL_NUM_THREAD := 53
  const SPECIAL_DEVICE_COPY := 54
  const SPECIAL_EXT_BUFFER := 55
  const SPECIAL_DXGI_ADAPTER_INDEX := 56
  const FUNC_FUNCTION_NAME := 57
  const TOTAL_PROPS := 58

  predicate IsProp(i: int) { 0 <= i < TOTAL_PROPS }
  predicate IsDecProp(i: int) { DEC_CODEC_ID <= i <= DEC_COLOR_FORMATS }
  predicate IsEncProp(i: int) { ENC_CODEC_ID <= i <= ENC_COLOR_FORMATS }
  predicate IsVPPProp(i: int) { VPP_FILTER_FOURCC <= i <= VPP_OUT_FORMAT }
  predicate IsExtDevProp(i: int) { EXTDEV_VENDOR_ID <= i <= EXTDEV_DEVICE_NAME }
  predicate IsSurfaceProp(i: int) { SURFACE_SURFACE_TYPE <= i <= SURFACE_SURFACE_FLAGS }
  predicate IsVersionProp(i: int) { MAIN_API_VERSION <= i <= MAIN_API_VERSION_MINOR }

  predicate IsRangeProp(i: int) {
    i == DEC_WIDTH || i == DEC_HEIGHT || i == ENC_WIDTH || i == ENC_HEIGHT || i == VPP_WIDTH || i == VPP_HEIGHT
  }

  predicate IsTextProp(i: int) {
    || MAIN_IMPL_NAME <= i <= MAIN_KEYWORDS || i == DEVICE_DEVICE_ID_STR
    || i == EXTDEV_DEVICE_NAME || i == FUNC_FUNCTION_NAME
  }

  predicate IsU16Prop(i: int) {
    || i == MAIN_API_VERSION_MAJOR || i == MAIN_API_VERSION_MINOR
    || i == DEVICE_DEVICE_ID || i == DEVICE_MEDIA_ADAPTER_TYPE
    || i == DEC_MAXCODEC_LEVEL || i == ENC_MAXCODEC_LEVEL || i == ENC_BIDIRECTIONAL_PREDICTION
    || i == VPP_MAX_DELAY_IN_FRAMES
    || i == EXTDEV_VENDOR_ID || i == EXTDEV_DEVICE_ID || i == EXTDEV_REVISION_ID || i == SPECIAL_DEVICE_COPY
  }

  // The type column of the property table.
  function TypeOf(i: int): VariantType {
    if IsRangeProp(i) || IsTextProp(i) || i == EXTDEV_DEVICE_LUID || i == SPECIAL_HANDLE || i == SPECIAL_EXT_BUFFER
    then TypePtr
    else if IsU16Prop(i) then TypeU16
    else TypeU32
  }

  // ---- resolving a dotted name ---------------------------------------------------------

  // GetNextProp: the front of the token list, or "" when the list is exhausted.
  function Next(ts: seq<string>): string { if ts == [] then "" else ts[0] }
  function After(ts: seq<string>): seq<string> { if ts == [] then [] else ts[1..] }

  const NOT_A_PROP := -1

  function ResolveDec(ts: seq<string>): int {
    var t1 := After(ts);
    var t2 := After(t1);
    var t3 := After(t2);
    if Next(ts) != "decoder" then NOT_A_PROP
    else if Next(t1) == "CodecID" then DEC_CODEC_ID
    else if Next(t1) == "MaxcodecLevel" then DEC_MAXCODEC_LEVEL
    else if Next(t1) != "decprofile" then NOT_A_PROP
    else if Next(t2) == "Profile" then DEC_PROFILE
    else if Next(t2) != "decmemdesc" then NOT_A_PROP
    else if Next(t3) == "MemHandleType" then DEC_MEM_HANDLE_TYPE
    else if Next(t3) == "Width" then DEC_WIDTH
    else if Next(t3) == "Height" then DEC_HEIGHT
    else if Next(t3) == "ColorFormat" || Next(t3) == "ColorFormats" then DEC_COLOR_FORMATS
    else NOT_A_PROP
  }

  function ResolveEnc(ts: seq<string>): int {
    var t1 := After(ts);
    var t2 := After(t1);
    var t3 := After(t2);
    if Next(ts) != "encoder" then NOT_A_PROP
    else if Next(t1) == "CodecID" then ENC_CODEC_ID
    else if Next(t1) == "MaxcodecLevel" then ENC_MAXCODEC_LEVEL
    else if Next(t1) == "BiDirectionalPrediction" then ENC_BIDIRECTIONAL_PREDICTION
    else if Next(t1) != "encprofile" then NOT_A_PROP
    else if Next(t2) == "Profile" then ENC_PROFILE
    else if Next(t2) != "encmemdesc" then NOT_A_PROP
    else if Next(t3) == "MemHandleType" then ENC_MEM_HANDLE_TYPE
    else if Next(t3) == "Width" then ENC_WIDTH
    else if Next(t3) == "Height" then ENC_HEIGHT
    else if Next(t3) == "ColorFormat" || Next(t3) == "ColorFormats" then ENC_COLOR_FORMATS
    else NOT_A_PROP
  }

  function ResolveVPP(ts: seq<string>): int {
    var t1 := After(ts);
    var t2 := After(t1);
    var t3 := After(t2);
    if Next(ts) != "filter" then NOT_A_PROP
    else if Next(t1) == "FilterFourCC" then VPP_FILTER_FOURCC
    else if Next(t1) == "MaxDelayInFrames" then VPP_MAX_DELAY_IN_FRAMES
    else if Next(t1) != "memdesc" then NOT_A_PROP
    else if Next(t2) == "MemHandleType" then VPP_MEM_HANDLE_TYPE
    else if Next(t2) == "Width" then VPP_WIDTH
    else if Next(t2) == "Height" then VPP_HEIGHT
    else if Next(t2) != "format" then NOT_A_PROP
    else if Next(t3) == "InFormat" then VPP_IN_FORMAT
    else if Next(t3) == "OutFormat" || Next(t3) == "OutFormats" then VPP_OUT_FORMAT
    else NOT_A_PROP
  }

  function ResolveExtDev(ts: seq<string>): int {
    if Next(ts) == "VendorID" then EXTDEV_VENDOR_ID
    else if Next(ts) == "DeviceID" then EXTDEV_DEVICE_ID
    else if Next(ts) == "PCIDomain" then EXTDEV_PCI_DOMAIN
    else if Next(ts) == "PCIBus" then EXTDEV_PCI_BUS
    else if Next(ts) == "PCIDevice" then EXTDEV_PCI_DEVICE
    else if Next(ts) == "PCIFunction" then EXTDEV_PCI_FUNCTION
    else if Next(ts) == "DeviceLUID" then EXTDEV_DEVICE_LUID
    else if Next(ts) == "LUIDDeviceNodeMask" then EXTDEV_LUID_DEVICE_NODE_MASK
    else if Next(ts) == "DRMRenderNodeNum" then EXTDEV_DRM_RENDER_NODE_NUM
    else if Next(ts) == "DRMPrimaryNodeNum" then EXTDEV_DRM_PRIMARY_NODE_NUM
    else if Next(ts) == "RevisionID" then EXTDEV_REVISION_ID
    else if Next(ts) == "DeviceName" then EXTDEV_DEVICE_NAME
    else NOT_A_PROP
  }

  // Members of mfxImplDescription. A DeviceID names two slots, told apart by the value type.
  function ResolveImpl(ts: seq<string>, isPtr: bool): int {
    var t1 := After(ts);
    if Next(ts) == "Impl" then MAIN_IMPL
    else if Next(ts) == "AccelerationMode" then MAIN_ACCELERATION_MODE
    else if Next(ts) == "mfxSurfacePoolMode" then MAIN_POOL_ALLOCATION_POLICY
    else if Next(ts) == "ApiVersion" then
      if Next(t1) == "Version" then MAIN_API_VERSION
      else if Next(t1) == "Major" then MAIN_API_VERSION_MAJOR
      else if Next(t1) == "Minor" then MAIN_API_VERSION_MINOR
      else NOT_A_PROP
    else if Next(ts) == "VendorID" then MAIN_VENDOR_ID
    else if Next(ts) == "ImplName" then MAIN_IMPL_NAME
    else if Next(ts) == "License" then MAIN_LICENSE
    else if Next(ts) == "Keywords" then MAIN_KEYWORDS
    else if Next(ts) == "VendorImplID" then MAIN_VENDOR_IMPL_ID
    else if Next(ts) == "mfxDeviceDescription" then
      var t2 := if Next(t1) == "device" then After(t1) else t1;
      if Next(t2) == "DeviceID" then if isPtr then DEVICE_DEVICE_ID_STR else DEVICE_DEVICE_ID
      else if Next(t2) == "MediaAdapterType" then DEVICE_MEDIA_ADAPTER_TYPE
      else NOT_A_PROP
    else if Next(ts) == "mfxDecoderDescription" then ResolveDec(t1)
    else if Next(ts) == "mfxEncoderDescription" then ResolveEnc(t1)
    else if Next(ts) == "mfxVPPDescription" then ResolveVPP(t1)
    else NOT_A_PROP
  }

  // The special properties, which are not part of any description structure.
  function ResolveSpecial(ts: seq<string>, windows: bool): int {
    if Next(ts) == "mfxHandleType" then SPECIAL_HANDLE_TYPE
    else if Next(ts) == "mfxHDL" then SPECIAL_HANDLE
    else if Next(ts) == "NumThread" then SPECIAL_NUM_THREAD
    else if Next(ts) == "ExtBuffer" then SPECIAL_EXT_BUFFER
    else if Next(ts) == "DXGIAdapterIndex" && windows then SPECIAL_DXGI_ADAPTER_INDEX
    else if Next(ts) == "mfxImplementedFunctions" && Next(After(ts)) == "FunctionsName" then FUNC_FUNCTION_NAME
    else NOT_A_PROP
  }

  // The slot a parsed name selects, or NOT_A_PROP. Reading stops at the first full match.
  function Resolve(ts: seq<string>, isPtr: bool, windows: bool): int {
    if Next(ts) == "mfxImplDescription" then ResolveImpl(After(ts), isPtr)
    else if Next(ts) == "mfxExtendedDeviceId" then ResolveExtDev(After(ts))
    else ResolveSpecial(ts, windows)
  }

  // ---- which slots a name can reach ------------------------------------------------------

  // Without the experimental build no name leads to the surface slots or to DeviceCopy, and
  // the adapter index exists on Windows only.
  predicate Settable(i: int, windows: bool) {
    IsProp(i) && !IsSurfaceProp(i) && i != SPECIAL_DEVICE_COPY && (i == SPECIAL_DXGI_ADAPTER_INDEX ==> windows)
  }

  function DecName(i: int): seq<string> {
    if i == DEC_CODEC_ID then ["decoder", "CodecID"]
    else if i == DEC_MAXCODEC_LEVEL then ["decoder", "MaxcodecLevel"]
    else if i == DEC_PROFILE then ["decoder", "decprofile", "Profile"]
    else if i == DEC_MEM_HANDLE_TYPE then ["decoder", "decprofile", "decmemdesc", "MemHandleType"]
    else if i == DEC_WIDTH then ["decoder", "decprofile", "decmemdesc", "Width"]
    else if i == DEC_HEIGHT then ["decoder", "decprofile", "decmemdesc", "Height"]
    else ["decoder", "decprofile", "decmemdesc", "ColorFormats"]
  }

  function EncName(i: int): seq<string> {
    if i == ENC_CODEC_ID then ["encoder", "CodecID"]
    else if i == ENC_MAXCODEC_LEVEL then ["encoder", "MaxcodecLevel"]
    else if i == ENC_BIDIRECTIONAL_PREDICTION then ["encoder", "BiDirectionalPrediction"]
    else if i == ENC_PROFILE then ["encoder", "encprofile", "Profile"]
    else if i == ENC_MEM_HANDLE_TYPE then ["encoder", "encprofile", "encmemdesc", "MemHandleType"]
    else if i == ENC_WIDTH then ["encoder", "encprofile", "encmemdesc", "Width"]
    else if i == ENC_HEIGHT then ["encoder", "encprofile", "encmemdesc", "Height"]
    else ["encoder", "encprofile", "encmemdesc", "ColorFormats"]
  }

  function VPPName(i: int): seq<string> {
    if i == VPP_FILTER_FOURCC then ["filter", "FilterFourCC"]
    else if i == VPP_MAX_DELAY_IN_FRAMES then ["filter", "MaxDelayInFrames"]
    else if i == VPP_MEM_HANDLE_TYPE then ["filter", "memdesc", "MemHandleType"]
    else if i == VPP_WIDTH then ["filter", "memdesc", "Width"]
    else if i == VPP_HEIGHT then ["filter", "memdesc", "Height"]
    else if i == VPP_IN_FORMAT then ["filter", "memdesc", "format", "InFormat"]
    else ["filter", "memdesc", "format", "OutFormats"]
  }

  function ExtDevName(i: int): seq<string> {
    if i == EXTDEV_VENDOR_ID then ["VendorID"]
    else if i == EXTDEV_DEVICE_ID then ["DeviceID"]
    else if i == EXTDEV_PCI_DOMAIN then ["PCIDomain"]
    else if i == EXTDEV_PCI_BUS then ["PCIBus"]
    else if i == EXTDEV_PCI_DEVICE then ["PCIDevice"]
    else if i == EXTDEV_PCI_FUNCTION then ["PCIFunction"]
    else if i == EXTDEV_DEVICE_LUID then ["DeviceLUID"]
    else if i == EXTDEV_LUID_DEVICE_NODE_MASK then ["LUIDDeviceNodeMask"]
    else if i == EXTDEV_DRM_RENDER_NODE_NUM then ["DRMRenderNodeNum"]
    else if i == EXTDEV_DRM_PRIMARY_NODE_NUM then ["DRMPrimaryNodeNum"]
    else if i == EXTDEV_REVISION_ID then ["RevisionID"]
    else ["DeviceName"]
  }

  function MainName(i: int): seq<string> {
    if i == MAIN_IMPL then ["Impl"]
    else if i == MAIN_ACCELERATION_MODE then ["AccelerationMode"]
    else if i == MAIN_API_VERSION then ["ApiVersion", "Version"]
    else if i == MAIN_API_VERSION_MAJOR then ["ApiVersion", "Major"]
    else if i == MAIN_API_VERSION_MINOR then ["ApiVersion", "Minor"]
    else if i == MAIN_IMPL_NAME then ["ImplName"]
    else if i == MAIN_LICENSE then ["License"]
    else if i == MAIN_KEYWORDS then ["Keywords"]
    else if i == MAIN_VENDOR_ID then ["VendorID"]
    else if i == MAIN_VENDOR_IMPL_ID then ["VendorImplID"]
    else if i == MAIN_POOL_ALLOCATION_POLICY then ["mfxSurfacePoolMode"]
    else if i == DEVICE_MEDIA_ADAPTER_TYPE then ["mfxDeviceDescription", "MediaAdapterType"]
    else ["mfxDeviceDescription", "DeviceID"]
  }

  // A documented name for every settable slot.
  function NameOf(i: int): seq<string> {
    if i < DEC_CODEC_ID then ["mfxImplDescription"] + MainName(i)
    else if IsDecProp(i) then ["mfxImplDescription", "mfxDecoderDescription"] + DecName(i)
    else if IsEncProp(i) then ["mfxImplDescription", "mfxEncoderDescription"] + EncName(i)
    else if IsVPPProp(i) then ["mfxImplDescription", "mfxVPPDescription"] + VPPName(i)
    else if IsExtDevProp(i) then ["mfxExtendedDeviceId"] + ExtDevName(i)
    else if i == SPECIAL_HANDLE_TYPE then ["mfxHandleType"]
    else if i == SPECIAL_HANDLE then ["mfxHDL"]
    else if i == SPECIAL_NUM_THREAD then ["NumThread"]
    else if i == SPECIAL_EXT_BUFFER then ["ExtBuffer"]
    else if i == SPECIAL_DXGI_ADAPTER_INDEX then ["DXGIAdapterIndex"]
    else ["mfxImplementedFunctions", "FunctionsName"]
  }

  lemma DecNameResolves(i: int)
    requires IsDecProp(i)
    ensures ResolveDec(DecName(i)) == i
  {}

  lemma EncNameResolves(i: int)
    requires IsEncProp(i)
    ensures ResolveEnc(EncName(i)) == i
  {}

  lemma VPPNameResolves(i: int)
    requires IsVPPProp(i)
    ensures ResolveVPP(VPPName(i)) == i
  {}

  lemma ExtDevNameResolves(i: int)
    requires IsExtDevProp(i)
    ensures ResolveExtDev(ExtDevName(i)) == i
  {}

  lemma MainNameResolves(i: int)
    requires 0 <= i < DEC_CODEC_ID
    ensures ResolveImpl(MainName(i), i == DEVICE_DEVICE_ID_STR) == i
  {}

  lemma SpecialNameResolves(i: int, windows: bool)
    requires Settable(i, windows) && i > EXTDEV_DEVICE_NAME
    ensures ResolveSpecial(NameOf(i), windows) == i
    ensures Next(NameOf(i)) != "mfxImplDescription" && Next(NameOf(i)) != "mfxExtendedDeviceId"
  {}

  lemma ImplNameResolves(i: int)
    requires 0 <= i <= VPP_OUT_FORMAT
    ensures ResolveImpl(NameOf(i)[1..], i == DEVICE_DEVICE_ID_STR) == i && Next(NameOf(i)) == "mfxImplDescription"
  {
    hide ResolveDec, ResolveEnc, ResolveVPP, DecName, EncName, VPPName, MainName;
    var ts := NameOf(i)[1..];
    if i < DEC_CODEC_ID {
      MainNameResolves(i);
      assert ts == MainName(i);
    } else if IsDecProp(i) {
      DecNameResolves(i);
      assert ts[1..] == DecName(i);
    } else if IsEncProp(i) {
      EncNameResolves(i);
      assert ts[1..] == EncName(i);
    } else {
      VPPNameResolves(i);
      assert ts[1..] == VPPName(i);
    }
  }

  lemma NameOfResolves(i: int, windows: bool)
    requires Settable(i, windows)
    ensures Resolve(NameOf(i), i == DEVICE_DEVICE_ID_STR, windows) == i
  {
    if i <= VPP_OUT_FORMAT {
      ImplNameResolves(i);
    } else if IsExtDevProp(i) {
      ExtDevNameResolves(i);
      assert NameOf(i)[1..] == ExtDevName(i);
    } else {
      SpecialNameResolves(i, windows);
    }
  }

  lemma ResolveImplRange(ts: seq<string>, isPtr: bool)
    ensures -1 <= ResolveImpl(ts, isPtr) <= VPP_OUT_FORMAT
  {
    hide Next, After, ResolveDec, ResolveEnc, ResolveVPP;
    ResolveTreeRange(After(ts));
  }

  lemma ResolveTreeRange(ts: seq<string>)
    ensures ResolveDec(ts) == NOT_A_PROP || IsDecProp(ResolveDec(ts))
    ensures ResolveEnc(ts) == NOT_A_PROP || IsEncProp(ResolveEnc(ts))
    ensures ResolveVPP(ts) == NOT_A_PROP || IsVPPProp(ResolveVPP(ts))
  {
    hide Next, After;
  }

  lemma ResolveExtDevRange(ts: seq<string>)
    ensures ResolveExtDev(ts) == NOT_A_PROP || IsExtDevProp(ResolveExtDev(ts))
  {}

  // Tokens that survive being written as one dotted name.
  predicate PlainToken(t: string) { t != "" && '.' !in t }
  predicate PlainTokens(ts: seq<string>) { ts != [] && forall k | 0 <= k < |ts| :: PlainToken(ts[k]) }

  lemma DecNamePlain(i: int)
    ensures PlainTokens(DecName(i))
  {}

  lemma EncNamePlain(i: int)
    ensures PlainTokens(EncName(i))
  {}

  lemma VPPNamePlain(i: int)
    ensures PlainTokens(VPPName(i))
  {}

  lemma ExtDevNamePlain(i: int)
    ensures PlainTokens(ExtDevName(i))
  {}

  lemma MainWordsPlain()
    ensures PlainToken("Impl") && PlainToken("AccelerationMode") && PlainToken("ApiVersion") && PlainToken("Version")
    ensures PlainToken("Major") && PlainToken("Minor") && PlainToken("ImplName") && PlainToken("License")
  {}

  lemma LastWordsPlain()
    ensures PlainToken("Keywords") && PlainToken("VendorID") && PlainToken("VendorImplID")
    ensures PlainToken("mfxSurfacePoolMode")
    ensures PlainToken("mfxDeviceDescription") && PlainToken("MediaAdapterType") && PlainToken("DeviceID")
  {}

  lemma MainNamePlain(i: int)
    ensures PlainTokens(MainName(i))
  {
    hide PlainToken;
    MainWordsPlain();
    LastWordsPlain();
  }

  lemma PrefixPlain()
    ensures PlainToken("mfxImplDescription") && PlainToken("mfxDecoderDescription")
            && PlainToken("mfxEncoderDescription")
    ensures PlainToken("mfxVPPDescription") && PlainToken("mfxExtendedDeviceId")
  {}

  lemma SpecialNamePlain()
    ensures PlainToken("mfxHandleType") && PlainToken("mfxHDL") && PlainToken("NumThread") && PlainToken("ExtBuffer")
    ensures PlainToken("DXGIAdapterIndex") && PlainToken("mfxImplementedFunctions") && PlainToken("FunctionsName")
  {}

  lemma NamePlain(i: int)
    ensures PlainTokens(NameOf(i))
  {
    hide PlainToken, DecName, EncName, VPPName, ExtDevName, MainName;
    PrefixPlain();
    SpecialNamePlain();
    DecNamePlain(i);
    EncNamePlain(i);
    VPPNamePlain(i);
    ExtDevNamePlain(i);
    MainNamePlain(i);
  }

  // The documented name of a slot, as the application writes it.
  function DottedName(i: int): string { Join(NameOf(i), '.') }

  lemma DottedNameSplits(i: int)
    ensures Split(DottedName(i), '.') == NameOf(i)
  {
    NamePlain(i);
    SplitOfJoin(NameOf(i), '.');
  }

  // Names reach exactly the settable slots, and each of these through its documented name.
  lemma ResolveReaches(i: int, windows: bool)
    requires i != NOT_A_PROP
    ensures Settable(i, windows) <==> exists name, isPtr :: Resolve(Split(name, '.'), isPtr, windows) == i
    ensures Settable(i, windows) ==> Resolve(Split(DottedName(i), '.'), i == DEVICE_DEVICE_ID_STR, windows) == i
  {
    hide DottedName;
    if Settable(i, windows) {
      NameOfResolves(i, windows);
      DottedNameSplits(i);
    } else {
      forall name: string, isPtr ensures Resolve(Split(name, '.'), isPtr, windows) != i {
        OnlySettableReached(Split(name, '.'), isPtr, windows);
      }
    }
  }

  // No list of tokens at all leads to any other slot.
  lemma OnlySettableReached(ts: seq<string>, isPtr: bool, windows: bool)
    ensures var i := Resolve(ts, isPtr, windows); i == NOT_A_PROP || Settable(i, windows)
  {
    ResolveImplRange(After(ts), isPtr);
    ResolveExtDevRange(After(ts));
  }

  lemma ResolveDecStable(ts: seq<string>, more: seq<string>)
    requires ResolveDec(ts) != NOT_A_PROP
    ensures ResolveDec(ts + more) == ResolveDec(ts)
  {
    hide Next, After;
    AfterPrefix(ts, more);
    AfterPrefix(After(ts), more);
    AfterPrefix(After(After(ts)), more);
    AfterPrefix(After(After(After(ts))), more);
  }

  lemma ResolveEncStable(ts: seq<string>, more: seq<string>)
    requires ResolveEnc(ts) != NOT_A_PROP
    ensures ResolveEnc(ts + more) == ResolveEnc(ts)
  {
    hide Next, After;
    AfterPrefix(ts, more);
    AfterPrefix(After(ts), more);
    AfterPrefix(After(After(ts)), more);
    AfterPrefix(After(After(After(ts))), more);
  }

  lemma ResolveVPPStable(ts: seq<string>, more: seq<string>)
    requires ResolveVPP(ts) != NOT_A_PROP
    ensures ResolveVPP(ts + more) == ResolveVPP(ts)
  {
    hide Next, After;
    AfterPrefix(ts, more);
    AfterPrefix(After(ts), more);
    AfterPrefix(After(After(ts)), more);
    AfterPrefix(After(After(After(ts))), more);
  }

  lemma ResolveImplStable(ts: seq<string>, more: seq<string>, isPtr: bool)
    requires ResolveImpl(ts, isPtr) != NOT_A_PROP
    ensures ResolveImpl(ts + more, isPtr) == ResolveImpl(ts, isPtr)
  {
    hide Next, After, ResolveDec, ResolveEnc, ResolveVPP;
    AfterPrefix(ts, more);
    var t1 := After(ts);
    if Next(ts) == "mfxDecoderDescription" {
      ResolveDecStable(t1, more);
    } else if Next(ts) == "mfxEncoderDescription" {
      ResolveEncStable(t1, more);
    } else if Next(ts) == "mfxVPPDescription" {
      ResolveVPPStable(t1, more);
    } else {
      AfterPrefix(t1, more);
      AfterPrefix(After(t1), more);
    }
  }

  lemma ResolveExtDevStable(ts: seq<string>, more: seq<string>)
    requires ResolveExtDev(ts) != NOT_A_PROP
    ensures ResolveExtDev(ts + more) == ResolveExtDev(ts)
  {
    AfterPrefix(ts, more);
  }

  lemma ResolveSpecialStable(ts: seq<string>, more: seq<string>, windows: bool)
    requires ResolveSpecial(ts, windows) != NOT_A_PROP
    ensures ResolveSpecial(ts + more, windows) == ResolveSpecial(ts, windows)
  {
    AfterPrefix(ts, more);
    AfterPrefix(ts[1..], more);
  }

  // Once a name is complete, any further components are ignored.
  lemma ResolveStable(ts: seq<string>, more: seq<string>, isPtr: bool, windows: bool)
    requires Resolve(ts, isPtr, windows) != NOT_A_PROP
    ensures Resolve(ts + more, isPtr, windows) == Resolve(ts, isPtr, windows)
  {
    if Next(ts) == "mfxImplDescription" {
      AfterPrefix(ts, more);
      ResolveImplStable(ts[1..], more, isPtr);
    } else if Next(ts) == "mfxExtendedDeviceId" {
      AfterPrefix(ts, more);
      ResolveExtDevStable(ts[1..], more);
    } else {
      ResolveSpecialStable(ts, more, windows);
      if ts != [] { AfterPrefix(ts, more); }
    }
  }

  lemma AfterPrefix(ts: seq<string>, more: seq<string>)
    ensures Next(ts) != "" ==> ts != [] && ts[1..] == After(ts)
    ensures Next(ts) != "" ==> Next(ts + more) == Next(ts) && After(ts + more) == After(ts) + more
  {
    if ts != [] { assert (ts + more)[1..] == ts[1..] + more; }
  }

  lemma NamePrefixStable(name: string, more: string, isPtr: bool, windows: bool)
    requires Resolve(Split(name, '.'), isPtr, windows) != NOT_A_PROP
    ensures Resolve(Split(name + "." + more, '.'), isPtr, windows) == Resolve(Split(name, '.'), isPtr, windows)
  {
    hide Resolve, Split;
    SplitPrefix(name, more, '.');
    var ts, all := Split(name, '.'), Split(name + "." + more, '.');
    assert all == ts + all[|ts|..];
    ResolveStable(ts, all[|ts|..], isPtr, windows);
  }
}
