// What each documented property asks for, from the dotted name the application writes to the field of
// the description it is compared with.
module FilterMeaning {
  import opened CapsTree
  import opened Config
  import opened DeviceId
  import opened FilterLaws
  import opened Filters
  import opened ImplOrder
  import opened LoaderState
  import opened PropNames
  import opened Special
  import opened Tokens
  import opened VplTypes

  // The verdict on an implementation of a single new configuration in which just one property is set,
  // or None if the call that sets it fails. The name is given by the components between its dots.
  ghost function Verdict(name: seq<string>, v: Variant, p: Caps, lt: LibType, windows: bool): Option<bool> {
    var (sts, c) := AfterSet(EmptyConfig(), Some(Join(name, '.')), v, windows);
    if sts != ErrNone then None else Some(Accepts(p, [c], lt))
  }

  function U16(n: nat): Variant { Scalar(TypeU16, n) }
  function U32(n: nat): Variant { Scalar(TypeU32, n) }
  function To(q: Pointee): Variant { Pointer(Some(q)) }

  // The numbers that are read out of a 64-bit value.
  function Low16(n: nat): u16 { n % 0x1_0000 }
  function Low32(n: nat): u32 { n % 0x1_0000_0000 }

  // ---- reaching a slot by name ---------------------------------------------------------------------

  // Only the two forms of the device id depend on whether the value is a pointer.
  lemma EitherPointer(i: int, isPtr: bool, windows: bool)
    requires Settable(i, windows) && i != DEVICE_DEVICE_ID_STR && i != DEVICE_DEVICE_ID
    ensures Resolve(NameOf(i), isPtr, windows) == Resolve(NameOf(i), false, windows)
  {
    hide DecName, EncName, VPPName, ExtDevName, ResolveDec, ResolveEnc, ResolveVPP, ResolveExtDev;
  }

  lemma SetByName(c: Config, i: int, v: Variant, windows: bool)
    requires Settable(i, windows) && v.Type() == TypeOf(i)
    ensures AfterSet(c, Some(DottedName(i)), v, windows) == AfterStore(c, i, v)
  {
    hide NameOf, Resolve;
    ResolveReaches(i, windows);
    DottedNameSplits(i);
    if i != DEVICE_DEVICE_ID_STR && i != DEVICE_DEVICE_ID { EitherPointer(i, v.Type() == TypePtr, windows); }
  }

  // A configuration with just one slot set.
  function With(i: int, d: Data): Config
    requires IsProp(i) && DataFits(i, d)
  {
    EmptyConfig()[i := Slot(TypeOf(i), d)]
  }

  lemma WithSets(i: int, d: Data)
    requires IsProp(i) && DataFits(i, d)
    ensures forall k :: IsSet(With(i, d), k) <==> k == i
    ensures With(i, d)[i].data == d
  {}

  // Setting a property by its documented name yields the verdict on its value alone.
  lemma ByName(i: int, name: seq<string>, v: Variant, d: Data, p: Caps, lt: LibType, windows: bool)
    requires Settable(i, windows) && name == NameOf(i) && v.Type() == TypeOf(i) && (v.Pointer? ==> v.target.Some?)
    requires d == Stored(i, v, EmptyConfig()[i].data) && DataFits(i, d)
    ensures Verdict(name, v, p, lt, windows) == Some(Accepts(p, [With(i, d)], lt))
  {
    hide NameOf, Accepts;
    SetByName(EmptyConfig(), i, v, windows);
  }

  // ---- one property set: what the verdict comes down to --------------------------------------------

  lemma WithGroups(i: int, d: Data)
    requires IsProp(i) && DataFits(i, d)
    ensures forall g :: Has(With(i, d), g) <==> GroupOf(i) == Some(g)
  {
    hide With, GroupOf;
    WithSets(i, d);
    forall g ensures Has(With(i, d), g) <==> GroupOf(i) == Some(g) {
      if GroupOf(i) == Some(g) { assert InGroup(With(i, d), i, g); }
    }
  }

  lemma WithNoVersion(i: int, d: Data)
    requires IsProp(i) && DataFits(i, d) && !IsVersionProp(i)
    ensures RequestedVersion([With(i, d)]) == None
  {
    hide With;
    WithSets(i, d);
    var c := With(i, d);
    assert LastMajor([c]) == None && LastMinor([c]) == None by {
      assert [c][..0] == [];
    }
  }

  lemma AcceptsWith(i: int, d: Data, p: Caps, lt: LibType)
    requires IsProp(i) && DataFits(i, d) && !IsVersionProp(i)
    ensures var c := With(i, d); Accepts(p, [c], lt) <==> ConfigAccepts(c, p.desc, p.ext, lt) && FunctionOk(c, p.funcs)
  {
    hide With, ConfigAccepts, FunctionOk;
    WithNoVersion(i, d);
  }

  lemma AcceptsGeneral(i: int, d: Data, p: Caps, lt: LibType)
    requires IsGeneralProp(i) && DataFits(i, d)
    ensures Accepts(p, [With(i, d)], lt) <==> MeetsGeneral(i, d, p.desc)
  {
    hide Accepts, MeetsGeneral, With, Has;
    WithSets(i, d);
    WithGroups(i, d);
    AcceptsWith(i, d, p, lt);
  }

  lemma AcceptsExtDev(i: int, d: Data, p: Caps, lt: LibType)
    requires IsExtDevProp(i) && DataFits(i, d)
    ensures Accepts(p, [With(i, d)], lt) <==> p.ext.Some? && MeetsExtDev(i, d, p.ext.value)
  {
    hide Accepts, MeetsExtDev, With, Has;
    WithSets(i, d);
    WithGroups(i, d);
    AcceptsWith(i, d, p, lt);
  }

  lemma AcceptsDec(i: int, d: Data, p: Caps, lt: LibType)
    requires IsDecProp(i) && DataFits(i, d)
    ensures Accepts(p, [With(i, d)], lt) <==>
            lt == LibTypeMSDK || exists x: DecLeaf :: HasPath(p.desc.dec, x) && MeetsDec(i, d, x)
  {
    hide Accepts, MeetsDec, With, Has, HasPath;
    WithSets(i, d);
    WithGroups(i, d);
    AcceptsWith(i, d, p, lt);
    assert forall x: DecLeaf :: DecLeafOk(With(i, d), x) <==> MeetsDec(i, d, x);
  }

  lemma AcceptsEnc(i: int, d: Data, p: Caps, lt: LibType)
    requires IsEncProp(i) && DataFits(i, d)
    ensures Accepts(p, [With(i, d)], lt) <==>
            lt == LibTypeMSDK || exists x: EncLeaf :: HasPath(p.desc.enc, x) && MeetsEnc(i, d, x)
  {
    hide Accepts, MeetsEnc, With, Has, HasPath;
    WithSets(i, d);
    WithGroups(i, d);
    AcceptsWith(i, d, p, lt);
    assert forall x: EncLeaf :: EncLeafOk(With(i, d), x) <==> MeetsEnc(i, d, x);
  }

  lemma AcceptsVPP(i: int, d: Data, p: Caps, lt: LibType)
    requires IsVPPProp(i) && DataFits(i, d)
    ensures Accepts(p, [With(i, d)], lt) <==>
            lt == LibTypeMSDK || exists x: VPPLeaf :: HasPath(p.desc.vpp, x) && MeetsVPP(i, d, x)
  {
    hide Accepts, MeetsVPP, With, Has, HasPath;
    WithSets(i, d);
    WithGroups(i, d);
    AcceptsWith(i, d, p, lt);
    assert forall x: VPPLeaf :: VPPLeafOk(With(i, d), x) <==> MeetsVPP(i, d, x);
  }

  // Functions, and the properties that only concern sessions.
  lemma AcceptsOther(i: int, d: Data, p: Caps, lt: LibType)
    requires SPECIAL_HANDLE_TYPE <= i <= FUNC_FUNCTION_NAME && DataFits(i, d)
    ensures Accepts(p, [With(i, d)], lt) <==>
            (i == FUNC_FUNCTION_NAME ==> p.funcs.Some? && d.text in p.funcs.value)
  {
    hide Accepts, With, Has;
    WithSets(i, d);
    WithGroups(i, d);
    AcceptsWith(i, d, p, lt);
  }

  predicate IsOtherProp(i: int) { SPECIAL_HANDLE_TYPE <= i <= FUNC_FUNCTION_NAME }

  // ---- by name ---------------------------------------------------------------------------------------

  lemma GeneralByName(i: int, name: seq<string>, v: Variant, d: Data, p: Caps, lt: LibType, windows: bool)
    requires IsGeneralProp(i) && name == NameOf(i) && v.Type() == TypeOf(i) && (v.Pointer? ==> v.target.Some?)
    requires d == Stored(i, v, EmptyConfig()[i].data) && DataFits(i, d)
    ensures Verdict(name, v, p, lt, windows) == Some(MeetsGeneral(i, d, p.desc))
  {
    hide Verdict, Accepts, With, NameOf, Stored, HasPath;
    ByName(i, name, v, d, p, lt, windows);
    AcceptsGeneral(i, d, p, lt);
  }

  lemma ExtDevByName(i: int, name: seq<string>, v: Variant, d: Data, p: Caps, lt: LibType, windows: bool)
    requires IsExtDevProp(i) && name == NameOf(i) && v.Type() == TypeOf(i) && (v.Pointer? ==> v.target.Some?)
    requires d == Stored(i, v, EmptyConfig()[i].data) && DataFits(i, d)
    ensures Verdict(name, v, p, lt, windows) == Some(p.ext.Some? && MeetsExtDev(i, d, p.ext.value))
  {
    hide Verdict, Accepts, With, NameOf, Stored, HasPath;
    ByName(i, name, v, d, p, lt, windows);
    AcceptsExtDev(i, d, p, lt);
  }

  lemma DecByName(i: int, name: seq<string>, v: Variant, d: Data, p: Caps, lt: LibType, windows: bool)
    requires IsDecProp(i) && name == NameOf(i) && v.Type() == TypeOf(i) && (v.Pointer? ==> v.target.Some?)
    requires d == Stored(i, v, EmptyConfig()[i].data) && DataFits(i, d)
    ensures Verdict(name, v, p, lt, windows) ==
            Some(lt == LibTypeMSDK || exists x: DecLeaf :: HasPath(p.desc.dec, x) && MeetsDec(i, d, x))
  {
    hide Verdict, Accepts, With, NameOf, Stored, HasPath;
    ByName(i, name, v, d, p, lt, windows);
    AcceptsDec(i, d, p, lt);
  }

  lemma EncByName(i: int, name: seq<string>, v: Variant, d: Data, p: Caps, lt: LibType, windows: bool)
    requires IsEncProp(i) && name == NameOf(i) && v.Type() == TypeOf(i) && (v.Pointer? ==> v.target.Some?)
    requires d == Stored(i, v, EmptyConfig()[i].data) && DataFits(i, d)
    ensures Verdict(name, v, p, lt, windows) ==
            Some(lt == LibTypeMSDK || exists x: EncLeaf :: HasPath(p.desc.enc, x) && MeetsEnc(i, d, x))
  {
    hide Verdict, Accepts, With, NameOf, Stored, HasPath;
    ByName(i, name, v, d, p, lt, windows);
    AcceptsEnc(i, d, p, lt);
  }

  lemma VPPByName(i: int, name: seq<string>, v: Variant, d: Data, p: Caps, lt: LibType, windows: bool)
    requires IsVPPProp(i) && name == NameOf(i) && v.Type() == TypeOf(i) && (v.Pointer? ==> v.target.Some?)
    requires d == Stored(i, v, EmptyConfig()[i].data) && DataFits(i, d)
    ensures Verdict(name, v, p, lt, windows) ==
            Some(lt == LibTypeMSDK || exists x: VPPLeaf :: HasPath(p.desc.vpp, x) && MeetsVPP(i, d, x))
  {
    hide Verdict, Accepts, With, NameOf, Stored, HasPath;
    ByName(i, name, v, d, p, lt, windows);
    AcceptsVPP(i, d, p, lt);
  }

  lemma OtherByName(i: int, name: seq<string>, v: Variant, d: Data, p: Caps, lt: LibType, windows: bool)
    requires IsOtherProp(i) && Settable(i, windows) && name == NameOf(i)
    requires v.Type() == TypeOf(i) && (v.Pointer? ==> v.target.Some?)
    requires d == Stored(i, v, EmptyConfig()[i].data) && DataFits(i, d)
    ensures Verdict(name, v, p, lt, windows) ==
            Some(i == FUNC_FUNCTION_NAME ==> p.funcs.Some? && d.text in p.funcs.value)
  {
    hide Verdict, Accepts, With, NameOf, Stored, HasPath;
    ByName(i, name, v, d, p, lt, windows);
    AcceptsOther(i, d, p, lt);
  }

  // ---- the general description -----------------------------------------------------------------------

  lemma GeneralNumbers(p: Caps, lt: LibType, windows: bool, n: nat)
    ensures Verdict(["mfxImplDescription", "Impl"], U32(n), p, lt, windows) == Some(p.desc.impl == Low32(n))
    ensures Verdict(["mfxImplDescription", "VendorID"], U32(n), p, lt, windows) == Some(p.desc.vendorID == Low32(n))
    ensures Verdict(["mfxImplDescription", "VendorImplID"], U32(n), p, lt, windows) ==
            Some(p.desc.vendorImplID == Low32(n))
  {
    hide Verdict, Stoi, Split, HasPath, Join;
    GeneralByName(MAIN_IMPL, ["mfxImplDescription", "Impl"], U32(n), Num(n), p, lt, windows);
    GeneralByName(MAIN_VENDOR_ID, ["mfxImplDescription", "VendorID"], U32(n), Num(n), p, lt, windows);
    GeneralByName(MAIN_VENDOR_IMPL_ID, ["mfxImplDescription", "VendorImplID"], U32(n), Num(n), p, lt, windows);
  }

  lemma GeneralModes(p: Caps, lt: LibType, windows: bool, n: nat)
    ensures Verdict(["mfxImplDescription", "AccelerationMode"], U32(n), p, lt, windows) ==
            Some(if p.desc.accelerationModes != [] then Low32(n) in p.desc.accelerationModes
                 else p.desc.accelerationMode == Low32(n))
    ensures Verdict(["mfxImplDescription", "mfxSurfacePoolMode"], U32(n), p, lt, windows) ==
            Some(p.desc.structVersion >= 0x0102 && Low32(n) in p.desc.poolPolicies)
  {
    hide Verdict, Stoi, Split, HasPath, Join;
    GeneralByName(MAIN_ACCELERATION_MODE, ["mfxImplDescription", "AccelerationMode"], U32(n), Num(n), p, lt, windows);
    GeneralByName(MAIN_POOL_ALLOCATION_POLICY, ["mfxImplDescription", "mfxSurfacePoolMode"],
                  U32(n), Num(n), p, lt, windows);
  }

  lemma TokensMean(filt: string, impl: string)
    ensures TokensIncluded(filt, impl) <==> forall t | t in Split(filt, ',') :: t in Split(impl, ',')
  {
    forall t: string ensures t in TokenSet(filt) <==> t in Split(filt, ',') {}
    forall t: string ensures t in TokenSet(impl) <==> t in Split(impl, ',') {}
    assert TokensIncluded(filt, impl) <==> forall t | t in TokenSet(filt) :: t in TokenSet(impl);
  }

  lemma GeneralTexts(p: Caps, lt: LibType, windows: bool, q: Pointee)
    ensures Verdict(["mfxImplDescription", "ImplName"], To(q), p, lt, windows) == Some(p.desc.implName == q.asText)
    ensures Verdict(["mfxImplDescription", "License"], To(q), p, lt, windows) ==
            Some(forall t | t in Split(q.asText, ',') :: t in Split(p.desc.license, ','))
    ensures Verdict(["mfxImplDescription", "Keywords"], To(q), p, lt, windows) ==
            Some(forall t | t in Split(q.asText, ',') :: t in Split(p.desc.keywords, ','))
  {
    hide Verdict, Stoi, Split, HasPath, Join;
    GeneralByName(MAIN_IMPL_NAME, ["mfxImplDescription", "ImplName"], To(q), Text(q.asText), p, lt, windows);
    GeneralByName(MAIN_LICENSE, ["mfxImplDescription", "License"], To(q), Text(q.asText), p, lt, windows);
    GeneralByName(MAIN_KEYWORDS, ["mfxImplDescription", "Keywords"], To(q), Text(q.asText), p, lt, windows);
    TokensMean(q.asText, p.desc.license);
    TokensMean(q.asText, p.desc.keywords);
  }

  // The device id is read as a hexadecimal number, as far as it is one.
  lemma DeviceNumbers(p: Caps, lt: LibType, windows: bool, n: nat)
    ensures Verdict(["mfxImplDescription", "mfxDeviceDescription", "DeviceID"], U16(n), p, lt, windows) ==
            Some(var id := Stoi(p.desc.dev.deviceID, 16); id.Some? && id.value % 0x1_0000_0000 == Low16(n))
    ensures Verdict(["mfxImplDescription", "mfxDeviceDescription", "MediaAdapterType"], U16(n), p, lt, windows) ==
            Some(p.desc.apiVersion.major >= 2 ==>
                   p.desc.dev.version >= 0x0101 && p.desc.dev.mediaAdapterType == Low16(n))
  {
    hide Verdict, Stoi, Split, HasPath, Join;
    GeneralByName(DEVICE_DEVICE_ID, ["mfxImplDescription", "mfxDeviceDescription", "DeviceID"],
                  U16(n), Num(n), p, lt, windows);
    GeneralByName(DEVICE_MEDIA_ADAPTER_TYPE, ["mfxImplDescription", "mfxDeviceDescription", "MediaAdapterType"],
                  U16(n), Num(n), p, lt, windows);
  }

  lemma DeviceNumeral(p: Caps, lt: LibType, windows: bool, n: nat)
    requires Numeral(p.desc.dev.deviceID, 16) && Value(p.desc.dev.deviceID, 16) < 0x8000_0000
    ensures Verdict(["mfxImplDescription", "mfxDeviceDescription", "DeviceID"], U16(n), p, lt, windows) ==
            Some(Value(p.desc.dev.deviceID, 16) == Low16(n))
  {
    hide Verdict, Stoi, Value, Numeral;
    var id := p.desc.dev.deviceID;
    DeviceNumbers(p, lt, windows, n);
    StoiOfNumeral(id, "", 16);
    assert id + "" == id;
  }

  // ... or compared as text, if the value is a pointer.
  lemma DeviceText(p: Caps, lt: LibType, windows: bool, q: Pointee)
    ensures Verdict(["mfxImplDescription", "mfxDeviceDescription", "DeviceID"], To(q), p, lt, windows) ==
            Some(p.desc.dev.deviceID == q.asText)
  {
    hide Verdict, Stoi, Split, HasPath, Join;
    GeneralByName(DEVICE_DEVICE_ID_STR, ["mfxImplDescription", "mfxDeviceDescription", "DeviceID"],
                  To(q), Text(q.asText), p, lt, windows);
  }

  // The range asked for lies within the one offered, with a step that is no finer.
  predicate Within(asked: Range32U, offered: Range32U) {
    offered.min <= asked.min && asked.max <= offered.max && offered.step <= asked.step
  }

  // ---- trees: some path from root to leaf has the value -------------------------------------------------

  const DECODER := ["mfxImplDescription", "mfxDecoderDescription", "decoder"]
  const ENCODER := ["mfxImplDescription", "mfxEncoderDescription", "encoder"]
  const FILTER := ["mfxImplDescription", "mfxVPPDescription", "filter"]

  lemma DecoderCodec(p: Caps, lt: LibType, windows: bool, n: nat)
    ensures Verdict(DECODER + ["CodecID"], U32(n), p, lt, windows) ==
            Some(lt == LibTypeMSDK || exists x: DecLeaf :: HasPath(p.desc.dec, x) && x.a.codecID == Low32(n))
    ensures Verdict(DECODER + ["MaxcodecLevel"], U16(n), p, lt, windows) ==
            Some(lt == LibTypeMSDK || exists x: DecLeaf :: HasPath(p.desc.dec, x) && x.a.maxcodecLevel == Low16(n))
    ensures Verdict(DECODER + ["decprofile", "Profile"], U32(n), p, lt, windows) ==
            Some(lt == LibTypeMSDK || exists x: DecLeaf :: HasPath(p.desc.dec, x) && x.b == Low32(n))
  {
    hide Verdict, Stoi, Split, HasPath, Join;
    DecByName(DEC_CODEC_ID, DECODER + ["CodecID"], U32(n), Num(n), p, lt, windows);
    DecByName(DEC_MAXCODEC_LEVEL, DECODER + ["MaxcodecLevel"], U16(n), Num(n), p, lt, windows);
    DecByName(DEC_PROFILE, DECODER + ["decprofile", "Profile"], U32(n), Num(n), p, lt, windows);
  }

  lemma DecoderMemory(p: Caps, lt: LibType, windows: bool, n: nat)
    ensures Verdict(DECODER + ["decprofile", "decmemdesc", "MemHandleType"], U32(n), p, lt, windows) ==
            Some(lt == LibTypeMSDK || exists x: DecLeaf :: HasPath(p.desc.dec, x) && x.c.memHandleType == Low32(n))
    ensures Verdict(DECODER + ["decprofile", "decmemdesc", "ColorFormats"], U32(n), p, lt, windows) ==
            Some(lt == LibTypeMSDK || exists x: DecLeaf :: HasPath(p.desc.dec, x) && x.d == Low32(n))
  {
    hide Verdict, Stoi, Split, HasPath, Join;
    DecByName(DEC_MEM_HANDLE_TYPE, DECODER + ["decprofile", "decmemdesc", "MemHandleType"],
              U32(n), Num(n), p, lt, windows);
    DecByName(DEC_COLOR_FORMATS, DECODER + ["decprofile", "decmemdesc", "ColorFormats"],
              U32(n), Num(n), p, lt, windows);
  }

  lemma DecoderRanges(p: Caps, lt: LibType, windows: bool, q: Pointee)
    ensures Verdict(DECODER + ["decprofile", "decmemdesc", "Width"], To(q), p, lt, windows) ==
            Some(lt == LibTypeMSDK || exists x: DecLeaf :: HasPath(p.desc.dec, x) && Within(q.asRange, x.c.width))
    ensures Verdict(DECODER + ["decprofile", "decmemdesc", "Height"], To(q), p, lt, windows) ==
            Some(lt == LibTypeMSDK || exists x: DecLeaf :: HasPath(p.desc.dec, x) && Within(q.asRange, x.c.height))
  {
    hide Verdict, Stoi, Split, HasPath, Join;
    DecByName(DEC_WIDTH, DECODER + ["decprofile", "decmemdesc", "Width"], To(q), RangeData(q.asRange), p, lt, windows);
    DecByName(DEC_HEIGHT, DECODER + ["decprofile", "decmemdesc", "Height"],
              To(q), RangeData(q.asRange), p, lt, windows);
  }

  lemma EncoderCodec(p: Caps, lt: LibType, windows: bool, n: nat)
    ensures Verdict(ENCODER + ["CodecID"], U32(n), p, lt, windows) ==
            Some(lt == LibTypeMSDK || exists x: EncLeaf :: HasPath(p.desc.enc, x) && x.a.codecID == Low32(n))
    ensures Verdict(ENCODER + ["MaxcodecLevel"], U16(n), p, lt, windows) ==
            Some(lt == LibTypeMSDK || exists x: EncLeaf :: HasPath(p.desc.enc, x) && x.a.maxcodecLevel == Low16(n))
    ensures Verdict(ENCODER + ["BiDirectionalPrediction"], U16(n), p, lt, windows) ==
            Some(lt == LibTypeMSDK
                 || exists x: EncLeaf :: HasPath(p.desc.enc, x) && x.a.biDirectionalPrediction == Low16(n))
  {
    hide Verdict, Stoi, Split, HasPath, Join;
    EncByName(ENC_CODEC_ID, ENCODER + ["CodecID"], U32(n), Num(n), p, lt, windows);
    EncByName(ENC_MAXCODEC_LEVEL, ENCODER + ["MaxcodecLevel"], U16(n), Num(n), p, lt, windows);
    EncByName(ENC_BIDIRECTIONAL_PREDICTION, ENCODER + ["BiDirectionalPrediction"], U16(n), Num(n), p, lt, windows);
  }

  lemma EncoderMemory(p: Caps, lt: LibType, windows: bool, n: nat)
    ensures Verdict(ENCODER + ["encprofile", "Profile"], U32(n), p, lt, windows) ==
            Some(lt == LibTypeMSDK || exists x: EncLeaf :: HasPath(p.desc.enc, x) && x.b == Low32(n))
    ensures Verdict(ENCODER + ["encprofile", "encmemdesc", "MemHandleType"], U32(n), p, lt, windows) ==
            Some(lt == LibTypeMSDK || exists x: EncLeaf :: HasPath(p.desc.enc, x) && x.c.memHandleType == Low32(n))
    ensures Verdict(ENCODER + ["encprofile", "encmemdesc", "ColorFormats"], U32(n), p, lt, windows) ==
            Some(lt == LibTypeMSDK || exists x: EncLeaf :: HasPath(p.desc.enc, x) && x.d == Low32(n))
  {
    hide Verdict, Stoi, Split, HasPath, Join;
    EncByName(ENC_PROFILE, ENCODER + ["encprofile", "Profile"], U32(n), Num(n), p, lt, windows);
    EncByName(ENC_MEM_HANDLE_TYPE, ENCODER + ["encprofile", "encmemdesc", "MemHandleType"],
              U32(n), Num(n), p, lt, windows);
    EncByName(ENC_COLOR_FORMATS, ENCODER + ["encprofile", "encmemdesc", "ColorFormats"],
              U32(n), Num(n), p, lt, windows);
  }

  lemma EncoderRanges(p: Caps, lt: LibType, windows: bool, q: Pointee)
    ensures Verdict(ENCODER + ["encprofile", "encmemdesc", "Width"], To(q), p, lt, windows) ==
            Some(lt == LibTypeMSDK || exists x: EncLeaf :: HasPath(p.desc.enc, x) && Within(q.asRange, x.c.width))
    ensures Verdict(ENCODER + ["encprofile", "encmemdesc", "Height"], To(q), p, lt, windows) ==
            Some(lt == LibTypeMSDK || exists x: EncLeaf :: HasPath(p.desc.enc, x) && Within(q.asRange, x.c.height))
  {
    hide Verdict, Stoi, Split, HasPath, Join;
    EncByName(ENC_WIDTH, ENCODER + ["encprofile", "encmemdesc", "Width"], To(q), RangeData(q.asRange), p, lt, windows);
    EncByName(ENC_HEIGHT, ENCODER + ["encprofile", "encmemdesc", "Height"],
              To(q), RangeData(q.asRange), p, lt, windows);
  }

  lemma FilterKind(p: Caps, lt: LibType, windows: bool, n: nat)
    ensures Verdict(FILTER + ["FilterFourCC"], U32(n), p, lt, windows) ==
            Some(lt == LibTypeMSDK || exists x: VPPLeaf :: HasPath(p.desc.vpp, x) && x.a.filterFourCC == Low32(n))
    ensures Verdict(FILTER + ["MaxDelayInFrames"], U16(n), p, lt, windows) ==
            Some(lt == LibTypeMSDK || exists x: VPPLeaf :: HasPath(p.desc.vpp, x) && x.a.maxDelayInFrames == Low16(n))
    ensures Verdict(FILTER + ["memdesc", "MemHandleType"], U32(n), p, lt, windows) ==
            Some(lt == LibTypeMSDK || exists x: VPPLeaf :: HasPath(p.desc.vpp, x) && x.b.memHandleType == Low32(n))
  {
    hide Verdict, Stoi, Split, HasPath, Join;
    VPPByName(VPP_FILTER_FOURCC, FILTER + ["FilterFourCC"], U32(n), Num(n), p, lt, windows);
    VPPByName(VPP_MAX_DELAY_IN_FRAMES, FILTER + ["MaxDelayInFrames"], U16(n), Num(n), p, lt, windows);
    VPPByName(VPP_MEM_HANDLE_TYPE, FILTER + ["memdesc", "MemHandleType"], U32(n), Num(n), p, lt, windows);
  }

  lemma FilterMemory(p: Caps, lt: LibType, windows: bool, n: nat)
    ensures Verdict(FILTER + ["memdesc", "format", "InFormat"], U32(n), p, lt, windows) ==
            Some(lt == LibTypeMSDK || exists x: VPPLeaf :: HasPath(p.desc.vpp, x) && x.c == Low32(n))
    ensures Verdict(FILTER + ["memdesc", "format", "OutFormats"], U32(n), p, lt, windows) ==
            Some(lt == LibTypeMSDK || exists x: VPPLeaf :: HasPath(p.desc.vpp, x) && x.d == Low32(n))
  {
    hide Verdict, Stoi, Split, HasPath, Join;
    VPPByName(VPP_IN_FORMAT, FILTER + ["memdesc", "format", "InFormat"], U32(n), Num(n), p, lt, windows);
    VPPByName(VPP_OUT_FORMAT, FILTER + ["memdesc", "format", "OutFormats"], U32(n), Num(n), p, lt, windows);
  }

  lemma FilterRanges(p: Caps, lt: LibType, windows: bool, q: Pointee)
    ensures Verdict(FILTER + ["memdesc", "Width"], To(q), p, lt, windows) ==
            Some(lt == LibTypeMSDK || exists x: VPPLeaf :: HasPath(p.desc.vpp, x) && Within(q.asRange, x.b.width))
    ensures Verdict(FILTER + ["memdesc", "Height"], To(q), p, lt, windows) ==
            Some(lt == LibTypeMSDK || exists x: VPPLeaf :: HasPath(p.desc.vpp, x) && Within(q.asRange, x.b.height))
  {
    hide Verdict, Stoi, Split, HasPath, Join;
    VPPByName(VPP_WIDTH, FILTER + ["memdesc", "Width"], To(q), RangeData(q.asRange), p, lt, windows);
    VPPByName(VPP_HEIGHT, FILTER + ["memdesc", "Height"], To(q), RangeData(q.asRange), p, lt, windows);
  }

  // ---- the extended device id ----------------------------------------------------------------------------

  lemma ExtDevIds(p: Caps, lt: LibType, windows: bool, n: nat)
    ensures Verdict(["mfxExtendedDeviceId", "VendorID"], U16(n), p, lt, windows) ==
            Some(p.ext.Some? && p.ext.value.vendorID == Low16(n))
    ensures Verdict(["mfxExtendedDeviceId", "DeviceID"], U16(n), p, lt, windows) ==
            Some(p.ext.Some? && p.ext.value.deviceID == Low16(n))
    ensures Verdict(["mfxExtendedDeviceId", "RevisionID"], U16(n), p, lt, windows) ==
            Some(p.ext.Some? && p.ext.value.revisionID == Low16(n))
  {
    hide Verdict, Stoi, Split, HasPath, Join;
    ExtDevByName(EXTDEV_VENDOR_ID, ["mfxExtendedDeviceId", "VendorID"], U16(n), Num(n), p, lt, windows);
    ExtDevByName(EXTDEV_DEVICE_ID, ["mfxExtendedDeviceId", "DeviceID"], U16(n), Num(n), p, lt, windows);
    ExtDevByName(EXTDEV_REVISION_ID, ["mfxExtendedDeviceId", "RevisionID"], U16(n), Num(n), p, lt, windows);
  }

  lemma ExtDevBus(p: Caps, lt: LibType, windows: bool, n: nat)
    ensures Verdict(["mfxExtendedDeviceId", "PCIDomain"], U32(n), p, lt, windows) ==
            Some(p.ext.Some? && p.ext.value.pciDomain == Low32(n))
    ensures Verdict(["mfxExtendedDeviceId", "PCIBus"], U32(n), p, lt, windows) ==
            Some(p.ext.Some? && p.ext.value.pciBus == Low32(n))
    ensures Verdict(["mfxExtendedDeviceId", "PCIDevice"], U32(n), p, lt, windows) ==
            Some(p.ext.Some? && p.ext.value.pciDevice == Low32(n))
    ensures Verdict(["mfxExtendedDeviceId", "PCIFunction"], U32(n), p, lt, windows) ==
            Some(p.ext.Some? && p.ext.value.pciFunction == Low32(n))
  {
    hide Verdict, Stoi, Split, HasPath, Join;
    ExtDevByName(EXTDEV_PCI_DOMAIN, ["mfxExtendedDeviceId", "PCIDomain"], U32(n), Num(n), p, lt, windows);
    ExtDevByName(EXTDEV_PCI_BUS, ["mfxExtendedDeviceId", "PCIBus"], U32(n), Num(n), p, lt, windows);
    ExtDevByName(EXTDEV_PCI_DEVICE, ["mfxExtendedDeviceId", "PCIDevice"], U32(n), Num(n), p, lt, windows);
    ExtDevByName(EXTDEV_PCI_FUNCTION, ["mfxExtendedDeviceId", "PCIFunction"], U32(n), Num(n), p, lt, windows);
  }

  lemma ExtDevNodes(p: Caps, lt: LibType, windows: bool, n: nat)
    ensures Verdict(["mfxExtendedDeviceId", "LUIDDeviceNodeMask"], U32(n), p, lt, windows) ==
            Some(p.ext.Some? && p.ext.value.luidValid && p.ext.value.luidDeviceNodeMask == Low32(n))
    ensures Verdict(["mfxExtendedDeviceId", "DRMRenderNodeNum"], U32(n), p, lt, windows) ==
            Some(p.ext.Some? && p.ext.value.drmRenderNodeNum != 0 && p.ext.value.drmRenderNodeNum == Low32(n))
    ensures Verdict(["mfxExtendedDeviceId", "DRMPrimaryNodeNum"], U32(n), p, lt, windows) ==
            Some(p.ext.Some? && p.ext.value.drmRenderNodeNum != 0x7FFF_FFFF
                 && p.ext.value.drmPrimaryNodeNum == Low32(n))
  {
    hide Verdict, Stoi, Split, HasPath, Join;
    ExtDevByName(EXTDEV_LUID_DEVICE_NODE_MASK, ["mfxExtendedDeviceId", "LUIDDeviceNodeMask"],
                 U32(n), Num(n), p, lt, windows);
    ExtDevByName(EXTDEV_DRM_RENDER_NODE_NUM, ["mfxExtendedDeviceId", "DRMRenderNodeNum"],
                 U32(n), Num(n), p, lt, windows);
    ExtDevByName(EXTDEV_DRM_PRIMARY_NODE_NUM, ["mfxExtendedDeviceId", "DRMPrimaryNodeNum"],
                 U32(n), Num(n), p, lt, windows);
  }

  lemma ExtDevPointers(p: Caps, lt: LibType, windows: bool, q: Pointee)
    ensures Verdict(["mfxExtendedDeviceId", "DeviceLUID"], To(q), p, lt, windows) ==
            Some(p.ext.Some? && p.ext.value.luidValid && p.ext.value.deviceLUID == q.asBytes)
    ensures Verdict(["mfxExtendedDeviceId", "DeviceName"], To(q), p, lt, windows) ==
            Some(p.ext.Some? && p.ext.value.deviceName == q.asText)
  {
    hide Verdict, Stoi, Split, HasPath, Join;
    ExtDevByName(EXTDEV_DEVICE_LUID, ["mfxExtendedDeviceId", "DeviceLUID"], To(q), Bytes(q.asBytes), p, lt, windows);
    ExtDevByName(EXTDEV_DEVICE_NAME, ["mfxExtendedDeviceId", "DeviceName"], To(q), Text(q.asText), p, lt, windows);
  }

  // Outside the experimental build a surface property rules every implementation out, wherever it is set.
  lemma SurfaceRefused(p: Caps, cs: seq<Config>, lt: LibType, k: nat, i: int)
    requires k < |cs| && SURFACE_SURFACE_TYPE <= i <= SURFACE_SURFACE_FLAGS && IsSet(cs[k], i)
    ensures !Accepts(p, cs, lt)
  {
    assert InGroup(cs[k], i, SurfaceGroup);
  }

  // ---- functions and session properties -----------------------------------------------------------------

  lemma FunctionNames(p: Caps, lt: LibType, windows: bool, q: Pointee)
    ensures Verdict(["mfxImplementedFunctions", "FunctionsName"], To(q), p, lt, windows) ==
            Some(p.funcs.Some? && q.asText in p.funcs.value)
  {
    hide Verdict, Stoi, Split, HasPath, Join;
    OtherByName(FUNC_FUNCTION_NAME, ["mfxImplementedFunctions", "FunctionsName"],
                To(q), Text(q.asText), p, lt, windows);
  }

  // Session properties say nothing about the implementation, but the calls that set them succeed.
  lemma SessionNames(p: Caps, lt: LibType, windows: bool, n: nat, q: Pointee)
    ensures Verdict(["mfxHandleType"], U32(n), p, lt, windows) == Some(true)
    ensures Verdict(["mfxHDL"], To(q), p, lt, windows) == Some(true)
    ensures Verdict(["NumThread"], U32(n), p, lt, windows) == Some(true)
    ensures q.asExtBuf != [] ==> Verdict(["ExtBuffer"], To(q), p, lt, windows) == Some(true)
    ensures windows ==> Verdict(["DXGIAdapterIndex"], U32(n), p, lt, windows) == Some(true)
  {
    hide Verdict, Join;
    OtherByName(SPECIAL_HANDLE_TYPE, ["mfxHandleType"], U32(n), Num(n), p, lt, windows);
    OtherByName(SPECIAL_HANDLE, ["mfxHDL"], To(q), Handle(q.address), p, lt, windows);
    OtherByName(SPECIAL_NUM_THREAD, ["NumThread"], U32(n), Num(n), p, lt, windows);
    if q.asExtBuf != [] {
      OtherByName(SPECIAL_EXT_BUFFER, ["ExtBuffer"], To(q), Bytes(q.asExtBuf), p, lt, windows);
    }
    if windows { OtherByName(SPECIAL_DXGI_ADAPTER_INDEX, ["DXGIAdapterIndex"], U32(n), Num(n), p, lt, windows); }
  }

  // ---- several tree properties in one configuration ---------------------------------------------------

  function OnlyPath<A, B, C, D>(x: Leaf<A, B, C, D>): Tree<A, B, C, D> {
    [Node(x.a, [Node(x.b, [Node(x.c, [x.d])])])]
  }

  lemma OnlyPathHas<A(!new), B(!new), C(!new), D(!new)>(x: Leaf<A, B, C, D>)
    ensures forall y: Leaf<A, B, C, D> :: HasPath(OnlyPath(x), y) <==> y == x
  {
    assert PathAt(OnlyPath(x), 0, 0, 0, 0, x);
  }

  function WithDec(p: Caps, t: DecTree): Caps { p.(desc := p.desc.(dec := t)) }
  function WithEnc(p: Caps, t: EncTree): Caps { p.(desc := p.desc.(enc := t)) }
  function WithVPP(p: Caps, t: VPPTree): Caps { p.(desc := p.desc.(vpp := t)) }

  // An implementation with just the path x would be accepted for each property that c sets.
  ghost predicate DecPathMeets(c: Config, p: Caps, lt: LibType, x: DecLeaf) {
    forall i | IsSet(c, i) :: Accepts(WithDec(p, OnlyPath(x)), [With(i, c[i].data)], lt)
  }
  ghost predicate EncPathMeets(c: Config, p: Caps, lt: LibType, x: EncLeaf) {
    forall i | IsSet(c, i) :: Accepts(WithEnc(p, OnlyPath(x)), [With(i, c[i].data)], lt)
  }
  ghost predicate VPPPathMeets(c: Config, p: Caps, lt: LibType, x: VPPLeaf) {
    forall i | IsSet(c, i) :: Accepts(WithVPP(p, OnlyPath(x)), [With(i, c[i].data)], lt)
  }

  // The properties a configuration asks of one tree must all be met by one and the same path.
  lemma DecoderTogether(c: Config, p: Caps, lt: LibType, j: int)
    requires (forall i | IsSet(c, i) :: IsDecProp(i)) && IsSet(c, j) && lt != LibTypeMSDK
    ensures Accepts(p, [c], lt) <==> exists x: DecLeaf :: HasPath(p.desc.dec, x) && DecPathMeets(c, p, lt, x)
  {
    hide Accepts, MeetsDec, With, Has, HasPath, OnlyPath;
    OnlyTree(c, p, lt, DecGroup, j);
    forall x: DecLeaf ensures DecPathMeets(c, p, lt, x) <==> DecLeafOk(c, x) {
      OnlyPathHas(x);
      forall i | IsSet(c, i)
        ensures Accepts(WithDec(p, OnlyPath(x)), [With(i, c[i].data)], lt) <==> MeetsDec(i, c[i].data, x)
      {
        AcceptsDec(i, c[i].data, WithDec(p, OnlyPath(x)), lt);
      }
    }
  }

  lemma EncoderTogether(c: Config, p: Caps, lt: LibType, j: int)
    requires (forall i | IsSet(c, i) :: IsEncProp(i)) && IsSet(c, j) && lt != LibTypeMSDK
    ensures Accepts(p, [c], lt) <==> exists x: EncLeaf :: HasPath(p.desc.enc, x) && EncPathMeets(c, p, lt, x)
  {
    hide Accepts, MeetsEnc, With, Has, HasPath, OnlyPath;
    OnlyTree(c, p, lt, EncGroup, j);
    forall x: EncLeaf ensures EncPathMeets(c, p, lt, x) <==> EncLeafOk(c, x) {
      OnlyPathHas(x);
      forall i | IsSet(c, i)
        ensures Accepts(WithEnc(p, OnlyPath(x)), [With(i, c[i].data)], lt) <==> MeetsEnc(i, c[i].data, x)
      {
        AcceptsEnc(i, c[i].data, WithEnc(p, OnlyPath(x)), lt);
      }
    }
  }

  lemma FilterTogether(c: Config, p: Caps, lt: LibType, j: int)
    requires (forall i | IsSet(c, i) :: IsVPPProp(i)) && IsSet(c, j) && lt != LibTypeMSDK
    ensures Accepts(p, [c], lt) <==> exists x: VPPLeaf :: HasPath(p.desc.vpp, x) && VPPPathMeets(c, p, lt, x)
  {
    hide Accepts, MeetsVPP, With, Has, HasPath, OnlyPath;
    OnlyTree(c, p, lt, VPPGroup, j);
    forall x: VPPLeaf ensures VPPPathMeets(c, p, lt, x) <==> VPPLeafOk(c, x) {
      OnlyPathHas(x);
      forall i | IsSet(c, i)
        ensures Accepts(WithVPP(p, OnlyPath(x)), [With(i, c[i].data)], lt) <==> MeetsVPP(i, c[i].data, x)
      {
        AcceptsVPP(i, c[i].data, WithVPP(p, OnlyPath(x)), lt);
      }
    }
  }

  lemma OnlyTree(c: Config, p: Caps, lt: LibType, g: Group, j: int)
    requires TreeGroup(g) && (forall i | IsSet(c, i) :: GroupOf(i) == Some(g)) && IsSet(c, j) && lt != LibTypeMSDK
    ensures Accepts(p, [c], lt) <==>
            if g == DecGroup then DecOk(c, p.desc.dec) else if g == EncGroup then EncOk(c, p.desc.enc)
            else VPPOk(c, p.desc.vpp)
  {
    hide DecOk, EncOk, VPPOk, Has;
    forall h ensures Has(c, h) <==> h == g { OnlyGroup(c, g, h, j); }
    assert LastMajor([c]) == None && LastMinor([c]) == None by {
      assert [c][..0] == [];
    }
  }

  lemma OnlyGroup(c: Config, g: Group, h: Group, j: int)
    requires (forall i | IsSet(c, i) :: GroupOf(i) == Some(g)) && IsSet(c, j)
    ensures Has(c, h) <==> h == g
  {
    assert InGroup(c, j, g);
  }

  // ---- the API version ---------------------------------------------------------------------------------

  const API := ["mfxImplDescription", "ApiVersion"]

  function Set(c: Config, name: seq<string>, v: Variant, windows: bool): Config {
    AfterSet(c, Some(Join(name, '.')), v, windows).1
  }

  // As one number it is the least version accepted; half a version asks for nothing.
  lemma VersionNames(p: Caps, lt: LibType, windows: bool, n: nat)
    ensures Verdict(API + ["Version"], U32(n), p, lt, windows) ==
            Some(Low32(n) <= p.desc.apiVersion.major * 0x1_0000 + p.desc.apiVersion.minor)
    ensures Verdict(API + ["Major"], U16(n), p, lt, windows) == Some(true)
    ensures Verdict(API + ["Minor"], U16(n), p, lt, windows) == Some(true)
  {
    hide Verdict, Accepts, Join;
    ByName(MAIN_API_VERSION, API + ["Version"], U32(n), Num(n), p, lt, windows);
    ByName(MAIN_API_VERSION_MAJOR, API + ["Major"], U16(n), Num(n), p, lt, windows);
    ByName(MAIN_API_VERSION_MINOR, API + ["Minor"], U16(n), Num(n), p, lt, windows);
    AcceptsVersion(MAIN_API_VERSION, Num(n), p, lt);
    AcceptsVersion(MAIN_API_VERSION_MAJOR, Num(n), p, lt);
    AcceptsVersion(MAIN_API_VERSION_MINOR, Num(n), p, lt);
  }

  lemma RequestOfOne(i: int, d: Data)
    requires IsVersionProp(i) && DataFits(i, d)
    ensures RequestedVersion([With(i, d)]) == if i == MAIN_API_VERSION then Some(VersionOf(d.U32())) else None
  {
    hide With;
    WithSets(i, d);
    var c := With(i, d);
    assert [c][..0] == [];
    assert LastMajor([c]) == MajorIn(c) && LastMinor([c]) == MinorIn(c);
  }

  lemma AcceptsVersion(i: int, d: Data, p: Caps, lt: LibType)
    requires IsVersionProp(i) && DataFits(i, d)
    ensures Accepts(p, [With(i, d)], lt) <==>
            (i == MAIN_API_VERSION ==> d.U32() <= p.desc.apiVersion.major * 0x1_0000 + p.desc.apiVersion.minor)
  {
    hide With, Has, RequestedVersion;
    WithSets(i, d);
    WithGroups(i, d);
    RequestOfOne(i, d);
    assert ConfigAccepts(With(i, d), p.desc, p.ext, lt) && FunctionOk(With(i, d), p.funcs);
    assert VersionOf(d.U32()).Number() == d.U32();
  }

  // Both halves ask for the least version together, in one configuration or in two, in any order.
  lemma VersionHalves(p: Caps, lt: LibType, windows: bool, a: nat, b: nat)
    ensures var have := p.desc.apiVersion;
            var met := have.major > Low16(a) || (have.major == Low16(a) && have.minor >= Low16(b));
            var major, minor := Set(EmptyConfig(), API + ["Major"], U16(a), windows),
                                Set(EmptyConfig(), API + ["Minor"], U16(b), windows);
            && (Accepts(p, [Set(major, API + ["Minor"], U16(b), windows)], lt) <==> met)
            && (Accepts(p, [major, minor], lt) <==> met) && (Accepts(p, [minor, major], lt) <==> met)
  {
    hide Accepts, Join, Set;
    SetIs(MAIN_API_VERSION_MAJOR, API + ["Major"], U16(a), Num(a), windows);
    SetIs(MAIN_API_VERSION_MINOR, API + ["Minor"], U16(b), Num(b), windows);
    var major, minor := With(MAIN_API_VERSION_MAJOR, Num(a)), With(MAIN_API_VERSION_MINOR, Num(b));
    SetSecond(major, b, windows);
    HalvesAccept(p, lt, a, b);
  }

  lemma SetIs(i: int, name: seq<string>, v: Variant, d: Data, windows: bool)
    requires Settable(i, windows) && name == NameOf(i) && v.Type() == TypeOf(i) && (v.Pointer? ==> v.target.Some?)
    requires d == Stored(i, v, EmptyConfig()[i].data) && DataFits(i, d)
    ensures Set(EmptyConfig(), name, v, windows) == With(i, d)
  {
    hide NameOf;
    SetByName(EmptyConfig(), i, v, windows);
  }

  function BothHalves(a: nat, b: nat): Config {
    With(MAIN_API_VERSION_MAJOR, Num(a))[MAIN_API_VERSION_MINOR := Slot(TypeU16, Num(b))]
  }

  lemma SetSecond(c: Config, b: nat, windows: bool)
    ensures Set(c, API + ["Minor"], U16(b), windows) == c[MAIN_API_VERSION_MINOR := Slot(TypeU16, Num(b))]
  {
    assert API + ["Minor"] == NameOf(MAIN_API_VERSION_MINOR);
    hide NameOf, Resolve, Split, Join;
    SetByName(c, MAIN_API_VERSION_MINOR, U16(b), windows);
  }

  lemma OnlyVersionsAsked(c: Config, p: Caps, lt: LibType)
    requires forall i | IsSet(c, i) :: IsVersionProp(i)
    ensures OneAccepts(c, p, lt)
  {
    forall g ensures !Has(c, g) {
      assert forall i :: !InGroup(c, i, g);
    }
  }

  lemma HalvesRequest(a: nat, b: nat)
    ensures var major, minor := With(MAIN_API_VERSION_MAJOR, Num(a)), With(MAIN_API_VERSION_MINOR, Num(b));
            var v := Some(Version(Low16(a), Low16(b)));
            RequestedVersion([BothHalves(a, b)]) == RequestedVersion([major, minor])
            == RequestedVersion([minor, major]) == v
  {
    WithSets(MAIN_API_VERSION_MAJOR, Num(a));
    WithSets(MAIN_API_VERSION_MINOR, Num(b));
    var major, minor, both :=
      With(MAIN_API_VERSION_MAJOR, Num(a)), With(MAIN_API_VERSION_MINOR, Num(b)), BothHalves(a, b);
    assert MajorIn(both) == Some(Low16(a)) && MinorIn(both) == Some(Low16(b));
    hide With, BothHalves;
    assert MajorIn(major) == Some(Low16(a)) && MinorIn(major) == None;
    assert MajorIn(minor) == None && MinorIn(minor) == Some(Low16(b));
    hide MajorIn, MinorIn;
    assert [major, minor][..1] == [major] && [minor, major][..1] == [minor];
    assert [major][..0] == [] && [minor][..0] == [] && [both][..0] == [];
    assert LastMajor([major]) == MajorIn(major) && LastMinor([minor]) == MinorIn(minor);
  }

  lemma HalvesAccept(p: Caps, lt: LibType, a: nat, b: nat)
    ensures var have := p.desc.apiVersion;
            var met := have.major > Low16(a) || (have.major == Low16(a) && have.minor >= Low16(b));
            var major, minor := With(MAIN_API_VERSION_MAJOR, Num(a)), With(MAIN_API_VERSION_MINOR, Num(b));
            && (Accepts(p, [BothHalves(a, b)], lt) <==> met)
            && (Accepts(p, [major, minor], lt) <==> met) && (Accepts(p, [minor, major], lt) <==> met)
  {
    hide OneAccepts, Has, RequestedVersion;
    var major, minor, both :=
      With(MAIN_API_VERSION_MAJOR, Num(a)), With(MAIN_API_VERSION_MINOR, Num(b)), BothHalves(a, b);
    OnlyVersionsAsked(major, p, lt);
    OnlyVersionsAsked(minor, p, lt);
    OnlyVersionsAsked(both, p, lt);
    HalvesRequest(a, b);
    AllOfAccepts(p, [both], lt);
    AllOfAccepts(p, [major, minor], lt);
    AllOfAccepts(p, [minor, major], lt);
  }

  // ---- other spellings ---------------------------------------------------------------------------------

  lemma SplitPlain(name: seq<string>)
    requires PlainTokens(name)
    ensures Split(Join(name, '.'), '.') == name
  {
    hide Split, Join;
    SplitOfJoin(name, '.');
  }

  lemma OtherWordsPlain()
    ensures PlainToken("ColorFormat") && PlainToken("OutFormat")
  {}

  function OtherDecoder(): seq<string> { DECODER + ["decprofile", "decmemdesc", "ColorFormat"] }
  function OtherEncoder(): seq<string> { ENCODER + ["encprofile", "encmemdesc", "ColorFormat"] }
  function OtherFilter(): seq<string> { FILTER + ["memdesc", "format", "OutFormat"] }

  lemma Reached(i: int, v: Variant, windows: bool)
    requires Settable(i, windows) && i != DEVICE_DEVICE_ID_STR && i != DEVICE_DEVICE_ID
    ensures Resolve(Split(Join(NameOf(i), '.'), '.'), v.Type() == TypePtr, windows) == i
  {
    hide NameOf, Resolve, Split, Join;
    ResolveReaches(i, windows);
    DottedNameSplits(i);
    EitherPointer(i, v.Type() == TypePtr, windows);
  }

  lemma PlainConcat(a: seq<string>, b: seq<string>)
    requires PlainTokens(a) && PlainTokens(b)
    ensures PlainTokens(a + b)
  {
    hide PlainToken;
  }

  lemma TreesPlain()
    ensures PlainTokens(DECODER) && PlainTokens(ENCODER) && PlainTokens(FILTER)
    ensures PlainTokens(["decprofile", "decmemdesc", "ColorFormat"])
    ensures PlainTokens(["encprofile", "encmemdesc", "ColorFormat"])
    ensures PlainTokens(["memdesc", "format", "OutFormat"])
  {
    hide PlainToken;
    OtherWordsPlain();
    PrefixPlain();
    DecNamePlain(DEC_WIDTH);
    EncNamePlain(ENC_WIDTH);
    VPPNamePlain(VPP_IN_FORMAT);
    var d, e, f := DecName(DEC_WIDTH), EncName(ENC_WIDTH), VPPName(VPP_IN_FORMAT);
    assert PlainToken(d[0]) && PlainToken(d[1]) && PlainToken(d[2]);
    assert PlainToken(e[0]) && PlainToken(e[1]) && PlainToken(e[2]);
    assert PlainToken(f[0]) && PlainToken(f[1]) && PlainToken(f[2]);
  }

  lemma OtherDecoderResolves(isPtr: bool, windows: bool)
    ensures Resolve(OtherDecoder(), isPtr, windows) == DEC_COLOR_FORMATS
  {
    var ts := ["decoder", "decprofile", "decmemdesc", "ColorFormat"];
    assert ResolveDec(ts) == DEC_COLOR_FORMATS;
    hide ResolveDec, ResolveEnc, ResolveVPP;
    assert OtherDecoder()[1..][1..] == ts;
  }

  lemma OtherEncoderResolves(isPtr: bool, windows: bool)
    ensures Resolve(OtherEncoder(), isPtr, windows) == ENC_COLOR_FORMATS
  {
    var ts := ["encoder", "encprofile", "encmemdesc", "ColorFormat"];
    assert ResolveEnc(ts) == ENC_COLOR_FORMATS;
    hide ResolveDec, ResolveEnc, ResolveVPP;
    assert OtherEncoder()[1..][1..] == ts;
  }

  lemma OtherFilterResolves(isPtr: bool, windows: bool)
    ensures Resolve(OtherFilter(), isPtr, windows) == VPP_OUT_FORMAT
  {
    var ts := ["filter", "memdesc", "format", "OutFormat"];
    assert ResolveVPP(ts) == VPP_OUT_FORMAT;
    hide ResolveDec, ResolveEnc, ResolveVPP;
    assert OtherFilter()[1..][1..] == ts;
  }

  lemma SameVerdict(a: seq<string>, i: int, v: Variant, p: Caps, lt: LibType, windows: bool)
    requires PlainTokens(a) && Resolve(a, v.Type() == TypePtr, windows) == i
    requires Settable(i, windows) && i != DEVICE_DEVICE_ID_STR && i != DEVICE_DEVICE_ID
    ensures Verdict(a, v, p, lt, windows) == Verdict(NameOf(i), v, p, lt, windows)
  {
    hide Accepts, Split, Join, Resolve, NameOf, PlainTokens;
    SplitPlain(a);
    Reached(i, v, windows);
  }

  // Names that are accepted besides the documented ones, for any value.
  lemma OtherSpellings(v: Variant, p: Caps, lt: LibType, windows: bool)
    ensures Verdict(OtherDecoder(), v, p, lt, windows) ==
            Verdict(DECODER + ["decprofile", "decmemdesc", "ColorFormats"], v, p, lt, windows)
    ensures Verdict(OtherEncoder(), v, p, lt, windows) ==
            Verdict(ENCODER + ["encprofile", "encmemdesc", "ColorFormats"], v, p, lt, windows)
    ensures Verdict(OtherFilter(), v, p, lt, windows) ==
            Verdict(FILTER + ["memdesc", "format", "OutFormats"], v, p, lt, windows)
  {
    hide Verdict, Resolve, PlainTokens;
    assert DECODER + ["decprofile", "decmemdesc", "ColorFormats"] == NameOf(DEC_COLOR_FORMATS);
    assert ENCODER + ["encprofile", "encmemdesc", "ColorFormats"] == NameOf(ENC_COLOR_FORMATS);
    assert FILTER + ["memdesc", "format", "OutFormats"] == NameOf(VPP_OUT_FORMAT);
    TreesPlain();
    PlainConcat(DECODER, ["decprofile", "decmemdesc", "ColorFormat"]);
    PlainConcat(ENCODER, ["encprofile", "encmemdesc", "ColorFormat"]);
    PlainConcat(FILTER, ["memdesc", "format", "OutFormat"]);
    hide NameOf, OtherDecoder, OtherEncoder, OtherFilter;
    OtherDecoderResolves(v.Type() == TypePtr, windows);
    OtherEncoderResolves(v.Type() == TypePtr, windows);
    OtherFilterResolves(v.Type() == TypePtr, windows);
    SameVerdict(OtherDecoder(), DEC_COLOR_FORMATS, v, p, lt, windows);
    SameVerdict(OtherEncoder(), ENC_COLOR_FORMATS, v, p, lt, windows);
    SameVerdict(OtherFilter(), VPP_OUT_FORMAT, v, p, lt, windows);
  }

  const DEVICE := ["mfxImplDescription", "mfxDeviceDescription"]

  lemma DevicePlain()
    ensures PlainTokens(DEVICE + ["device", "DeviceID"]) && PlainTokens(DEVICE + ["DeviceID"])
    ensures PlainTokens(DEVICE + ["device", "MediaAdapterType"]) && PlainTokens(DEVICE + ["MediaAdapterType"])
  {
    hide PlainToken;
    PrefixPlain();
    LastWordsPlain();
    assert PlainToken("device") by { DeviceWordPlain(); }
    PlainConcat(DEVICE, ["device", "DeviceID"]);
    PlainConcat(DEVICE, ["DeviceID"]);
    PlainConcat(DEVICE, ["device", "MediaAdapterType"]);
    PlainConcat(DEVICE, ["MediaAdapterType"]);
  }

  lemma DeviceWordPlain()
    ensures PlainToken("device")
  {}

  lemma DeviceResolves(isPtr: bool, windows: bool)
    ensures Resolve(DEVICE + ["device", "DeviceID"], isPtr, windows) == Resolve(DEVICE + ["DeviceID"], isPtr, windows)
    ensures Resolve(DEVICE + ["device", "MediaAdapterType"], isPtr, windows) ==
            Resolve(DEVICE + ["MediaAdapterType"], isPtr, windows)
  {
    hide ResolveDec, ResolveEnc, ResolveVPP;
  }

  // The component "device" may be written or left out.
  lemma DeviceSpellings(v: Variant, p: Caps, lt: LibType, windows: bool)
    ensures Verdict(DEVICE + ["device", "DeviceID"], v, p, lt, windows) ==
            Verdict(DEVICE + ["DeviceID"], v, p, lt, windows)
    ensures Verdict(DEVICE + ["device", "MediaAdapterType"], v, p, lt, windows) ==
            Verdict(DEVICE + ["MediaAdapterType"], v, p, lt, windows)
  {
    hide Accepts, Split, Join, Resolve, PlainTokens;
    DevicePlain();
    DeviceResolves(v.Type() == TypePtr, windows);
    SplitPlain(DEVICE + ["device", "DeviceID"]);
    SplitPlain(DEVICE + ["DeviceID"]);
    SplitPlain(DEVICE + ["device", "MediaAdapterType"]);
    SplitPlain(DEVICE + ["MediaAdapterType"]);
  }

  // ---- the adapter index --------------------------------------------------------------------------------

  // It is compared with the adapter number the loader has recorded, and with nothing in the description.
  lemma AdapterByName(d: ImplData, adapterIdx: u32, sp: SpecialConfig, n: nat)
    ensures var c := Set(EmptyConfig(), ["DXGIAdapterIndex"], U32(n), true);
            Passes(d, adapterIdx, [c], sp) <==> adapterIdx == Low32(n)
  {
    hide Accepts, Set, With;
    var i := SPECIAL_DXGI_ADAPTER_INDEX;
    SetIs(i, ["DXGIAdapterIndex"], U32(n), Num(n), true);
    WithSets(i, Num(n));
    AcceptsOther(i, Num(n), d.caps, d.libType);
    LastIsLast([With(i, Num(n))], 0, i);
  }

  // ---- what is recorded for sessions --------------------------------------------------------------------

  // Both functions that collect the special properties record what the last configuration sets.
  lemma RecordedWith(sp: SpecialConfig, cs: seq<Config>, i: int, d: Data)
    requires IsProp(i) && DataFits(i, d)
    ensures var all := cs + [With(i, d)];
            var v, l := AfterValidate(sp, all), AfterLowLatencyCheck(sp, all);
            && (i == SPECIAL_HANDLE_TYPE ==> v.deviceHandleType == l.deviceHandleType == Some(d.U32()))
            && (i == SPECIAL_HANDLE ==> v.deviceHandle == l.deviceHandle == Some(d))
            && (i == SPECIAL_NUM_THREAD ==> v.numThread == l.numThread == Some(d.U32()))
            && (i == SPECIAL_DXGI_ADAPTER_INDEX ==> v.dxgiAdapterIdx == l.dxgiAdapterIdx == Some(d.U32()))
            && (i == MAIN_ACCELERATION_MODE ==> v.accelerationMode == l.accelerationMode == Some(d.U32()))
            && (i == SPECIAL_EXT_BUFFER ==> v.extBuffers == l.extBuffers == ExtBuffers(cs) + [d])
            && (i == MAIN_API_VERSION ==> v.apiVersion == l.apiVersion == Some(VersionOf(d.U32())))
  {
    hide With;
    WithSets(i, d);
    LastAppend(cs, With(i, d), i);
    assert (cs + [With(i, d)])[..|cs|] == cs;
  }

  lemma RecordedByName(sp: SpecialConfig, cs: seq<Config>, n: nat, q: Pointee)
    ensures var c := Set(EmptyConfig(), ["mfxHandleType"], U32(n), true);
            AfterValidate(sp, cs + [c]).deviceHandleType == AfterLowLatencyCheck(sp, cs + [c]).deviceHandleType
            == Some(Low32(n))
    ensures var c := Set(EmptyConfig(), ["mfxHDL"], To(q), true);
            AfterValidate(sp, cs + [c]).deviceHandle == AfterLowLatencyCheck(sp, cs + [c]).deviceHandle
            == Some(Handle(q.address))
    ensures var c := Set(EmptyConfig(), ["NumThread"], U32(n), true);
            AfterValidate(sp, cs + [c]).numThread == AfterLowLatencyCheck(sp, cs + [c]).numThread == Some(Low32(n))
    ensures var c := Set(EmptyConfig(), ["DXGIAdapterIndex"], U32(n), true);
            AfterValidate(sp, cs + [c]).dxgiAdapterIdx == AfterLowLatencyCheck(sp, cs + [c]).dxgiAdapterIdx
            == Some(Low32(n))
  {
    hide Set, With, AfterValidate, AfterLowLatencyCheck;
    SetIs(SPECIAL_HANDLE_TYPE, ["mfxHandleType"], U32(n), Num(n), true);
    RecordedWith(sp, cs, SPECIAL_HANDLE_TYPE, Num(n));
    SetIs(SPECIAL_HANDLE, ["mfxHDL"], To(q), Handle(q.address), true);
    RecordedWith(sp, cs, SPECIAL_HANDLE, Handle(q.address));
    SetIs(SPECIAL_NUM_THREAD, ["NumThread"], U32(n), Num(n), true);
    RecordedWith(sp, cs, SPECIAL_NUM_THREAD, Num(n));
    SetIs(SPECIAL_DXGI_ADAPTER_INDEX, ["DXGIAdapterIndex"], U32(n), Num(n), true);
    RecordedWith(sp, cs, SPECIAL_DXGI_ADAPTER_INDEX, Num(n));
  }

  lemma RecordedOthers(sp: SpecialConfig, cs: seq<Config>, n: nat, q: Pointee)
    ensures var c := Set(EmptyConfig(), ["mfxImplDescription", "AccelerationMode"], U32(n), true);
            AfterValidate(sp, cs + [c]).accelerationMode == AfterLowLatencyCheck(sp, cs + [c]).accelerationMode
            == Some(Low32(n))
    ensures var c := Set(EmptyConfig(), API + ["Version"], U32(n), true);
            AfterValidate(sp, cs + [c]).apiVersion == AfterLowLatencyCheck(sp, cs + [c]).apiVersion
            == Some(Version(Low32(n) / 0x1_0000, Low32(n) % 0x1_0000))
    ensures var c := Set(EmptyConfig(), ["ExtBuffer"], To(q), true);
            q.asExtBuf != [] ==>
              AfterValidate(sp, cs + [c]).extBuffers == AfterLowLatencyCheck(sp, cs + [c]).extBuffers
              == ExtBuffers(cs) + [Bytes(q.asExtBuf)]
  {
    hide Set, With, AfterValidate, AfterLowLatencyCheck;
    SetIs(MAIN_ACCELERATION_MODE, ["mfxImplDescription", "AccelerationMode"], U32(n), Num(n), true);
    RecordedWith(sp, cs, MAIN_ACCELERATION_MODE, Num(n));
    SetIs(MAIN_API_VERSION, API + ["Version"], U32(n), Num(n), true);
    RecordedWith(sp, cs, MAIN_API_VERSION, Num(n));
    if q.asExtBuf != [] {
      SetIs(SPECIAL_EXT_BUFFER, ["ExtBuffer"], To(q), Bytes(q.asExtBuf), true);
      RecordedWith(sp, cs, SPECIAL_EXT_BUFFER, Bytes(q.asExtBuf));
    }
  }

  // ---- low latency mode --------------------------------------------------------------------------------

  // The four required settings, made by name.
  function FourSettings(impl: nat, implName: Pointee, vendor: nat, mode: nat, windows: bool): seq<Config> {
    [Set(EmptyConfig(), ["mfxImplDescription", "Impl"], U32(impl), windows),
     Set(EmptyConfig(), ["mfxImplDescription", "ImplName"], To(implName), windows),
     Set(EmptyConfig(), ["mfxImplDescription", "VendorID"], U32(vendor), windows),
     Set(EmptyConfig(), ["mfxImplDescription", "AccelerationMode"], U32(mode), windows)]
  }

  function Without(cs: seq<Config>, k: nat): seq<Config>
    requires k < |cs|
  {
    cs[k := EmptyConfig()]
  }

  // Which names may be set besides without leaving the mode.
  const LOW_LATENCY_NAMES := [["mfxImplDescription", "ApiVersion", "Version"], ["mfxHandleType"], ["mfxHDL"],
                              ["NumThread"], ["ExtBuffer"], ["DXGIAdapterIndex"]]

  predicate Required(i: int) {
    i == MAIN_IMPL || i == MAIN_IMPL_NAME || i == MAIN_VENDOR_ID || i == MAIN_ACCELERATION_MODE
  }

  lemma NamesDiffer(i: int, j: int)
    requires Settable(i, true) && Settable(j, true) && NameOf(i) == NameOf(j)
    requires j != DEVICE_DEVICE_ID && j != DEVICE_DEVICE_ID_STR
    ensures i == j
  {
    hide NameOf, Resolve;
    NameOfResolves(i, true);
    NameOfResolves(j, true);
    EitherPointer(j, i == DEVICE_DEVICE_ID_STR, true);
  }

  lemma LowLatencyNames(i: int)
    requires Settable(i, true) && !Required(i)
    ensures NameOf(i) in LOW_LATENCY_NAMES <==> AllowedInLowLatency(i)
  {
    assert LOW_LATENCY_NAMES[0] == NameOf(MAIN_API_VERSION);
    assert LOW_LATENCY_NAMES[1..] == [NameOf(SPECIAL_HANDLE_TYPE), NameOf(SPECIAL_HANDLE), NameOf(SPECIAL_NUM_THREAD),
                                      NameOf(SPECIAL_EXT_BUFFER), NameOf(SPECIAL_DXGI_ADAPTER_INDEX)];
    assert LOW_LATENCY_NAMES == [LOW_LATENCY_NAMES[0]] + LOW_LATENCY_NAMES[1..];
    hide NameOf;
    if NameOf(i) == NameOf(MAIN_API_VERSION) { NamesDiffer(i, MAIN_API_VERSION); }
    if NameOf(i) == NameOf(SPECIAL_HANDLE_TYPE) { NamesDiffer(i, SPECIAL_HANDLE_TYPE); }
    if NameOf(i) == NameOf(SPECIAL_HANDLE) { NamesDiffer(i, SPECIAL_HANDLE); }
    if NameOf(i) == NameOf(SPECIAL_NUM_THREAD) { NamesDiffer(i, SPECIAL_NUM_THREAD); }
    if NameOf(i) == NameOf(SPECIAL_EXT_BUFFER) { NamesDiffer(i, SPECIAL_EXT_BUFFER); }
    if NameOf(i) == NameOf(SPECIAL_DXGI_ADAPTER_INDEX) { NamesDiffer(i, SPECIAL_DXGI_ADAPTER_INDEX); }
  }

  function FourConfigs(impl: nat, implName: Pointee, vendor: nat, mode: nat): seq<Config> {
    [With(MAIN_IMPL, Num(impl)), With(MAIN_IMPL_NAME, Text(implName.asText)), With(MAIN_VENDOR_ID, Num(vendor)),
     With(MAIN_ACCELERATION_MODE, Num(mode))]
  }

  lemma FourSet(impl: nat, implName: Pointee, vendor: nat, mode: nat, windows: bool)
    ensures FourSettings(impl, implName, vendor, mode, windows) == FourConfigs(impl, implName, vendor, mode)
  {
    hide Set, With;
    SetIs(MAIN_IMPL, ["mfxImplDescription", "Impl"], U32(impl), Num(impl), windows);
    SetIs(MAIN_IMPL_NAME, ["mfxImplDescription", "ImplName"], To(implName), Text(implName.asText), windows);
    SetIs(MAIN_VENDOR_ID, ["mfxImplDescription", "VendorID"], U32(vendor), Num(vendor), windows);
    SetIs(MAIN_ACCELERATION_MODE, ["mfxImplDescription", "AccelerationMode"], U32(mode), Num(mode), windows);
  }

  lemma FourDecide(impl: nat, implName: Pointee, vendor: nat, mode: nat)
    ensures LowLatency(FourConfigs(impl, implName, vendor, mode)) <==>
            Low32(impl) == 2 && implName.asText == "mfx-gen" && Low32(vendor) == 0x8086
  {
    hide With;
    var cs := FourConfigs(impl, implName, vendor, mode);
    WithSets(MAIN_IMPL, Num(impl));
    WithSets(MAIN_IMPL_NAME, Text(implName.asText));
    WithSets(MAIN_VENDOR_ID, Num(vendor));
    WithSets(MAIN_ACCELERATION_MODE, Num(mode));
    LastIsLast(cs, 0, MAIN_IMPL);
    LastIsLast(cs, 1, MAIN_IMPL_NAME);
    LastIsLast(cs, 2, MAIN_VENDOR_ID);
    LastIsLast(cs, 3, MAIN_ACCELERATION_MODE);
  }

  // Hardware (2), the name mfx-gen, Intel (0x8086) and some acceleration mode turn the mode on.
  lemma LowLatencyByName(impl: nat, implName: Pointee, vendor: nat, mode: nat, windows: bool)
    ensures var four := FourSettings(impl, implName, vendor, mode, windows);
            && (LowLatency(four) <==> Low32(impl) == 2 && implName.asText == "mfx-gen" && Low32(vendor) == 0x8086)
            && forall k | 0 <= k < 4 :: !LowLatency(Without(four, k))
  {
    hide LowLatency;
    FourSet(impl, implName, vendor, mode, windows);
    FourDecide(impl, implName, vendor, mode);
    forall k | 0 <= k < 4 ensures !LowLatency(Without(FourConfigs(impl, implName, vendor, mode), k)) {
      OneMissing(impl, implName, vendor, mode, k);
    }
  }

  lemma OneMissing(impl: nat, implName: Pointee, vendor: nat, mode: nat, k: nat)
    requires k < 4
    ensures !LowLatency(Without(FourConfigs(impl, implName, vendor, mode), k))
  {
    hide With;
    var cs := Without(FourConfigs(impl, implName, vendor, mode), k);
    WithSets(MAIN_IMPL, Num(impl));
    WithSets(MAIN_IMPL_NAME, Text(implName.asText));
    WithSets(MAIN_VENDOR_ID, Num(vendor));
    WithSets(MAIN_ACCELERATION_MODE, Num(mode));
    var i := if k == 0 then MAIN_IMPL else if k == 1 then MAIN_IMPL_NAME
             else if k == 2 then MAIN_VENDOR_ID else MAIN_ACCELERATION_MODE;
    assert forall j | 0 <= j < 4 :: !IsSet(cs[j], i);
  }

  // A further property, none of the four, keeps the mode on iff it is one of those named above.
  lemma LowLatencyKept(cs: seq<Config>, i: int, d: Data, windows: bool)
    requires Settable(i, windows) && DataFits(i, d) && !Required(i)
    ensures LowLatency(cs + [With(i, d)]) <==> LowLatency(cs) && NameOf(i) in LOW_LATENCY_NAMES
  {
    hide With, NameOf;
    LowLatencyNames(i);
    WithSets(i, d);
    var all := cs + [With(i, d)];
    forall j | Required(j) ensures Last(all, j) == Last(cs, j) { LastAppend(cs, With(i, d), j); }
    assert all[|cs|] == With(i, d) && forall k | 0 <= k < |cs| :: all[k] == cs[k];
  }
}
