// The loader object (mfxLoader) and the objects it owns, operation by operation. Each method is
// proved to do to the objects what the corresponding function of LoaderState does to their values.
module Loader {
  import opened Config
  import opened DeviceId
  import opened Filters
  import opened ImplOrder
  import opened LoaderState
  import opened PostPass
  import opened Special
  import opened StableSort
  import opened VplTypes

  // info is what the runtime reported when the implementation was found; implDesc is the pointer to
  // the description, which in general may be null.
  class ImplInfo {
    const info: ImplData
    var implDesc: Option<ImplDesc>
    var adapterIdx: u32
    var validImplIdx: int

    constructor (info: ImplData)
      ensures View() == NewImpl(info) && Described()
    {
      this.info := info;
      implDesc := Some(info.caps.desc);
      adapterIdx := UNKNOWN_ID;
      validImplIdx := info.id;
    }

    function View(): Impl
      reads this
    {
      Impl(info, adapterIdx, validImplIdx)
    }

    predicate Described()
      reads `implDesc
    {
      implDesc == Some(info.caps.desc)
    }

    // As the pass over the list sees it.
    function AsEntry(): Entry
      reads this
    {
      Entry(info.libType, implDesc, adapterIdx, validImplIdx)
    }
  }

  class LibInfo {
    const uid: nat
    const libNameFull: string
    const libPriority: nat
    var libType: LibType
    var hModuleVPL: bool
    var vplFuncTable: FunctionTable
    var msdkVersion: u32

    constructor (uid: nat, c: Candidate)
      ensures View() == NewLib(uid, c)
    {
      this.uid, libNameFull, libPriority := uid, c.name, c.priority;
      libType, hModuleVPL, msdkVersion := LibTypeUnknown, false, 0;
      vplFuncTable := seq(NUM_VPL_FUNCTIONS, i => false);
    }

    function View(): Lib
      reads this
    {
      Lib(uid, libNameFull, libPriority, libType, hModuleVPL, vplFuncTable, msdkVersion)
    }
  }

  function ImplViews(s: seq<ImplInfo>): (r: seq<Impl>)
    reads s
    ensures |r| == |s| && forall i | 0 <= i < |s| :: r[i] == s[i].View()
  {
    seq(|s|, i requires 0 <= i < |s| reads s => s[i].View())
  }

  function Entries(s: seq<ImplInfo>): (r: seq<Entry>)
    reads s
    ensures |r| == |s| && forall i | 0 <= i < |s| :: r[i] == s[i].AsEntry()
  {
    seq(|s|, i requires 0 <= i < |s| reads s => s[i].AsEntry())
  }

  ghost predicate AllDescribed(s: seq<ImplInfo>)
    reads s`implDesc
  {
    forall k | 0 <= k < |s| :: s[k].Described()
  }

  function LibViews(s: seq<LibInfo>): (r: seq<Lib>)
    reads s
    ensures |r| == |s| && forall i | 0 <= i < |s| :: r[i] == s[i].View()
  {
    seq(|s|, i requires 0 <= i < |s| reads s => s[i].View())
  }

  function ConfigViews(s: seq<ConfigCtxVPL>): (r: seq<Config>)
    requires forall i | 0 <= i < |s| :: s[i].Valid()
    reads s
    ensures |r| == |s| && forall i | 0 <= i < |s| :: r[i] == s[i].View()
  {
    seq(|s|, i requires 0 <= i < |s| && s[i].Valid() reads s => s[i].View())
  }

  ghost predicate NoRepeats<T>(s: seq<T>) { forall i, j | 0 <= i < j < |s| :: s[i] != s[j] }

  ghost predicate LibsDistinct(s: seq<LibInfo>) { forall i, j | 0 <= i < j < |s| :: s[i].uid != s[j].uid }

  const DataOf: ImplInfo -> ImplData := (p: ImplInfo) => p.info

  lemma OrderedViews(s: seq<ImplInfo>, priorityPath: bool)
    ensures ImplViews(Order(s, DataOf, priorityPath)) == Order(ImplViews(s), InfoOf, priorityPath)
    ensures multiset(Order(s, DataOf, priorityPath)) == multiset(s)
  {
    var f := (p: ImplInfo) reads p => p.View();
    OrderMap(s, DataOf, f, priorityPath);
    assert Map(s, f) == ImplViews(s);
    var t := Order(s, DataOf, priorityPath);
    assert Map(t, f) == ImplViews(t);
    OrderPermutes(s, DataOf, priorityPath);
  }

  class LoaderCtxVPL {
    var libInfoList: seq<LibInfo>
    var implInfoList: seq<ImplInfo>
    var configCtxList: seq<ConfigCtxVPL>
    var specialConfig: SpecialConfig
    var implIdxNext: nat
    var libUidNext: nat          // identities handed out to LibInfo objects
    var lowLatency: bool
    var needUpdateValidImpls: bool
    var needFullQuery: bool
    var priorityPathEnabled: bool
    const windows: bool
    ghost var trace: seq<Event>  // calls into the runtimes and the operating system

    ghost predicate Valid()
      reads this, configCtxList, implInfoList
    {
      && LibsDistinct(libInfoList) && NoRepeats(implInfoList) && NoRepeats(configCtxList)
      && UidsBelow(libInfoList, libUidNext)
      && (forall k | 0 <= k < |implInfoList| :: implInfoList[k].validImplIdx >= -1) && AllDescribed(implInfoList)
      && forall k | 0 <= k < |configCtxList| :: configCtxList[k].Valid() && configCtxList[k].windows == windows
    }

    ghost function View(): State
      requires Valid()
      reads this, configCtxList, implInfoList, libInfoList
    {
      State(LibViews(libInfoList), libUidNext, ImplViews(implInfoList), implIdxNext, ConfigViews(configCtxList),
            specialConfig, lowLatency, needUpdateValidImpls, needFullQuery, priorityPathEnabled, windows, trace)
    }

    constructor (windows: bool)
      ensures Valid() && View() == InitialState(windows)
    {
      this.windows := windows;
      libInfoList, implInfoList, configCtxList, specialConfig := [], [], [], NO_SPECIAL;
      implIdxNext, libUidNext := 0, 0;
      lowLatency, needUpdateValidImpls, needFullQuery, priorityPathEnabled := false, true, true, false;
      trace := [];
    }

    // The objects owned are those of before, and none of them has changed.
    twostate predicate OwnsTheSame()
      reads this, libInfoList, implInfoList, configCtxList
    {
      && libInfoList == old(libInfoList) && libUidNext == old(libUidNext)
      && implInfoList == old(implInfoList) && configCtxList == old(configCtxList)
      && unchanged(libInfoList) && unchanged(implInfoList) && unchanged(configCtxList)
    }

    twostate lemma SameViews()
      requires old(Valid()) && OwnsTheSame()
      ensures Valid()
      ensures LibViews(libInfoList) == old(LibViews(libInfoList))
      ensures ImplViews(implInfoList) == old(ImplViews(implInfoList))
      ensures ConfigViews(configCtxList) == old(ConfigViews(configCtxList))
    {}

    // ---- PrioritizeImplList -------------------------------------------------------------------

    // Splice the implementations of the priority path out into a list of their own.
    method SpliceOutSpecial() returns (special: seq<ImplInfo>)
      modifies this`implInfoList
      ensures special == Filter(old(implInfoList), IsSpecial(DataOf))
      ensures implInfoList == Filter(old(implInfoList), NotSpecial(DataOf))
    {
      hide Filter;
      special := [];
      var it := 0;
      ghost var all := implInfoList;
      FilterNone<ImplInfo>(IsSpecial<ImplInfo>(DataOf));
      FilterNone<ImplInfo>(NotSpecial<ImplInfo>(DataOf));
      assert all[..0] == [];
      while it < |implInfoList|
        invariant 0 <= it <= |implInfoList| && it + |special| <= |all|
        invariant special == Filter(all[..it + |special|], IsSpecial(DataOf))
        invariant implInfoList[..it] == Filter(all[..it + |special|], NotSpecial(DataOf))
        invariant implInfoList[it..] == all[it + |special|..]
        decreases |implInfoList| - it
      {
        ghost var n := it + |special|;
        var implInfo := implInfoList[it];
        assert implInfo == all[n] && all[..n + 1] == all[..n] + [implInfo];
        FilterSnoc(all[..n], implInfo, IsSpecial(DataOf));
        FilterSnoc(all[..n], implInfo, NotSpecial(DataOf));
        if implInfo.info.libPriority == LIB_PRIORITY_SPECIAL {
          implInfoList := implInfoList[..it] + implInfoList[it + 1..];
          special := special + [implInfo];
        } else {
          it := it + 1;
        }
      }
      assert all[..|all|] == all && implInfoList[..it] == implInfoList;
    }

    // Update the indices to match the list order.
    method RenumberList()
      requires NoRepeats(implInfoList)
      modifies implInfoList`validImplIdx
      ensures ImplViews(implInfoList) == Renumber(old(ImplViews(implInfoList)))
    {
      ghost var before := ImplViews(implInfoList);
      var validImplIdx := 0;
      for i := 0 to |implInfoList|
        invariant implInfoList == old(implInfoList)
        invariant validImplIdx == CountValid(before[..i])
        invariant forall j | 0 <= j < |implInfoList| ::
                    implInfoList[j].View() == if j < i then Renumber(before)[j] else before[j]
      {
        var implInfo := implInfoList[i];
        assert before[..i + 1][..i] == before[..i];
        if implInfo.validImplIdx >= 0 {
          implInfo.validImplIdx := validImplIdx;
          validImplIdx := validImplIdx + 1;
        }
      }
    }

    // The stable sorts, from the lowest to the highest rule, around the special entries.
    method SortList()
      modifies this`implInfoList
      ensures implInfoList == Order(old(implInfoList), DataOf, priorityPathEnabled)
    {
      var special: seq<ImplInfo> := [];
      if priorityPathEnabled { special := SpliceOutSpecial(); }
      implInfoList := Sort(implInfoList, ByPath(DataOf));
      implInfoList := Sort(implInfoList, ByVersion(DataOf));
      implInfoList := Sort(implInfoList, ByHddl(DataOf));
      implInfoList := Sort(implInfoList, ByImpl(DataOf));
      if priorityPathEnabled { implInfoList := special + implInfoList; }
    }

    method PrioritizeImplList()
      requires NoRepeats(implInfoList)
      modifies this`implInfoList, implInfoList`validImplIdx
      ensures multiset(implInfoList) == multiset(old(implInfoList)) && NoRepeats(implInfoList)
      ensures ImplViews(implInfoList) == Prioritize(old(ImplViews(implInfoList)), priorityPathEnabled)
    {
      hide Order, Renumber, NoRepeats;
      ghost var all := implInfoList;
      OrderedViews(all, priorityPathEnabled);
      SortList();
      NoRepeatsPermuted(all, implInfoList);
      SameObjects(all, implInfoList);
      RenumberList();
    }

    // ---- UpdateValidImplList ---------------------------------------------------------------------

    // Compare one implementation with the configurations, updating the special properties.
    method MeetsConfigs(implInfo: ImplInfo, cs: seq<Config>) returns (valid: bool)
      modifies this`specialConfig
      ensures specialConfig == AfterValidate(old(specialConfig), cs)
      ensures valid <==> Passes(implInfo.info, implInfo.adapterIdx, cs, old(specialConfig))
    {
      var caps := implInfo.info.caps;
      var sts;
      sts, specialConfig :=
        ValidateConfig(Some(caps.desc), caps.funcs, caps.ext, cs, implInfo.info.libType, specialConfig);
      assert caps == Caps(caps.desc, caps.funcs, caps.ext);
      if specialConfig.dxgiAdapterIdx.Some? && specialConfig.dxgiAdapterIdx.value != implInfo.adapterIdx {
        sts := ErrUnsupported;
      }
      valid := sts == ErrNone;
    }

    // The loop body for one entry; next is the index it gets if it is still valid.
    method RecheckEntry(implInfo: ImplInfo, cs: seq<Config>, next: nat) returns (next': nat)
      requires implInfo.validImplIdx >= -1
      modifies this`specialConfig, implInfo`validImplIdx
      ensures next' >= next
      ensures specialConfig == if old(implInfo.validImplIdx) == -1 then old(specialConfig)
                               else AfterValidate(old(specialConfig), cs)
      ensures Twins(implInfo.View(), Recheck(old(implInfo.View()), cs, old(specialConfig)))
    {
      next' := next;
      // already invalidated by a previous filter
      if implInfo.validImplIdx == -1 { return; }
      var valid := MeetsConfigs(implInfo, cs);
      if valid {
        implInfo.validImplIdx := next;
        next' := next + 1;
      } else {
        implInfo.validImplIdx := -1;
      }
    }

    // Walk the list, dropping the implementations that no longer meet the configurations.
    method RecheckList(cs: seq<Config>)
      requires NoRepeats(implInfoList)
      requires forall k | 0 <= k < |implInfoList| :: implInfoList[k].validImplIdx >= -1
      modifies this`specialConfig, implInfoList`validImplIdx
      ensures specialConfig == if AnyValid(old(ImplViews(implInfoList)))
                               then AfterValidate(old(specialConfig), cs) else old(specialConfig)
      ensures forall k | 0 <= k < |implInfoList| ::
                Twins(implInfoList[k].View(), RecheckAll(old(ImplViews(implInfoList)), cs, old(specialConfig))[k])
    {
      ghost var before, sp := ImplViews(implInfoList), specialConfig;
      ghost var after := RecheckAll(before, cs, sp);
      var validImplIdx := 0;
      for i := 0 to |implInfoList|
        invariant implInfoList == old(implInfoList)
        invariant specialConfig == SpecialAfter(before, i, cs, sp)
        invariant forall j | 0 <= j < |implInfoList| ::
                    if j < i then Twins(implInfoList[j].View(), after[j]) else implInfoList[j].View() == before[j]
      {
        SpecialAfterStep(before, i, cs, sp);
        validImplIdx := RecheckEntry(implInfoList[i], cs, validImplIdx);
      }
      assert before[..|before|] == before;
    }

    // Recheck every implementation, then re-sort the list.
    method RecheckAndPrioritize(cs: seq<Config>)
      requires NoRepeats(implInfoList)
      requires forall k | 0 <= k < |implInfoList| :: implInfoList[k].validImplIdx >= -1
      requires AllDescribed(implInfoList)
      modifies this`specialConfig, this`implInfoList, implInfoList`validImplIdx
      ensures multiset(implInfoList) == multiset(old(implInfoList)) && NoRepeats(implInfoList)
      ensures forall k | 0 <= k < |implInfoList| :: implInfoList[k].validImplIdx >= -1
      ensures AllDescribed(implInfoList)
      ensures specialConfig == if AnyValid(old(ImplViews(implInfoList)))
                               then AfterValidate(old(specialConfig), cs) else old(specialConfig)
      ensures ImplViews(implInfoList) ==
              Prioritize(RecheckAll(old(ImplViews(implInfoList)), cs, old(specialConfig)), priorityPathEnabled)
    {
      hide RecheckAll, Prioritize, AnyValid, AfterValidate, AllDescribed, NoRepeats, Twins;
      ghost var after := RecheckAll(ImplViews(implInfoList), cs, specialConfig);
      RecheckList(cs);
      ghost var checked := ImplViews(implInfoList);
      PrioritizeStable(checked, after, priorityPathEnabled);
      PrioritizeFloor(after, priorityPathEnabled);
      ghost var all := implInfoList;
      PrioritizeImplList();
      DescribedPermuted(all, implInfoList);
      assert forall k | 0 <= k < |implInfoList| :: implInfoList[k].View() == ImplViews(implInfoList)[k];
    }

    method UpdateValidImplList()
      requires Valid()
      modifies this`specialConfig, this`implInfoList, this`needUpdateValidImpls, implInfoList`validImplIdx
      ensures Valid() && View() == UpdateValid(old(View()))
      ensures multiset(implInfoList) == multiset(old(implInfoList))
    {
      hide LibsDistinct, UidsBelow, NoRepeats, AllDescribed, RecheckAll, Prioritize, AnyValid, AfterValidate, Recheck;
      RecheckAndPrioritize(ConfigViews(configCtxList));
      needUpdateValidImpls := false;
      ImplsChanged();
    }

    // The implementations may have changed, the libraries and configurations have not.
    twostate lemma ImplsChanged()
      requires old(Valid()) && NoRepeats(implInfoList) && AllDescribed(implInfoList)
      requires forall k | 0 <= k < |implInfoList| :: implInfoList[k].validImplIdx >= -1
      requires libInfoList == old(libInfoList) && libUidNext == old(libUidNext) && configCtxList == old(configCtxList)
      requires unchanged(libInfoList) && unchanged(configCtxList)
      ensures Valid()
      ensures LibViews(libInfoList) == old(LibViews(libInfoList))
      ensures ConfigViews(configCtxList) == old(ConfigViews(configCtxList))
    {}

    // ---- QueryImpl, CreateSession, ReleaseImpl ------------------------------------------------------

    // Deliver a capability structure of the implementation that has index idx.
    method QueryImpl(idx: u32, format: Format) returns (reply: Reply)
      ensures reply == ReplyToEnumerate(ImplViews(implInfoList), idx, format)
    {
      ghost var s := ImplViews(implInfoList);
      var it := 0;
      while it < |implInfoList|
        invariant 0 <= it <= |implInfoList|
        invariant forall j | 0 <= j < it :: s[j].validImplIdx != SignedIndex(idx)
      {
        var implInfo := implInfoList[it];
        if implInfo.validImplIdx == SignedIndex(idx) {
          assert s[it].validImplIdx == SignedIndex(idx) && FindIndex(s, SignedIndex(idx)) == it;
          var idesc := Deliver(implInfo.View(), format);
          // implementation found, but the requested format may not be supported
          if idesc == Nothing { return Plain(ErrUnsupported); }
          return Reply(ErrNone, idesc, None);
        }
        it := it + 1;
      }
      return Plain(ErrNotFound);
    }

    // The extension buffers of a session: the thread count first, then those of the configurations.
    method CollectBuffers() returns (extBufs: seq<SessionBuffer>)
      ensures extBufs == SessionBuffers(specialConfig)
    {
      extBufs := [];
      if specialConfig.numThread.Some? {
        extBufs := extBufs + [ThreadsParam(specialConfig.numThread.value % 0x1_0000)];
      }
      var first := |extBufs|;
      for i := 0 to |specialConfig.extBuffers|
        invariant |extBufs| == first + i
        invariant extBufs == SessionBuffers(specialConfig)[..first + i]
      {
        extBufs := extBufs + [FromConfig(specialConfig.extBuffers[i])];
      }
    }

    // Initialise a session with the implementation that has index idx, in either mode; session is the
    // answer of the runtime, and the reply records what it was asked.
    method CreateSession(idx: u32, session: Status) returns (reply: Reply)
      ensures reply == ReplyToCreateSession(ImplViews(implInfoList), idx, specialConfig, lowLatency, session)
    {
      ghost var s := ImplViews(implInfoList);
      var it := 0;
      while it < |implInfoList|
        invariant 0 <= it <= |implInfoList|
        invariant forall j | 0 <= j < it :: s[j].validImplIdx != SignedIndex(idx)
      {
        var implInfo := implInfoList[it];
        if implInfo.validImplIdx == SignedIndex(idx) {
          assert s[it].validImplIdx == SignedIndex(idx) && FindIndex(s, SignedIndex(idx)) == it;
          reply := InitSession(implInfo, session);
          return;
        }
        it := it + 1;
      }
      return Plain(ErrNotFound);
    }

    // Build the request for one implementation.
    method InitSession(implInfo: ImplInfo, session: Status) returns (reply: Reply)
      ensures reply == if lowLatency && RefusedInLowLatency(implInfo.View(), specialConfig) then Plain(ErrNotFound)
                       else Reply(session, Nothing, Some(RequestFor(implInfo.View(), specialConfig, lowLatency)))
    {
      var desc := implInfo.info.caps.desc;
      var accelerationMode := desc.accelerationMode;
      if specialConfig.accelerationMode.Some? { accelerationMode := specialConfig.accelerationMode.value; }
      // in low latency mode there was no filtering, so check the API version here
      if lowLatency && specialConfig.apiVersion.Some? {
        if desc.apiVersion.Number() < specialConfig.apiVersion.value.Number() { return Plain(ErrNotFound); }
      }
      var vendorImplID, legacyAdapter, inRange := SelectAdapter(implInfo, accelerationMode);
      if !inRange { return Plain(ErrNotFound); }
      var extBufs := CollectBuffers();
      var numExtParam := |extBufs| % 0x1_0000;
      var setHandle := None;
      if specialConfig.deviceHandleType.Some? && specialConfig.deviceHandle.Some?
         && specialConfig.deviceHandleType.value != 0 && NonNull(specialConfig.deviceHandle.value) {
        setHandle := Some((specialConfig.deviceHandleType.value, specialConfig.deviceHandle.value));
      }
      return Reply(session, Nothing, Some(SessionRequest(
        implInfo.info, accelerationMode, vendorImplID, legacyAdapter, numExtParam,
        if numExtParam != 0 then extBufs else [], setHandle)));
    }

    // The implementation number of a VPL runtime, or the adapter of a legacy one.
    method SelectAdapter(implInfo: ImplInfo, accelerationMode: u32)
      returns (vendorImplID: u32, legacyAdapter: LegacyAdapter, inRange: bool)
      ensures inRange <==> !(lowLatency && specialConfig.dxgiAdapterIdx.Some? && implInfo.info.libType == LibTypeMSDK
                             && specialConfig.dxgiAdapterIdx.value >= MAX_NUM_IMPL_MSDK)
      ensures inRange ==> legacyAdapter == AdapterFor(implInfo.info, accelerationMode, specialConfig, lowLatency)
      ensures vendorImplID == if lowLatency && specialConfig.dxgiAdapterIdx.Some? && implInfo.info.libType == LibTypeVPL
                              then specialConfig.dxgiAdapterIdx.value else implInfo.info.caps.desc.vendorImplID
    {
      vendorImplID, legacyAdapter, inRange := implInfo.info.caps.desc.vendorImplID, NotLegacy, true;
      if implInfo.info.libType == LibTypeMSDK {
        legacyAdapter := OfQuery(implInfo.info.msdkImplIdx, accelerationMode == ACCEL_MODE_VIA_D3D9);
      }
      if lowLatency {
        if specialConfig.dxgiAdapterIdx.Some? && implInfo.info.libType == LibTypeVPL {
          vendorImplID := specialConfig.dxgiAdapterIdx.value;
        } else if specialConfig.dxgiAdapterIdx.Some? && implInfo.info.libType == LibTypeMSDK {
          inRange := specialConfig.dxgiAdapterIdx.value < MAX_NUM_IMPL_MSDK;
          legacyAdapter := FromTable(specialConfig.dxgiAdapterIdx.value);
        }
      }
    }

    // Nothing is given back before MFXUnload: the call only reports whether the handle is known.
    method ReleaseImpl(idesc: Delivered) returns (sts: Status)
      ensures sts == ReleaseStatus(ImplViews(implInfoList), idesc)
    {
      if idesc == Nothing { return ErrNullPtr; }
      var it := 0;
      while it < |implInfoList|
        invariant 0 <= it <= |implInfoList|
        invariant forall j | 0 <= j < it :: !Holds(ImplViews(implInfoList)[j], idesc)
      {
        if Holds(implInfoList[it].View(), idesc) {
          assert Holds(ImplViews(implInfoList)[it], idesc);
          return ErrNone;
        }
        it := it + 1;
      }
      return ErrInvalidHandle;
    }

    // ---- configurations ---------------------------------------------------------------------------------

    method AddConfigFilter() returns (config: ConfigCtxVPL)
      requires Valid()
      modifies this`configCtxList
      ensures Valid() && fresh(config) && configCtxList == old(configCtxList) + [config]
      ensures (Plain(ErrNone), View()) == Step(old(View()), CreateConfig)
    {
      hide LibsDistinct, UidsBelow, AllDescribed, EnumerateStep, CreateSessionStep, SetStep, ReleaseStatus;
      ghost var before := View();
      config := new ConfigCtxVPL(windows);
      configCtxList := configCtxList + [config];
      assert ConfigViews(configCtxList) == before.configs + [EmptyConfig()];
      assert LibViews(libInfoList) == before.libs && ImplViews(implInfoList) == before.impls;
    }

    method UpdateLowLatency(cs: seq<Config>)
      modifies this`lowLatency, this`specialConfig
      ensures lowLatency == LowLatency(cs) && specialConfig == AfterLowLatencyCheck(old(specialConfig), cs)
    {
      lowLatency := false;
      lowLatency, specialConfig := CheckLowLatencyConfig(cs, specialConfig);
    }

    method SetOnConfig(k: nat, name: Option<string>, value: Variant) returns (sts: Status)
      requires Valid() && k < |configCtxList|
      modifies configCtxList[k]
      ensures Valid()
      ensures sts == AfterSet(old(View()).configs[k], name, value, windows).0
      ensures var st := old(View());
              View() == st.(configs := st.configs[k := AfterSet(st.configs[k], name, value, windows).1])
    {
      ghost var before := View();
      var config := configCtxList[k];
      sts := config.SetFilterProperty(name, value);
      assert ConfigViews(configCtxList) == before.configs[k := config.View()];
      assert LibViews(libInfoList) == before.libs && ImplViews(implInfoList) == before.impls;
    }

    // A property has changed: the valid list is out of date.
    method MarkChanged()
      requires Valid()
      modifies this`lowLatency, this`specialConfig, this`needUpdateValidImpls
      ensures Valid()
      ensures var st := old(View());
              View() == st.(needUpdateValidImpls := true, lowLatency := LowLatency(st.configs),
                            special := AfterLowLatencyCheck(st.special, st.configs))
    {
      needUpdateValidImpls := true;
      SameViews();
      UpdateLowLatency(ConfigViews(configCtxList));
      SameViews();
    }

    // MFXSetConfigFilterProperty on the k-th configuration of this loader.
    method SetConfigFilterProperty(k: nat, name: Option<string>, value: Variant) returns (sts: Status)
      requires Valid() && k < |configCtxList|
      modifies this`lowLatency, this`specialConfig, this`needUpdateValidImpls, configCtxList[k]
      ensures Valid()
      ensures (Plain(sts), View()) == Step(old(View()), SetProperty(k, name, value))
    {
      hide Valid, EnumerateStep, CreateSessionStep, ReleaseStatus, AfterSet;
      sts := SetOnConfig(k, name, value);
      if sts != ErrNone { return; }
      MarkChanged();
    }

    // ---- BuildListOfCandidateLibs ----------------------------------------------------------------------

    method FindLibrary(name: string) returns (i: nat)
      ensures i <= |libInfoList| && (i < |libInfoList| ==> libInfoList[i].libNameFull == name)
      ensures forall j | 0 <= j < i :: libInfoList[j].libNameFull != name
    {
      i := 0;
      while i < |libInfoList| && libInfoList[i].libNameFull != name
        invariant i <= |libInfoList|
        invariant forall j | 0 <= j < i :: libInfoList[j].libNameFull != name
      {
        i := i + 1;
      }
    }

    method AppendLibrary(c: Candidate)
      requires Valid()
      modifies this`libInfoList, this`libUidNext
      ensures Valid() && |libInfoList| == |old(libInfoList)| + 1 && fresh(libInfoList[|old(libInfoList)|])
      ensures old(libInfoList) <= libInfoList
      ensures var st := old(View()); View() == st.(libs := st.libs + [NewLib(st.uidNext, c)], uidNext := st.uidNext + 1)
    {
      hide AllDescribed, NoRepeats;
      ghost var before := View();
      var libInfo := new LibInfo(libUidNext, c);
      libInfoList := libInfoList + [libInfo];
      libUidNext := libUidNext + 1;
      assert LibViews(libInfoList) == before.libs + [NewLib(before.uidNext, c)];
      assert ImplViews(implInfoList) == before.impls && ConfigViews(configCtxList) == before.configs;
    }

    // SearchDirForLibs, for one file: skip duplicates, otherwise append a new entry.
    method AddLibrary(c: Candidate)
      requires Valid()
      modifies this`libInfoList, this`libUidNext
      ensures Valid() && View() == AddCandidate(old(View()), c)
      ensures old(libInfoList) <= libInfoList
      ensures forall k | |old(libInfoList)| <= k < |libInfoList| :: fresh(libInfoList[k])
    {
      ghost var before := View();
      var i := FindLibrary(c.name);
      assert forall j | 0 <= j < |libInfoList| :: before.libs[j].name == libInfoList[j].libNameFull;
      hide Valid;
      if i < |libInfoList| { return; }
      AppendLibrary(c);
    }

    method AddLibraries(cs: seq<Candidate>)
      requires Valid()
      modifies this`libInfoList, this`libUidNext
      ensures Valid() && View() == AddCandidates(old(View()), cs)
      ensures old(libInfoList) <= libInfoList
      ensures forall k | |old(libInfoList)| <= k < |libInfoList| :: fresh(libInfoList[k])
    {
      ghost var before := View();
      for k := 0 to |cs|
        invariant Valid() && View() == AddCandidates(before, cs[..k])
        invariant old(libInfoList) <= libInfoList
        invariant forall j | |old(libInfoList)| <= j < |libInfoList| :: fresh(libInfoList[j])
      {
        assert cs[..k + 1][..k] == cs[..k];
        AddLibrary(cs[k]);
      }
      assert cs[..|cs|] == cs;
    }

    method BuildListOfCandidateLibs(env: Environment)
      requires Valid()
      modifies this`libInfoList, this`libUidNext, this`priorityPathEnabled
      ensures Valid() && View() == BuildList(old(View()), env)
      ensures old(libInfoList) <= libInfoList
      ensures forall k | |old(libInfoList)| <= k < |libInfoList| :: fresh(libInfoList[k])
    {
      AddCandidatesKeepsPath(View(), CandidatesOf(env));
      AddLibraries(CandidatesOf(env));
      if |env.priorityPathDirs| > 0 { priorityPathEnabled := true; }
    }

    // ---- CheckValidLibraries -----------------------------------------------------------------------------

    // Load one library and decide whether it is a usable runtime.
    method LoadAndProbe(libInfo: LibInfo, rt: Runtime) returns (usable: bool)
      modifies libInfo, this`trace
      ensures trace == old(trace) + ModuleEvents(old(libInfo.View()), rt, windows)
      ensures !usable ==> libInfo.hModuleVPL == rt.loads
      ensures usable <==> Probe(old(libInfo.View()), rt, windows).Some?
      ensures usable ==> libInfo.View() == Probe(old(libInfo.View()), rt, windows).value
    {
      libInfo.hModuleVPL := rt.loads;
      if libInfo.hModuleVPL {
        trace := trace + [Load(libInfo.uid)];
        // LoadAPIExports: functions found are added to the table
        var table := libInfo.vplFuncTable;
        libInfo.vplFuncTable :=
          seq(NUM_VPL_FUNCTIONS, i requires 0 <= i < NUM_VPL_FUNCTIONS => table[i] || rt.exports[i]);
      }
      assert libInfo.vplFuncTable ==
             seq(NUM_VPL_FUNCTIONS, i requires 0 <= i < NUM_VPL_FUNCTIONS =>
                   old(libInfo.vplFuncTable)[i] || (rt.loads && rt.exports[i]));
      if libInfo.vplFuncTable[IDX_MFX_INITIALIZE] && libInfo.libPriority < LIB_PRIORITY_LEGACY_DRIVERSTORE {
        libInfo.libType := LibTypeVPL;
        return true;
      }
      var numFunctions := 0;
      if libInfo.hModuleVPL && Occurs(MSDK_LIB_NAME, libInfo.libNameFull) { numFunctions := rt.msdkExports; }
      if numFunctions == NUM_MSDK_FUNCTIONS && rt.msdkVersion.Some? {
        libInfo.msdkVersion := rt.msdkVersion.value;
        libInfo.libType := LibTypeMSDK;
        var v := VersionOf(libInfo.msdkVersion);
        if windows && v.major == 1 && v.minor <= 27 {
          trace := trace + [Close(libInfo.uid)];
          libInfo.hModuleVPL := false;
        }
        return true;
      }
      return false;
    }

    // Close the module of a library and delete the object.
    method UnloadSingleLibrary(libInfo: LibInfo)
      modifies this`trace
      ensures trace == old(trace) + CloseEvents(libInfo.View())
    {
      if libInfo.hModuleVPL { trace := trace + [Close(libInfo.uid)]; }
      trace := trace + [Unload(libInfo.uid)];
    }

    // Drop the library at position it.
    method UnloadAt(it: nat, ghost owner: set<LibInfo>, ghost bound: nat)
      requires it < |libInfoList| && Owned(libInfoList, owner, bound)
      modifies this`libInfoList, this`trace
      ensures libInfoList == old(libInfoList[..it] + libInfoList[it + 1..]) && Owned(libInfoList, owner, bound)
      ensures var before := old(LibViews(libInfoList));
              && LibViews(libInfoList) == before[..it] + before[it + 1..]
              && trace == old(trace) + CloseEvents(before[it])
    {
      hide Owned;
      Surrounded(libInfoList, it, owner, bound);
      ViewsConcat(libInfoList[..it], libInfoList[it + 1..]);
      assert LibViews(libInfoList[..it]) == LibViews(libInfoList)[..it];
      assert LibViews(libInfoList[it + 1..]) == LibViews(libInfoList)[it + 1..];
      UnloadSingleLibrary(libInfoList[it]);
      libInfoList := libInfoList[..it] + libInfoList[it + 1..];
    }

    // Load the library at position it; the others stay as they are.
    method LoadAt(it: nat, env: Environment, ghost owner: set<LibInfo>, ghost bound: nat) returns (usable: bool)
      requires it < |libInfoList| && Owned(libInfoList, owner, bound)
      modifies libInfoList[it], this`trace
      ensures var before, l := old(LibViews(libInfoList)), libInfoList[it];
              var p := Probe(before[it], env.runtime(before[it].name), windows);
              && LibViews(libInfoList) == before[it := l.View()]
              && usable == p.Some? && (usable ==> l.View() == p.value)
              && (!usable ==> l.hModuleVPL == env.runtime(before[it].name).loads)
              && trace == old(trace) + ModuleEvents(before[it], env.runtime(before[it].name), windows)
    {
      hide Owned, Probe;
      Surrounded(libInfoList, it, owner, bound);
      var libInfo := libInfoList[it];
      assert forall k | 0 <= k < |libInfoList| && k != it :: libInfoList[k] != libInfo by {
        assert forall k | 0 <= k < it :: libInfoList[k] == libInfoList[..it][k];
        assert forall k | it < k < |libInfoList| :: libInfoList[k] == libInfoList[it + 1..][k - it - 1];
      }
      usable := LoadAndProbe(libInfo, env.runtime(libInfo.libNameFull));
    }

    // One library of the first pass: drop it when it is unusable.
    method ProbeAt(it: nat, env: Environment, ghost owner: set<LibInfo>, ghost bound: nat) returns (usable: bool)
      requires it < |libInfoList| && Owned(libInfoList, owner, bound)
      modifies this`libInfoList, this`trace, libInfoList[it]
      ensures it <= |libInfoList| && Owned(libInfoList, owner, bound) && libInfoList[..it] == old(libInfoList[..it])
      ensures usable ==> libInfoList == old(libInfoList)
      ensures var before := old(LibViews(libInfoList));
              var p := Probe(before[it], env.runtime(before[it].name), windows);
              && usable == p.Some?
              && LibViews(libInfoList) == before[..it] + (if p.Some? then [p.value] else []) + before[it + 1..]
              && trace == old(trace) + LoadEvents(before[it], env.runtime(before[it].name), windows)
    {
      hide Owned, Probe;
      usable := LoadAt(it, env, owner, bound);
      if !usable { UnloadAt(it, owner, bound); }
    }

    // Keep track of the best legacy libraries b and bDS of those before position it.
    method ProbeAndCompare(it: nat, env: Environment, b: LibInfo?, bDS: LibInfo?,
                           ghost owner: set<LibInfo>, ghost bound: nat)
      returns (it': nat, b': LibInfo?, bDS': LibInfo?)
      requires it < |libInfoList| && Owned(libInfoList, owner, bound)
      requires AreBest(b, bDS, libInfoList[..it], LibViews(libInfoList)[..it])
      modifies this`libInfoList, this`trace, libInfoList[it]
      ensures it' <= |libInfoList| && Owned(libInfoList, owner, bound)
      ensures var before := old(LibViews(libInfoList));
              var p := Probe(before[it], env.runtime(before[it].name), windows);
              && it' == (if p.Some? then it + 1 else it)
              && LibViews(libInfoList) == before[..it] + (if p.Some? then [p.value] else []) + before[it + 1..]
              && trace == old(trace) + LoadEvents(before[it], env.runtime(before[it].name), windows)
      ensures AreBest(b', bDS', libInfoList[..it'], LibViews(libInfoList)[..it'])
    {
      hide Owned, AreBest, Probe;
      ghost var before, kept := LibViews(libInfoList), libInfoList[..it];
      var libInfo := libInfoList[it];
      Surrounded(libInfoList, it, owner, bound);
      BestMembers(b, bDS, kept, before[..it]);
      it', b', bDS' := it, b, bDS;
      var usable := ProbeAt(it, env, owner, bound);
      assert LibViews(libInfoList)[..it] == before[..it];
      if usable {
        b', bDS' := BetterOfEach(b, bDS, libInfo, kept, before[..it]);
        it' := it + 1;
        assert LibViews(libInfoList)[..it'] == before[..it] + [libInfo.View()]
               && libInfoList[..it'] == kept + [libInfo];
      }
    }

    // The first pass has reached position it, after n of the libraries views.
    ghost predicate Probing(it: nat, n: nat, views: seq<Lib>, env: Environment, b: LibInfo?, bDS: LibInfo?,
                            earlier: seq<Event>)
      reads this, libInfoList, b, bDS
    {
      && n <= |views| && it == |ProbeAll(views[..n], env, windows)| <= |libInfoList|
      && LibViews(libInfoList) == ProbeAll(views[..n], env, windows) + views[n..]
      && trace == earlier + ProbeEvents(views[..n], env, windows)
      && AreBest(b, bDS, libInfoList[..it], LibViews(libInfoList)[..it])
    }

    method ProbeStep(it: nat, env: Environment, b: LibInfo?, bDS: LibInfo?, ghost n: nat, ghost views: seq<Lib>,
                     ghost earlier: seq<Event>, ghost owner: set<LibInfo>, ghost bound: nat)
      returns (it': nat, b': LibInfo?, bDS': LibInfo?)
      requires it < |libInfoList| && Owned(libInfoList, owner, bound)
      requires Probing(it, n, views, env, b, bDS, earlier)
      modifies this`libInfoList, this`trace, libInfoList[it]
      ensures Owned(libInfoList, owner, bound)
      ensures n < |views| && Probing(it', n + 1, views, env, b', bDS', earlier)
    {
      hide Owned, AreBest, ProbeAll, ProbeEvents, Probe;
      assert n < |views|;
      SplitAround(ProbeAll(views[..n], env, windows), views, n);
      ProbeAllNext(views, n, env, windows);
      ghost var done, did := ProbeAll(views[..n], env, windows), ProbeEvents(views[..n], env, windows);
      ghost var p, now := Probe(views[n], env.runtime(views[n].name), windows),
                          LoadEvents(views[n], env.runtime(views[n].name), windows);
      it', b', bDS' := ProbeAndCompare(it, env, b, bDS, owner, bound);
      assert LibViews(libInfoList) == (done + if p.Some? then [p.value] else []) + views[n + 1..];
      assert trace == (earlier + did) + now == earlier + (did + now);
    }

    // The first pass: load every library, drop those that are unusable, and remember the best legacy
    // one, overall and among those of the driver store.
    method ProbeLibraries(env: Environment, ghost owner: set<LibInfo>, ghost bound: nat)
      returns (msdkLibBest: LibInfo?, msdkLibBestDS: LibInfo?)
      requires Owned(libInfoList, owner, bound)
      modifies this`libInfoList, this`trace, owner
      ensures LibViews(libInfoList) == ProbeAll(old(LibViews(libInfoList)), env, windows)
      ensures trace == old(trace) + ProbeEvents(old(LibViews(libInfoList)), env, windows)
      ensures Owned(libInfoList, owner, bound)
      ensures AreBest(msdkLibBest, msdkLibBestDS, libInfoList, LibViews(libInfoList))
    {
      hide Owned, AreBest, ProbeAll, ProbeEvents, Probe;
      msdkLibBest, msdkLibBestDS := null, null;
      ghost var views, n := LibViews(libInfoList), 0;
      NoneIsBest(env, windows);
      assert libInfoList[..0] == [] && views[..0] == [];
      var it := 0;
      while it < |libInfoList|
        invariant 0 <= it && n <= |views| && Owned(libInfoList, owner, bound)
        invariant Probing(it, n, views, env, msdkLibBest, msdkLibBestDS, old(trace))
        decreases |views| - n
      {
        Surrounded(libInfoList, it, owner, bound);
        it, msdkLibBest, msdkLibBestDS :=
          ProbeStep(it, env, msdkLibBest, msdkLibBestDS, n, views, old(trace), owner, bound);
        n := n + 1;
      }
      assert n == |views| && views[..n] == views && libInfoList[..it] == libInfoList;
    }

    method PruneAt(it: nat, best: LibInfo?, ghost b: Option<Lib>, ghost owner: set<LibInfo>, ghost bound: nat)
      returns (it': nat)
      requires it < |libInfoList| && Owned(libInfoList, owner, bound) && Denotes(best, b, libInfoList)
      modifies this`libInfoList, this`trace
      ensures Owned(libInfoList, owner, bound) && Denotes(best, b, libInfoList)
      ensures var before := old(LibViews(libInfoList));
              var keep := Kept(before[it], b);
              && it' == (if keep then it + 1 else it)
              && LibViews(libInfoList) == before[..it] + (if keep then [before[it]] else []) + before[it + 1..]
              && trace == old(trace) + (if keep then [] else CloseEvents(before[it]))
    {
      hide Owned;
      it' := it;
      ghost var before := LibViews(libInfoList);
      var libInfo := libInfoList[it];
      if best != null { SameUid(libInfoList, owner, bound, libInfo, best); }
      if libInfo.libType == LibTypeMSDK && libInfo != best {
        if best != null { Removed(libInfoList, it, best); }
        UnloadAt(it, owner, bound);
      } else {
        it' := it + 1;
        assert LibViews(libInfoList) == before[..it] + [before[it]] + before[it + 1..];
      }
    }

    // The second pass has reached position it, after n of the libraries views.
    ghost predicate Pruning(it: nat, n: nat, views: seq<Lib>, b: Option<Lib>, earlier: seq<Event>)
      reads this, libInfoList
    {
      && n <= |views| && it == |Prune(views[..n], b)| <= |libInfoList|
      && LibViews(libInfoList) == Prune(views[..n], b) + views[n..]
      && trace == earlier + PruneEvents(views[..n], b)
    }

    method PruneStep(it: nat, best: LibInfo?, ghost n: nat, ghost views: seq<Lib>, ghost b: Option<Lib>,
                     ghost earlier: seq<Event>, ghost owner: set<LibInfo>, ghost bound: nat) returns (it': nat)
      requires it < |libInfoList| && Owned(libInfoList, owner, bound) && Denotes(best, b, libInfoList)
      requires Pruning(it, n, views, b, earlier)
      modifies this`libInfoList, this`trace
      ensures Owned(libInfoList, owner, bound) && Denotes(best, b, libInfoList)
      ensures n < |views| && Pruning(it', n + 1, views, b, earlier)
    {
      hide Owned, Prune, PruneEvents, Kept, Denotes;
      assert n < |views|;
      PruneNext(views, n, b, earlier);
      it' := PruneAt(it, best, b, owner, bound);
    }

    // The second pass: drop every legacy library but the best.
    method PruneLibraries(best: LibInfo?, ghost b: Option<Lib>, ghost owner: set<LibInfo>, ghost bound: nat)
      requires Owned(libInfoList, owner, bound) && Denotes(best, b, libInfoList)
      modifies this`libInfoList, this`trace
      ensures Owned(libInfoList, owner, bound)
      ensures LibViews(libInfoList) == Prune(old(LibViews(libInfoList)), b)
      ensures trace == old(trace) + PruneEvents(old(LibViews(libInfoList)), b)
    {
      hide Owned, Prune, PruneEvents, Kept, Denotes;
      ghost var views, n := LibViews(libInfoList), 0;
      PruneNone(views, b);
      var it := 0;
      while it < |libInfoList|
        invariant Owned(libInfoList, owner, bound) && Denotes(best, b, libInfoList)
        invariant 0 <= it && n <= |views| && Pruning(it, n, views, b, old(trace))
        decreases |views| - n
      {
        it := PruneStep(it, best, n, views, b, old(trace), owner, bound);
        n := n + 1;
      }
      assert n == |views| && views[..n] == views;
    }

    method KeepValidLibraries(env: Environment)
      requires LibsDistinct(libInfoList) && UidsBelow(libInfoList, libUidNext)
      modifies this`libInfoList, this`trace, libInfoList
      ensures LibsDistinct(libInfoList) && UidsBelow(libInfoList, libUidNext)
      ensures var views := old(LibViews(libInfoList));
              var probed := ProbeAll(views, env, windows);
              && LibViews(libInfoList) == Prune(probed, ChosenMsdk(probed))
              && trace == old(trace) + ProbeEvents(views, env, windows) + PruneEvents(probed, ChosenMsdk(probed))
    {
      ghost var owner := set l | l in libInfoList;
      var msdkLibBest, msdkLibBestDS := ProbeLibraries(env, owner, libUidNext);
      BestMembers(msdkLibBest, msdkLibBestDS, libInfoList, LibViews(libInfoList));
      if msdkLibBestDS != null { msdkLibBest := msdkLibBestDS; }
      PruneLibraries(msdkLibBest, ChosenMsdk(LibViews(libInfoList)), owner, libUidNext);
    }

    method CheckValidLibraries(env: Environment) returns (numLibs: nat)
      requires Valid()
      modifies this`libInfoList, this`trace, libInfoList
      ensures Valid() && View() == CheckLibs(old(View()), env) && numLibs == |libInfoList|
    {
      hide LibsDistinct, UidsBelow, NoRepeats, ProbeAll, Prune, ProbeEvents, PruneEvents, ChosenMsdk;
      KeepValidLibraries(env);
      numLibs := |libInfoList|;
      OtherViews();
    }

    // ---- QueryLibraryCaps ---------------------------------------------------------------------------------

    // What querying a library changes, with kept as the libraries queried so far.
    ghost function Queried(kept: seq<Lib>): Query
      reads this, implInfoList
    {
      Query(kept, ImplViews(implInfoList), implIdxNext, trace)
    }

    ghost predicate ImplsOk()
      reads `implInfoList, implInfoList
    {
      && NoRepeats(implInfoList) && AllDescribed(implInfoList)
      && forall k | 0 <= k < |implInfoList| :: implInfoList[k].validImplIdx >= -1
    }

    // Implementations have only been appended.
    twostate predicate Appended()
      reads `implInfoList
    {
      && old(implInfoList) <= implInfoList
      && forall k | |old(implInfoList)| <= k < |implInfoList| :: fresh(implInfoList[k])
    }

    method AddImpl(info: ImplData)
      requires ImplsOk() && info.id == implIdxNext
      modifies this`implInfoList, this`implIdxNext
      ensures ImplsOk() && Appended() && implIdxNext == old(implIdxNext) + 1
      ensures ImplViews(implInfoList) == old(ImplViews(implInfoList)) + [NewImpl(info)]
    {
      var implInfo := new ImplInfo(info);
      implIdxNext := implIdxNext + 1;
      implInfoList := implInfoList + [implInfo];
    }

    // Give the handles of one implementation back to its runtime; legacy ones belong to the loader.
    method UnloadSingleImplementation(info: ImplData)
      modifies this`trace
      ensures trace == old(trace) + ReleaseEvents(info)
    {
      var h := info.handles;
      if info.libType == LibTypeVPL {
        if h.desc != 0 { trace := trace + [Release(info.libUid, h.desc)]; }
        if h.funcs != 0 { trace := trace + [Release(info.libUid, h.funcs)]; }
        if h.ext != 0 { trace := trace + [Release(info.libUid, h.ext)]; }
      }
    }

    method AddVplImpl(libInfo: LibInfo, rt: Runtime, i: nat, ghost kept: seq<Lib>)
      requires ImplsOk() && DescsOk(rt) && i < |rt.descs.value|
      modifies this`implInfoList, this`implIdxNext, this`trace
      ensures ImplsOk() && Appended()
      ensures Queried(kept) == AddVplOne(old(Queried(kept)), libInfo.View(), rt, i)
    {
      hide ExportsComplete, ImplsOk;
      var info := VplData(libInfo.View(), rt, i, implIdxNext);
      trace := trace + AttachEvents(info);
      // validate that the library exports all functions of the version it reports
      var complete := ValidateAPIExports(libInfo.vplFuncTable, info.caps.desc.apiVersion);
      if !complete {
        UnloadSingleImplementation(info);
        return;
      }
      AddImpl(info);
    }

    method AddVplImpls(libInfo: LibInfo, rt: Runtime, ghost kept: seq<Lib>)
      requires ImplsOk() && DescsOk(rt)
      modifies this`implInfoList, this`implIdxNext, this`trace
      ensures ImplsOk() && Appended()
      ensures Queried(kept) == AddVpl(old(Queried(kept)), libInfo.View(), rt, |rt.descs.value|)
    {
      hide ImplsOk, AddVplOne;
      var numImpls := |rt.descs.value|;
      for i := 0 to numImpls
        invariant ImplsOk() && Appended()
        invariant Queried(kept) == AddVpl(old(Queried(kept)), libInfo.View(), rt, i)
      {
        AddVplImpl(libInfo, rt, i, kept);
      }
    }

    method AddMsdkImpl(libInfo: LibInfo, rt: Runtime, i: nat, ghost kept: seq<Lib>) returns (added: bool)
      requires ImplsOk() && i < MAX_NUM_IMPL_MSDK
      modifies this`implInfoList, this`implIdxNext
      ensures ImplsOk() && Appended()
      ensures Queried(kept) == AddMsdkOne(old(Queried(kept)), libInfo.View(), rt, i)
      ensures implIdxNext == old(implIdxNext) + (if added then 1 else 0)
    {
      hide ImplsOk;
      // this adapter may not be supported
      if rt.adapters[i].None? { return false; }
      AddImpl(MsdkData(libInfo.View(), rt.adapters[i].value, i, implIdxNext));
      return true;
    }

    method AddMsdkImpls(libInfo: LibInfo, rt: Runtime, ghost kept: seq<Lib>) returns (numImplMSDK: nat)
      requires ImplsOk()
      modifies this`implInfoList, this`implIdxNext
      ensures ImplsOk() && Appended()
      ensures Queried(kept) == AddMsdk(old(Queried(kept)), libInfo.View(), rt, MAX_NUM_IMPL_MSDK)
      ensures implIdxNext == old(implIdxNext) + numImplMSDK
    {
      hide ImplsOk, AddMsdkOne;
      numImplMSDK := 0;
      for i := 0 to MAX_NUM_IMPL_MSDK
        invariant ImplsOk() && Appended() && implIdxNext == old(implIdxNext) + numImplMSDK
        invariant Queried(kept) == AddMsdk(old(Queried(kept)), libInfo.View(), rt, i)
      {
        var added := AddMsdkImpl(libInfo, rt, i, kept);
        if added { numImplMSDK := numImplMSDK + 1; }
      }
    }

    // Ask a VPL runtime for its descriptions and, if they are in order, for the other structures.
    method ReceiveHandles(uid: nat, rt: Runtime) returns (valid: bool)
      modifies this`trace
      ensures valid <==> DescsOk(rt)
      ensures trace == old(trace) + HandOverEvents(uid, rt)
    {
      trace := trace + HandOverAll(uid, ArrayOf(rt.descs));
      valid := ValidateDescriptions(rt);
      if valid {
        trace := trace + HandOverAll(uid, ArrayOf(rt.exts));
        trace := trace + HandOverAll(uid, ArrayOf(rt.funcs));
      }
      assert trace == old(trace) + HandOverEvents(uid, rt);
    }

    // Query the library at position it, or drop it when it has nothing to offer.
    method QueryLibraryAt(it: nat, env: Environment, ghost owner: set<LibInfo>, ghost bound: nat) returns (it': nat)
      requires it < |libInfoList| && Owned(libInfoList, owner, bound) && ImplsOk()
      modifies this`libInfoList, this`implInfoList, this`implIdxNext, this`trace
      ensures Owned(libInfoList, owner, bound) && ImplsOk() && Appended()
      ensures var before := old(LibViews(libInfoList));
              var r := QueryLib(old(Queried(LibViews(libInfoList)[..it])), before[it], env.runtime(before[it].name));
              && Queried(r.libs) == r && it' == |r.libs|
              && LibViews(libInfoList) == r.libs + before[it + 1..]
    {
      hide Owned, ImplsOk, AddVpl, AddMsdk, DescsOk, HandOverEvents, CloseEvents;
      ghost var before := LibViews(libInfoList);
      ghost var kept := before[..it];
      var libInfo := libInfoList[it];
      var rt := env.runtime(libInfo.libNameFull);
      it' := it;
      assert before == kept + [libInfo.View()] + before[it + 1..];
      if libInfo.libType == LibTypeVPL {
        var valid := ReceiveHandles(libInfo.uid, rt);
        if !valid {
          UnloadAt(it, owner, bound);
          return;
        }
        AddVplImpls(libInfo, rt, kept);
      } else if libInfo.libType == LibTypeMSDK {
        var numImplMSDK := AddMsdkImpls(libInfo, rt, kept);
        if numImplMSDK == 0 {
          UnloadAt(it, owner, bound);
          return;
        }
      }
      it' := it + 1;
    }

    // The walk over the libraries has reached position it, after n of the libraries views.
    ghost predicate Querying(it: nat, n: nat, views: seq<Lib>, q0: Query, env: Environment)
      reads this, libInfoList, implInfoList
    {
      n <= |views| &&
      var q := QueryLibs(q0, views[..n], env);
      Queried(q.libs) == q && it == |q.libs| && LibViews(libInfoList) == q.libs + views[n..]
    }

    method QueryLibraryStep(it: nat, env: Environment, ghost n: nat, ghost views: seq<Lib>, ghost q0: Query,
                            ghost owner: set<LibInfo>, ghost bound: nat) returns (it': nat)
      requires it < |libInfoList| && Owned(libInfoList, owner, bound) && ImplsOk() && Querying(it, n, views, q0, env)
      modifies this`libInfoList, this`implInfoList, this`implIdxNext, this`trace
      ensures Owned(libInfoList, owner, bound) && ImplsOk() && Appended()
      ensures n < |views| && Querying(it', n + 1, views, q0, env)
    {
      hide Owned, ImplsOk, QueryLibs, QueryLib;
      ghost var q := QueryLibs(q0, views[..n], env);
      assert n < |views|;
      SplitAround(q.libs, views, n);
      QueryLibsNext(q0, views, n, env);
      it' := QueryLibraryAt(it, env, owner, bound);
    }

    method QueryLibraries(env: Environment)
      requires LibsDistinct(libInfoList) && UidsBelow(libInfoList, libUidNext) && ImplsOk()
      modifies this`libInfoList, this`implInfoList, this`implIdxNext, this`trace
      ensures LibsDistinct(libInfoList) && UidsBelow(libInfoList, libUidNext) && ImplsOk() && Appended()
      ensures var r := QueryLibs(old(Queried([])), old(LibViews(libInfoList)), env);
              Queried(r.libs) == r && LibViews(libInfoList) == r.libs
    {
      hide LibsDistinct, UidsBelow, ImplsOk, QueryLibs;
      ghost var owner := set l | l in libInfoList;
      ghost var views, n, q0 := LibViews(libInfoList), 0, Queried([]);
      QueryLibsNone(q0, views, env);
      var it := 0;
      while it < |libInfoList|
        invariant Owned(libInfoList, owner, libUidNext) && ImplsOk() && Appended()
        invariant 0 <= it && n <= |views| && Querying(it, n, views, q0, env)
        decreases |views| - n
      {
        it := QueryLibraryStep(it, env, n, views, q0, owner, libUidNext);
        n := n + 1;
      }
      assert n == |views| && views[..n] == views;
    }

    // Whether the list has a described hardware VPL implementation with this device id.
    method FindHardwareVpl(deviceID: string) returns (found: bool)
      ensures found <==> FindVpl(Entries(implInfoList), deviceID)
    {
      for i := 0 to |implInfoList|
        invariant forall j | 0 <= j < i :: !IsHardwareVplFor(implInfoList[j].AsEntry(), deviceID)
      {
        var t := implInfoList[i];
        if t.info.libType == LibTypeVPL && t.implDesc.Some? && t.implDesc.value.impl == IMPL_TYPE_HARDWARE
           && t.implDesc.value.dev.deviceID == deviceID {
          assert IsHardwareVplFor(Entries(implInfoList)[i], deviceID);
          return true;
        }
      }
      return false;
    }

    // The loop body for the entry at position it, the attempt-th time: the new position and attempt.
    method PostProcessEntry(implInfo: ImplInfo, it: nat, attempt: nat, bD3D9Requested: bool, ans: Answers)
      returns (it': nat, attempt': nat)
      requires it < |implInfoList| && implInfo == implInfoList[it] && NoRepeats(implInfoList)
      modifies implInfo`adapterIdx, implInfo`validImplIdx, implInfo`implDesc
      ensures Pass(Entries(implInfoList), it', attempt') ==
              Next(Pass(old(Entries(implInfoList)), it, attempt), bD3D9Requested, ans)
    {
      hide AdapterOf;
      ghost var list := Entries(implInfoList);
      MarkEntry(implInfo, bD3D9Requested);
      it', attempt' := it + 1, 0;
      if implInfo.info.libType == LibTypeVPL && implInfo.implDesc.None? {
        implInfo.implDesc := ans.vpl(it);
      } else if implInfo.info.libType == LibTypeMSDK && implInfo.implDesc.None? {
        var implDesc := ans.legacy(it, attempt);
        if implDesc.None? {
          // this adapter is not supported
          it', attempt' := it, attempt + 1;
        } else {
          implInfo.implDesc := implDesc;
        }
      }
      assert Entries(implInfoList) == list[it := implInfo.AsEntry()];
    }

    // Save the adapter number, and hide a legacy implementation that a VPL one supersedes.
    method MarkEntry(implInfo: ImplInfo, bD3D9Requested: bool)
      modifies implInfo`adapterIdx, implInfo`validImplIdx
      ensures implInfo.AsEntry() == Mark(old(implInfo.AsEntry()), old(Entries(implInfoList)), bD3D9Requested)
    {
      ghost var e := implInfo.AsEntry();
      var deviceID := if implInfo.implDesc.Some? then implInfo.implDesc.value.dev.deviceID else "";
      var found := FindHardwareVpl(deviceID);
      var isX86, adapterIdx := IsValidX86GPU(implInfo);
      if isX86 { implInfo.adapterIdx := adapterIdx; }
      if implInfo.info.libType == LibTypeMSDK {
        if found && !bD3D9Requested { implInfo.validImplIdx := -1; }
        // avoid a VPL runtime loaded through its compatibility entry point
        if implInfo.implDesc.Some? {
          var version := implInfo.implDesc.value.apiVersion;
          if version.major == 1 && version.minor == 255 { implInfo.validImplIdx := -1; }
        }
      }
    }

    // Save adapter numbers, hide superseded legacy implementations, and fill in descriptions that are
    // missing. The iterator stays where it is when a legacy runtime does not answer.
    method PostProcessList(bD3D9Requested: bool, ans: Answers)
      requires NoRepeats(implInfoList) && Answered(Entries(implInfoList), ans)
      modifies implInfoList`adapterIdx, implInfoList`validImplIdx, implInfoList`implDesc
      ensures exists n :: After(Start(old(Entries(implInfoList))), n, bD3D9Requested, ans) ==
                          Pass(Entries(implInfoList), |implInfoList|, 0)
    {
      hide Next, After, NoRepeats, Passing, Answered;
      ghost var list := Entries(implInfoList);
      var it, attempt := 0, 0;
      ghost var n := 0;
      PassingStart(list, bD3D9Requested, ans);
      while it < |implInfoList|
        invariant 0 <= it <= |implInfoList| && 0 <= attempt
        invariant Passing(Pass(Entries(implInfoList), it, attempt), list, n, bD3D9Requested, ans)
        decreases |implInfoList| - it, GoalAt(list, it, ans) - attempt
      {
        PassingStep(Pass(Entries(implInfoList), it, attempt), list, n, bD3D9Requested, ans);
        it, attempt := PostProcessEntry(implInfoList[it], it, attempt, bD3D9Requested, ans);
        n := n + 1;
      }
      PassingEnd(Pass(Entries(implInfoList), it, attempt), list, n, bD3D9Requested, ans);
    }

    // Outside low latency mode no description is missing, so the pass ends whatever the runtimes
    // would answer.
    method PostProcessDescribed(bD3D9Requested: bool, ans: Answers)
      requires ImplsOk()
      modifies implInfoList`adapterIdx, implInfoList`validImplIdx, implInfoList`implDesc
      ensures ImplsOk()
      ensures var before := old(ImplViews(implInfoList));
              ImplViews(implInfoList) == PostProcessAll(before, before, bD3D9Requested)
    {
      hide After, PostProcess;
      ghost var s := ImplViews(implInfoList);
      DescribedEntries(implInfoList);
      DescribedPassEnds(s, bD3D9Requested, ans);
      EndsExactly(AsEntries(s), bD3D9Requested, ans);
      PostProcessList(bD3D9Requested, ans);
      ghost var n: nat :|
        After(Start(AsEntries(s)), n, bD3D9Requested, ans) == Pass(Entries(implInfoList), |implInfoList|, 0);
      EndIsUnique(Start(AsEntries(s)), n, |s|, bD3D9Requested, ans);
      PostProcessFloor(s, bD3D9Requested);
      EntriesDescribe(implInfoList, PostProcessAll(s, s, bD3D9Requested));
    }

    // The pass over the implementations, and the sort, once all libraries have been queried.
    method PostProcessAndSort(ans: Answers)
      requires ImplsOk()
      modifies this`implInfoList, implInfoList`adapterIdx, implInfoList`validImplIdx, implInfoList`implDesc
      ensures ImplsOk() && multiset(implInfoList) == multiset(old(implInfoList))
      ensures var before := old(ImplViews(implInfoList));
              ImplViews(implInfoList) ==
              Prioritize(PostProcessAll(before, before, D3D9Requested(specialConfig)), priorityPathEnabled)
    {
      if implInfoList == [] {
        assert Order<Impl>([], InfoOf, priorityPathEnabled) == [];
        return;
      }
      PostProcessDescribed(specialConfig.accelerationMode == Some(ACCEL_MODE_VIA_D3D9), ans);
      PrioritizeFloor(ImplViews(implInfoList), priorityPathEnabled);
      ghost var all := implInfoList;
      PrioritizeImplList();
      DescribedPermuted(all, implInfoList);
      assert forall k | 0 <= k < |implInfoList| :: implInfoList[k].View() == ImplViews(implInfoList)[k];
    }

    // Query all libraries, then process and sort what they offer.
    method QueryAndSort(env: Environment)
      requires LibsDistinct(libInfoList) && UidsBelow(libInfoList, libUidNext) && ImplsOk()
      modifies this`libInfoList, this`implInfoList, this`implIdxNext, this`trace
      modifies implInfoList`adapterIdx, implInfoList`validImplIdx, implInfoList`implDesc
      ensures LibsDistinct(libInfoList) && UidsBelow(libInfoList, libUidNext) && ImplsOk() && ImplsFrom()
      ensures var q := QueryLibs(old(Queried([])), old(LibViews(libInfoList)), env);
              && LibViews(libInfoList) == q.libs && implIdxNext == q.next && trace == q.trace
              && ImplViews(implInfoList) ==
                 Prioritize(PostProcessAll(q.impls, q.impls, D3D9Requested(specialConfig)), priorityPathEnabled)
    {
      hide LibsDistinct, UidsBelow, ImplsOk, QueryLibs, Prioritize, PostProcess;
      QueryLibraries(env);
      ghost var queried := implInfoList;
      assert forall p | p in queried :: p in old(implInfoList) || fresh(p);
      PostProcessAndSort(env.again);
      SameObjects(queried, implInfoList);
    }

    method QueryLibraryCaps(env: Environment) returns (sts: Status)
      requires Valid() && !lowLatency
      modifies this`libInfoList, this`implInfoList, this`implIdxNext, this`trace
      modifies implInfoList`adapterIdx, implInfoList`validImplIdx, implInfoList`implDesc
      ensures Valid() && View() == QueryCaps(old(View()), env) && ImplsFrom()
      ensures sts == if implInfoList == [] then ErrUnsupported else ErrNone
    {
      hide LibsDistinct, UidsBelow, QueryLibs, Prioritize, ImplsFrom, PostProcess;
      assert ImplsOk();
      QueryAndSort(env);
      sts := if implInfoList == [] then ErrUnsupported else ErrNone;
      ConfigsKept();
    }

    twostate lemma ConfigsKept()
      requires old(Valid()) && LibsDistinct(libInfoList) && UidsBelow(libInfoList, libUidNext) && ImplsOk()
      requires configCtxList == old(configCtxList) && unchanged(configCtxList)
      ensures Valid() && ConfigViews(configCtxList) == old(ConfigViews(configCtxList))
    {}

    // ---- the entry points ---------------------------------------------------------------------------------

    // Leave low latency mode and list the usable libraries.
    method FindLibraries(env: Environment) returns (numLibs: nat)
      requires Valid()
      modifies this`lowLatency, this`libInfoList, this`libUidNext, this`priorityPathEnabled, this`trace, libInfoList
      ensures Valid() && View() == CheckLibs(BuildList(old(View()).(lowLatency := false), env), env)
      ensures numLibs == |libInfoList| && !lowLatency
    {
      hide BuildList, CheckLibs;
      lowLatency := false;
      SameViews();
      BuildListOfCandidateLibs(env);
      numLibs := CheckValidLibraries(env);
    }

    // Find all libraries and query everything they offer.
    method FullLoadAndQuery(env: Environment) returns (sts: Status)
      requires Valid()
      modifies this`lowLatency, this`libInfoList, this`libUidNext, this`priorityPathEnabled, this`trace
      modifies this`implInfoList, this`implIdxNext, this`needFullQuery, this`needUpdateValidImpls
      modifies libInfoList, implInfoList`adapterIdx, implInfoList`validImplIdx, implInfoList`implDesc
      ensures Valid() && (sts, View()) == LoaderState.FullLoadAndQuery(old(View()), env)
      ensures ImplsFrom() && !lowLatency
    {
      hide BuildList, CheckLibs, QueryCaps;
      var numLibs := FindLibraries(env);
      if numLibs == 0 { return ErrUnsupported; }
      sts := QueryLibraryCaps(env);
      if sts != ErrNone { return ErrNotFound; }
      SetFlags();
      return ErrNone;
    }

    method SetFlags()
      requires Valid()
      modifies this`needFullQuery, this`needUpdateValidImpls
      ensures Valid() && View() == old(View()).(needFullQuery := false, needUpdateValidImpls := true)
    {
      needFullQuery := false;
      needUpdateValidImpls := true;
      SameViews();
    }

    // What MFXEnumImplementations and MFXCreateSession do first: a full query if none has succeeded
    // yet, then the valid list.
    method BringUpToDate(env: Environment) returns (sts: Status)
      requires Valid()
      modifies this`lowLatency, this`libInfoList, this`libUidNext, this`priorityPathEnabled, this`trace
      modifies this`implInfoList, this`implIdxNext, this`needFullQuery, this`needUpdateValidImpls, this`specialConfig
      modifies libInfoList, implInfoList`adapterIdx, implInfoList`validImplIdx, implInfoList`implDesc
      ensures Valid() && (sts, View()) == Refresh(old(View()), env)
      ensures !old(lowLatency) ==> !lowLatency
    {
      hide LoaderState.FullLoadAndQuery, UpdateValid;
      if needFullQuery {
        sts := FullLoadAndQuery(env);
        if sts != ErrNone { return ErrNotFound; }
      }
      if needUpdateValidImpls { UpdateValidImplList(); }
      return ErrNone;
    }

    method EnumImplementations(i: u32, format: Format, env: Environment) returns (reply: Reply)
      requires Valid()
      modifies this`lowLatency, this`libInfoList, this`libUidNext, this`priorityPathEnabled, this`trace
      modifies this`implInfoList, this`implIdxNext, this`needFullQuery, this`needUpdateValidImpls, this`specialConfig
      modifies libInfoList, implInfoList`adapterIdx, implInfoList`validImplIdx, implInfoList`implDesc
      ensures Valid() && (reply, View()) == Step(old(View()), Call.Enumerate(i, format, env))
    {
      hide Refresh, ReplyToEnumerate;
      var sts := BringUpToDate(env);
      if sts != ErrNone { return Plain(ErrNotFound); }
      reply := QueryImpl(i, format);
    }

    method NewSession(i: u32, session: Status, env: Environment) returns (reply: Reply)
      requires Valid() && !lowLatency
      modifies this`lowLatency, this`libInfoList, this`libUidNext, this`priorityPathEnabled, this`trace
      modifies this`implInfoList, this`implIdxNext, this`needFullQuery, this`needUpdateValidImpls, this`specialConfig
      modifies libInfoList, implInfoList`adapterIdx, implInfoList`validImplIdx, implInfoList`implDesc
      ensures Valid() && (reply, View()) == Step(old(View()), Call.CreateSession(i, session, env))
    {
      hide Refresh, ReplyToCreateSession;
      var sts := BringUpToDate(env);
      if sts != ErrNone { return Plain(ErrNotFound); }
      reply := CreateSession(i, session);
    }

    // Give every handle back, then close every library.
    method UnloadAllLibraries()
      requires Valid()
      modifies this`implInfoList, this`libInfoList, this`implIdxNext, this`trace
      ensures Valid() && View() == AfterUnload(old(View()))
    {
      hide LibsDistinct, UidsBelow, ImplsOk, ReleaseAll, UnloadAll;
      ReleaseImpls();
      UnloadLibs();
      ClearLists();
      ConfigsKept();
    }

    method ReleaseImpls()
      modifies this`trace
      ensures trace == old(trace) + ReleaseAll(ImplViews(implInfoList))
    {
      hide ReleaseEvents;
      ghost var views := ImplViews(implInfoList);
      for i := 0 to |implInfoList|
        invariant trace == old(trace) + ReleaseAll(views[..i])
      {
        assert views[..i + 1][..i] == views[..i] && views[i].info == implInfoList[i].info;
        UnloadSingleImplementation(implInfoList[i].info);
      }
      assert views[..|views|] == views;
    }

    method UnloadLibs()
      modifies this`trace
      ensures trace == old(trace) + UnloadAll(LibViews(libInfoList))
    {
      ghost var views := LibViews(libInfoList);
      for i := 0 to |libInfoList|
        invariant trace == old(trace) + UnloadAll(views[..i])
      {
        assert views[..i + 1][..i] == views[..i] && views[i] == libInfoList[i].View();
        UnloadSingleLibrary(libInfoList[i]);
      }
      assert views[..|views|] == views;
    }

    method ClearLists()
      modifies this`implInfoList, this`libInfoList, this`implIdxNext
      ensures implInfoList == [] && libInfoList == [] && implIdxNext == 0
      ensures LibViews(libInfoList) == [] && ImplViews(implInfoList) == []
      ensures LibsDistinct(libInfoList) && UidsBelow(libInfoList, libUidNext) && ImplsOk()
    {
      implInfoList, libInfoList, implIdxNext := [], [], 0;
    }

    // Implementations held now were held before or are new.
    twostate predicate ImplsFrom()
      reads `implInfoList
    {
      forall k | 0 <= k < |implInfoList| :: implInfoList[k] in old(implInfoList) || fresh(implInfoList[k])
    }

    // The libraries may have changed, the implementations and configurations have not.
    twostate lemma OtherViews()
      requires old(Valid()) && LibsDistinct(libInfoList) && UidsBelow(libInfoList, libUidNext)
      requires implInfoList == old(implInfoList) && configCtxList == old(configCtxList)
      requires unchanged(implInfoList) && unchanged(configCtxList)
      ensures Valid()
      ensures ImplViews(implInfoList) == old(ImplViews(implInfoList))
      ensures ConfigViews(configCtxList) == old(ConfigViews(configCtxList))
    {}
  }

  // Check that all functions of this API version are in the table.
  method ValidateAPIExports(table: FunctionTable, v: Version) returns (complete: bool)
    ensures complete <==> ExportsComplete(table, v)
  {
    for i := 0 to NUM_VPL_FUNCTIONS
      invariant forall j | 0 <= j < i :: FunctionVersion(j) <= v.Number() ==> table[j]
    {
      if !table[i] && FunctionVersion(i) <= v.Number() { return false; }
    }
    return true;
  }

  // Whether the runtime delivered a description for every implementation it counts.
  method ValidateDescriptions(rt: Runtime) returns (valid: bool)
    ensures valid <==> DescsOk(rt)
  {
    if rt.descs.None? { return false; }
    for i := 0 to |rt.descs.value|
      invariant forall j | 0 <= j < i :: rt.descs.value[j].Some?
    {
      if rt.descs.value[i].None? { return false; }
    }
    return true;
  }

  // Whether an implementation is for an x86 GPU, and on which adapter: a valid Intel hardware one
  // whose device id is a hex numeral below 2^31, or one followed by a slash and the adapter number.
  method IsValidX86GPU(implInfo: ImplInfo) returns (valid: bool, adapterIdx: u32)
    ensures valid <==>
            && implInfo.implDesc.Some? && implInfo.validImplIdx >= 0
            && var d := implInfo.implDesc.value;
               d.vendorID == VENDOR_INTEL && d.impl == IMPL_TYPE_HARDWARE && SpelledX86(d.dev.deviceID)
    ensures valid ==> DenotesAdapter(implInfo.implDesc.value.dev.deviceID, adapterIdx)
    ensures AdapterOf(implInfo.AsEntry()) == if valid then Some(adapterIdx) else None
  {
    valid, adapterIdx := false, 0;
    // may be null in low latency mode, id unknown
    if implInfo.implDesc.None? { return; }
    var d := implInfo.implDesc.value;
    if implInfo.validImplIdx >= 0 && d.vendorID == VENDOR_INTEL && d.impl == IMPL_TYPE_HARDWARE {
      var id := ParseDeviceIDx86(d.dev.deviceID);
      ParseMeaning(d.dev.deviceID);
      valid, adapterIdx := id.ok, id.adapterIdx;
    }
  }

  lemma DescribedPermuted(s: seq<ImplInfo>, t: seq<ImplInfo>)
    requires multiset(s) == multiset(t) && AllDescribed(s)
    ensures AllDescribed(t)
  {
    SameObjects(s, t);
  }

  lemma DescribedEntries(s: seq<ImplInfo>)
    requires AllDescribed(s)
    ensures Entries(s) == AsEntries(ImplViews(s))
  {}

  // Entries with the descriptions of t are described, and the values are those of t.
  lemma EntriesDescribe(s: seq<ImplInfo>, t: seq<Impl>)
    requires Entries(s) == AsEntries(t) && forall k | 0 <= k < |s| && k < |t| :: s[k].info == t[k].info
    ensures AllDescribed(s) && ImplViews(s) == t
  {
    assert |Entries(s)| == |AsEntries(t)|;
    forall k | 0 <= k < |s| ensures s[k].Described() && s[k].View() == t[k] {
      assert Entries(s)[k] == AsEntries(t)[k];
    }
  }

  // An attempt at which the entry at position i is answered, if it is one that will be.
  ghost function GoalAt(list: seq<Entry>, i: nat, ans: Answers): nat {
    if i < |list| && AnsweredAt(ans, i) then var a: nat :| AnswerAt(ans, i, a); a else 0
  }

  // The pass over list is at p after n executions of the loop body, and will get past the entry at
  // the iterator.
  ghost predicate Passing(p: Pass, list: seq<Entry>, n: nat, d3d9: bool, ans: Answers) {
    && After(Start(list), n, d3d9, ans) == p && |p.list| == |list| && p.it <= |list|
    && (forall j | p.it <= j < |list| && AsksAgain(p.list[j]) :: AsksAgain(list[j]))
    && if p.it < |list| && AsksAgain(p.list[p.it]) then p.attempt <= GoalAt(list, p.it, ans) else p.attempt == 0
  }

  lemma PassingStart(list: seq<Entry>, d3d9: bool, ans: Answers)
    ensures Passing(Start(list), list, 0, d3d9, ans)
  {}

  lemma PassingStep(p: Pass, list: seq<Entry>, n: nat, d3d9: bool, ans: Answers)
    requires Passing(p, list, n, d3d9, ans) && p.it < |list| && Answered(list, ans)
    ensures var q := Next(p, d3d9, ans);
            && Passing(q, list, n + 1, d3d9, ans)
            && (q.it == p.it + 1 || (q.it == p.it && p.attempt < q.attempt && p.attempt <= GoalAt(list, p.it, ans)))
  {
    hide Next, After;
    assert AsksAgain(p.list[p.it]) ==> AsksAgain(list[p.it]) && AnsweredAt(ans, p.it);
    NextFrame(p, d3d9, ans);
    AfterNext(Start(list), n, d3d9, ans);
  }

  lemma PassingEnd(p: Pass, list: seq<Entry>, n: nat, d3d9: bool, ans: Answers)
    requires Passing(p, list, n, d3d9, ans) && p.it == |list|
    ensures After(Start(list), n, d3d9, ans) == Pass(p.list, |list|, 0)
  {}

  lemma AfterNext(p: Pass, n: nat, d3d9: bool, ans: Answers)
    requires p.it <= |p.list| && After(p, n, d3d9, ans).it < |p.list|
    ensures After(p, n + 1, d3d9, ans) == Next(After(p, n, d3d9, ans), d3d9, ans)
  {
    hide Next;
    AfterAdds(p, n, 1, d3d9, ans);
    var q := After(p, n, d3d9, ans);
    NextFrame(q, d3d9, ans);
    assert After(q, 1, d3d9, ans) == After(Next(q, d3d9, ans), 0, d3d9, ans);
  }

  lemma PostProcessFloor(all: seq<Impl>, d3d9: bool)
    requires forall k | 0 <= k < |all| :: all[k].validImplIdx >= -1
    ensures forall k | 0 <= k < |all| ::
            PostProcess(all[k], all, d3d9).validImplIdx >= -1 && PostProcess(all[k], all, d3d9).info == all[k].info
  {}

  // Loading a module, and closing it again at once when only its version was wanted.
  ghost function ModuleEvents(lib: Lib, rt: Runtime, windows: bool): seq<Event> {
    var p := Probe(lib, rt, windows);
    (if rt.loads then [Load(lib.uid)] else [])
      + (if p.Some? && rt.loads && !p.value.loaded then [Close(lib.uid)] else [])
  }

  ghost predicate UidsBelow(s: seq<LibInfo>, bound: nat) { forall k | 0 <= k < |s| :: s[k].uid < bound }

  // Different libraries of owner, with uids below bound.
  ghost predicate Owned(s: seq<LibInfo>, owner: set<LibInfo>, bound: nat) {
    LibsDistinct(s) && UidsBelow(s, bound) && forall k | 0 <= k < |s| :: s[k] in owner
  }

  lemma Surrounded(s: seq<LibInfo>, i: nat, owner: set<LibInfo>, bound: nat)
    requires i < |s| && Owned(s, owner, bound)
    ensures s[i] in owner && s[i] !in s[..i] && s[i] !in s[i + 1..]
    ensures s == s[..i] + [s[i]] + s[i + 1..] && Owned(s[..i] + s[i + 1..], owner, bound)
  {}

  // b is the library of s that BestMsdk picks from its values, or null if it picks none.
  ghost predicate IsBest(b: LibInfo?, s: seq<LibInfo>, values: seq<Lib>, ds: bool)
    reads b
  {
    if b == null then BestMsdk(values, ds) == None else b in s && BestMsdk(values, ds) == Some(b.View())
  }

  ghost predicate AreBest(b: LibInfo?, bDS: LibInfo?, s: seq<LibInfo>, values: seq<Lib>)
    reads b, bDS
  {
    IsBest(b, s, values, false) && IsBest(bDS, s, values, true)
  }

  // The better of the best legacy library so far and the one just loaded.
  method BetterOf(b: LibInfo?, libInfo: LibInfo, ds: bool, ghost s: seq<LibInfo>, ghost values: seq<Lib>)
    returns (best: LibInfo?)
    requires IsBest(b, s, values, ds)
    ensures IsBest(best, s + [libInfo], values + [libInfo.View()], ds)
  {
    assert (values + [libInfo.View()])[..|values|] == values;
    best := b;
    if libInfo.libType == LibTypeMSDK {
      if !ds || libInfo.libPriority == LIB_PRIORITY_LEGACY_DRIVERSTORE {
        if b == null || libInfo.msdkVersion > b.msdkVersion { best := libInfo; }
      }
    }
  }

  method BetterOfEach(b: LibInfo?, bDS: LibInfo?, libInfo: LibInfo, ghost s: seq<LibInfo>, ghost values: seq<Lib>)
    returns (b': LibInfo?, bDS': LibInfo?)
    requires AreBest(b, bDS, s, values)
    ensures AreBest(b', bDS', s + [libInfo], values + [libInfo.View()])
  {
    b' := BetterOf(b, libInfo, false, s, values);
    bDS' := BetterOf(bDS, libInfo, true, s, values);
  }

  lemma NoneIsBest(env: Environment, windows: bool)
    ensures AreBest(null, null, [], [])
    ensures ProbeAll([], env, windows) == [] && ProbeEvents([], env, windows) == []
  {}

  lemma ProbeAllNext(libs: seq<Lib>, n: nat, env: Environment, windows: bool)
    requires n < |libs|
    ensures var p := Probe(libs[n], env.runtime(libs[n].name), windows);
            && ProbeAll(libs[..n + 1], env, windows) ==
               ProbeAll(libs[..n], env, windows) + (if p.Some? then [p.value] else [])
            && ProbeEvents(libs[..n + 1], env, windows) ==
               ProbeEvents(libs[..n], env, windows) + LoadEvents(libs[n], env.runtime(libs[n].name), windows)
  {
    assert libs[..n + 1][..n] == libs[..n];
  }

  lemma BestMembers(b: LibInfo?, bDS: LibInfo?, s: seq<LibInfo>, values: seq<Lib>)
    requires AreBest(b, bDS, s, values)
    ensures (b == null || b in s) && (bDS == null || bDS in s)
  {}

  lemma SameUid(s: seq<LibInfo>, owner: set<LibInfo>, bound: nat, a: LibInfo, b: LibInfo)
    requires Owned(s, owner, bound) && a in s && b in s
    ensures a.uid == b.uid <==> a == b
  {}

  lemma Removed<T>(s: seq<T>, i: nat, x: T)
    requires i < |s| && x in s && x != s[i]
    ensures x in s[..i] + s[i + 1..]
  {
    assert s == s[..i] + [s[i]] + s[i + 1..];
  }

  ghost predicate Denotes(best: LibInfo?, b: Option<Lib>, s: seq<LibInfo>)
    reads best
  {
    if best == null then b == None else best in s && b == Some(best.View())
  }

  lemma PruneNone(libs: seq<Lib>, b: Option<Lib>)
    ensures Prune(libs[..0], b) == [] && PruneEvents(libs[..0], b) == []
  {}

  lemma PruneNext(libs: seq<Lib>, n: nat, b: Option<Lib>, earlier: seq<Event>)
    requires n < |libs|
    ensures var now := Prune(libs[..n], b) + libs[n..];
            var it := |Prune(libs[..n], b)|;
            var keep := Kept(now[it], b);
            && now[..it] + (if keep then [now[it]] else []) + now[it + 1..] == Prune(libs[..n + 1], b) + libs[n + 1..]
            && |Prune(libs[..n + 1], b)| == (if keep then it + 1 else it)
            && earlier + PruneEvents(libs[..n], b) + (if keep then [] else CloseEvents(now[it]))
               == earlier + PruneEvents(libs[..n + 1], b)
  {
    assert libs[..n + 1][..n] == libs[..n];
    SplitAround(Prune(libs[..n], b), libs, n);
  }

  lemma QueryLibsNone(q: Query, libs: seq<Lib>, env: Environment)
    ensures QueryLibs(q, libs[..0], env) == q
  {}

  lemma QueryLibsNext(q: Query, libs: seq<Lib>, n: nat, env: Environment)
    requires n < |libs|
    ensures QueryLibs(q, libs[..n + 1], env) ==
            QueryLib(QueryLibs(q, libs[..n], env), libs[n], env.runtime(libs[n].name))
  {
    assert libs[..n + 1][..n] == libs[..n];
  }

  lemma ViewsConcat(s: seq<LibInfo>, t: seq<LibInfo>)
    ensures LibViews(s + t) == LibViews(s) + LibViews(t)
  {}

  lemma SplitAround<T>(a: seq<T>, b: seq<T>, n: nat)
    requires n < |b|
    ensures var s := a + b[n..]; s[..|a|] == a && s[|a|] == b[n] && s[|a| + 1..] == b[n + 1..]
  {}

  lemma {:induction false} AddCandidatesKeepsPath(st: State, cs: seq<Candidate>)
    ensures AddCandidates(st, cs).priorityPath == st.priorityPath
  {
    if cs != [] { AddCandidatesKeepsPath(st, cs[..|cs| - 1]); }
  }

  // The special properties after the first i entries have been rechecked.
  ghost function SpecialAfter(s: seq<Impl>, i: nat, cs: seq<Config>, sp: SpecialConfig): SpecialConfig
    requires i <= |s|
  {
    if AnyValid(s[..i]) then AfterValidate(sp, cs) else sp
  }

  lemma SpecialAfterStep(s: seq<Impl>, i: nat, cs: seq<Config>, sp: SpecialConfig)
    requires i < |s|
    ensures var now := SpecialAfter(s, i, cs, sp);
            && SpecialAfter(s, i + 1, cs, sp) == (if s[i].validImplIdx == -1 then now else AfterValidate(now, cs))
            && Recheck(s[i], cs, now) == RecheckAll(s, cs, sp)[i]
  {
    PassesAfterValidate(s[i].info, s[i].adapterIdx, cs, sp);
    OverlayIdempotent(sp, cs);
    var t := s[..i + 1];
    assert t == s[..i] + [s[i]] && t[i] == s[i];
    if AnyValid(s[..i]) {
      var k :| 0 <= k < i && s[..i][k].validImplIdx != -1;
      assert t[k].validImplIdx != -1;
    }
  }

  lemma PrioritizeFloor(s: seq<Impl>, priorityPath: bool)
    requires forall k | 0 <= k < |s| :: s[k].validImplIdx >= -1
    ensures forall k | 0 <= k < |Prioritize(s, priorityPath)| :: Prioritize(s, priorityPath)[k].validImplIdx >= -1
  {
    var o := Order(s, InfoOf, priorityPath);
    OrderPermutes(s, InfoOf, priorityPath);
    forall k | 0 <= k < |o| ensures o[k] in s { assert o[k] in multiset(o); }
  }

  lemma SameObjects(s: seq<ImplInfo>, t: seq<ImplInfo>)
    requires multiset(s) == multiset(t)
    ensures forall i | 0 <= i < |t| :: t[i] in s
  {
    forall i | 0 <= i < |t| ensures t[i] in s { assert t[i] in multiset(t); }
  }

  lemma NoRepeatsPermuted(s: seq<ImplInfo>, t: seq<ImplInfo>)
    requires NoRepeats(s) && multiset(s) == multiset(t)
    ensures NoRepeats(t)
  {
    forall i, j | 0 <= i < j < |t| ensures t[i] != t[j] {
      if t[i] == t[j] {
        assert t == t[..j] + [t[j]] + t[j + 1..] && t[i] in t[..j];
        assert multiset(t)[t[i]] >= 2;
        OnceOnly(s, t[i]);
      }
    }
  }

  lemma {:induction false} OnceOnly(s: seq<ImplInfo>, p: ImplInfo)
    requires NoRepeats(s)
    ensures multiset(s)[p] <= 1
  {
    if s != [] {
      assert s == [s[0]] + s[1..];
      OnceOnly(s[1..], p);
      assert forall k | 0 <= k < |s[1..]| :: s[1..][k] == s[k + 1];
    }
  }
}
