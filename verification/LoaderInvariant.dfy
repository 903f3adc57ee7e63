// What every call of the application keeps, in every run that creates no session in low latency
// mode.
module LoaderInvariant {
  import opened Config
  import opened FilterLaws
  import opened Filters
  import opened HandleTrace
  import opened ImplOrder
  import opened LoaderState
  import opened PropNames
  import opened Special
  import opened StableSort
  import opened VplTypes

  // ---- the invariant -------------------------------------------------------------------------------

  ghost predicate ListOk(st: State) {
    && Distinct(st.impls)
    && Order(st.impls, InfoOf, st.priorityPath) == st.impls
    && Numbered(st.impls)
  }

  ghost predicate ValidPass(s: seq<Impl>, cs: seq<Config>, sp: SpecialConfig) {
    forall k | 0 <= k < |s| && s[k].Valid() :: Passes(s[k].info, s[k].adapterIdx, cs, sp)
  }

  ghost predicate OnlySettable(cs: seq<Config>, windows: bool) {
    forall k, i | 0 <= k < |cs| && IsSet(cs[k], i) :: Settable(i, windows)
  }

  // The numeric special properties are the values written last.
  ghost predicate NumbersCurrent(sp: SpecialConfig, cs: seq<Config>) {
    && sp.dxgiAdapterIdx == WrittenU32(None, cs, SPECIAL_DXGI_ADAPTER_INDEX)
    && sp.accelerationMode == WrittenU32(None, cs, MAIN_ACCELERATION_MODE)
    && sp.deviceHandleType == WrittenU32(None, cs, SPECIAL_HANDLE_TYPE)
    && sp.numThread == WrittenU32(None, cs, SPECIAL_NUM_THREAD)
  }

  ghost predicate Inv(st: State) {
    && ListOk(st)
    && LibsTraceOk(st)
    && (st.needFullQuery ==> st.impls == [] && st.needUpdateValidImpls)
    && (!st.needUpdateValidImpls ==> ValidPass(st.impls, st.configs, st.special))
    && NumbersCurrent(st.special, st.configs)
    && OnlySettable(st.configs, st.windows)
  }

  // Sessions are not created in low latency mode.
  ghost predicate Allowed(st: State, call: Call) { call.CreateSession? ==> !st.lowLatency }

  lemma InitialInv(windows: bool)
    ensures Inv(InitialState(windows))
  {
    var st := InitialState(windows);
    assert Uids(st.libs) == {};
    assert ReleaseAll([]) == [];
    assert Order<Impl>([], InfoOf, false) == [];
  }

  // ---- queries --------------------------------------------------------------------------------------

  ghost predicate IdsBelow(s: seq<Impl>, n: nat) {
    forall k | 0 <= k < |s| :: s[k].info.id < n && s[k].validImplIdx >= -1
  }

  // While libraries are queried, every implementation added gets a new identity.
  ghost predicate Growing(q: Query) { Distinct(q.impls) && IdsBelow(q.impls, q.next) }

  lemma {:induction false} AddVplGrows(q: Query, lib: Lib, rt: Runtime, n: nat)
    requires DescsOk(rt) && n <= |rt.descs.value| && Growing(q)
    ensures Growing(AddVpl(q, lib, rt, n))
  {
    if n > 0 { AddVplGrows(q, lib, rt, n - 1); }
  }

  lemma {:induction false} AddMsdkGrows(q: Query, lib: Lib, rt: Runtime, n: nat)
    requires n <= MAX_NUM_IMPL_MSDK && Growing(q)
    ensures Growing(AddMsdk(q, lib, rt, n))
  {
    if n > 0 { AddMsdkGrows(q, lib, rt, n - 1); }
  }

  lemma {:induction false} QueryLibsGrows(q: Query, libs: seq<Lib>, env: Environment)
    requires Growing(q)
    ensures Growing(QueryLibs(q, libs, env))
  {
    if libs != [] {
      var init, lib := libs[..|libs| - 1], libs[|libs| - 1];
      var rt := env.runtime(lib.name);
      QueryLibsGrows(q, init, env);
      var p := QueryLibs(q, init, env);
      var d := p.(trace := p.trace + HandOverEvents(lib.uid, rt));
      if lib.libType == LibTypeVPL && DescsOk(rt) { AddVplGrows(d, lib, rt, |rt.descs.value|); }
      if lib.libType == LibTypeMSDK { AddMsdkGrows(p, lib, rt, MAX_NUM_IMPL_MSDK); }
    }
  }

  ghost predicate NoneBelowMinusOne(s: seq<Impl>) { forall k | 0 <= k < |s| :: s[k].validImplIdx >= -1 }

  // Whatever the list was, prioritizing leaves it ordered and numbered.
  lemma PrioritizeListOk(s: seq<Impl>, priorityPath: bool)
    requires Distinct(s) && NoneBelowMinusOne(s)
    ensures var t := Prioritize(s, priorityPath);
            Distinct(t) && Order(t, InfoOf, priorityPath) == t && Numbered(t)
  {
    var o := Order(s, InfoOf, priorityPath);
    OrderIdempotent(s, priorityPath);
    RenumberedOrder(o, priorityPath);
    OrderIsInOrder(s, priorityPath);
    forall k | 0 <= k < |o| ensures o[k].validImplIdx >= -1 {
      assert o[k] in multiset(o);
      assert o[k] in s;
    }
    RenumberNumbers(o);
  }

  lemma RenumberNumbers(o: seq<Impl>)
    requires NoneBelowMinusOne(o)
    ensures Numbered(Renumber(o))
  {
    var t := Renumber(o);
    forall i | 0 <= i < |t| ensures t[i].validImplIdx == if t[i].Valid() then CountValid(t[..i]) else -1 {
      CountCongruent(o[..i], t[..i]);
    }
  }

  lemma FullQueryList(st: State, env: Environment)
    requires st.impls == []
    ensures var (sts, r) := FullLoadAndQuery(st, env);
            && ListOk(r) && r.configs == st.configs && r.special == st.special && r.windows == st.windows
            && (sts != ErrNone ==>
                  r.impls == [] && r.needFullQuery == st.needFullQuery
                  && r.needUpdateValidImpls == st.needUpdateValidImpls)
            && (sts == ErrNone ==> !r.needFullQuery && r.needUpdateValidImpls)
  {
    hide QueryLibs, Prioritize;
    var st0 := st.(lowLatency := false);
    AddCandidatesFrame(st0, CandidatesOf(env));
    var checked := CheckLibs(BuildList(st0, env), env);
    if checked.libs != [] {
      var q := QueryLibs(Query([], [], checked.implIdxNext, checked.trace), checked.libs, env);
      QueryLibsGrows(Query([], [], checked.implIdxNext, checked.trace), checked.libs, env);
      var post := PostProcessAll(q.impls, q.impls, D3D9Requested(checked.special));
      PrioritizeListOk(post, checked.priorityPath);
    } else {
      assert Order<Impl>([], InfoOf, checked.priorityPath) == [];
    }
  }

  lemma {:induction false} AddCandidatesFrame(st: State, cs: seq<Candidate>)
    ensures var r := AddCandidates(st, cs); r == st.(libs := r.libs, uidNext := r.uidNext)
  {
    if cs != [] { AddCandidatesFrame(st, cs[..|cs| - 1]); }
  }

  // ---- updates ----------------------------------------------------------------------------------------

  // In an ordered list, marking entries invalid moves nothing: the update only renumbers.
  lemma UpdateRenumbers(st: State)
    requires ListOk(st)
    ensures UpdateValid(st).impls == Renumber(RecheckAll(st.impls, st.configs, st.special))
  {
    SameDataSameOrder(st.impls, RecheckAll(st.impls, st.configs, st.special), st.priorityPath);
  }

  lemma UpdateListOk(st: State)
    requires ListOk(st)
    ensures ListOk(UpdateValid(st))
  {
    var checked := RecheckAll(st.impls, st.configs, st.special);
    SameDataDistinct(st.impls, checked);
    RecheckFloor(st.impls, st.configs, st.special);
    PrioritizeListOk(checked, st.priorityPath);
  }

  lemma SameDataDistinct(s: seq<Impl>, t: seq<Impl>)
    requires Distinct(s) && |t| == |s| && forall k | 0 <= k < |s| :: t[k].info == s[k].info
    ensures Distinct(t)
  {}

  lemma RecheckFloor(s: seq<Impl>, cs: seq<Config>, sp: SpecialConfig)
    requires Numbered(s)
    ensures NoneBelowMinusOne(RecheckAll(s, cs, sp))
  {}

  // Entry by entry, the update keeps what was valid and still passes.
  lemma UpdateEntries(st: State)
    requires ListOk(st)
    ensures |UpdateValid(st).impls| == |st.impls|
    ensures forall k | 0 <= k < |st.impls| ::
              var v, w := st.impls[k], UpdateValid(st).impls[k];
              w.info == v.info && w.adapterIdx == v.adapterIdx
              && (w.Valid() <==> v.Valid() && Passes(v.info, v.adapterIdx, st.configs, st.special))
  {
    UpdateRenumbers(st);
    NumberedBijection(st.impls);
  }

  lemma UpdateInv(st: State)
    requires Inv(st) && !st.needFullQuery
    ensures Inv(UpdateValid(st))
  {
    UpdateListOk(st);
    UpdateEntries(st);
    var r := UpdateValid(st);
    forall k | 0 <= k < |r.impls| && r.impls[k].Valid()
      ensures Passes(r.impls[k].info, r.impls[k].adapterIdx, r.configs, r.special)
    {
      PassesAfterValidate(r.impls[k].info, r.impls[k].adapterIdx, r.configs, st.special);
    }
    StepSameData(st.trace, Uids(st.libs), st.uidNext, st.impls, r.impls);
  }

  lemma RefreshInv(st: State, env: Environment)
    requires Inv(st)
    ensures Inv(Refresh(st, env).1)
    ensures Refresh(st, env).0 == ErrNone ==>
            !Refresh(st, env).1.needFullQuery && !Refresh(st, env).1.needUpdateValidImpls
  {
    if st.needFullQuery {
      FullQueryList(st, env);
      FullQueryOk(st, env);
    }
    var queried := if st.needFullQuery then FullLoadAndQuery(st, env).1 else st;
    assert Inv(queried);
    if !queried.needFullQuery && queried.needUpdateValidImpls { UpdateInv(queried); }
  }

  // ---- changes to the configurations ----------------------------------------------------------------------

  // A failing call asks for nothing more than before, and leaves every number as it was.
  lemma FailedSetSlots(c: Config, name: Option<string>, v: Variant, windows: bool)
    requires AfterSet(c, name, v, windows).0 != ErrNone
    ensures var d := AfterSet(c, name, v, windows).1;
            Weaker(d, c) && forall i | IsProp(i) && TypeOf(i) != TypePtr :: d[i] == c[i]
  {
    SetFrame(c, name, v, windows);
  }

  lemma FailedSetWeaker(cs: seq<Config>, k: nat, name: Option<string>, v: Variant, windows: bool)
    requires k < |cs| && AfterSet(cs[k], name, v, windows).0 != ErrNone
    ensures var ds := cs[k := AfterSet(cs[k], name, v, windows).1];
            && (forall j | 0 <= j < |cs| :: Weaker(ds[j], cs[j]))
            && (forall i | TypeOf(i) != TypePtr :: Last(ds, i) == Last(cs, i))
            && RequestedVersion(ds) == RequestedVersion(cs)
  {
    var c := AfterSet(cs[k], name, v, windows).1;
    FailedSetSlots(cs[k], name, v, windows);
    NumbersSame(cs, k, c);
  }

  lemma NumbersSame(cs: seq<Config>, k: nat, c: Config)
    requires k < |cs| && forall i | IsProp(i) && TypeOf(i) != TypePtr :: c[i] == cs[k][i]
    ensures forall i | TypeOf(i) != TypePtr :: Last(cs[k := c], i) == Last(cs, i)
    ensures RequestedVersion(cs[k := c]) == RequestedVersion(cs)
  {
    forall i | TypeOf(i) != TypePtr ensures Last(cs[k := c], i) == Last(cs, i) { LastSame(cs, cs[k := c], i); }
    assert TypeOf(MAIN_API_VERSION) == TypeU32;
    assert TypeOf(MAIN_API_VERSION_MAJOR) == TypeOf(MAIN_API_VERSION_MINOR) == TypeU16;
    VersionSame(cs, cs[k := c]);
  }

  lemma {:induction false} LastSame(cs: seq<Config>, ds: seq<Config>, i: int)
    requires |cs| == |ds| && forall j | 0 <= j < |cs| :: IsProp(i) ==> cs[j][i] == ds[j][i]
    ensures Last(cs, i) == Last(ds, i)
  {
    if cs != [] { LastSame(cs[..|cs| - 1], ds[..|ds| - 1], i); }
  }

  lemma {:induction false} VersionSame(cs: seq<Config>, ds: seq<Config>)
    requires |cs| == |ds|
    requires forall j | 0 <= j < |cs| :: cs[j][MAIN_API_VERSION] == ds[j][MAIN_API_VERSION]
               && cs[j][MAIN_API_VERSION_MAJOR] == ds[j][MAIN_API_VERSION_MAJOR]
               && cs[j][MAIN_API_VERSION_MINOR] == ds[j][MAIN_API_VERSION_MINOR]
    ensures LastMajor(cs) == LastMajor(ds) && LastMinor(cs) == LastMinor(ds)
  {
    if cs != [] {
      VersionSame(cs[..|cs| - 1], ds[..|ds| - 1]);
    }
  }

  lemma EmptyAccepted(p: Caps, lt: LibType)
    ensures NoVersion(EmptyConfig()) && OneAccepts(EmptyConfig(), p, lt)
  {
    forall g ensures !Has(EmptyConfig(), g) {
      assert forall i :: !InGroup(EmptyConfig(), i, g);
    }
  }

  lemma NewConfigPasses(d: ImplData, adapterIdx: u32, cs: seq<Config>, sp: SpecialConfig)
    requires Passes(d, adapterIdx, cs, sp)
    ensures Passes(d, adapterIdx, cs + [EmptyConfig()], sp)
  {
    EmptyAccepted(d.caps, d.libType);
    AcceptsInsert(d.caps, cs, EmptyConfig(), [], d.libType);
    assert cs + [EmptyConfig()] + [] == cs + [EmptyConfig()] && cs + [] == cs;
    LastAppend(cs, EmptyConfig(), SPECIAL_DXGI_ADAPTER_INDEX);
  }

  lemma NewConfigNumbers(sp: SpecialConfig, cs: seq<Config>)
    requires NumbersCurrent(sp, cs)
    ensures NumbersCurrent(sp, cs + [EmptyConfig()])
  {
    LastAppend(cs, EmptyConfig(), SPECIAL_DXGI_ADAPTER_INDEX);
    LastAppend(cs, EmptyConfig(), MAIN_ACCELERATION_MODE);
    LastAppend(cs, EmptyConfig(), SPECIAL_HANDLE_TYPE);
    LastAppend(cs, EmptyConfig(), SPECIAL_NUM_THREAD);
  }

  lemma CreateConfigInv(st: State)
    requires Inv(st)
    ensures Inv(Step(st, CreateConfig).1)
  {
    hide Passes, Distinct, Numbered, Order, TraceOk, DistinctLibs, NumbersCurrent;
    var cs := st.configs + [EmptyConfig()];
    NewConfigNumbers(st.special, st.configs);
    if !st.needUpdateValidImpls {
      forall k | 0 <= k < |st.impls| && st.impls[k].Valid()
        ensures Passes(st.impls[k].info, st.impls[k].adapterIdx, cs, st.special)
      {
        NewConfigPasses(st.impls[k].info, st.impls[k].adapterIdx, st.configs, st.special);
      }
    }
    forall k, i | 0 <= k < |cs| && IsSet(cs[k], i) ensures Settable(i, st.windows) {
      assert k < |st.configs| && IsSet(st.configs[k], i);
    }
  }

  lemma WeakerPasses(d: ImplData, adapterIdx: u32, ds: seq<Config>, cs: seq<Config>, sp: SpecialConfig)
    requires |ds| == |cs| && forall j | 0 <= j < |cs| :: Weaker(ds[j], cs[j])
    requires Last(ds, SPECIAL_DXGI_ADAPTER_INDEX) == Last(cs, SPECIAL_DXGI_ADAPTER_INDEX)
    requires RequestedVersion(ds) == RequestedVersion(cs)
    requires Passes(d, adapterIdx, cs, sp)
    ensures Passes(d, adapterIdx, ds, sp)
  {
    WeakerListAccepts(d.caps, ds, cs, d.libType);
  }

  lemma SetSettable(st: State, k: nat, name: Option<string>, v: Variant)
    requires OnlySettable(st.configs, st.windows) && k < |st.configs|
    ensures OnlySettable(st.configs[k := AfterSet(st.configs[k], name, v, st.windows).1], st.windows)
  {
    var c := AfterSet(st.configs[k], name, v, st.windows).1;
    SetFrame(st.configs[k], name, v, st.windows);
    forall i | IsSet(c, i) ensures Settable(i, st.windows) {
      if c[i] == st.configs[k][i] { assert IsSet(st.configs[k], i); }
    }
  }

  // A number is never unset again, so its last writer stays on record.
  lemma NumberStaysSet(cs: seq<Config>, k: nat, name: Option<string>, v: Variant, windows: bool, i: int)
    requires k < |cs| && TypeOf(i) == TypeU32
    ensures Last(cs, i).Some? ==> Last(cs[k := AfterSet(cs[k], name, v, windows).1], i).Some?
  {
    var c := AfterSet(cs[k], name, v, windows).1;
    if Last(cs, i).Some? {
      var j :| 0 <= j < |cs| && IsSet(cs[j], i);
      assert IsSet(cs[k := c][j], i);
    }
  }

  lemma WeakerValidPass(s: seq<Impl>, ds: seq<Config>, cs: seq<Config>, sp: SpecialConfig)
    requires |ds| == |cs| && forall j | 0 <= j < |cs| :: Weaker(ds[j], cs[j])
    requires Last(ds, SPECIAL_DXGI_ADAPTER_INDEX) == Last(cs, SPECIAL_DXGI_ADAPTER_INDEX)
    requires RequestedVersion(ds) == RequestedVersion(cs)
    requires ValidPass(s, cs, sp)
    ensures ValidPass(s, ds, sp)
  {
    forall k | 0 <= k < |s| && s[k].Valid() ensures Passes(s[k].info, s[k].adapterIdx, ds, sp) {
      WeakerPasses(s[k].info, s[k].adapterIdx, ds, cs, sp);
    }
  }

  lemma FailedSetInv(st: State, k: nat, name: Option<string>, v: Variant)
    requires Inv(st) && k < |st.configs| && AfterSet(st.configs[k], name, v, st.windows).0 != ErrNone
    ensures Inv(st.(configs := st.configs[k := AfterSet(st.configs[k], name, v, st.windows).1]))
  {
    var cs := st.configs[k := AfterSet(st.configs[k], name, v, st.windows).1];
    SetSettable(st, k, name, v);
    FailedSetWeaker(st.configs, k, name, v, st.windows);
    FailedSetNumbers(st.special, st.configs, cs);
    if !st.needUpdateValidImpls { WeakerValidPass(st.impls, cs, st.configs, st.special); }
  }

  lemma FailedSetNumbers(sp: SpecialConfig, cs: seq<Config>, ds: seq<Config>)
    requires NumbersCurrent(sp, cs) && forall i | TypeOf(i) != TypePtr :: Last(ds, i) == Last(cs, i)
    ensures NumbersCurrent(sp, ds) && Last(ds, SPECIAL_DXGI_ADAPTER_INDEX) == Last(cs, SPECIAL_DXGI_ADAPTER_INDEX)
  {
    assert TypeOf(SPECIAL_DXGI_ADAPTER_INDEX) == TypeOf(MAIN_ACCELERATION_MODE) == TypeU32;
    assert TypeOf(SPECIAL_HANDLE_TYPE) == TypeOf(SPECIAL_NUM_THREAD) == TypeU32;
  }

  lemma SetNumbers(sp: SpecialConfig, cs: seq<Config>, k: nat, name: Option<string>, v: Variant, windows: bool)
    requires NumbersCurrent(sp, cs) && k < |cs|
    ensures var ds := cs[k := AfterSet(cs[k], name, v, windows).1]; NumbersCurrent(AfterLowLatencyCheck(sp, ds), ds)
  {
    NumberStaysSet(cs, k, name, v, windows, SPECIAL_DXGI_ADAPTER_INDEX);
    NumberStaysSet(cs, k, name, v, windows, MAIN_ACCELERATION_MODE);
    NumberStaysSet(cs, k, name, v, windows, SPECIAL_HANDLE_TYPE);
    NumberStaysSet(cs, k, name, v, windows, SPECIAL_NUM_THREAD);
  }

  lemma AcceptedSetInv(st: State, cs: seq<Config>)
    requires Inv(st) && OnlySettable(cs, st.windows) && NumbersCurrent(AfterLowLatencyCheck(st.special, cs), cs)
    ensures Inv(st.(configs := cs, needUpdateValidImpls := true, lowLatency := LowLatency(cs),
                    special := AfterLowLatencyCheck(st.special, cs)))
  {
    hide NumbersCurrent, OnlySettable, ValidPass, AfterLowLatencyCheck, LowLatency;
  }

  lemma SetPropertyInv(st: State, k: nat, name: Option<string>, v: Variant)
    requires Inv(st)
    ensures Inv(Step(st, SetProperty(k, name, v)).1)
  {
    hide ListOk, LibsTraceOk, ValidPass, NumbersCurrent, OnlySettable;
    hide EnumerateStep, CreateSessionStep, ReleaseStatus, AfterSet, LowLatency, AfterLowLatencyCheck;
    if k < |st.configs| {
      if AfterSet(st.configs[k], name, v, st.windows).0 != ErrNone {
        FailedSetInv(st, k, name, v);
      } else {
        SetSettable(st, k, name, v);
        SetNumbers(st.special, st.configs, k, name, v, st.windows);
        AcceptedSetInv(st, st.configs[k := AfterSet(st.configs[k], name, v, st.windows).1]);
      }
    }
  }

  // Every allowed call keeps the invariant.
  lemma StepInv(st: State, call: Call)
    requires Inv(st) && Allowed(st, call)
    ensures Inv(Step(st, call).1)
  {
    hide Inv, Refresh, SetStep, ReplyToEnumerate, ReplyToCreateSession, ReleaseStatus;
    match call
    case CreateConfig => CreateConfigInv(st);
    case SetProperty(k, name, v) => SetPropertyInv(st, k, name, v);
    case Enumerate(_, _, env) => RefreshInv(st, env);
    case CreateSession(_, _, env) => RefreshInv(st, env);
    case ReleaseDescription(_) =>
  }
}
