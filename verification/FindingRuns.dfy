// Concrete runs, from a new loader on, in which the dispatcher does what the general theorems leave
// room for.
module FindingRuns {
  import opened Accounts
  import opened Config
  import opened FilterLaws
  import opened FilterMeaning
  import opened Filters
  import opened HandleTrace
  import opened ImplOrder
  import opened LoaderInvariant
  import opened LoaderState
  import opened PropNames
  import opened Runs
  import opened SessionProps
  import opened Special
  import opened StableSort
  import opened Tokens
  import opened VplTypes

  // ---- one file, one VPL runtime ---------------------------------------------------------------------

  const FILE := "/opt/libvpl_gpu.so"
  function AllFound(): FunctionTable { seq(NUM_VPL_FUNCTIONS, i => true) }
  function NoAdapters(): AdapterTable { seq(MAX_NUM_IMPL_MSDK, i => None) }

  function OneRuntime(descs: seq<Option<Ref<ImplDesc>>>): Runtime {
    Runtime(true, AllFound(), 0, None, Some(descs), None, None, NoAdapters())
  }

  function NoAnswer(i: nat): Option<ImplDesc> { None }
  function NoAttempt(i: nat, a: nat): Option<ImplDesc> { None }

  function OneFile(rt: Runtime): Environment {
    Environment([], [Candidate(FILE, 1)], (name: string) => rt, Answers(NoAnswer, NoAttempt))
  }

  function TheLib(uid: nat): Lib { Lib(uid, FILE, 1, LibTypeVPL, true, AllFound(), 0) }

  lemma SearchFinds(st: State, rt: Runtime)
    requires st.libs == []
    ensures BuildList(st, OneFile(rt)) ==
            st.(libs := [NewLib(st.uidNext, Candidate(FILE, 1))], uidNext := st.uidNext + 1)
  {
    var cs := CandidatesOf(OneFile(rt));
    assert cs == [Candidate(FILE, 1)];
    assert AddCandidates(st, cs[..0]) == st;
    assert cs[..|cs| - 1] == cs[..0];
  }

  lemma ProbeFinds(uid: nat, descs: seq<Option<Ref<ImplDesc>>>, loaded: bool, known: FunctionTable, libType: LibType)
    ensures var l := Lib(uid, FILE, 1, libType, loaded, known, 0);
            ProbeAll([l], OneFile(OneRuntime(descs)), false) == [TheLib(uid)]
  {
    var rt := OneRuntime(descs);
    var l := Lib(uid, FILE, 1, libType, loaded, known, 0);
    assert seq(NUM_VPL_FUNCTIONS, i requires 0 <= i < NUM_VPL_FUNCTIONS =>
                 l.table[i] || (rt.loads && rt.exports[i])) == AllFound();
    assert Probe(l, rt, false) == Some(TheLib(uid));
    assert [l][..0] == [];
  }

  lemma LoneLibraryKept(uid: nat)
    ensures Prune([TheLib(uid)], ChosenMsdk([TheLib(uid)])) == [TheLib(uid)]
  {
    var libs := [TheLib(uid)];
    assert libs[..0] == [];
    assert BestMsdk(libs, true) == None == BestMsdk(libs, false);
  }

  // The library the query gets to ask.
  lemma LibraryAsked(st: State, descs: seq<Option<Ref<ImplDesc>>>)
    requires st.libs == [] && !st.windows
    ensures var env := OneFile(OneRuntime(descs));
            var r := CheckLibs(BuildList(st.(lowLatency := false), env), env);
            && r.libs == [TheLib(st.uidNext)]
            && r == st.(lowLatency := false, libs := r.libs, uidNext := st.uidNext + 1, trace := r.trace)
  {
    hide ProbeAll, Prune, ChosenMsdk, ProbeEvents, PruneEvents, BuildList;
    var st0 := st.(lowLatency := false);
    SearchFinds(st0, OneRuntime(descs));
    ProbeFinds(st.uidNext, descs, false, seq(NUM_VPL_FUNCTIONS, i => false), LibTypeUnknown);
    LoneLibraryKept(st.uidNext);
  }

  // A hardware implementation of API 2.0 that no adapter number can be read from.
  function TheDesc(): ImplDesc {
    ImplDesc(0x0102, IMPL_TYPE_HARDWARE, 0, Version(2, 0), "", "", "", 0, 0, DeviceDesc(0x0101, 0, ""),
             [], [], [], [], [])
  }

  const HANDLE: Address := 1

  function TheData(uid: nat, id: nat): ImplData {
    ImplData(id, uid, 1, LibTypeVPL, Caps(TheDesc(), None, None), Handles(HANDLE, 0, 0), 0, 0)
  }

  function TheImpl(uid: nat, id: nat, valid: bool): Impl { Impl(TheData(uid, id), UNKNOWN_ID, if valid then 0 else -1) }

  const DESCS: seq<Option<Ref<ImplDesc>>> := [Some(Ref(HANDLE, TheDesc()))]

  function TheEnv(): Environment { OneFile(OneRuntime(DESCS)) }

  lemma LoneOrder(v: Impl, priorityPath: bool)
    ensures Order([v], InfoOf, priorityPath) == [v]
  {
    var o := Order([v], InfoOf, priorityPath);
    OrderPermutes([v], InfoOf, priorityPath);
    assert |multiset(o)| == |multiset([v])| == 1;
    assert o[0] in multiset(o);
  }

  lemma LonePrioritized(v: Impl, priorityPath: bool)
    requires v.validImplIdx == -1 || v.validImplIdx == 0
    ensures Prioritize([v], priorityPath) == [v]
  {
    LoneOrder(v, priorityPath);
    assert [v][..0] == [];
  }

  lemma QueryFinds(st: State)
    requires st.libs == [TheLib(0)] && st.impls == [] && st.implIdxNext == 0
    ensures var r := QueryCaps(st, TheEnv());
            && r.impls == [TheImpl(0, 0, true)] && r.libs == [TheLib(0)]
            && r == st.(libs := r.libs, impls := r.impls, implIdxNext := r.implIdxNext, trace := r.trace)
  {
    hide Prioritize, X86Adapter;
    var rt, lib := OneRuntime(DESCS), TheLib(0);
    var q0 := Query([], [], 0, st.trace);
    assert [lib][..0] == [] && QueryLibs(q0, [], TheEnv()) == q0;
    var d := q0.(trace := q0.trace + HandOverEvents(0, rt));
    assert VplData(lib, rt, 0, 0) == TheData(0, 0);
    assert ExportsComplete(lib.table, TheDesc().apiVersion);
    assert AddVpl(d, lib, rt, 1) == AddVplOne(AddVpl(d, lib, rt, 0), lib, rt, 0);
    var q := QueryLibs(q0, [lib], TheEnv());
    assert q == QueryLib(q0, lib, rt) && q.impls == [TheImpl(0, 0, true)] && q.libs == [lib];
    NoAdapter(TheImpl(0, 0, true));
    assert PostProcessAll(q.impls, q.impls, D3D9Requested(st.special)) == q.impls;
    LonePrioritized(TheImpl(0, 0, true), st.priorityPath);
  }

  lemma NoAdapter(v: Impl)
    requires v.info.caps.desc.vendorID == 0
    ensures X86Adapter(v) == None
  {}

  // The first full query of this environment succeeds and finds the one implementation.
  lemma FirstQuery(st: State)
    requires st.libs == [] && st.impls == [] && st.implIdxNext == 0 && st.uidNext == 0 && !st.windows
    ensures var (sts, r) := FullLoadAndQuery(st, TheEnv());
            && sts == ErrNone && r.impls == [TheImpl(0, 0, true)] && !r.needFullQuery && r.needUpdateValidImpls
            && r.configs == st.configs && r.special == st.special && r.windows == st.windows && !r.lowLatency
  {
    hide CheckLibs, BuildList, QueryCaps;
    LibraryAsked(st, DESCS);
    QueryFinds(CheckLibs(BuildList(st.(lowLatency := false), TheEnv()), TheEnv()));
  }

  // ... and the update after it keeps the implementation valid or not.
  lemma FirstUpdate(st: State)
    requires st.impls == [TheImpl(0, 0, true)]
    ensures var ok := Passes(TheData(0, 0), UNKNOWN_ID, st.configs, st.special);
            && UpdateValid(st).impls == [TheImpl(0, 0, ok)]
            && UpdateValid(st).special == AfterValidate(st.special, st.configs)
  {
    hide Passes, Prioritize, AfterValidate;
    var ok := Passes(TheData(0, 0), UNKNOWN_ID, st.configs, st.special);
    assert RecheckAll(st.impls, st.configs, st.special) == [TheImpl(0, 0, ok)];
    LonePrioritized(TheImpl(0, 0, ok), st.priorityPath);
    assert st.impls[0].validImplIdx != -1;
  }

  // Both together, as the first enumeration or session does them.
  lemma FirstRefresh(st: State)
    requires st.libs == [] && st.impls == [] && st.implIdxNext == 0 && st.uidNext == 0 && !st.windows
             && st.needFullQuery
    ensures var ok := Passes(TheData(0, 0), UNKNOWN_ID, st.configs, st.special);
            var (sts, r) := Refresh(st, TheEnv());
            && sts == ErrNone && r.impls == [TheImpl(0, 0, ok)] && r.special == AfterValidate(st.special, st.configs)
            && !r.needFullQuery && !r.needUpdateValidImpls && r.configs == st.configs && !r.windows && !r.lowLatency
  {
    hide FullLoadAndQuery, Passes, AfterValidate, RecheckAll, Prioritize;
    FirstQuery(st);
    FirstUpdate(FullLoadAndQuery(st, TheEnv()).1);
  }

  // ---- setting properties by name ------------------------------------------------------------------

  predicate OnlySession(i: int) {
    i == SPECIAL_EXT_BUFFER || i == SPECIAL_HANDLE || i == SPECIAL_HANDLE_TYPE || i == SPECIAL_NUM_THREAD
  }

  // A configuration that sets only session properties asks nothing of an implementation, and does not
  // lead to low latency mode.
  lemma SessionPropsPass(c: Config, d: ImplData, sp: SpecialConfig)
    requires (forall k | IsSet(c, k) :: OnlySession(k)) && sp.dxgiAdapterIdx.None?
    ensures Passes(d, UNKNOWN_ID, [c], sp) && !LowLatency([c])
  {
    forall g ensures !Has(c, g) {
      assert forall k :: !InGroup(c, k, g);
    }
    assert ConfigAccepts(c, d.caps.desc, d.caps.ext, d.libType) && FunctionOk(c, d.caps.funcs);
    assert [c][..0] == [];
    assert !IsSet(c, MAIN_API_VERSION) && !IsSet(c, MAIN_API_VERSION_MAJOR) && !IsSet(c, MAIN_API_VERSION_MINOR);
    assert MajorIn(c) == None && LastMajor([c]) == LastMajor([c][..0]) == None;
    assert RequestedVersion([c]) == None;
    LastOfOne(c, SPECIAL_DXGI_ADAPTER_INDEX);
    LastOfOne(c, MAIN_IMPL);
  }

  lemma LastOfOne(c: Config, i: int)
    ensures Last([c], i) == if IsSet(c, i) then Some(c[i].data) else None
    ensures ExtBuffers([c]) == if IsSet(c, SPECIAL_EXT_BUFFER) then [c[SPECIAL_EXT_BUFFER].data] else []
  {
    assert [c][..0] == [];
  }

  // What collecting from a single configuration leaves of the properties the runs below look at.
  lemma CollectedFromOne(sp: SpecialConfig, c: Config)
    ensures var v, l := AfterValidate(sp, [c]), AfterLowLatencyCheck(sp, [c]);
            && v.extBuffers == l.extBuffers ==
               (if IsSet(c, SPECIAL_EXT_BUFFER) then [c[SPECIAL_EXT_BUFFER].data] else [])
            && v.deviceHandle == l.deviceHandle ==
               (if IsSet(c, SPECIAL_HANDLE) then Some(c[SPECIAL_HANDLE].data) else sp.deviceHandle)
            && v.deviceHandleType == l.deviceHandleType
            && v.deviceHandleType == (if IsSet(c, SPECIAL_HANDLE_TYPE)
                                      then Some(c[SPECIAL_HANDLE_TYPE].data.U32()) else sp.deviceHandleType)
            && v.numThread == l.numThread
            && v.numThread == (if IsSet(c, SPECIAL_NUM_THREAD)
                               then Some(c[SPECIAL_NUM_THREAD].data.U32()) else sp.numThread)
            && (!IsSet(c, SPECIAL_DXGI_ADAPTER_INDEX) ==> v.dxgiAdapterIdx == l.dxgiAdapterIdx == sp.dxgiAdapterIdx)
  {
    LastOfOne(c, SPECIAL_EXT_BUFFER);
    LastOfOne(c, SPECIAL_HANDLE);
    LastOfOne(c, SPECIAL_HANDLE_TYPE);
    LastOfOne(c, SPECIAL_NUM_THREAD);
    LastOfOne(c, SPECIAL_DXGI_ADAPTER_INDEX);
  }

  // ---- one call at a time ------------------------------------------------------------------------

  lemma RunStart()
    ensures LoaderRun([InitialState(false)], [], false)
  {}

  lemma RunAppend(ss: seq<State>, calls: seq<Call>, call: Call)
    requires LoaderRun(ss, calls, false) && Allowed(ss[|calls|], call)
    ensures LoaderRun(ss + [Step(ss[|calls|], call).1], calls + [call], false)
  {
    hide Step, Allowed;
  }

  // A new loader with one new configuration.
  function Begun(): State { InitialState(false).(configs := [EmptyConfig()]) }

  lemma Begins()
    ensures LoaderRun([InitialState(false), Begun()], [CreateConfig], false)
  {
    RunStart();
    RunAppend([InitialState(false)], [], CreateConfig);
    assert [] + [EmptyConfig()] == [EmptyConfig()];
    assert [InitialState(false)] + [Begun()] == [InitialState(false), Begun()] && [] + [CreateConfig] == [CreateConfig];
  }

  // The only configuration is changed, before any query.
  ghost function Changed(st: State, c: Config): State {
    st.(configs := [c], needUpdateValidImpls := true, lowLatency := LowLatency([c]),
        special := AfterLowLatencyCheck(st.special, [c]))
  }

  lemma StepChanged(st: State, c: Config, i: int, v: Variant, c': Config)
    requires st.configs == [c] && !st.windows && Settable(i, false) && i != DEVICE_DEVICE_ID_STR
             && i != DEVICE_DEVICE_ID
    requires v.Type() == TypeOf(i) && AfterStore(c, i, v) == (ErrNone, c')
    ensures Step(st, SetProperty(0, Some(DottedName(i)), v)).1 == Changed(st, c')
  {
    hide LowLatency, AfterLowLatencyCheck, AfterSet, AfterStore;
    SetByName(c, i, v, false);
    assert [c][0 := c'] == [c'];
  }

  lemma StepNull(st: State, c: Config, i: int, c': Config)
    requires st.configs == [c] && !st.windows && Settable(i, false) && i != DEVICE_DEVICE_ID_STR && TypeOf(i) == TypePtr
    requires AfterStore(c, i, Pointer(None)) == (ErrNullPtr, c')
    ensures Step(st, SetProperty(0, Some(DottedName(i)), Pointer(None))).1 == st.(configs := [c'])
  {
    hide LowLatency, AfterLowLatencyCheck, AfterSet, AfterStore;
    SetByName(c, i, Pointer(None), false);
    assert [c][0 := c'] == [c'];
  }

  // ---- an implementation that has been ruled out ------------------------------------------------------

  // A filter for software implementations rules the only implementation out; enumerating index
  // 0xFFFFFFFF delivers it all the same.
  lemma RuledOutDelivered() returns (ss: seq<State>, calls: seq<Call>)
    ensures LoaderRun(ss, calls, false) && |calls| == 3
    ensures calls[2] == Enumerate(0xFFFF_FFFF, ImplDescStructure, TheEnv())
    ensures |ss[3].impls| == 1 && !ss[3].impls[0].Valid()
    ensures Step(ss[2], calls[2]).0 == Reply(ErrNone, HandleOf(HANDLE), None)
  {
    hide Step, LoaderRun, Allowed, Changed;
    var c := With(MAIN_IMPL, Num(1));
    var setIt := SetProperty(0, Some(DottedName(MAIN_IMPL)), Scalar(TypeU32, 1));
    var all := Enumerate(0xFFFF_FFFF, ImplDescStructure, TheEnv());
    Begins();
    StepChanged(Begun(), EmptyConfig(), MAIN_IMPL, Scalar(TypeU32, 1), c);
    AllAllowed(Begun(), setIt);
    RunAppend([InitialState(false), Begun()], [CreateConfig], setIt);
    var st := Changed(Begun(), c);
    AllAllowed(st, all);
    RunAppend([InitialState(false), Begun()] + [st], [CreateConfig] + [setIt], all);
    ss, calls := [InitialState(false), Begun()] + [st] + [Step(st, all).1], [CreateConfig] + [setIt] + [all];
    DeliversRuledOut(st, c);
  }

  lemma AllAllowed(st: State, call: Call)
    requires !call.CreateSession?
    ensures Allowed(st, call)
  {}

  lemma DeliversRuledOut(st: State, c: Config)
    requires c == With(MAIN_IMPL, Num(1)) && st == Changed(Begun(), c)
    ensures var (reply, r) := Step(st, Enumerate(0xFFFF_FFFF, ImplDescStructure, TheEnv()));
            |r.impls| == 1 && !r.impls[0].Valid() && reply == Reply(ErrNone, HandleOf(HANDLE), None)
  {
    hide Refresh, Passes, LowLatency, AfterLowLatencyCheck, AfterValidate;
    SoftwareOnly(c, TheData(0, 0), st.special);
    FirstRefresh(st);
    var now := Refresh(st, TheEnv()).1;
    assert now.impls == [TheImpl(0, 0, false)] && now.impls[0].validImplIdx == -1;
    assert FindIndex(now.impls, -1) == 0;
  }

  lemma SoftwareOnly(c: Config, d: ImplData, sp: SpecialConfig)
    requires c == With(MAIN_IMPL, Num(1)) && d.caps.desc.impl == IMPL_TYPE_HARDWARE
    ensures !Passes(d, UNKNOWN_ID, [c], sp)
  {
    WithSets(MAIN_IMPL, Num(1));
    assert IsSet([c][0], MAIN_IMPL) && !MeetsGeneral(MAIN_IMPL, c[MAIN_IMPL].data, d.caps.desc);
  }

  // ---- an extension buffer no configuration holds ---------------------------------------------------------

  function PointerTo(extBuf: seq<int>, address: nat): Variant {
    Pointer(Some(Pointee(Range32U(0, 0, 0), "", [0, 0, 0, 0, 0, 0, 0, 0], extBuf, address)))
  }

  const BUFFER := Bytes([7])

  // The buffer is set, collected by an enumeration, and taken away by a null pointer: a session is
  // passed it although the only configuration no longer has one.
  lemma StaleBufferPassed() returns (ss: seq<State>, calls: seq<Call>)
    ensures LoaderRun(ss, calls, false) && |calls| == 5 && calls[4].CreateSession?
    ensures ExtBuffers(ss[4].configs) == []
    ensures var request := Step(ss[4], calls[4]).0.request;
            request.Some? && request.value.extParam == [FromConfig(BUFFER)]
  {
    hide Step, LoaderRun, Allowed, Changed;
    var c := With(SPECIAL_EXT_BUFFER, BUFFER);
    var setIt := SetProperty(0, Some(DottedName(SPECIAL_EXT_BUFFER)), PointerTo([7], 0));
    var all := Enumerate(0, ImplDescStructure, TheEnv());
    var unset := SetProperty(0, Some(DottedName(SPECIAL_EXT_BUFFER)), Pointer(None));
    var create := CreateSession(0, ErrNone, TheEnv());
    Begins();
    StepChanged(Begun(), EmptyConfig(), SPECIAL_EXT_BUFFER, PointerTo([7], 0), c);
    AllAllowed(Begun(), setIt);
    RunAppend([InitialState(false), Begun()], [CreateConfig], setIt);
    var s2 := Changed(Begun(), c);
    AllAllowed(s2, all);
    RunAppend([InitialState(false), Begun()] + [s2], [CreateConfig] + [setIt], all);
    var s3 := Step(s2, all).1;
    BufferCollected(s2, c);
    AllAllowed(s3, unset);
    RunAppend([InitialState(false), Begun()] + [s2] + [s3], [CreateConfig] + [setIt] + [all], unset);
    var c' := BufferUnset(c);
    StepNull(s3, c, SPECIAL_EXT_BUFFER, c');
    var s4 := Step(s3, unset).1;
    BufferPassed(s4);
    RunAppend([InitialState(false), Begun()] + [s2] + [s3] + [s4], [CreateConfig] + [setIt] + [all] + [unset], create);
    ss := [InitialState(false), Begun()] + [s2] + [s3] + [s4] + [Step(s4, create).1];
    calls := [CreateConfig] + [setIt] + [all] + [unset] + [create];
    LastOfOne(c', SPECIAL_EXT_BUFFER);
  }

  lemma BufferUnset(c: Config) returns (c': Config)
    requires c == With(SPECIAL_EXT_BUFFER, BUFFER)
    ensures AfterStore(c, SPECIAL_EXT_BUFFER, Pointer(None)) == (ErrNullPtr, c') && !IsSet(c', SPECIAL_EXT_BUFFER)
  {
    c' := AfterStore(c, SPECIAL_EXT_BUFFER, Pointer(None)).1;
  }

  lemma BufferCollected(st: State, c: Config)
    requires c == With(SPECIAL_EXT_BUFFER, BUFFER) && st == Changed(Begun(), c)
    ensures var r := Step(st, Enumerate(0, ImplDescStructure, TheEnv())).1;
            && r.impls == [TheImpl(0, 0, true)] && r.configs == [c] && r.special.extBuffers == [BUFFER]
            && r.special.numThread.None? && !r.needFullQuery && !r.needUpdateValidImpls && !r.windows && !r.lowLatency
  {
    hide Refresh, Passes, LowLatency, AfterLowLatencyCheck, AfterValidate;
    WithSets(SPECIAL_EXT_BUFFER, BUFFER);
    CollectedFromOne(NO_SPECIAL, c);
    SessionPropsPass(c, TheData(0, 0), st.special);
    FirstRefresh(st);
    CollectedFromOne(st.special, c);
  }

  // With nothing to bring up to date, a session is passed whatever has been collected.
  lemma BufferPassed(st: State)
    requires st.impls == [TheImpl(0, 0, true)] && st.special.extBuffers == [BUFFER] && st.special.numThread.None?
    requires !st.needFullQuery && !st.needUpdateValidImpls && !st.lowLatency
    ensures Allowed(st, CreateSession(0, ErrNone, TheEnv()))
    ensures var request := Step(st, CreateSession(0, ErrNone, TheEnv())).0.request;
            request.Some? && request.value.extParam == [FromConfig(BUFFER)]
  {
    assert st.impls[0].validImplIdx == 0;
    assert FindIndex(st.impls, 0) == 0;
    assert SessionBuffers(st.special) == [FromConfig(BUFFER)];
  }

  // ---- a device handle no configuration holds ------------------------------------------------------------------

  // The configuration after each change.
  function Typed(): Config { EmptyConfig()[SPECIAL_HANDLE_TYPE := Slot(TypeU32, Num(5))] }
  function Held(): Config { Typed()[SPECIAL_HANDLE := Slot(TypePtr, Handle(9))] }
  function Taken(): Config { Held()[SPECIAL_HANDLE := Slot(TypeUnset, Handle(9))] }
  function Threaded(): Config { Taken()[SPECIAL_NUM_THREAD := Slot(TypeU32, Num(4))] }

  function SetNumber(i: int, n: nat): Call { SetProperty(0, Some(DottedName(i)), Scalar(TypeU32, n)) }
  function SetPointer(i: int, v: Variant): Call { SetProperty(0, Some(DottedName(i)), v) }

  ghost function Before(): State { Changed(Changed(Begun(), Typed()), Held()) }

  // The handle is set and taken away by a null pointer, and another property is set after that: a
  // session is passed the handle although the only configuration no longer has one.
  lemma StaleHandlePassed() returns (ss: seq<State>, calls: seq<Call>)
    ensures LoaderRun(ss, calls, false) && |calls| == 6 && calls[5].CreateSession?
    ensures Last(ss[5].configs, SPECIAL_HANDLE) == None
    ensures var request := Step(ss[5], calls[5]).0.request;
            request.Some? && request.value.setHandle == Some((5, Handle(9)))
  {
    hide Step, LoaderRun, Allowed, LowLatency, AfterLowLatencyCheck, Typed, Held, Taken, Threaded;
    var first, setIt := SetNumber(SPECIAL_HANDLE_TYPE, 5), SetPointer(SPECIAL_HANDLE, PointerTo([], 9));
    var unset, more := SetPointer(SPECIAL_HANDLE, Pointer(None)), SetNumber(SPECIAL_NUM_THREAD, 4);
    var create := CreateSession(0, ErrNone, TheEnv());
    var s2 := Changed(Begun(), Typed());
    var s3 := Before();
    var s4 := s3.(configs := [Taken()]);
    var s5 := Changed(s4, Threaded());
    FourChanges();
    Begins();
    AllAllowed(Begun(), first);
    RunAppend([InitialState(false), Begun()], [CreateConfig], first);
    AllAllowed(s2, setIt);
    RunAppend([InitialState(false), Begun()] + [s2], [CreateConfig] + [first], setIt);
    AllAllowed(s3, unset);
    RunAppend([InitialState(false), Begun()] + [s2] + [s3], [CreateConfig] + [first] + [setIt], unset);
    AllAllowed(s4, more);
    RunAppend([InitialState(false), Begun()] + [s2] + [s3] + [s4], [CreateConfig] + [first] + [setIt] + [unset], more);
    HandleStays();
    ThreadedSets();
    HandlePassed(s5, Threaded());
    RunAppend([InitialState(false), Begun()] + [s2] + [s3] + [s4] + [s5],
              [CreateConfig] + [first] + [setIt] + [unset] + [more], create);
    ss := [InitialState(false), Begun()] + [s2] + [s3] + [s4] + [s5] + [Step(s5, create).1];
    calls := [CreateConfig] + [first] + [setIt] + [unset] + [more] + [create];
    LastOfOne(Threaded(), SPECIAL_HANDLE);
  }

  lemma TypedStored()
    ensures AfterStore(EmptyConfig(), SPECIAL_HANDLE_TYPE, Scalar(TypeU32, 5)) == (ErrNone, Typed())
    ensures AfterStore(Typed(), SPECIAL_HANDLE, PointerTo([], 9)) == (ErrNone, Held())
  {}

  lemma TakenStored()
    ensures AfterStore(Held(), SPECIAL_HANDLE, Pointer(None)) == (ErrNullPtr, Taken())
    ensures AfterStore(Taken(), SPECIAL_NUM_THREAD, Scalar(TypeU32, 4)) == (ErrNone, Threaded())
  {}

  lemma ThreadedSets()
    ensures forall k :: IsSet(Threaded(), k) <==> k == SPECIAL_HANDLE_TYPE || k == SPECIAL_NUM_THREAD
    ensures Threaded()[SPECIAL_HANDLE_TYPE].data == Num(5)
    ensures forall k :: IsSet(Held(), k) <==> k == SPECIAL_HANDLE_TYPE || k == SPECIAL_HANDLE
    ensures Held()[SPECIAL_HANDLE].data == Handle(9) && Held()[SPECIAL_HANDLE_TYPE].data == Num(5)
    ensures Typed()[SPECIAL_HANDLE_TYPE].data == Num(5)
    ensures forall k :: IsSet(Typed(), k) <==> k == SPECIAL_HANDLE_TYPE
  {}

  lemma FourChanges()
    ensures Step(Begun(), SetNumber(SPECIAL_HANDLE_TYPE, 5)).1 == Changed(Begun(), Typed())
    ensures Step(Changed(Begun(), Typed()), SetPointer(SPECIAL_HANDLE, PointerTo([], 9))).1 == Before()
    ensures Step(Before(), SetPointer(SPECIAL_HANDLE, Pointer(None))).1 == Before().(configs := [Taken()])
    ensures var st := Before().(configs := [Taken()]);
            Step(st, SetNumber(SPECIAL_NUM_THREAD, 4)).1 == Changed(st, Threaded())
  {
    hide Step, LowLatency, AfterLowLatencyCheck, AfterStore, Typed, Held, Taken, Threaded;
    TypedStored();
    TakenStored();
    StepChanged(Begun(), EmptyConfig(), SPECIAL_HANDLE_TYPE, Scalar(TypeU32, 5), Typed());
    StepChanged(Changed(Begun(), Typed()), Typed(), SPECIAL_HANDLE, PointerTo([], 9), Held());
    StepNull(Before(), Held(), SPECIAL_HANDLE, Taken());
    StepChanged(Before().(configs := [Taken()]), Taken(), SPECIAL_NUM_THREAD, Scalar(TypeU32, 4), Threaded());
  }

  // What collecting leaves of the three properties a session's handle depends on.
  predicate HandleIs(sp: SpecialConfig, handle: Option<Data>) {
    sp.deviceHandle == handle && sp.deviceHandleType == Some(5) && sp.dxgiAdapterIdx.None?
  }

  lemma HandleTyped()
    ensures HandleIs(AfterLowLatencyCheck(NO_SPECIAL, [Typed()]), None)
  {
    hide AfterLowLatencyCheck, Held, Threaded, Typed;
    ThreadedSets();
    CollectedFromOne(NO_SPECIAL, Typed());
  }

  lemma HandleFound(sp: SpecialConfig)
    requires HandleIs(sp, None)
    ensures HandleIs(AfterLowLatencyCheck(sp, [Held()]), Some(Handle(9)))
  {
    hide AfterLowLatencyCheck, Held, Threaded, Typed;
    ThreadedSets();
    CollectedFromOne(sp, Held());
  }

  lemma HandleKept(sp: SpecialConfig, handle: Option<Data>)
    requires HandleIs(sp, handle)
    ensures HandleIs(AfterLowLatencyCheck(sp, [Threaded()]), handle)
  {
    hide AfterLowLatencyCheck, Held, Threaded, Typed;
    ThreadedSets();
    CollectedFromOne(sp, Threaded());
  }

  lemma HandleStays()
    ensures HandleIs(Changed(Before().(configs := [Taken()]), Threaded()).special, Some(Handle(9)))
  {
    hide LowLatency, AfterLowLatencyCheck, Typed, Held, Taken, Threaded, HandleIs;
    HandleTyped();
    HandleFound(Changed(Begun(), Typed()).special);
    HandleKept(Before().special, Some(Handle(9)));
  }

  lemma HandlePassed(st: State, c: Config)
    requires st.libs == [] && st.impls == [] && st.implIdxNext == 0 && st.uidNext == 0 && !st.windows
             && st.needFullQuery
    requires st.configs == [c] && st.lowLatency == LowLatency([c])
    requires (forall k | IsSet(c, k) :: OnlySession(k)) && !IsSet(c, SPECIAL_HANDLE)
    requires IsSet(c, SPECIAL_HANDLE_TYPE) && c[SPECIAL_HANDLE_TYPE].data == Num(5)
    requires st.special.deviceHandle == Some(Handle(9)) && st.special.dxgiAdapterIdx.None?
    ensures Allowed(st, CreateSession(0, ErrNone, TheEnv()))
    ensures var request := Step(st, CreateSession(0, ErrNone, TheEnv())).0.request;
            request.Some? && request.value.setHandle == Some((5, Handle(9)))
  {
    hide Refresh, Passes, LowLatency, AfterLowLatencyCheck, AfterValidate;
    SessionPropsPass(c, TheData(0, 0), st.special);
    FirstRefresh(st);
    CollectedFromOne(st.special, c);
    var now := Refresh(st, TheEnv()).1;
    assert now.impls[0].validImplIdx == 0;
    assert FindIndex(now.impls, 0) == 0;
  }

  // ---- handles lost and modules loaded twice ----------------------------------------------------------------

  // A runtime hands over one description and a null pointer: the library is dropped, and the
  // description is never given back.
  lemma DescriptionLost() returns (ss: seq<State>, calls: seq<Call>)
    ensures LoaderRun(ss, calls, false) && |calls| == 1
    ensures var t := AfterUnload(ss[1]).trace; Times(t, HandOver(0, HANDLE)) == Times(t, Release(0, HANDLE)) + 1
  {
    hide Step, AfterUnload, Times, Lost, LibsLost;
    var descs := [Some(Ref(HANDLE, TheDesc())), None];
    var env := OneFile(OneRuntime(descs));
    calls := [Enumerate(0, ImplDescStructure, env)];
    var s0 := InitialState(false);
    ss := [s0, Step(s0, calls[0]).1];
    LostHere(s0, descs);
    FinalAccounts(ss, calls, false, 0, HANDLE);
    assert Queries(s0, calls[0]) && LostUpTo(ss, calls, 0, 0, HANDLE) == 0;
  }

  lemma LostHere(st: State, descs: seq<Option<Ref<ImplDesc>>>)
    requires st.libs == [] && !st.windows && st.uidNext == 0 && descs == [Some(Ref(HANDLE, TheDesc())), None]
    ensures var env := OneFile(OneRuntime(descs)); LibsLost(Asked(st, env), env, 0, HANDLE) == 1
  {
    hide CheckLibs, BuildList;
    LibraryAsked(st, descs);
    var env, rt := OneFile(OneRuntime(descs)), OneRuntime(descs);
    assert env.runtime(FILE) == rt && rt.descs.value[1].None?;
    assert [TheLib(0)][..0] == [] && LibsLost([], env, 0, HANDLE) == 0;
    assert descs[..1] == [descs[0]] && descs[..1][..0] == [];
    assert Occurrences(descs[..1], HANDLE) == 1;
    assert Lost(rt, HANDLE) == Occurrences(descs, HANDLE);
  }

  // A runtime has nothing to offer at the first query; it stays listed, and the second query loads its
  // module again. The module is closed once.
  lemma ModuleLoadedTwice() returns (ss: seq<State>, calls: seq<Call>)
    ensures LoaderRun(ss, calls, false) && |calls| == 2
    ensures var t := AfterUnload(ss[2]).trace; Times(t, Load(0)) == Times(t, Close(0)) + 1
  {
    hide Step, AfterUnload, Times, Holding, LoaderRun, OneFile, Reloaded, LostUpTo;
    var env := OneFile(OneRuntime([]));
    var ask := Enumerate(0, ImplDescStructure, env);
    var s0 := InitialState(false);
    var s1 := Step(s0, ask).1;
    RunStart();
    RunAppend([s0], [], ask);
    RunAppend([s0] + [s1], [] + [ask], ask);
    ss, calls := [s0] + [s1] + [Step(s1, ask).1], [] + [ask] + [ask];
    StaysListed(s0);
    TwoQueries(ss, calls);
    HeldOnce();
    FinalAccounts(ss, calls, false, 0, 0);
  }

  lemma TwoQueries(ss: seq<State>, calls: seq<Call>)
    requires IsRun(ss, calls) && |calls| == 2 && Queries(ss[0], calls[0]) && Queries(ss[1], calls[1])
    ensures Reloaded(ss, calls, 2, 0) == Holding(ss[0].libs, 0) + Holding(ss[1].libs, 0)
  {
    hide Step, Allowed, Holding;
    assert Reloaded(ss, calls, 1, 0) == Reloaded(ss, calls, 0, 0) + Holding(ss[0].libs, 0);
  }

  lemma HeldOnce()
    ensures Holding([TheLib(0)], 0) == 1 && Holding([], 0) == 0
  {
    assert [TheLib(0)][..0] == [];
  }

  lemma StaysListed(st: State)
    requires st.libs == [] && st.impls == [] && !st.windows && st.uidNext == 0 && st.needFullQuery
    ensures var r := Step(st, Enumerate(0, ImplDescStructure, OneFile(OneRuntime([])))).1;
            r.libs == [TheLib(0)] && r.needFullQuery
  {
    hide CheckLibs, BuildList, QueryCaps, UpdateValid;
    var env := OneFile(OneRuntime([]));
    LibraryAsked(st, []);
    NothingOffered(CheckLibs(BuildList(st.(lowLatency := false), env), env));
  }

  lemma NothingOffered(st: State)
    requires st.libs == [TheLib(0)] && st.impls == []
    ensures var r := QueryCaps(st, OneFile(OneRuntime([])));
            r.libs == [TheLib(0)] && r.impls == [] && r.needFullQuery == st.needFullQuery
  {
    hide Prioritize;
    var env, rt, lib := OneFile(OneRuntime([])), OneRuntime([]), TheLib(0);
    var q0 := Query([], [], st.implIdxNext, st.trace);
    assert [lib][..0] == [] && QueryLibs(q0, [], env) == q0 && env.runtime(FILE) == rt;
    var d := q0.(trace := q0.trace + HandOverEvents(0, rt));
    assert AddVpl(d, lib, rt, 0) == d;
    var q := QueryLibs(q0, [lib], env);
    assert q == QueryLib(q0, lib, rt) && q.impls == [] && q.libs == [lib];
    NothingPrioritized(st.priorityPath);
  }

  lemma NothingPrioritized(priorityPath: bool)
    ensures Prioritize([], priorityPath) == []
  {
    assert Order<Impl>([], InfoOf, priorityPath) == [];
  }
}
