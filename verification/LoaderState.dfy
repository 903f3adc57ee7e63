// The loader as a state machine on values: what each operation does to the library list, the
// implementation list, the flags and the special configuration. The classes of module Loader
// are proved to implement these functions, and module Runs proves theorems about whole runs.
module LoaderState {
  import opened Config
  import opened DeviceId
  import opened Filters
  import opened ImplOrder
  import opened PropNames
  import opened Special
  import opened StableSort
  import opened VplTypes

  // ---- libraries and the outside world ------------------------------------------------------------

  const NUM_VPL_FUNCTIONS := 13
  const NUM_MSDK_FUNCTIONS := 2
  const IDX_MFX_INITIALIZE := 5
  const MAX_NUM_IMPL_MSDK := 4

  // uid stands for the identity of the LibInfo object; loaded means hModuleVPL is not null.
  datatype Lib = Lib(
    uid: nat, name: string, priority: nat, libType: LibType,
    loaded: bool, table: FunctionTable, msdkVersion: u32)

  // Which of the VPL functions have been found.
  type FunctionTable = t: seq<bool> | |t| == NUM_VPL_FUNCTIONS witness seq(NUM_VPL_FUNCTIONS, i => false)

  // A non-null pointer handed out by a runtime, with what it points to.
  datatype Ref<T> = Ref(address: Address, target: T)
  type Address = a: nat | a != 0 witness 1

  datatype MsdkAdapter = MsdkAdapter(desc: Ref<ImplDesc>, funcs: Ref<seq<string>>, ext: Option<Ref<ExtDeviceID>>)

  // How a library file answers when it is loaded and queried. A null array is None.
  datatype Runtime = Runtime(
    loads: bool,
    exports: FunctionTable,
    msdkExports: nat,
    msdkVersion: Option<u32>,
    descs: Option<seq<Option<Ref<ImplDesc>>>>,
    funcs: Option<seq<Option<Ref<seq<string>>>>>,
    exts: Option<seq<Option<Ref<ExtDeviceID>>>>,
    adapters: AdapterTable)

  type AdapterTable = t: seq<Option<MsdkAdapter>> | |t| == MAX_NUM_IMPL_MSDK witness seq(MAX_NUM_IMPL_MSDK, i => None)

  datatype Candidate = Candidate(name: string, priority: nat)
  type OtherCandidate = c: Candidate | c.priority != LIB_PRIORITY_SPECIAL witness Candidate("", 1)

  // One search of the file system, and the runtimes it finds. The directories of the priority
  // path come first; every other search location has a priority of its own.
  datatype Environment = Environment(
    priorityPathDirs: seq<seq<string>>,
    others: seq<OtherCandidate>,
    runtime: string -> Runtime,
    again: Answers)

  // What runtimes answer when asked again for the description of an implementation that has none:
  // for the VPL entry at a position of the list, and for the legacy one at each attempt. None is a
  // failed query, or a null pointer.
  datatype Answers = Answers(vpl: nat -> Option<ImplDesc>, legacy: (nat, nat) -> Option<ImplDesc>)

  function At<T>(o: Option<seq<Option<Ref<T>>>>, i: nat): Option<Ref<T>> {
    if o.Some? && i < |o.value| then o.value[i] else None
  }

  function Target<T>(o: Option<Ref<T>>): Option<T> { if o.Some? then Some(o.value.target) else None }
  function AddressOf<T>(o: Option<Ref<T>>): nat { if o.Some? then o.value.address else 0 }

  // Calls that leave the dispatcher, and handles that enter it.
  datatype Event =
    | Load(uid: nat)                   // the operating system loads the module of library uid
    | Close(uid: nat)                  // ... and is told once that it is no longer needed
    | HandOver(uid: nat, handle: nat)  // a VPL runtime hands out a capability handle
    | Attach(uid: nat, handle: nat)    // the handle is stored in an implementation
    | Release(uid: nat, handle: nat)   // MFXReleaseImplDescription of library uid
    | Unload(uid: nat)                 // LibInfo deleted

  datatype State = State(
    libs: seq<Lib>, uidNext: nat,
    impls: seq<Impl>, implIdxNext: nat,
    configs: seq<Config>, special: SpecialConfig,
    lowLatency: bool, needUpdateValidImpls: bool, needFullQuery: bool, priorityPath: bool,
    windows: bool,
    trace: seq<Event>)

  function InitialState(windows: bool): State {
    State([], 0, [], 0, [], NO_SPECIAL, false, true, true, false, windows, [])
  }

  // ---- BuildListOfCandidateLibs ---------------------------------------------------------------------

  predicate Listed(libs: seq<Lib>, name: string) { exists k | 0 <= k < |libs| :: libs[k].name == name }

  function NewLib(uid: nat, c: Candidate): Lib {
    Lib(uid, c.name, c.priority, LibTypeUnknown, false, seq(NUM_VPL_FUNCTIONS, i => false), 0)
  }

  // A candidate already in the list under its full path is skipped.
  function AddCandidate(st: State, c: Candidate): State {
    if Listed(st.libs, c.name) then st
    else st.(libs := st.libs + [NewLib(st.uidNext, c)], uidNext := st.uidNext + 1)
  }

  function AddCandidates(st: State, cs: seq<Candidate>): State {
    if cs == [] then st else AddCandidate(AddCandidates(st, cs[..|cs| - 1]), cs[|cs| - 1])
  }

  function Concat(dirs: seq<seq<string>>): seq<string> {
    if dirs == [] then [] else Concat(dirs[..|dirs| - 1]) + dirs[|dirs| - 1]
  }

  function CandidatesOf(env: Environment): seq<Candidate> {
    var first := Concat(env.priorityPathDirs);
    seq(|first|, i requires 0 <= i < |first| => Candidate(first[i], LIB_PRIORITY_SPECIAL)) + env.others
  }

  function BuildList(st: State, env: Environment): State {
    AddCandidates(st, CandidatesOf(env)).(priorityPath := st.priorityPath || env.priorityPathDirs != [])
  }

  // ---- CheckValidLibraries ------------------------------------------------------------------------------

  const MSDK_LIB_NAME := "libmfxhw64."

  predicate Occurs(part: string, s: string) {
    part <= s || (s != "" && Occurs(part, s[1..]))
  }

  // Load one library and look up its functions; None when it is not a usable runtime.
  function Probe(lib: Lib, rt: Runtime, windows: bool): Option<Lib>
  {
    var l := lib.(loaded := rt.loads,
                  table := seq(NUM_VPL_FUNCTIONS, i requires 0 <= i < NUM_VPL_FUNCTIONS =>
                                 lib.table[i] || (rt.loads && rt.exports[i])));
    if l.table[IDX_MFX_INITIALIZE] && l.priority < LIB_PRIORITY_LEGACY_DRIVERSTORE then Some(l.(libType := LibTypeVPL))
    else if rt.loads && Occurs(MSDK_LIB_NAME, l.name) && rt.msdkExports == NUM_MSDK_FUNCTIONS
            && rt.msdkVersion.Some? then
      var v := VersionOf(rt.msdkVersion.value);
      // old runtimes are unloaded again on Windows, to be loaded anew by each session
      var unload := windows && v.major == 1 && v.minor <= 27;
      Some(l.(libType := LibTypeMSDK, msdkVersion := rt.msdkVersion.value, loaded := !unload))
    else None
  }

  function ProbeAll(libs: seq<Lib>, env: Environment, windows: bool): seq<Lib>
  {
    if libs == [] then [] else
      var lib := libs[|libs| - 1];
      var p := Probe(lib, env.runtime(lib.name), windows);
      ProbeAll(libs[..|libs| - 1], env, windows) + (if p.Some? then [p.value] else [])
  }

  // UnloadSingleLibrary: close the module, if there is one, and delete the object.
  function CloseEvents(l: Lib): seq<Event> { (if l.loaded then [Close(l.uid)] else []) + [Unload(l.uid)] }

  // What probing one library does: load it, and close it again if it is unusable or too old to keep.
  function LoadEvents(lib: Lib, rt: Runtime, windows: bool): seq<Event> {
    var p := Probe(lib, rt, windows);
    (if rt.loads then [Load(lib.uid)] else [])
    + (if p.None? then CloseEvents(lib.(loaded := rt.loads))
       else if rt.loads && !p.value.loaded then [Close(lib.uid)] else [])
  }

  function ProbeEvents(libs: seq<Lib>, env: Environment, windows: bool): seq<Event>
  {
    if libs == [] then [] else
      var lib := libs[|libs| - 1];
      ProbeEvents(libs[..|libs| - 1], env, windows) + LoadEvents(lib, env.runtime(lib.name), windows)
  }

  // The first library of greatest version among the legacy ones (of the driver store only, if ds).
  function BestMsdk(libs: seq<Lib>, ds: bool): Option<Lib> {
    if libs == [] then None else
      var b := BestMsdk(libs[..|libs| - 1], ds);
      var l := libs[|libs| - 1];
      if l.libType == LibTypeMSDK && (ds ==> l.priority == LIB_PRIORITY_LEGACY_DRIVERSTORE)
         && (b.None? || l.msdkVersion > b.value.msdkVersion) then Some(l) else b
  }

  function ChosenMsdk(libs: seq<Lib>): Option<Lib> {
    if BestMsdk(libs, true).Some? then BestMsdk(libs, true) else BestMsdk(libs, false)
  }

  predicate Kept(l: Lib, best: Option<Lib>) { l.libType == LibTypeMSDK ==> best.Some? && l.uid == best.value.uid }

  function Prune(libs: seq<Lib>, best: Option<Lib>): seq<Lib> {
    if libs == [] then [] else
      Prune(libs[..|libs| - 1], best) + (if Kept(libs[|libs| - 1], best) then [libs[|libs| - 1]] else [])
  }

  function PruneEvents(libs: seq<Lib>, best: Option<Lib>): seq<Event> {
    if libs == [] then [] else
      PruneEvents(libs[..|libs| - 1], best)
      + (if Kept(libs[|libs| - 1], best) then [] else CloseEvents(libs[|libs| - 1]))
  }

  function CheckLibs(st: State, env: Environment): State
  {
    var probed := ProbeAll(st.libs, env, st.windows);
    var best := ChosenMsdk(probed);
    st.(libs := Prune(probed, best),
        trace := st.trace + ProbeEvents(st.libs, env, st.windows) + PruneEvents(probed, best))
  }

  // ---- QueryLibraryCaps -----------------------------------------------------------------------------------

  // The API version in which each function of the table appeared.
  function FunctionVersion(i: nat): u32 { if i <= IDX_MFX_INITIALIZE then 0x2_0000 else 0x2_0001 }

  // ValidateAPIExports: every function the reported version calls for is there.
  predicate ExportsComplete(table: seq<bool>, v: Version) {
    forall i | 0 <= i < |table| :: FunctionVersion(i) <= v.Number() ==> table[i]
  }

  function DescsOk(rt: Runtime): bool {
    rt.descs.Some? && forall i | 0 <= i < |rt.descs.value| :: rt.descs.value[i].Some?
  }

  function VplData(lib: Lib, rt: Runtime, i: nat, id: nat): ImplData
    requires DescsOk(rt) && i < |rt.descs.value|
  {
    var desc := rt.descs.value[i].value;
    ImplData(id, lib.uid, lib.priority, lib.libType,
             Caps(desc.target, Target(At(rt.funcs, i)), Target(At(rt.exts, i))),
             Handles(desc.address, AddressOf(At(rt.funcs, i)), AddressOf(At(rt.exts, i))), i, 0)
  }

  function MsdkData(lib: Lib, a: MsdkAdapter, i: nat, id: nat): ImplData {
    ImplData(id, lib.uid, lib.priority, lib.libType,
             Caps(a.desc.target, Some(a.funcs.target), Target(a.ext)),
             Handles(a.desc.address, a.funcs.address, AddressOf(a.ext)), 0, i)
  }

  function NewImpl(d: ImplData): Impl { Impl(d, UNKNOWN_ID, d.id) }

  // The handles of one implementation that its runtime must get back.
  function HandleList(h: Handles): seq<nat> {
    (if h.desc != 0 then [h.desc] else []) + (if h.funcs != 0 then [h.funcs] else [])
    + (if h.ext != 0 then [h.ext] else [])
  }

  function AttachEvents(d: ImplData): seq<Event> {
    var h := HandleList(d.handles);
    seq(|h|, i requires 0 <= i < |h| => Attach(d.libUid, h[i]))
  }

  // UnloadSingleImplementation: VPL handles go back to their runtime, MSDK ones belong to the loader.
  function ReleaseEvents(d: ImplData): seq<Event> {
    var h := if d.libType == LibTypeVPL then HandleList(d.handles) else [];
    seq(|h|, i requires 0 <= i < |h| => Release(d.libUid, h[i]))
  }

  // The parts of the state that querying one library changes.
  datatype Query = Query(libs: seq<Lib>, impls: seq<Impl>, next: nat, trace: seq<Event>)

  // The implementation a VPL runtime reports at position i.
  function AddVplOne(q: Query, lib: Lib, rt: Runtime, i: nat): Query
    requires DescsOk(rt) && i < |rt.descs.value|
  {
    var d := VplData(lib, rt, i, q.next);
    var attached := q.trace + AttachEvents(d);
    if ExportsComplete(lib.table, d.caps.desc.apiVersion)
    then q.(impls := q.impls + [NewImpl(d)], next := q.next + 1, trace := attached)
    else q.(trace := attached + ReleaseEvents(d))
  }

  function AddVpl(q: Query, lib: Lib, rt: Runtime, n: nat): Query
    requires DescsOk(rt) && n <= |rt.descs.value|
  {
    if n == 0 then q else AddVplOne(AddVpl(q, lib, rt, n - 1), lib, rt, n - 1)
  }

  // The implementation a legacy library has on adapter i, if it supports that adapter.
  function AddMsdkOne(q: Query, lib: Lib, rt: Runtime, i: nat): Query
    requires i < MAX_NUM_IMPL_MSDK
  {
    if rt.adapters[i].None? then q
    else q.(impls := q.impls + [NewImpl(MsdkData(lib, rt.adapters[i].value, i, q.next))], next := q.next + 1)
  }

  function AddMsdk(q: Query, lib: Lib, rt: Runtime, n: nat): Query
    requires n <= MAX_NUM_IMPL_MSDK
  {
    if n == 0 then q else AddMsdkOne(AddMsdk(q, lib, rt, n - 1), lib, rt, n - 1)
  }

  // The handles in an array a runtime hands out, from its first entry on.
  function HandOverAll<T>(uid: nat, s: seq<Option<Ref<T>>>): seq<Event> {
    if s == [] then [] else
      HandOverAll(uid, s[..|s| - 1]) + (if s[|s| - 1].Some? then [HandOver(uid, s[|s| - 1].value.address)] else [])
  }

  function ArrayOf<T>(o: Option<seq<T>>): seq<T> { if o.Some? then o.value else [] }

  // The descriptions are asked for first; the other arrays only when those are in order.
  function HandOverEvents(uid: nat, rt: Runtime): seq<Event> {
    HandOverAll(uid, ArrayOf(rt.descs))
    + (if DescsOk(rt) then HandOverAll(uid, ArrayOf(rt.exts)) + HandOverAll(uid, ArrayOf(rt.funcs)) else [])
  }

  function DropLib(q: Query, lib: Lib): Query { q.(trace := q.trace + CloseEvents(lib)) }
  function KeepLib(q: Query, lib: Lib): Query { q.(libs := q.libs + [lib]) }

  function QueryLib(q: Query, lib: Lib, rt: Runtime): Query
  {
    if lib.libType == LibTypeVPL then
      var d := q.(trace := q.trace + HandOverEvents(lib.uid, rt));
      if DescsOk(rt) then KeepLib(AddVpl(d, lib, rt, |rt.descs.value|), lib) else DropLib(d, lib)
    else if lib.libType == LibTypeMSDK then
      var p := AddMsdk(q, lib, rt, MAX_NUM_IMPL_MSDK);
      if p.next == q.next then DropLib(p, lib) else KeepLib(p, lib)
    else KeepLib(q, lib)
  }

  function QueryLibs(q: Query, libs: seq<Lib>, env: Environment): Query
  {
    if libs == [] then q
    else QueryLib(QueryLibs(q, libs[..|libs| - 1], env), libs[|libs| - 1], env.runtime(libs[|libs| - 1].name))
  }

  // IsValidX86GPU, with the adapter index it parses.
  function X86Adapter(v: Impl): Option<u32> {
    var d := v.info.caps.desc;
    var id := ParseDeviceIDx86(d.dev.deviceID);
    if v.Valid() && d.vendorID == VENDOR_INTEL && d.impl == IMPL_TYPE_HARDWARE && id.ok
    then Some(id.adapterIdx) else None
  }

  predicate IsHardwareVpl(d: ImplData) { d.libType == LibTypeVPL && d.caps.desc.impl == IMPL_TYPE_HARDWARE }

  // A hardware VPL implementation for the same device is in the list.
  predicate Superseded(d: ImplData, all: seq<Impl>) {
    exists k | 0 <= k < |all| ::
      IsHardwareVpl(all[k].info) && all[k].info.caps.desc.dev.deviceID == d.caps.desc.dev.deviceID
  }

  // The pass over the list after all libraries have been queried.
  function PostProcess(v: Impl, all: seq<Impl>, d3d9: bool): Impl {
    var a := X86Adapter(v);
    var w := if a.Some? then v.(adapterIdx := a.value) else v;
    if w.info.libType == LibTypeMSDK
       && ((Superseded(w.info, all) && !d3d9) || w.info.caps.desc.apiVersion == Version(1, 255))
    then w.(validImplIdx := -1) else w
  }

  function PostProcessAll(s: seq<Impl>, all: seq<Impl>, d3d9: bool): (r: seq<Impl>)
    ensures |r| == |s| && forall i | 0 <= i < |s| :: r[i] == PostProcess(s[i], all, d3d9)
  {
    seq(|s|, i requires 0 <= i < |s| => PostProcess(s[i], all, d3d9))
  }

  predicate D3D9Requested(sp: SpecialConfig) { sp.accelerationMode == Some(ACCEL_MODE_VIA_D3D9) }

  // All capabilities, queried outside low latency mode.
  function QueryCaps(st: State, env: Environment): State
  {
    var q := QueryLibs(Query([], st.impls, st.implIdxNext, st.trace), st.libs, env);
    st.(libs := q.libs, implIdxNext := q.next, trace := q.trace,
        impls := Prioritize(PostProcessAll(q.impls, q.impls, D3D9Requested(st.special)), st.priorityPath))
  }

  function FullLoadAndQuery(st: State, env: Environment): (Status, State)
  {
    var checked := CheckLibs(BuildList(st.(lowLatency := false), env), env);
    if checked.libs == [] then (ErrUnsupported, checked) else
      var queried := QueryCaps(checked, env);
      if queried.impls == [] then (ErrNotFound, queried)
      else (ErrNone, queried.(needFullQuery := false, needUpdateValidImpls := true))
  }

  // ---- UpdateValidImplList ------------------------------------------------------------------------------------

  // Whether an implementation supports everything the configurations ask for.
  ghost predicate Passes(d: ImplData, adapterIdx: u32, cs: seq<Config>, sp: SpecialConfig) {
    var dxgi := Overlay(sp, cs).dxgiAdapterIdx;
    Accepts(d.caps, cs, d.libType) && (dxgi.Some? ==> dxgi.value == adapterIdx)
  }

  // Re-evaluating the special configuration changes nothing that matters for validity.
  lemma PassesAfterValidate(d: ImplData, adapterIdx: u32, cs: seq<Config>, sp: SpecialConfig)
    ensures Passes(d, adapterIdx, cs, AfterValidate(sp, cs)) <==> Passes(d, adapterIdx, cs, sp)
  {}

  ghost function Recheck(v: Impl, cs: seq<Config>, sp: SpecialConfig): Impl {
    if v.validImplIdx == -1 || Passes(v.info, v.adapterIdx, cs, sp) then v else v.(validImplIdx := -1)
  }

  ghost function RecheckAll(s: seq<Impl>, cs: seq<Config>, sp: SpecialConfig): (r: seq<Impl>)
    ensures |r| == |s| && forall i | 0 <= i < |s| :: r[i] == Recheck(s[i], cs, sp)
  {
    seq(|s|, i requires 0 <= i < |s| => Recheck(s[i], cs, sp))
  }

  predicate AnyValid(s: seq<Impl>) { exists i | 0 <= i < |s| :: s[i].validImplIdx != -1 }

  ghost function UpdateValid(st: State): State {
    st.(impls := Prioritize(RecheckAll(st.impls, st.configs, st.special), st.priorityPath),
        special := if AnyValid(st.impls) then AfterValidate(st.special, st.configs) else st.special,
        needUpdateValidImpls := false)
  }

  // ---- the entry points -------------------------------------------------------------------------------------------

  // Reading an unsigned index as the signed number it is compared with.
  function SignedIndex(i: u32): int { if i < 0x8000_0000 then i else i - 0x1_0000_0000 }

  function FindIndex(s: seq<Impl>, k: int): (r: int)
    ensures -1 <= r < |s|
    ensures r >= 0 ==> s[r].validImplIdx == k && forall j | 0 <= j < r :: s[j].validImplIdx != k
    ensures r == -1 ==> forall j | 0 <= j < |s| :: s[j].validImplIdx != k
  {
    if s == [] then -1
    else if s[0].validImplIdx == k then 0
    else
      var r := FindIndex(s[1..], k);
      assert forall j | 1 <= j < |s| :: s[j] == s[1..][j - 1];
      if r == -1 then -1 else r + 1
  }

  datatype Format = ImplDescStructure | ImplementedFunctions | ImplPath | DeviceIDExtended | OtherFormat

  // The handle MFXEnumImplementations delivers: null, one of the runtime's, or the path buffer that
  // belongs to a library.
  datatype Delivered = Nothing | HandleOf(address: Address) | PathOf(uid: nat)

  function Deliver(v: Impl, f: Format): Delivered {
    var address := if f == ImplDescStructure then v.info.handles.desc
                   else if f == ImplementedFunctions then v.info.handles.funcs
                   else if f == DeviceIDExtended then v.info.handles.ext
                   else 0;
    if f == ImplPath then PathOf(v.info.libUid) else if address != 0 then HandleOf(address) else Nothing
  }

  // An extension buffer passed to the runtime: the thread count, or one from a configuration.
  datatype SessionBuffer = ThreadsParam(numThread: u16) | FromConfig(data: Data)

  // The adapter a legacy runtime is asked for: the one found by the query, by its D3D9 or its D3D11
  // number, or in low latency mode an entry of the fixed table.
  datatype LegacyAdapter = NotLegacy | OfQuery(msdkImplIdx: nat, d3d9: bool) | FromTable(adapter: u32)

  // What a session is initialised with.
  datatype SessionRequest = SessionRequest(
    impl: ImplData, accelerationMode: u32, vendorImplID: u32, legacyAdapter: LegacyAdapter,
    numExtParam: u16, extParam: seq<SessionBuffer>, setHandle: Option<(u32, Data)>)

  function SessionBuffers(sp: SpecialConfig): (r: seq<SessionBuffer>) {
    var n := |sp.extBuffers|;
    (if sp.numThread.Some? then [ThreadsParam(sp.numThread.value % 0x1_0000)] else [])
    + seq(n, i requires 0 <= i < n => FromConfig(sp.extBuffers[i]))
  }

  function NonNull(d: Data): bool { !(d.Handle? && d.address == 0) }

  function AdapterFor(d: ImplData, accelerationMode: u32, sp: SpecialConfig, low: bool): LegacyAdapter {
    if d.libType != LibTypeMSDK then NotLegacy
    else if low && sp.dxgiAdapterIdx.Some? then FromTable(sp.dxgiAdapterIdx.value)
    else OfQuery(d.msdkImplIdx, accelerationMode == ACCEL_MODE_VIA_D3D9)
  }

  // low: whether low latency mode is on, where no implementation has been filtered out.
  function RequestFor(v: Impl, sp: SpecialConfig, low: bool): SessionRequest {
    var bufs := SessionBuffers(sp);
    var desc := v.info.caps.desc;
    var accelerationMode := if sp.accelerationMode.Some? then sp.accelerationMode.value else desc.accelerationMode;
    SessionRequest(
      v.info,
      accelerationMode,
      if low && sp.dxgiAdapterIdx.Some? && v.info.libType == LibTypeVPL
      then sp.dxgiAdapterIdx.value else desc.vendorImplID,
      AdapterFor(v.info, accelerationMode, sp, low),
      |bufs| % 0x1_0000,
      if |bufs| % 0x1_0000 == 0 then [] else bufs,
      if sp.deviceHandleType.Some? && sp.deviceHandle.Some?
         && sp.deviceHandleType.value != 0 && NonNull(sp.deviceHandle.value)
      then Some((sp.deviceHandleType.value, sp.deviceHandle.value)) else None)
  }

  // The checks that low latency mode makes up for: the API version asked for, and the adapter range.
  predicate RefusedInLowLatency(v: Impl, sp: SpecialConfig) {
    || (sp.apiVersion.Some? && v.info.caps.desc.apiVersion.Number() < sp.apiVersion.value.Number())
    || (sp.dxgiAdapterIdx.Some? && v.info.libType == LibTypeMSDK && sp.dxgiAdapterIdx.value >= MAX_NUM_IMPL_MSDK)
  }

  datatype Call =
    | CreateConfig
    | SetProperty(config: nat, name: Option<string>, value: Variant)
    | Enumerate(i: u32, format: Format, env: Environment)
    | CreateSession(i: u32, session: Status, env: Environment)  // session: what the runtime answers
    | ReleaseDescription(handle: Delivered)

  // What a call returns to the application.
  datatype Reply = Reply(sts: Status, delivered: Delivered, request: Option<SessionRequest>)

  function Plain(sts: Status): Reply { Reply(sts, Nothing, None) }

  // Bring the list up to date: a full query if none has succeeded yet, then the valid list.
  ghost function Refresh(st: State, env: Environment): (Status, State)
  {
    var (sts, queried) := if st.needFullQuery then FullLoadAndQuery(st, env) else (ErrNone, st);
    if sts != ErrNone then (ErrNotFound, queried)
    else (ErrNone, if queried.needUpdateValidImpls then UpdateValid(queried) else queried)
  }

  function ReplyToEnumerate(s: seq<Impl>, i: u32, f: Format): Reply {
    var k := FindIndex(s, SignedIndex(i));
    if k == -1 then Plain(ErrNotFound) else
      var d := Deliver(s[k], f);
      Reply(if d.Nothing? then ErrUnsupported else ErrNone, d, None)
  }

  function ReplyToCreateSession(s: seq<Impl>, i: u32, sp: SpecialConfig, low: bool, session: Status): Reply {
    var k := FindIndex(s, SignedIndex(i));
    if k == -1 || (low && RefusedInLowLatency(s[k], sp)) then Plain(ErrNotFound)
    else Reply(session, Nothing, Some(RequestFor(s[k], sp, low)))
  }

  predicate Holds(v: Impl, handle: Delivered) {
    var h := v.info.handles;
    match handle
    case Nothing => false
    case HandleOf(a) => h.desc == a || h.funcs == a || h.ext == a
    case PathOf(u) => v.info.libUid == u
  }

  ghost function SetStep(st: State, k: nat, name: Option<string>, v: Variant): (Reply, State) {
    if k >= |st.configs| then (Plain(ErrNullPtr), st) else
      var (sts, c) := AfterSet(st.configs[k], name, v, st.windows);
      var cs := st.configs[k := c];
      if sts != ErrNone then (Plain(sts), st.(configs := cs))
      else (Plain(ErrNone), st.(configs := cs, needUpdateValidImpls := true, lowLatency := LowLatency(cs),
                                special := AfterLowLatencyCheck(st.special, cs)))
  }

  ghost function EnumerateStep(st: State, i: u32, f: Format, env: Environment): (Reply, State) {
    var (sts, now) := Refresh(st, env);
    if sts != ErrNone then (Plain(ErrNotFound), now) else (ReplyToEnumerate(now.impls, i, f), now)
  }

  ghost function CreateSessionStep(st: State, i: u32, session: Status, env: Environment): (Reply, State) {
    var (sts, now) := Refresh(st, env);
    if sts != ErrNone then (Plain(ErrNotFound), now)
    else (ReplyToCreateSession(now.impls, i, now.special, false, session), now)
  }

  function ReleaseStatus(s: seq<Impl>, h: Delivered): Status {
    if h == Nothing then ErrNullPtr
    else if exists k | 0 <= k < |s| :: Holds(s[k], h) then ErrNone
    else ErrInvalidHandle
  }

  // One call of the application, outside low latency sessions.
  ghost function Step(st: State, call: Call): (Reply, State) {
    match call
    case CreateConfig => (Plain(ErrNone), st.(configs := st.configs + [EmptyConfig()]))
    case SetProperty(k, name, v) => SetStep(st, k, name, v)
    case Enumerate(i, f, env) => EnumerateStep(st, i, f, env)
    case CreateSession(i, session, env) => CreateSessionStep(st, i, session, env)
    case ReleaseDescription(h) => (Plain(ReleaseStatus(st.impls, h)), st)
  }

  // MFXUnload: every implementation, then every library.
  function ReleaseAll(s: seq<Impl>): seq<Event> {
    if s == [] then [] else ReleaseAll(s[..|s| - 1]) + ReleaseEvents(s[|s| - 1].info)
  }

  function UnloadAll(libs: seq<Lib>): seq<Event> {
    if libs == [] then [] else UnloadAll(libs[..|libs| - 1]) + CloseEvents(libs[|libs| - 1])
  }

  function AfterUnload(st: State): State {
    st.(impls := [], libs := [], implIdxNext := 0, trace := st.trace + ReleaseAll(st.impls) + UnloadAll(st.libs))
  }
}
