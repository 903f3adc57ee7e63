// A run in which the application enumerates a legacy implementation.
module LegacyRun {
  import opened Config
  import opened Filters
  import opened FindingRuns
  import opened ImplOrder
  import opened LibUse
  import opened LoaderState
  import opened PropNames
  import opened Runs
  import opened Special
  import opened StableSort
  import opened VplTypes

  const LEGACY_FILE := "/opt/intel/mediasdk/lib/" + "libmfxhw64." + "so.1"
  const LEGACY_PRIORITY := 10001
  const VERSION_1_35: u32 := 0x1_0023

  function Nothing13(): FunctionTable { seq(NUM_VPL_FUNCTIONS, i => false) }

  function LegacyDesc(): ImplDesc {
    ImplDesc(0x0102, IMPL_TYPE_HARDWARE, 0, Version(1, 35), "", "", "", 0, 0, DeviceDesc(0x0101, 0, ""),
             [], [], [], [], [])
  }

  function FirstAdapter(): AdapterTable {
    [Some(MsdkAdapter(Ref(1, LegacyDesc()), Ref(2, []), None)), None, None, None]
  }

  // It exports nothing of a VPL runtime, both functions of a legacy one, and has one adapter.
  function LegacyRuntime(): Runtime {
    Runtime(true, Nothing13(), 2, Some(VERSION_1_35), None, None, None, FirstAdapter())
  }

  function LegacyEnv(): Environment {
    Environment([], [Candidate(LEGACY_FILE, LEGACY_PRIORITY)], (name: string) => LegacyRuntime(),
                Answers(NoAnswer, NoAttempt))
  }

  function LegacyLib(): Lib {
    Lib(0, LEGACY_FILE, LEGACY_PRIORITY, LibTypeMSDK, true, Nothing13(), VERSION_1_35)
  }

  lemma NameFits()
    ensures Occurs(MSDK_LIB_NAME, LEGACY_FILE)
  {
    hide Occurs;
    OccursWithin(MSDK_LIB_NAME, LEGACY_FILE);
    assert LEGACY_FILE == "/opt/intel/mediasdk/lib/" + MSDK_LIB_NAME + "so.1";
  }

  lemma SearchFindsLegacy(st: State)
    requires st.libs == []
    ensures BuildList(st, LegacyEnv()) ==
            st.(libs := [NewLib(st.uidNext, Candidate(LEGACY_FILE, LEGACY_PRIORITY))], uidNext := st.uidNext + 1)
  {
    var cs := CandidatesOf(LegacyEnv());
    assert cs == [Candidate(LEGACY_FILE, LEGACY_PRIORITY)];
    assert AddCandidates(st, cs[..0]) == st;
    assert cs[..|cs| - 1] == cs[..0];
  }

  lemma LegacyProbed()
    ensures ProbeAll([NewLib(0, Candidate(LEGACY_FILE, LEGACY_PRIORITY))], LegacyEnv(), false) == [LegacyLib()]
  {
    hide Occurs;
    NameFits();
    var l := NewLib(0, Candidate(LEGACY_FILE, LEGACY_PRIORITY));
    assert seq(NUM_VPL_FUNCTIONS, i requires 0 <= i < NUM_VPL_FUNCTIONS =>
                 l.table[i] || (LegacyRuntime().loads && LegacyRuntime().exports[i])) == Nothing13();
    assert Probe(l, LegacyRuntime(), false) == Some(LegacyLib());
    hide Probe;
    assert [l][..0] == [];
  }

  lemma LegacyChosen()
    ensures Prune([LegacyLib()], ChosenMsdk([LegacyLib()])) == [LegacyLib()]
  {
    assert [LegacyLib()][..0] == [];
    assert BestMsdk([LegacyLib()], true) == None && BestMsdk([LegacyLib()], false) == Some(LegacyLib());
  }

  lemma LegacyKept(st: State)
    requires st.libs == [] && st.uidNext == 0 && !st.windows
    ensures var r := CheckLibs(BuildList(st, LegacyEnv()), LegacyEnv());
            r == st.(libs := [LegacyLib()], uidNext := 1, trace := r.trace)
  {
    hide ProbeAll, Prune, ChosenMsdk, ProbeEvents, PruneEvents, BuildList, LegacyLib, LegacyEnv, NewLib;
    SearchFindsLegacy(st);
    LegacyProbed();
    LegacyChosen();
  }

  function LegacyImpl(): Impl {
    Impl(ImplData(0, 0, LEGACY_PRIORITY, LibTypeMSDK, Caps(LegacyDesc(), Some([]), None), Handles(1, 2, 0), 0, 0),
         UNKNOWN_ID, 0)
  }

  lemma LegacyQueried(st: State)
    requires st.libs == [LegacyLib()] && st.impls == [] && st.implIdxNext == 0
    ensures var r := QueryCaps(st, LegacyEnv());
            r == st.(impls := [LegacyImpl()], implIdxNext := 1, trace := r.trace)
  {
    hide Prioritize;
    var rt, lib := LegacyRuntime(), LegacyLib();
    var q0 := Query([], [], 0, st.trace);
    assert [lib][..0] == [] && QueryLibs(q0, [], LegacyEnv()) == q0;
    assert MsdkData(lib, rt.adapters[0].value, 0, 0) == LegacyImpl().info;
    assert AddMsdk(q0, lib, rt, 1) == AddMsdkOne(q0, lib, rt, 0);
    var q1 := AddMsdk(q0, lib, rt, 1);
    assert AddMsdk(q0, lib, rt, 2) == q1 && AddMsdk(q0, lib, rt, 3) == q1 && AddMsdk(q0, lib, rt, 4) == q1;
    assert q1.impls == [LegacyImpl()];
    NoAdapter(LegacyImpl());
    assert !Superseded(LegacyImpl().info, [LegacyImpl()]);
    assert PostProcessAll(q1.impls, q1.impls, D3D9Requested(st.special)) == q1.impls;
    LonePrioritized(LegacyImpl(), st.priorityPath);
  }

  lemma AcceptedByNone(v: Impl, sp: SpecialConfig)
    requires sp.dxgiAdapterIdx.None?
    ensures Passes(v.info, v.adapterIdx, [], sp)
  {}

  lemma LegacyRefreshed()
    ensures var (sts, r) := Refresh(InitialState(false), LegacyEnv());
            sts == ErrNone && r.impls == [LegacyImpl()] && !r.needFullQuery
  {
    hide CheckLibs, BuildList, QueryCaps, Passes, Prioritize, AfterValidate;
    var st := InitialState(false);
    LegacyKept(st);
    var checked := CheckLibs(BuildList(st, LegacyEnv()), LegacyEnv());
    LegacyQueried(checked);
    var queried := FullLoadAndQuery(st, LegacyEnv()).1;
    AcceptedByNone(LegacyImpl(), st.special);
    assert RecheckAll(queried.impls, queried.configs, queried.special) == [LegacyImpl()];
    LonePrioritized(LegacyImpl(), queried.priorityPath);
  }

  // On Linux, a file with the name of a legacy runtime that exports both its functions and reports 1.35
  // is loaded, and its implementation is what index 0 means.
  lemma LegacyEnumerated() returns (ss: seq<State>, calls: seq<Call>)
    ensures LoaderRun(ss, calls, false) && |calls| == 1
    ensures calls[0] == Enumerate(0, ImplDescStructure, LegacyEnv())
    ensures Step(ss[0], calls[0]).0 == Reply(ErrNone, HandleOf(1), None)
    ensures |ss[1].impls| == 1 && ss[1].impls[0].info.libType == LibTypeMSDK && ss[1].impls[0].Valid()
  {
    hide Refresh, LoaderRun;
    var call := Enumerate(0, ImplDescStructure, LegacyEnv());
    RunStart();
    RunAppend([InitialState(false)], [], call);
    ss, calls := [InitialState(false)] + [Step(InitialState(false), call).1], [] + [call];
    LegacyRefreshed();
    assert FindIndex([LegacyImpl()], 0) == 0;
  }
}
