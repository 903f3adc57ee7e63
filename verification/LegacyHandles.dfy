// Handles of legacy implementations belong to the loader: no runtime ever sees them again.
module LegacyHandles {
  import opened HandleTrace
  import opened ImplOrder
  import opened LoaderInvariant
  import opened LoaderState
  import opened Runs
  import opened StableSort
  import opened VplTypes

  // What makes CheckValidLibraries take a library for a VPL one. Neither part is ever undone.
  predicate VplLib(l: Lib) { l.table[IDX_MFX_INITIALIZE] && l.priority < LIB_PRIORITY_LEGACY_DRIVERSTORE }

  ghost predicate KindsMatch(libs: seq<Lib>) { forall l | l in libs :: l.libType == LibTypeVPL <==> VplLib(l) }

  // Handles have been attached only on behalf of libraries that are VPL ones, or are gone.
  ghost predicate AttachOk(trace: seq<Event>, libs: seq<Lib>, next: nat) {
    forall u: nat, h: nat | Attach(u, h) in trace :: u < next && forall l | l in libs && l.uid == u :: VplLib(l)
  }

  ghost predicate LegacyOk(trace: seq<Event>, impls: seq<Impl>) {
    forall v, h: nat | v in impls && v.info.libType == LibTypeMSDK :: Attach(v.info.libUid, h) !in trace
  }

  ghost predicate KindInv(st: State) { AttachOk(st.trace, st.libs, st.uidNext) && LegacyOk(st.trace, st.impls) }

  // ---- finding the libraries -----------------------------------------------------------------------

  lemma {:induction false} AddCandidatesKinds(st: State, cs: seq<Candidate>)
    requires AttachOk(st.trace, st.libs, st.uidNext)
    ensures var r := AddCandidates(st, cs); AttachOk(r.trace, r.libs, r.uidNext) && r.trace == st.trace
  {
    if cs != [] { AddCandidatesKinds(st, cs[..|cs| - 1]); }
  }

  lemma {:induction false} ProbedFrom(libs: seq<Lib>, env: Environment, windows: bool, p: Lib)
    requires p in ProbeAll(libs, env, windows)
    ensures p.libType == LibTypeVPL <==> VplLib(p)
    ensures exists l :: l in libs && l.uid == p.uid && (VplLib(l) ==> VplLib(p))
  {
    var l, before := libs[|libs| - 1], libs[..|libs| - 1];
    if p in ProbeAll(before, env, windows) {
      ProbedFrom(before, env, windows, p);
    } else {
      assert Probe(l, env.runtime(l.name), windows) == Some(p);
    }
  }

  lemma {:induction false} PrunedFrom(libs: seq<Lib>, best: Option<Lib>, l: Lib)
    ensures l in Prune(libs, best) ==> l in libs
  {
    if libs != [] { PrunedFrom(libs[..|libs| - 1], best, l); }
  }

  lemma {:induction false} ProbeAttachesNothing(libs: seq<Lib>, env: Environment, windows: bool, best: Option<Lib>,
                                                e: Event)
    ensures e in ProbeEvents(libs, env, windows) || e in PruneEvents(libs, best) ==> !e.Attach?
  {
    if libs != [] { ProbeAttachesNothing(libs[..|libs| - 1], env, windows, best, e); }
  }

  lemma CheckLibsKinds(st: State, env: Environment)
    requires AttachOk(st.trace, st.libs, st.uidNext)
    ensures var r := CheckLibs(st, env); AttachOk(r.trace, r.libs, r.uidNext) && KindsMatch(r.libs)
  {
    var r, probed := CheckLibs(st, env), ProbeAll(st.libs, env, st.windows);
    var best := ChosenMsdk(probed);
    forall l | l in r.libs
      ensures l.libType == LibTypeVPL <==> VplLib(l)
      ensures exists o :: o in st.libs && o.uid == l.uid && (VplLib(o) ==> VplLib(l))
    {
      PrunedFrom(probed, best, l);
      ProbedFrom(st.libs, env, st.windows, l);
    }
    forall u: nat, h: nat | Attach(u, h) in r.trace ensures Attach(u, h) in st.trace {
      ProbeAttachesNothing(st.libs, env, st.windows, best, Attach(u, h));
      ProbeAttachesNothing(probed, env, st.windows, best, Attach(u, h));
    }
  }

  // ---- querying them ----------------------------------------------------------------------------------

  // While the libraries libs are being queried: legacy implementations come from legacy libraries.
  ghost predicate QueryKinds(q: Query, libs: seq<Lib>, next: nat) {
    && AttachOk(q.trace, libs, next)
    && (forall v | v in q.impls && v.info.libType == LibTypeMSDK ::
          exists l :: l in libs && l.uid == v.info.libUid && !VplLib(l))
    && forall l | l in q.libs :: l in libs
  }

  lemma VplOneKinds(q: Query, lib: Lib, rt: Runtime, i: nat, libs: seq<Lib>, next: nat)
    requires QueryKinds(q, libs, next) && DistinctLibs(libs)
    requires lib in libs && lib.uid < next && VplLib(lib) && lib.libType == LibTypeVPL
    requires DescsOk(rt) && i < |rt.descs.value|
    ensures QueryKinds(AddVplOne(q, lib, rt, i), libs, next)
  {
    hide ExportsComplete, VplLib;
    var r := AddVplOne(q, lib, rt, i);
    forall u: nat, h: nat | Attach(u, h) in r.trace
      ensures u < next && forall l | l in libs && l.uid == u :: VplLib(l)
    {
      if Attach(u, h) !in q.trace { assert u == lib.uid; }
    }
  }

  lemma {:induction false} AddVplKinds(q: Query, lib: Lib, rt: Runtime, n: nat, libs: seq<Lib>, next: nat)
    requires QueryKinds(q, libs, next) && DistinctLibs(libs)
    requires lib in libs && lib.uid < next && VplLib(lib) && lib.libType == LibTypeVPL
    requires DescsOk(rt) && n <= |rt.descs.value|
    ensures QueryKinds(AddVpl(q, lib, rt, n), libs, next)
  {
    hide QueryKinds, AddVplOne, DistinctLibs, VplLib, DescsOk;
    if n > 0 {
      AddVplKinds(q, lib, rt, n - 1, libs, next);
      VplOneKinds(AddVpl(q, lib, rt, n - 1), lib, rt, n - 1, libs, next);
    }
  }

  lemma {:induction false} AddMsdkKinds(q: Query, lib: Lib, rt: Runtime, n: nat, libs: seq<Lib>, next: nat)
    requires QueryKinds(q, libs, next) && lib in libs && !VplLib(lib)
    requires n <= MAX_NUM_IMPL_MSDK
    ensures QueryKinds(AddMsdk(q, lib, rt, n), libs, next)
  {
    if n > 0 { AddMsdkKinds(q, lib, rt, n - 1, libs, next); }
  }

  lemma LibKinds(q: Query, lib: Lib, rt: Runtime, libs: seq<Lib>, next: nat)
    requires QueryKinds(q, libs, next) && DistinctLibs(libs) && KindsMatch(libs) && lib in libs && lib.uid < next
    ensures QueryKinds(QueryLib(q, lib, rt), libs, next)
  {
    hide AddVpl, AddMsdk, HandOverEvents, VplLib, DistinctLibs;
    if lib.libType == LibTypeVPL {
      HandOverNeutral(lib.uid, rt);
      var d := q.(trace := q.trace + HandOverEvents(lib.uid, rt));
      assert forall u: nat, h: nat :: Attach(u, h) in d.trace <==> Attach(u, h) in q.trace;
      if DescsOk(rt) { AddVplKinds(d, lib, rt, |rt.descs.value|, libs, next); }
    } else if lib.libType == LibTypeMSDK {
      AddMsdkKinds(q, lib, rt, MAX_NUM_IMPL_MSDK, libs, next);
    }
  }

  lemma {:induction false} QueryLibsKinds(q: Query, libs: seq<Lib>, n: nat, env: Environment, next: nat)
    requires QueryKinds(q, libs, next) && n <= |libs| && DistinctLibs(libs) && KindsMatch(libs)
    requires forall l | l in libs :: l.uid < next
    ensures QueryKinds(QueryLibs(q, libs[..n], env), libs, next)
  {
    hide QueryKinds, QueryLib, DistinctLibs, KindsMatch;
    if n == 0 {
      assert libs[..0] == [];
    } else {
      QueryLibsKinds(q, libs, n - 1, env, next);
      var before, lib := libs[..n][..n - 1], libs[n - 1];
      assert before == libs[..n - 1] && lib in libs;
      LibKinds(QueryLibs(q, before, env), lib, env.runtime(lib.name), libs, next);
    }
  }

  lemma PrioritizedFrom(s: seq<Impl>, priorityPath: bool, v: Impl)
    requires v in Prioritize(s, priorityPath)
    ensures exists w :: w in s && w.info == v.info
  {
    var o := Order(s, InfoOf, priorityPath);
    OrderPermutes(s, InfoOf, priorityPath);
    var k :| 0 <= k < |o| && Renumber(o)[k] == v;
    assert o[k] in multiset(o) && o[k].info == v.info;
  }

  lemma QueryCapsKinds(st: State, env: Environment)
    requires AttachOk(st.trace, st.libs, st.uidNext) && KindsMatch(st.libs) && LibsTraceOk(st) && st.impls == []
    ensures KindInv(QueryCaps(st, env))
  {
    hide Prioritize, QueryLibs, Superseded;
    var r, q0 := QueryCaps(st, env), Query([], [], st.implIdxNext, st.trace);
    var q := QueryLibs(q0, st.libs, env);
    assert st.libs[..|st.libs|] == st.libs;
    UidsBelowNext(st);
    QueryLibsKinds(q0, st.libs, |st.libs|, env, st.uidNext);
    forall v, h: nat | v in r.impls && v.info.libType == LibTypeMSDK ensures Attach(v.info.libUid, h) !in r.trace {
      var post := PostProcessAll(q.impls, q.impls, D3D9Requested(st.special));
      PrioritizedFrom(post, st.priorityPath, v);
      var k :| 0 <= k < |post| && post[k].info == v.info;
      assert q.impls[k] in q.impls && q.impls[k].info == v.info;
    }
  }

  lemma UidsBelowNext(st: State)
    requires LibsTraceOk(st)
    ensures forall l | l in st.libs :: l.uid < st.uidNext
  {
    forall l | l in st.libs ensures l.uid < st.uidNext {
      var k :| 0 <= k < |st.libs| && st.libs[k] == l;
      assert st.libs[k].uid in Uids(st.libs);
    }
  }

  lemma FullQueryKinds(st: State, env: Environment)
    requires KindInv(st) && LibsTraceOk(st) && st.impls == []
    ensures KindInv(FullLoadAndQuery(st, env).1)
  {
    hide LibsTraceOk, AttachOk, CheckLibs, QueryCaps;
    var st0 := st.(lowLatency := false);
    AddCandidatesKinds(st0, CandidatesOf(env));
    AddCandidatesFrame(st0, CandidatesOf(env));
    var built := BuildList(st0, env);
    SearchOk(st, env);
    CheckLibsKinds(built, env);
    CheckLibsOk(built, env);
    var checked := CheckLibs(built, env);
    NoImpls(built, env);
    if checked.libs != [] { QueryCapsKinds(checked, env); }
  }

  lemma SearchOk(st: State, env: Environment)
    requires LibsTraceOk(st) && st.impls == []
    ensures LibsTraceOk(BuildList(st.(lowLatency := false), env))
  {
    AddCandidatesOk(st.(lowLatency := false), CandidatesOf(env));
  }

  lemma NoImpls(st: State, env: Environment)
    requires st.impls == []
    ensures var r := CheckLibs(st, env); r.impls == [] && r.uidNext == st.uidNext
  {}

  // ---- whole runs ------------------------------------------------------------------------------------------

  lemma UpdateKinds(st: State)
    requires ListOk(st) && KindInv(st)
    ensures KindInv(UpdateValid(st))
  {
    var r := UpdateValid(st);
    UpdateEntries(st);
    forall v, h: nat | v in r.impls && v.info.libType == LibTypeMSDK ensures Attach(v.info.libUid, h) !in r.trace {
      var k :| 0 <= k < |r.impls| && r.impls[k] == v;
      assert st.impls[k] in st.impls && st.impls[k].info == v.info;
    }
  }

  lemma StepKinds(st: State, call: Call)
    requires Inv(st) && Allowed(st, call) && KindInv(st)
    ensures KindInv(Step(st, call).1)
  {
    hide Inv, Refresh, ReplyToEnumerate, ReplyToCreateSession, AttachOk, LegacyOk;
    if call.Enumerate? || call.CreateSession? {
      RefreshKinds(st, call.env);
    }
  }

  lemma RefreshKinds(st: State, env: Environment)
    requires Inv(st) && KindInv(st)
    ensures KindInv(Refresh(st, env).1)
  {
    hide KindInv, LibsTraceOk, FullLoadAndQuery, UpdateValid, Order, Numbered;
    if st.needFullQuery {
      FullQueryKinds(st, env);
      FullQueryList(st, env);
      var (sts, queried) := FullLoadAndQuery(st, env);
      if sts == ErrNone { UpdateKinds(queried); }
    } else if st.needUpdateValidImpls {
      UpdateKinds(st);
    }
  }

  lemma {:induction false} RunKinds(ss: seq<State>, calls: seq<Call>, windows: bool, k: nat)
    requires LoaderRun(ss, calls, windows) && k < |ss|
    ensures KindInv(ss[k])
  {
    if k > 0 {
      RunKinds(ss, calls, windows, k - 1);
      Reachable(ss, calls, windows, k - 1);
      StepKinds(ss[k - 1], calls[k - 1]);
    }
  }

  lemma {:induction false} ReleasesAttachNothing(s: seq<Impl>, libs: seq<Lib>, e: Event)
    ensures e in ReleaseAll(s) || e in UnloadAll(libs) ==> !e.Attach?
    decreases |s| + |libs|
  {
    if s != [] {
      ReleasesAttachNothing(s[..|s| - 1], libs, e);
    } else if libs != [] {
      ReleasesAttachNothing(s, libs[..|libs| - 1], e);
    }
    if libs != [] && s != [] { ReleasesAttachNothing([], libs, e); }
  }

  // In no run, up to and including MFXUnload, is anything passed to the release function of the
  // library of a legacy implementation.
  lemma LegacyNeverReleased(ss: seq<State>, calls: seq<Call>, windows: bool, v: Impl, h: nat)
    requires LoaderRun(ss, calls, windows)
    requires v in ss[|calls|].impls && v.info.libType == LibTypeMSDK
    ensures Release(v.info.libUid, h) !in AfterUnload(ss[|calls|]).trace
  {
    var end := ss[|calls|];
    var t, u := AfterUnload(end).trace, v.info.libUid;
    RunKinds(ss, calls, windows, |calls|);
    ReleasesAttachNothing(end.impls, end.libs, Attach(u, h));
    HandlesConserved(ss, calls, windows);
    assert Attach(u, h) !in multiset(t);
    assert multiset(t)[Release(u, h)] == 0;
  }
}
