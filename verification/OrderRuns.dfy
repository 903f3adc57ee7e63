// In which order the application sees the implementations, in every state of every run.
module OrderRuns {
  import opened Accounts
  import opened HandleTrace
  import opened ImplOrder
  import opened LibChoice
  import opened LibUse
  import opened LoaderInvariant
  import opened LoaderState
  import opened Origins
  import opened QueryRuns
  import opened Runs
  import opened StableSort
  import opened VplTypes

  // ---- the priority path --------------------------------------------------------------------------------

  // Some full query up to state k was given directories by the priority path variable.
  ghost predicate PathGiven(ss: seq<State>, calls: seq<Call>, k: nat)
    requires IsRun(ss, calls) && k < |ss|
  {
    exists j :: 0 <= j < k && GivesPath(ss[j], calls[j])
  }

  ghost predicate GivesPath(st: State, call: Call) { Queries(st, call) && call.env.priorityPathDirs != [] }

  lemma QueryFlag(st: State, env: Environment)
    ensures FullLoadAndQuery(st, env).1.priorityPath == (st.priorityPath || env.priorityPathDirs != [])
  {
    hide ProbeAll, Prune, ProbeEvents, PruneEvents, ChosenMsdk, QueryLibs, Prioritize, PostProcessAll;
    AddCandidatesFrame(st.(lowLatency := false), CandidatesOf(env));
  }

  lemma StepFlag(st: State, call: Call)
    ensures Step(st, call).1.priorityPath == (st.priorityPath || GivesPath(st, call))
  {
    hide FullLoadAndQuery, RecheckAll, Prioritize, ReplyToEnumerate, ReplyToCreateSession;
    if call.Enumerate? || call.CreateSession? { QueryFlag(st, call.env); }
  }

  // The loader prefers the priority path exactly if it was ever given one.
  lemma {:induction false} PriorityPathExactly(ss: seq<State>, calls: seq<Call>, windows: bool, k: nat)
    requires LoaderRun(ss, calls, windows) && k < |ss|
    ensures ss[k].priorityPath <==> PathGiven(ss, calls, k)
  {
    hide Step, Allowed, GivesPath;
    if k > 0 {
      PriorityPathExactly(ss, calls, windows, k - 1);
      StepFlag(ss[k - 1], calls[k - 1]);
      if j :| 0 <= j < k - 1 && GivesPath(ss[j], calls[j]) { assert 0 <= j < k; }
    }
  }

  // A library keeps the priority of the location it was first found in, which is 0 for the directories
  // of the priority path and not 0 for all others.
  ghost predicate PriorityKept(l: Lib, before: seq<Lib>, env: Environment) {
    if Listed(before, l.name)
    then exists o :: o in before && o.name == l.name && o.priority == l.priority
    else if InDirs(l.name, env.priorityPathDirs) then l.priority == 0
    else l.priority != 0 && exists k: nat :: FirstOther(env.others, k, l.name) && l.priority == env.others[k].priority
  }

  lemma BuiltDistinct(st: State, env: Environment)
    requires LibsTraceOk(st) && st.impls == []
    ensures DistinctLibs(BuildList(st, env).libs)
  {
    hide CandidatesOf;
    AddCandidatesOk(st, CandidatesOf(env));
  }

  lemma BuiltPriority(st: State, env: Environment, j: nat)
    requires DistinctNames(st.libs) && j < |BuildList(st, env).libs|
    ensures PriorityKept(BuildList(st, env).libs[j], st.libs, env)
  {
    hide BuildList, InDirs, FirstOther;
    SearchLists(st, env);
    var libs := BuildList(st, env).libs;
    if j < |st.libs| { assert libs[j] == st.libs[j]; }
  }

  // The libraries a full query asks are those found, at their priorities.
  lemma AskedPriority(ss: seq<State>, calls: seq<Call>, windows: bool, k: nat, l: Lib)
    requires LoaderRun(ss, calls, windows) && k < |calls| && Queries(ss[k], calls[k])
    requires l in Asked(ss[k], calls[k].env)
    ensures PriorityKept(l, ss[k].libs, calls[k].env)
  {
    hide Step, Allowed, BuildList, CheckLibs, ListOk, ValidPass, NumbersCurrent, OnlySettable, PriorityKept, KeptFor;
    hide DistinctNames, UsableVpl, UsableLegacy, Wins;
    Reachable(ss, calls, windows, k);
    ListedOnce(ss, calls, windows, k);
    var st, env := ss[k].(lowLatency := false), calls[k].env;
    var built := BuildList(st, env);
    BuiltDistinct(st, env);
    LibrariesUsed(built, env);
    var from: seq<nat> :| UsedFrom(from, CheckLibs(built, env).libs, built, env);
    var a :| 0 <= a < |from| && CheckLibs(built, env).libs[a] == l;
    BuiltPriority(st, env, from[a]);
    KeptPriority(l, built.libs[from[a]], env.runtime(built.libs[from[a]].name), built.windows, st.libs, env);
  }

  lemma KeptPriority(m: Lib, l: Lib, rt: Runtime, windows: bool, before: seq<Lib>, env: Environment)
    requires KeptFor(m, l, rt, windows) && PriorityKept(l, before, env)
    ensures PriorityKept(m, before, env)
  {
    hide UsableVpl, UsableLegacy, InDirs, FirstOther;
  }

  // ---- the order ------------------------------------------------------------------------------------------

  // Entries of the priority path come first, in the order in which they were found, if there is one.
  // Then: the greater Impl (hardware is 2, software 1), general hardware before HDDL (mode 0x0500), the
  // greater API version, the better search location, and what was found first.
  ghost predicate Precedes(a: ImplData, b: ImplData, priorityPath: bool) {
    var x, y := a.caps.desc, b.caps.desc;
    if priorityPath && (a.libPriority == 0 || b.libPriority == 0)
    then a.libPriority == 0 && (b.libPriority == 0 ==> a.id < b.id)
    else if x.impl != y.impl then x.impl > y.impl
    else if (x.accelerationMode == 0x0500) != (y.accelerationMode == 0x0500) then y.accelerationMode == 0x0500
    else if x.apiVersion.major != y.apiVersion.major then x.apiVersion.major > y.apiVersion.major
    else if x.apiVersion.minor != y.apiVersion.minor then x.apiVersion.minor > y.apiVersion.minor
    else if a.libPriority != b.libPriority then a.libPriority < b.libPriority
    else a.id < b.id
  }

  ghost predicate InOrderOf(s: seq<Impl>, priorityPath: bool) {
    forall d, e | 0 <= d < e < |s| :: Precedes(s[d].info, s[e].info, priorityPath)
  }

  lemma PrecedesOneWay(a: ImplData, b: ImplData, priorityPath: bool)
    requires Precedes(a, b, priorityPath)
    ensures !Precedes(b, a, priorityPath)
  {}

  ghost predicate IdsGrow(s: seq<Impl>) { forall i, j | 0 <= i < j < |s| :: s[i].info.id < s[j].info.id }

  lemma EarlierId(s: seq<Impl>, a: Impl, b: Impl)
    requires IdsGrow(s) && Earlier(s, a, b)
    ensures a.info.id < b.info.id
  {
    var i, j :| i < j && ImplOrder.At(s, i, a) && ImplOrder.At(s, j, b);
  }

  lemma ComesMeansPrecedes(s: seq<Impl>, priorityPath: bool, a: Impl, b: Impl)
    requires IdsGrow(s) && ComesBefore(s, priorityPath, a, b)
    ensures Precedes(a.info, b.info, priorityPath)
  {
    hide IdsGrow, Earlier;
    if Earlier(s, a, b) { EarlierId(s, a, b); }
    var x, y := a.info.caps.desc.apiVersion, b.info.caps.desc.apiVersion;
    assert x.Number() > y.Number() <==> x.major > y.major || (x.major == y.major && x.minor > y.minor);
  }

  lemma PrioritizedInOrder(s: seq<Impl>, priorityPath: bool)
    requires IdsGrow(s)
    ensures InOrderOf(Prioritize(s, priorityPath), priorityPath)
  {
    hide Order, ComesBefore, Precedes, CountValid;
    var o, t := Order(s, InfoOf, priorityPath), Prioritize(s, priorityPath);
    OrderIsInOrder(s, priorityPath);
    forall d, e | 0 <= d < e < |t| ensures Precedes(t[d].info, t[e].info, priorityPath) {
      assert OrderIn(s, priorityPath)(o[d], o[e]);
      ComesMeansPrecedes(s, priorityPath, o[d], o[e]);
    }
  }

  lemma HeldIdsGrow(from: seq<Place>, s: seq<Impl>, libs: seq<Lib>, env: Environment, first: nat)
    requires Hold(from, s, libs, env, first)
    ensures IdsGrow(s)
  {
    hide HeldAt, Before;
  }

  lemma QueryCapsInOrder(st: State, env: Environment)
    requires st.impls == []
    ensures InOrderOf(QueryCaps(st, env).impls, st.priorityPath)
  {
    hide QueryLibs, Prioritize, PostProcess, Hold, Complete, InOrderOf, IdsGrow;
    var q0 := Query([], [], st.implIdxNext, st.trace);
    var from := QueriedOffers(q0, st.libs, env);
    var s := QueryLibs(q0, st.libs, env).impls;
    var p := PostProcessAll(s, s, D3D9Requested(st.special));
    PostKeepsData(s, D3D9Requested(st.special));
    HoldSameData(from, s, p, st.libs, env, q0.next);
    HeldIdsGrow(from, p, st.libs, env, q0.next);
    PrioritizedInOrder(p, st.priorityPath);
  }

  lemma FullQueryInOrder(st: State, env: Environment)
    requires Inv(st) && st.needFullQuery && FullLoadAndQuery(st, env).0 == ErrNone
    ensures var r := FullLoadAndQuery(st, env).1; InOrderOf(r.impls, r.priorityPath)
  {
    hide CheckLibs, BuildList, QueryLibs, PostProcessAll, InOrderOf, ListOk, Prioritize;
    hide LibsTraceOk, ValidPass, NumbersCurrent, OnlySettable;
    var st0 := st.(lowLatency := false);
    SearchKeeps(st0, env);
    QueryCapsInOrder(CheckLibs(BuildList(st0, env), env), env);
  }

  lemma InOrderSame(s: seq<Impl>, t: seq<Impl>, priorityPath: bool)
    requires InOrderOf(s, priorityPath) && SameEntries(s, t)
    ensures InOrderOf(t, priorityPath)
  {
    hide Precedes;
  }

  lemma {:induction false} RunInOrder(ss: seq<State>, calls: seq<Call>, windows: bool, k: nat)
    requires LoaderRun(ss, calls, windows) && k < |ss|
    ensures InOrderOf(ss[k].impls, ss[k].priorityPath)
  {
    hide Step, Allowed, Inv, FullLoadAndQuery, UpdateValid, InOrderOf, GivesPath;
    if k == 0 {
      EmptyInOrder(ss[0].priorityPath);
    } else {
      RunInOrder(ss, calls, windows, k - 1);
      Reachable(ss, calls, windows, k - 1);
      StepInOrder(ss[k - 1], calls[k - 1]);
    }
  }

  lemma EmptyInOrder(priorityPath: bool)
    ensures InOrderOf([], priorityPath)
  {}

  lemma StepInOrder(st: State, call: Call)
    requires Inv(st) && Allowed(st, call) && InOrderOf(st.impls, st.priorityPath)
    ensures var r := Step(st, call).1; InOrderOf(r.impls, r.priorityPath)
  {
    hide Step, Allowed, ListOk, LibsTraceOk, ValidPass, NumbersCurrent, OnlySettable, FullLoadAndQuery, UpdateValid;
    hide InOrderOf;
    var r := Step(st, call).1;
    StepFlag(st, call);
    if !st.needFullQuery {
      StepSurvivors(st, call);
      InOrderSame(st.impls, r.impls, st.priorityPath);
    } else if !r.needFullQuery {
      QueryingCall(st, call);
      var queried := FullLoadAndQuery(st, call.env).1;
      FullQueryInOrder(st, call.env);
      QueriedListOk(st, call.env);
      UpdateEntries(queried);
      InOrderSame(queried.impls, r.impls, queried.priorityPath);
      UpdateKeepsFlag(queried);
    } else {
      StepInv(st, call);
      EmptyInOrder(r.priorityPath);
    }
  }

  lemma UpdateKeepsFlag(st: State)
    ensures UpdateValid(st).priorityPath == st.priorityPath
  {}

  // In every state, of two valid implementations the one that precedes the other has the smaller index.
  lemma IndexOrder(ss: seq<State>, calls: seq<Call>, windows: bool, k: nat, d: nat, e: nat)
    requires LoaderRun(ss, calls, windows) && k < |ss|
    requires d < |ss[k].impls| && e < |ss[k].impls| && d != e && ss[k].impls[d].Valid() && ss[k].impls[e].Valid()
    ensures var v, w := ss[k].impls[d], ss[k].impls[e];
            v.validImplIdx < w.validImplIdx <==> Precedes(v.info, w.info, PathGiven(ss, calls, k))
  {
    hide Step, Allowed, Inv, Precedes, PathGiven;
    RunInOrder(ss, calls, windows, k);
    PriorityPathExactly(ss, calls, windows, k);
    IndexBijection(ss, calls, windows, k);
    var s := ss[k].impls;
    if e < d { PrecedesOneWay(s[e].info, s[d].info, ss[k].priorityPath); }
  }

  // Once a priority path was given, what was found in its directories comes before everything else.
  lemma PriorityPathFirst(ss: seq<State>, calls: seq<Call>, windows: bool, k: nat, d: nat, e: nat)
    requires LoaderRun(ss, calls, windows) && k < |ss| && PathGiven(ss, calls, k)
    requires d < |ss[k].impls| && e < |ss[k].impls| && ss[k].impls[d].Valid() && ss[k].impls[e].Valid()
    requires ss[k].impls[d].info.libPriority == 0 && ss[k].impls[e].info.libPriority != 0
    ensures ss[k].impls[d].validImplIdx < ss[k].impls[e].validImplIdx
  {
    hide Step, Allowed, PathGiven;
    IndexOrder(ss, calls, windows, k, d, e);
  }
}
