// What a full query leaves behind, in every run: which entries the list has, which of them are valid,
// and what the application is given for each, in terms of what files and runtimes answered.
module QueryRuns {
  import opened Accounts
  import opened Config
  import opened DeviceId
  import opened Filters
  import opened HandleTrace
  import opened ImplOrder
  import opened LoaderInvariant
  import opened LoaderState
  import opened Origins
  import opened PropNames
  import opened Runs
  import opened Special
  import opened StableSort
  import opened VplTypes

  // ---- the entries -----------------------------------------------------------------------------------

  // Entry e holds the offer at from[e]. Identities follow the order in which the offers were found.
  ghost predicate Placed(from: seq<Place>, s: seq<Impl>, libs: seq<Lib>, env: Environment) {
    && |from| == |s|
    && (forall e | 0 <= e < |s| :: HeldAt(s[e].info, libs, env, from[e].lib, from[e].pos))
    && (forall d, e | 0 <= d < |s| && 0 <= e < |s| && d != e ::
          s[d].info.id < s[e].info.id <==> Before(from[d], from[e]))
    && Complete(from, libs, env)
  }

  // t has the entries of s, with the same data, rearranged and possibly renumbered.
  ghost predicate Rearranged(t: seq<Impl>, s: seq<Impl>) {
    && |t| == |s|
    && (forall e | 0 <= e < |t| :: HasTwin(t[e], s)) && forall x | 0 <= x < |s| :: HasTwin(s[x], t)
  }

  ghost predicate HasTwin(v: Impl, s: seq<Impl>) { exists x :: 0 <= x < |s| && SameEntry(s[x], v) }

  ghost predicate SameEntry(v: Impl, w: Impl) {
    v.info == w.info && v.adapterIdx == w.adapterIdx && (v.Valid() <==> w.Valid())
  }

  lemma RenumberSame(o: seq<Impl>)
    ensures |Renumber(o)| == |o| && forall e | 0 <= e < |o| :: SameEntry(Renumber(o)[e], o[e])
  {
    hide CountValid;
  }

  lemma SameElements(o: seq<Impl>, s: seq<Impl>)
    requires multiset(o) == multiset(s)
    ensures |o| == |s| && forall v :: v in o <==> v in s
  {
    assert |multiset(o)| == |o| && |multiset(s)| == |s|;
    forall v ensures v in o <==> v in s {
      assert v in o <==> v in multiset(o);
      assert v in s <==> v in multiset(s);
    }
  }

  lemma TwinAt(v: Impl, s: seq<Impl>, x: nat)
    requires x < |s| && SameEntry(s[x], v)
    ensures HasTwin(v, s)
  {}

  lemma PrioritizeRearranges(s: seq<Impl>, priorityPath: bool)
    ensures Rearranged(Prioritize(s, priorityPath), s)
  {
    hide Order, Renumber, HasTwin;
    var o, t := Order(s, InfoOf, priorityPath), Prioritize(s, priorityPath);
    OrderPermutes(s, InfoOf, priorityPath);
    SameElements(o, s);
    RenumberSame(o);
    forall e | 0 <= e < |t| ensures HasTwin(t[e], s) {
      assert o[e] in s;
      var x :| 0 <= x < |s| && s[x] == o[e];
      TwinAt(t[e], s, x);
    }
    forall x | 0 <= x < |s| ensures HasTwin(s[x], t) {
      assert s[x] in o;
      var e :| 0 <= e < |o| && o[e] == s[x];
      TwinAt(s[x], t, e);
    }
  }

  // ---- the pass after a query ----------------------------------------------------------------------------

  // A legacy entry stays hidden if it was loaded through the compatibility entry point of a VPL
  // runtime, which reports 1.255, or if a hardware implementation (2) of a VPL library serves its
  // device and D3D9 is not asked for.
  ghost predicate Hidden(d: ImplData, s: seq<Impl>, d3d9: bool) {
    && d.libType == LibTypeMSDK
    && (|| (d.caps.desc.apiVersion.major == 1 && d.caps.desc.apiVersion.minor == 255)
        || (!d3d9 && exists b :: 0 <= b < |s| && Supersedes(s[b].info, d)))
  }

  ghost predicate Supersedes(w: ImplData, d: ImplData) {
    w.libType == LibTypeVPL && w.caps.desc.impl == 2 && w.caps.desc.dev.deviceID == d.caps.desc.dev.deviceID
  }

  // The adapter number: what the device id of an Intel (0x8086) hardware implementation denotes, if it
  // has the form for x86 devices, and otherwise unknown (0xFFFFFFFF).
  ghost predicate AdapterKnown(v: Impl) {
    var d := v.info.caps.desc;
    if d.vendorID == 0x8086 && d.impl == 2 && SpelledX86(d.dev.deviceID)
    then DenotesAdapter(d.dev.deviceID, v.adapterIdx) else v.adapterIdx == 0xFFFF_FFFF
  }

  lemma PostProcessMeans(v: Impl, s: seq<Impl>, d3d9: bool)
    requires v == NewImpl(v.info)
    ensures var w := PostProcess(v, s, d3d9);
            w.info == v.info && AdapterKnown(w) && (w.Valid() <==> !Hidden(v.info, s, d3d9))
  {
    hide ParseDeviceIDx86, SpelledX86, DenotesAdapter;
    ParseMeaning(v.info.caps.desc.dev.deviceID);
    assert Superseded(v.info, s) <==> exists b :: 0 <= b < |s| && Supersedes(s[b].info, v.info);
    assert v.info.caps.desc.apiVersion == Version(1, 255) <==>
           v.info.caps.desc.apiVersion.major == 1 && v.info.caps.desc.apiVersion.minor == 255;
  }

  // ---- one full query ------------------------------------------------------------------------------------

  // The list s a successful query builds from what libs offer.
  ghost predicate Built(s: seq<Impl>, libs: seq<Lib>, env: Environment, d3d9: bool) {
    && (exists from: seq<Place> :: Placed(from, s, libs, env))
    && forall e | 0 <= e < |s| :: AdapterKnown(s[e]) && (s[e].Valid() <==> !Hidden(s[e].info, s, d3d9))
  }

  // The places of a list in a new order.
  lemma PlacedAgain(from: seq<Place>, s: seq<Impl>, first: nat, t: seq<Impl>, libs: seq<Lib>, env: Environment)
    requires Hold(from, s, libs, env, first) && Complete(from, libs, env) && Rearranged(t, s) && Distinct(t)
    ensures exists to: seq<Place> :: Placed(to, t, libs, env)
  {
    hide HeldAt, Complete, HasTwin, Before, Hold, Placed;
    HoldLength(from, s, libs, env, first);
    forall e | 0 <= e < |t| ensures IndexOf(t[e], first, s) { FoundIn(t[e], from, s, first, libs, env); }
    var to := seq(|t|, e requires 0 <= e < |t| => from[t[e].info.id - first]);
    forall x | 0 <= x < |s| ensures from[x] in to {
      var e := TwinOf(s[x], t);
      HoldAt(from, s, libs, env, first, x);
      assert to[e] == from[x];
    }
    CompleteMore(from, to, libs, env);
    forall d, e | 0 <= d < |t| && 0 <= e < |t| && d != e
      ensures t[d].info.id < t[e].info.id <==> Before(to[d], to[e])
    {
      InOrder(from, s, libs, env, first, t[d].info.id - first, t[e].info.id - first);
    }
    forall e | 0 <= e < |t| ensures HeldAt(t[e].info, libs, env, to[e].lib, to[e].pos) {
      HoldAt(from, s, libs, env, first, t[e].info.id - first);
    }
    PlacedIs(to, t, libs, env);
  }

  lemma PlacedIs(to: seq<Place>, t: seq<Impl>, libs: seq<Lib>, env: Environment)
    requires |to| == |t| && Complete(to, libs, env)
    requires forall e | 0 <= e < |t| :: HeldAt(t[e].info, libs, env, to[e].lib, to[e].pos)
    requires forall d, e | 0 <= d < |t| && 0 <= e < |t| && d != e ::
               t[d].info.id < t[e].info.id <==> Before(to[d], to[e])
    ensures Placed(to, t, libs, env)
  {
    hide HeldAt, Complete, Before;
  }

  lemma HoldLength(from: seq<Place>, s: seq<Impl>, libs: seq<Lib>, env: Environment, first: nat)
    requires Hold(from, s, libs, env, first)
    ensures |from| == |s|
  {}

  lemma HoldAt(from: seq<Place>, s: seq<Impl>, libs: seq<Lib>, env: Environment, first: nat, x: nat)
    requires Hold(from, s, libs, env, first) && x < |s|
    ensures |from| == |s| && s[x].info.id == first + x && HeldAt(s[x].info, libs, env, from[x].lib, from[x].pos)
  {
    hide HeldAt, Before;
  }

  lemma TwinOf(v: Impl, s: seq<Impl>) returns (x: nat)
    requires HasTwin(v, s)
    ensures x < |s| && s[x].info == v.info
  {
    x :| x < |s| && SameEntry(s[x], v);
  }

  ghost predicate IndexOf(v: Impl, first: nat, s: seq<Impl>) {
    first <= v.info.id < first + |s| && v.info == s[v.info.id - first].info
  }

  lemma FoundIn(v: Impl, from: seq<Place>, s: seq<Impl>, first: nat, libs: seq<Lib>, env: Environment)
    requires Hold(from, s, libs, env, first) && HasTwin(v, s)
    ensures IndexOf(v, first, s)
  {
    hide Hold, HasTwin;
    var x := TwinOf(v, s);
    HoldAt(from, s, libs, env, first, x);
  }

  lemma InOrder(from: seq<Place>, s: seq<Impl>, libs: seq<Lib>, env: Environment, first: nat, a: nat, b: nat)
    requires Hold(from, s, libs, env, first) && a < |from| && b < |from| && a != b
    ensures a < b <==> Before(from[a], from[b])
  {
    hide HeldAt;
    if b < a { assert Before(from[b], from[a]); }
  }

  lemma CompleteMore(from: seq<Place>, to: seq<Place>, libs: seq<Lib>, env: Environment)
    requires Complete(from, libs, env) && forall x | 0 <= x < |from| :: from[x] in to
    ensures Complete(to, libs, env)
  {
    hide OfferAt;
  }

  ghost predicate AllNew(s: seq<Impl>) { forall x | 0 <= x < |s| :: s[x] == NewImpl(s[x].info) }

  lemma {:induction false} VplNew(q: Query, lib: Lib, rt: Runtime, n: nat)
    requires AllNew(q.impls) && DescsOk(rt) && n <= |rt.descs.value|
    ensures AllNew(AddVpl(q, lib, rt, n).impls)
  {
    if n > 0 { VplNew(q, lib, rt, n - 1); }
  }

  lemma {:induction false} MsdkNew(q: Query, lib: Lib, rt: Runtime, n: nat)
    requires AllNew(q.impls) && n <= MAX_NUM_IMPL_MSDK
    ensures AllNew(AddMsdk(q, lib, rt, n).impls)
  {
    if n > 0 { MsdkNew(q, lib, rt, n - 1); }
  }

  lemma {:induction false} QueriedNew(q: Query, libs: seq<Lib>, env: Environment)
    requires AllNew(q.impls)
    ensures AllNew(QueryLibs(q, libs, env).impls)
  {
    hide AllNew;
    if libs != [] {
      var init, lib := libs[..|libs| - 1], libs[|libs| - 1];
      var rt := env.runtime(lib.name);
      QueriedNew(q, init, env);
      var p := QueryLibs(q, init, env);
      if DescsOk(rt) { VplNew(p.(trace := p.trace + HandOverEvents(lib.uid, rt)), lib, rt, |rt.descs.value|); }
      MsdkNew(p, lib, rt, MAX_NUM_IMPL_MSDK);
    }
  }

  lemma HoldSameData(from: seq<Place>, s: seq<Impl>, t: seq<Impl>, libs: seq<Lib>, env: Environment, first: nat)
    requires Hold(from, s, libs, env, first) && |s| == |t| && forall x | 0 <= x < |s| :: s[x].info == t[x].info
    ensures Hold(from, t, libs, env, first)
  {
    hide HeldAt, Before;
  }

  lemma HiddenSame(d: ImplData, s: seq<Impl>, t: seq<Impl>, d3d9: bool)
    requires (forall x | 0 <= x < |s| :: HasTwin(s[x], t)) && forall x | 0 <= x < |t| :: HasTwin(t[x], s)
    ensures Hidden(d, s, d3d9) <==> Hidden(d, t, d3d9)
  {
    hide HasTwin, Supersedes;
    if b :| 0 <= b < |s| && Supersedes(s[b].info, d) {
      var c := TwinOf(s[b], t);
      assert Supersedes(t[c].info, d);
    }
    if b :| 0 <= b < |t| && Supersedes(t[b].info, d) {
      var c := TwinOf(t[b], s);
      assert Supersedes(s[c].info, d);
    }
  }

  // The entries of p, which are those of s after the pass, in any order.
  lemma PassBuilds(s: seq<Impl>, t: seq<Impl>, d3d9: bool)
    requires AllNew(s) && Rearranged(t, PostProcessAll(s, s, d3d9))
    ensures forall e | 0 <= e < |t| :: AdapterKnown(t[e]) && (t[e].Valid() <==> !Hidden(t[e].info, t, d3d9))
  {
    hide HasTwin, AdapterKnown, Hidden;
    var p := PostProcessAll(s, s, d3d9);
    forall x | 0 <= x < |s| ensures HasTwin(p[x], t) { assert HasTwin(p[x], t); }
    forall e | 0 <= e < |t| ensures AdapterKnown(t[e]) && (t[e].Valid() <==> !Hidden(t[e].info, t, d3d9)) {
      var x := FullTwin(t[e], p);
      PostProcessMeans(s[x], s, d3d9);
      SameAdapter(p[x], t[e]);
      HiddenSame(t[e].info, p, t, d3d9);
      HiddenSameInfos(t[e].info, s, p, d3d9);
    }
  }

  lemma FullTwin(v: Impl, s: seq<Impl>) returns (x: nat)
    requires HasTwin(v, s)
    ensures x < |s| && SameEntry(s[x], v)
  {
    x :| x < |s| && SameEntry(s[x], v);
  }

  lemma SameAdapter(v: Impl, w: Impl)
    requires SameEntry(v, w)
    ensures AdapterKnown(v) <==> AdapterKnown(w)
  {}

  lemma HiddenSameInfos(d: ImplData, s: seq<Impl>, t: seq<Impl>, d3d9: bool)
    requires |s| == |t| && forall x | 0 <= x < |s| :: s[x].info == t[x].info
    ensures Hidden(d, s, d3d9) <==> Hidden(d, t, d3d9)
  {
    hide Supersedes;
    if b :| 0 <= b < |s| && Supersedes(s[b].info, d) { assert Supersedes(t[b].info, d); }
    if b :| 0 <= b < |t| && Supersedes(t[b].info, d) { assert Supersedes(s[b].info, d); }
  }

  lemma QueryCapsBuilds(st: State, env: Environment)
    requires st.impls == [] && Distinct(QueryCaps(st, env).impls)
    ensures Built(QueryCaps(st, env).impls, st.libs, env, D3D9Requested(st.special))
  {
    hide QueryLibs, Prioritize, PostProcess, Placed, Hold, Complete, Rearranged, Hidden, AdapterKnown, Distinct;
    var libs, d3d9 := st.libs, D3D9Requested(st.special);
    var q0 := Query([], [], st.implIdxNext, st.trace);
    var from := QueriedOffers(q0, libs, env);
    QueriedNew(q0, libs, env);
    var s := QueryLibs(q0, libs, env).impls;
    var p := PostProcessAll(s, s, d3d9);
    var t := Prioritize(p, st.priorityPath);
    assert QueryCaps(st, env).impls == t;
    PrioritizeRearranges(p, st.priorityPath);
    PassBuilds(s, t, d3d9);
    PostKeepsData(s, d3d9);
    HoldSameData(from, s, p, libs, env, q0.next);
    PlacedAgain(from, p, q0.next, t, libs, env);
  }

  lemma FullQueryBuilds(st: State, env: Environment)
    requires Inv(st) && st.needFullQuery && FullLoadAndQuery(st, env).0 == ErrNone
    ensures Built(FullLoadAndQuery(st, env).1.impls, Asked(st, env), env, D3D9Requested(st.special))
  {
    hide CheckLibs, BuildList, QueryCaps, Built, Distinct, Order, Numbered;
    hide LibsTraceOk, ValidPass, NumbersCurrent, OnlySettable;
    var checked := CheckLibs(BuildList(st.(lowLatency := false), env), env);
    SearchKeeps(st.(lowLatency := false), env);
    FullQueryList(st, env);
    QueryCapsBuilds(checked, env);
  }

  lemma PostKeepsData(s: seq<Impl>, d3d9: bool)
    ensures forall x | 0 <= x < |s| :: PostProcessAll(s, s, d3d9)[x].info == s[x].info
  {
    hide X86Adapter, Superseded;
  }

  lemma SearchKeeps(st: State, env: Environment)
    ensures var r := CheckLibs(BuildList(st, env), env); r.impls == st.impls && r.special == st.special
  {
    hide ProbeAll, Prune, ProbeEvents, PruneEvents, ChosenMsdk;
    AddCandidatesFrame(st, CandidatesOf(env));
  }

  // ---- validity right after a query ------------------------------------------------------------------------

  // The call in which the full query succeeds.
  ghost predicate QueriesAt(ss: seq<State>, calls: seq<Call>, q: nat)
    requires IsRun(ss, calls)
  {
    && q < |calls| && (calls[q].Enumerate? || calls[q].CreateSession?)
    && ss[q].needFullQuery && !ss[q + 1].needFullQuery
  }

  // The entry is what the configurations ask for: the verdict on its capabilities, and the adapter.
  ghost predicate AskedFor(v: Impl, cs: seq<Config>) {
    var adapter := Last(cs, SPECIAL_DXGI_ADAPTER_INDEX);
    Accepts(v.info.caps, cs, v.info.libType) && (adapter.Some? ==> adapter.value.U32() == v.adapterIdx)
  }

  ghost predicate D3D9LastAsked(cs: seq<Config>) {
    var mode := Last(cs, MAIN_ACCELERATION_MODE);
    mode.Some? && mode.value.U32() == 0x0200
  }

  lemma PassesMeans(v: Impl, cs: seq<Config>, sp: SpecialConfig)
    requires NumbersCurrent(sp, cs)
    ensures Passes(v.info, v.adapterIdx, cs, sp) <==> AskedFor(v, cs)
    ensures D3D9Requested(sp) <==> D3D9LastAsked(cs)
  {
    hide Accepts;
  }

  lemma QueryingCall(st: State, call: Call)
    requires Inv(st) && st.needFullQuery && !Step(st, call).1.needFullQuery
    ensures call.Enumerate? || call.CreateSession?
    ensures FullLoadAndQuery(st, call.env).0 == ErrNone
    ensures var r := FullLoadAndQuery(st, call.env).1; r.needUpdateValidImpls && Step(st, call).1 == UpdateValid(r)
  {
    hide FullLoadAndQuery, UpdateValid, ListOk, LibsTraceOk, ValidPass, NumbersCurrent, OnlySettable, AfterSet;
    hide LowLatency, ReplyToEnumerate, ReplyToCreateSession;
    if call.Enumerate? || call.CreateSession? { FullQueryList(st, call.env); }
  }

  lemma HiddenSameList(d: ImplData, s: seq<Impl>, t: seq<Impl>, d3d9: bool)
    requires SameEntries(s, t)
    ensures Hidden(d, s, d3d9) <==> Hidden(d, t, d3d9)
  {
    HiddenSameInfos(d, s, t, d3d9);
  }

  lemma PlacedSame(from: seq<Place>, s: seq<Impl>, t: seq<Impl>, libs: seq<Lib>, env: Environment)
    requires Placed(from, s, libs, env) && SameEntries(s, t)
    ensures Placed(from, t, libs, env)
  {
    hide HeldAt, Before, Complete;
  }

  // Right after the call in which the full query succeeds, an entry is valid iff it is what the
  // configurations ask for and is not hidden; and its adapter number is the one its device id denotes.
  lemma ValidAfterQuery(ss: seq<State>, calls: seq<Call>, windows: bool, q: nat)
    requires LoaderRun(ss, calls, windows) && QueriesAt(ss, calls, q)
    ensures var s, cs := ss[q + 1].impls, ss[q].configs;
            forall e | 0 <= e < |s| ::
              AdapterKnown(s[e]) && (s[e].Valid() <==> AskedFor(s[e], cs) && !Hidden(s[e].info, s, D3D9LastAsked(cs)))
  {
    hide Step, Allowed, ListOk, LibsTraceOk, ValidPass, NumbersCurrent, OnlySettable, Passes, AskedFor, Hidden;
    hide AdapterKnown, FullLoadAndQuery, UpdateValid, D3D9Requested, D3D9LastAsked, Placed;
    Reachable(ss, calls, windows, q);
    var st, env := ss[q], calls[q].env;
    QueryingCall(st, calls[q]);
    var queried := FullLoadAndQuery(st, env).1;
    FullQueryList(st, env);
    FullQueryBuilds(st, env);
    UpdateEntries(queried);
    var s, cs := ss[q + 1].impls, st.configs;
    forall e | 0 <= e < |s|
      ensures AdapterKnown(s[e]) && (s[e].Valid() <==> AskedFor(s[e], cs) && !Hidden(s[e].info, s, D3D9LastAsked(cs)))
    {
      var v := queried.impls[e];
      PassesMeans(v, cs, st.special);
      AskedForSame(v, s[e], cs);
      HiddenSameList(v.info, queried.impls, s, D3D9LastAsked(cs));
    }
  }

  lemma AskedForSame(v: Impl, w: Impl, cs: seq<Config>)
    requires v.info == w.info && v.adapterIdx == w.adapterIdx
    ensures (AskedFor(v, cs) <==> AskedFor(w, cs)) && (AdapterKnown(v) <==> AdapterKnown(w))
  {}

  // ---- where every entry comes from ------------------------------------------------------------------------

  // In every later state the list holds exactly what the libraries asked by the successful query
  // offered then, each offer once.
  lemma EntriesOfRun(ss: seq<State>, calls: seq<Call>, windows: bool, q: nat, n: nat)
    requires LoaderRun(ss, calls, windows) && QueriesAt(ss, calls, q) && q < n < |ss|
    ensures exists from: seq<Place> :: Placed(from, ss[n].impls, Asked(ss[q], calls[q].env), calls[q].env)
  {
    hide Step, Allowed, Inv, FullLoadAndQuery, UpdateValid, Placed, Asked, PassedAll, Hidden, AdapterKnown;
    Reachable(ss, calls, windows, q);
    var st, env := ss[q], calls[q].env;
    QueryingCall(st, calls[q]);
    FullQueryBuilds(st, env);
    var queried := FullLoadAndQuery(st, env).1;
    var from: seq<Place> :| Placed(from, queried.impls, Asked(st, env), env);
    QueriedListOk(st, env);
    UpdateEntries(queried);
    PlacedSame(from, queried.impls, ss[q + 1].impls, Asked(st, env), env);
    SurvivorsOnlyShrink(ss, calls, windows, q + 1, n);
    PlacedSame(from, ss[q + 1].impls, ss[n].impls, Asked(st, env), env);
  }

  lemma QueriedListOk(st: State, env: Environment)
    requires Inv(st) && st.needFullQuery
    ensures ListOk(FullLoadAndQuery(st, env).1)
  {
    hide ListOk, LibsTraceOk, ValidPass, NumbersCurrent, OnlySettable, FullLoadAndQuery;
    FullQueryList(st, env);
  }

  // A list that needs no query was built by one.
  lemma {:induction false} QueriedBefore(ss: seq<State>, calls: seq<Call>, windows: bool, n: nat) returns (q: nat)
    requires LoaderRun(ss, calls, windows) && n < |ss| && !ss[n].needFullQuery
    ensures q < n && QueriesAt(ss, calls, q)
  {
    hide Step, Allowed, Inv, FullLoadAndQuery, UpdateValid;
    if ss[n - 1].needFullQuery {
      Reachable(ss, calls, windows, n - 1);
      QueryingCall(ss[n - 1], calls[n - 1]);
      q := n - 1;
    } else {
      q := QueriedBefore(ss, calls, windows, n - 1);
    }
  }

  // Once a query has succeeded there is no other.
  lemma {:induction false} QueriedOnce(ss: seq<State>, calls: seq<Call>, windows: bool, q: nat, n: nat)
    requires LoaderRun(ss, calls, windows) && QueriesAt(ss, calls, q) && q < n < |ss|
    ensures !ss[n].needFullQuery
  {
    hide Step, Allowed;
    if n > q + 1 {
      QueriedOnce(ss, calls, windows, q, n - 1);
      StepList(ss[n - 1], calls[n - 1]);
    }
  }

  // ---- what the application is given -------------------------------------------------------------------------

  // What library l, answering as rt, supplied for its offer at position i in each format.
  ghost function Supplied(f: Format, l: Lib, rt: Runtime, i: nat): Delivered
    requires Offers(l, rt, i)
  {
    match f
    case ImplPath => PathOf(l.uid)
    case OtherFormat => Nothing
    case ImplDescStructure =>
      HandleOf(if l.libType == LibTypeMSDK then rt.adapters[i].value.desc.address else rt.descs.value[i].value.address)
    case ImplementedFunctions =>
      if l.libType == LibTypeMSDK then HandleOf(rt.adapters[i].value.funcs.address)
      else if Pointed(rt.funcs, i).Some? then HandleOf(Pointed(rt.funcs, i).value.address) else Nothing
    case DeviceIDExtended =>
      var ext := if l.libType == LibTypeMSDK then rt.adapters[i].value.ext else Pointed(rt.exts, i);
      if ext.Some? then HandleOf(ext.value.address) else Nothing
  }

  lemma DeliversSupplied(v: Impl, f: Format, l: Lib, rt: Runtime, i: nat)
    requires Offers(l, rt, i) && Matches(v.info, l, rt, i)
    ensures Deliver(v, f) == Supplied(f, l, rt, i)
  {}

  lemma HoldsSupplied(v: Impl, h: Delivered, l: Lib, rt: Runtime, i: nat)
    requires Offers(l, rt, i) && Matches(v.info, l, rt, i) && h != Nothing
    ensures Holds(v, h) <==> exists f :: Supplied(f, l, rt, i) == h
  {
    if Holds(v, h) {
      var f := if h.PathOf? then ImplPath else if v.info.handles.desc == h.address then ImplDescStructure
               else if v.info.handles.funcs == h.address then ImplementedFunctions else DeviceIDExtended;
      assert Supplied(f, l, rt, i) == h;
    }
  }

  // Enumerating delivers, for the entry found, what the library that reported it supplied in that
  // format when it was queried, and unsupported if that was nothing.
  lemma DeliveredIs(ss: seq<State>, calls: seq<Call>, windows: bool, q: nat, k: nat, a: nat, i: nat)
    requires LoaderRun(ss, calls, windows) && QueriesAt(ss, calls, q) && q <= k < |calls| && calls[k].Enumerate?
    requires var e := FindIndex(ss[k + 1].impls, SignedIndex(calls[k].i));
             e >= 0 && HeldAt(ss[k + 1].impls[e].info, Asked(ss[q], calls[q].env), calls[q].env, a, i)
    ensures var l := Asked(ss[q], calls[q].env)[a];
            var w := Supplied(calls[k].format, l, calls[q].env.runtime(l.name), i);
            Step(ss[k], calls[k]).0 == Reply(if w.Nothing? then ErrUnsupported else ErrNone, w, None)
  {
    hide Inv, Refresh, Asked, Offers, Matches, Supplied, Deliver, Allowed;
    Reachable(ss, calls, windows, k);
    EnumerateReplies(ss, calls, windows, q, k);
    var e := FindIndex(ss[k + 1].impls, SignedIndex(calls[k].i));
    var l := Asked(ss[q], calls[q].env)[a];
    DeliversSupplied(ss[k + 1].impls[e], calls[k].format, l, calls[q].env.runtime(l.name), i);
  }

  lemma EnumerateReplies(ss: seq<State>, calls: seq<Call>, windows: bool, q: nat, k: nat)
    requires LoaderRun(ss, calls, windows) && QueriesAt(ss, calls, q) && q <= k < |calls| && calls[k].Enumerate?
    ensures Step(ss[k], calls[k]).0 == ReplyToEnumerate(ss[k + 1].impls, calls[k].i, calls[k].format)
  {
    hide Inv, FullLoadAndQuery, UpdateValid, ReplyToEnumerate;
    Reachable(ss, calls, windows, k);
    if k == q {
      QueryingCall(ss[k], calls[k]);
    } else {
      QueriedOnce(ss, calls, windows, q, k);
    }
  }

  // Some library supplied h in some format, for one of its offers.
  ghost predicate SuppliedBy(h: Delivered, libs: seq<Lib>, env: Environment) {
    exists a: nat, i: nat, f :: SuppliedAt(h, libs, env, a, i, f)
  }

  ghost predicate SuppliedAt(h: Delivered, libs: seq<Lib>, env: Environment, a: nat, i: nat, f: Format) {
    OfferAt(libs, env, a, i) && Supplied(f, libs[a], env.runtime(libs[a].name), i) == h
  }

  lemma HeldSupplied(v: Impl, h: Delivered, libs: seq<Lib>, env: Environment, a: nat, i: nat)
    requires HeldAt(v.info, libs, env, a, i) && h != Nothing
    ensures Holds(v, h) <==> exists f :: SuppliedAt(h, libs, env, a, i, f)
  {
    hide Supplied, Holds, Offers, Matches;
    HoldsSupplied(v, h, libs[a], env.runtime(libs[a].name), i);
    if f :| Supplied(f, libs[a], env.runtime(libs[a].name), i) == h { assert SuppliedAt(h, libs, env, a, i, f); }
  }

  lemma PlacedEntry(from: seq<Place>, s: seq<Impl>, libs: seq<Lib>, env: Environment, e: nat)
    requires Placed(from, s, libs, env) && e < |s|
    ensures |from| == |s| && HeldAt(s[e].info, libs, env, from[e].lib, from[e].pos)
  {
    hide HeldAt, Before, Complete;
  }

  lemma OfferPlaced(from: seq<Place>, s: seq<Impl>, libs: seq<Lib>, env: Environment, a: nat, i: nat) returns (e: nat)
    requires Placed(from, s, libs, env) && OfferAt(libs, env, a, i)
    ensures e < |s| && HeldAt(s[e].info, libs, env, a, i)
  {
    hide HeldAt, Before, OfferAt;
    e :| e < |from| && from[e] == Place(a, i);
  }

  lemma ReleaseOf(from: seq<Place>, s: seq<Impl>, libs: seq<Lib>, env: Environment, h: Delivered)
    requires Placed(from, s, libs, env)
    ensures ReleaseStatus(s, h) ==
            if h == Nothing then ErrNullPtr else if SuppliedBy(h, libs, env) then ErrNone else ErrInvalidHandle
  {
    hide Placed, HeldAt, SuppliedAt, Holds;
    if h != Nothing {
      if k :| 0 <= k < |s| && Holds(s[k], h) {
        PlacedEntry(from, s, libs, env, k);
        HeldSupplied(s[k], h, libs, env, from[k].lib, from[k].pos);
      }
      if a: nat, i: nat, f :| SuppliedAt(h, libs, env, a, i, f) {
        SuppliedOffer(h, libs, env, a, i, f);
        var k := OfferPlaced(from, s, libs, env, a, i);
        HeldSupplied(s[k], h, libs, env, a, i);
      }
    }
  }

  lemma SuppliedOffer(h: Delivered, libs: seq<Lib>, env: Environment, a: nat, i: nat, f: Format)
    requires SuppliedAt(h, libs, env, a, i, f)
    ensures OfferAt(libs, env, a, i)
  {}

  // The release call succeeds exactly for what the library of some listed entry supplied in some
  // format.
  lemma ReleaseExactly(ss: seq<State>, calls: seq<Call>, windows: bool, q: nat, n: nat, h: Delivered)
    requires LoaderRun(ss, calls, windows) && QueriesAt(ss, calls, q) && q < n < |ss|
    ensures Step(ss[n], ReleaseDescription(h)).0.sts ==
            if h == Nothing then ErrNullPtr
            else if SuppliedBy(h, Asked(ss[q], calls[q].env), calls[q].env) then ErrNone
            else ErrInvalidHandle
  {
    hide Asked, Allowed, SuppliedBy, Placed, ReleaseStatus, LoaderRun;
    EntriesOfRun(ss, calls, windows, q, n);
    var from: seq<Place> :| Placed(from, ss[n].impls, Asked(ss[q], calls[q].env), calls[q].env);
    ReleaseOf(from, ss[n].impls, Asked(ss[q], calls[q].env), calls[q].env, h);
  }

  // Before that it never does.
  lemma ReleaseBeforeQuery(ss: seq<State>, calls: seq<Call>, windows: bool, n: nat, h: Delivered)
    requires LoaderRun(ss, calls, windows) && n < |ss| && ss[n].needFullQuery
    ensures Step(ss[n], ReleaseDescription(h)).0.sts == if h == Nothing then ErrNullPtr else ErrInvalidHandle
  {
    hide ListOk, LibsTraceOk, ValidPass, NumbersCurrent, OnlySettable;
    Reachable(ss, calls, windows, n);
  }

  // ---- when a query succeeds --------------------------------------------------------------------------------

  ghost predicate AnyOffer(libs: seq<Lib>, env: Environment) { exists a: nat, i: nat :: OfferAt(libs, env, a, i) }

  lemma OfferedOrEmpty(from: seq<Place>, s: seq<Impl>, libs: seq<Lib>, env: Environment, first: nat)
    requires Hold(from, s, libs, env, first) && Complete(from, libs, env)
    ensures s == [] <==> !AnyOffer(libs, env)
  {
    hide OfferAt, Before;
    if s != [] {
      HoldAt(from, s, libs, env, first, 0);
      HeldBelow(s[0].info, libs, env, from[0].lib, from[0].pos);
    }
  }

  lemma CapsOutcome(st: State, env: Environment)
    requires st.impls == []
    ensures var r := QueryCaps(st, env);
            r.libs == Filter(st.libs, RemainsIn(env)) && (r.impls == [] <==> !AnyOffer(st.libs, env))
  {
    hide QueryLibs, Prioritize, PostProcess, Rearranged, AnyOffer, Hold, Complete, Filter;
    var q0 := Query([], [], st.implIdxNext, st.trace);
    LibrariesRemain(q0, st.libs, env);
    var from := QueriedOffers(q0, st.libs, env);
    var s := QueryLibs(q0, st.libs, env).impls;
    OfferedOrEmpty(from, s, st.libs, env, q0.next);
    var p := PostProcessAll(s, s, D3D9Requested(st.special));
    PrioritizeRearranges(p, st.priorityPath);
    RearrangedLength(Prioritize(p, st.priorityPath), p);
  }

  lemma RearrangedLength(t: seq<Impl>, s: seq<Impl>)
    requires Rearranged(t, s)
    ensures |t| == |s|
  {}

  lemma FullQueryOutcome(st: State, env: Environment)
    requires st.impls == []
    ensures var (sts, r) := FullLoadAndQuery(st, env);
            && r.libs == Filter(Asked(st, env), RemainsIn(env))
            && sts == if Asked(st, env) == [] then ErrUnsupported
                      else if AnyOffer(Asked(st, env), env) then ErrNone else ErrNotFound
  {
    hide CheckLibs, BuildList, QueryCaps, AnyOffer;
    var st0 := st.(lowLatency := false);
    SearchKeeps(st0, env);
    var checked := CheckLibs(BuildList(st0, env), env);
    CapsOutcome(checked, env);
  }

  // A full query succeeds iff some library it asks offers something. It leaves the libraries listed
  // that remain, whether it succeeds or not; if it fails, nothing is found.
  lemma QueryOutcome(ss: seq<State>, calls: seq<Call>, windows: bool, k: nat)
    requires LoaderRun(ss, calls, windows) && k < |calls| && Queries(ss[k], calls[k])
    ensures var libs, env := Asked(ss[k], calls[k].env), calls[k].env;
            && (!ss[k + 1].needFullQuery <==> AnyOffer(libs, env))
            && ss[k + 1].libs == Filter(libs, RemainsIn(env))
            && (ss[k + 1].needFullQuery ==> Step(ss[k], calls[k]).0 == Plain(ErrNotFound))
  {
    hide FullLoadAndQuery, Asked, AnyOffer, ListOk, LibsTraceOk, ValidPass, NumbersCurrent, OnlySettable;
    hide RecheckAll, Prioritize, ReplyToEnumerate, ReplyToCreateSession, Filter;
    Reachable(ss, calls, windows, k);
    FullQueryList(ss[k], calls[k].env);
    FullQueryOutcome(ss[k], calls[k].env);
    NoOffersAtAll(calls[k].env);
  }

  lemma NoOffersAtAll(env: Environment)
    ensures !AnyOffer([], env)
  {}
}
