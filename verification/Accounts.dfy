// Exact accounts of what enters and leaves the loader over whole runs: how often each module is
// loaded and closed, and how often each capability handle is handed over and given back.
module Accounts {
  import opened HandleTrace
  import opened ImplOrder
  import opened LoaderInvariant
  import opened LoaderState
  import opened Runs
  import opened StableSort
  import opened VplTypes

  // How often event e occurs.
  ghost function Times(t: seq<Event>, e: Event): nat { multiset(t)[e] }

  lemma TimesConcat(s: seq<Event>, t: seq<Event>, e: Event)
    ensures Times(s + t, e) == Times(s, e) + Times(t, e)
  {
    assert multiset(s + t) == multiset(s) + multiset(t);
  }

  // ---- modules ------------------------------------------------------------------------------------

  // Loads of library u's module that no close has answered.
  ghost function Open(t: seq<Event>, u: nat): int { Times(t, Load(u)) - Times(t, Close(u)) }

  // How many of these library objects hold the module of u.
  ghost function Holding(libs: seq<Lib>, u: nat): nat {
    if libs == [] then 0
    else Holding(libs[..|libs| - 1], u) + (if libs[|libs| - 1].uid == u && libs[|libs| - 1].loaded then 1 else 0)
  }

  lemma OpenConcat(s: seq<Event>, t: seq<Event>, u: nat)
    ensures Open(s + t, u) == Open(s, u) + Open(t, u)
  {
    TimesConcat(s, t, Load(u));
    TimesConcat(s, t, Close(u));
  }

  lemma HoldingAppend(libs: seq<Lib>, l: Lib, u: nat)
    ensures Holding(libs + [l], u) == Holding(libs, u) + (if l.uid == u && l.loaded then 1 else 0)
  {
    assert (libs + [l])[..|libs|] == libs;
  }

  lemma {:induction false} CandidatesOpen(st: State, cs: seq<Candidate>, u: nat)
    ensures var r := AddCandidates(st, cs); Holding(r.libs, u) == Holding(st.libs, u) && r.trace == st.trace
  {
    if cs != [] {
      CandidatesOpen(st, cs[..|cs| - 1], u);
      var mid := AddCandidates(st, cs[..|cs| - 1]);
      HoldingAppend(mid.libs, NewLib(mid.uidNext, cs[|cs| - 1]), u);
    }
  }

  lemma CloseOpen(l: Lib, u: nat)
    ensures Open(CloseEvents(l), u) == if l.uid == u && l.loaded then -1 else 0
  {}

  // Probing a library opens its module exactly if it holds it afterwards - whatever it held before.
  lemma LoadOpen(l: Lib, rt: Runtime, windows: bool, u: nat)
    ensures var p := Probe(l, rt, windows);
            Open(LoadEvents(l, rt, windows), u) == if p.Some? && l.uid == u && p.value.loaded then 1 else 0
  {
    var p := Probe(l, rt, windows);
    var loads := if rt.loads then [Load(l.uid)] else [];
    if p.None? {
      OpenConcat(loads, CloseEvents(l.(loaded := rt.loads)), u);
      CloseOpen(l.(loaded := rt.loads), u);
    } else {
      OpenConcat(loads, if rt.loads && !p.value.loaded then [Close(l.uid)] else [], u);
    }
  }

  lemma {:induction false} ProbeOpen(libs: seq<Lib>, env: Environment, windows: bool, u: nat)
    ensures Open(ProbeEvents(libs, env, windows), u) == Holding(ProbeAll(libs, env, windows), u)
  {
    hide Probe, LoadEvents, Open;
    if libs == [] {
      OpenNothing(u);
    } else {
      var l := libs[|libs| - 1];
      var before := ProbeAll(libs[..|libs| - 1], env, windows);
      ProbeOpen(libs[..|libs| - 1], env, windows, u);
      OpenConcat(ProbeEvents(libs[..|libs| - 1], env, windows), LoadEvents(l, env.runtime(l.name), windows), u);
      ProbedHolding(before, l, env.runtime(l.name), windows, u);
    }
  }

  lemma ProbedHolding(before: seq<Lib>, l: Lib, rt: Runtime, windows: bool, u: nat)
    ensures var p := Probe(l, rt, windows);
            Holding(before + (if p.Some? then [p.value] else []), u) ==
              Holding(before, u) + Open(LoadEvents(l, rt, windows), u)
  {
    LoadOpen(l, rt, windows, u);
    var p := Probe(l, rt, windows);
    if p.Some? {
      HoldingAppend(before, p.value, u);
    } else {
      assert before + [] == before;
    }
  }

  lemma OpenNothing(u: nat)
    ensures Open([], u) == 0
  {}

  lemma {:induction false} PruneOpen(libs: seq<Lib>, best: Option<Lib>, u: nat)
    ensures Open(PruneEvents(libs, best), u) == Holding(Prune(libs, best), u) - Holding(libs, u)
  {
    hide Kept, CloseEvents, Open;
    OpenNothing(u);
    if libs != [] {
      var l, before := libs[|libs| - 1], libs[..|libs| - 1];
      PruneOpen(before, best, u);
      PrunedHolding(Prune(before, best), PruneEvents(before, best), l, Kept(l, best), u);
    }
  }

  lemma PrunedHolding(kept: seq<Lib>, t: seq<Event>, l: Lib, keep: bool, u: nat)
    ensures var held := if l.uid == u && l.loaded then 1 else 0;
            Open(t + (if keep then [] else CloseEvents(l)), u) - Open(t, u) ==
            Holding(kept + (if keep then [l] else []), u) - Holding(kept, u) - held
  {
    hide CloseEvents, Open;
    OpenConcat(t, if keep then [] else CloseEvents(l), u);
    OpenNothing(u);
    CloseOpen(l, u);
    HoldingAppend(kept, l, u);
    assert kept + [] == kept;
  }

  lemma CheckLibsOpen(st: State, env: Environment, u: nat)
    ensures var r := CheckLibs(st, env); Open(r.trace, u) - Holding(r.libs, u) == Open(st.trace, u)
  {
    hide Open, ProbeAll, Prune, ProbeEvents, PruneEvents, ChosenMsdk;
    var probed := ProbeAll(st.libs, env, st.windows);
    var best := ChosenMsdk(probed);
    OpenConcat(st.trace, ProbeEvents(st.libs, env, st.windows), u);
    OpenConcat(st.trace + ProbeEvents(st.libs, env, st.windows), PruneEvents(probed, best), u);
    ProbeOpen(st.libs, env, st.windows, u);
    PruneOpen(probed, best, u);
  }

  // ---- handles ------------------------------------------------------------------------------------

  // How often the array holds handle h.
  ghost function Occurrences<T>(s: seq<Option<Ref<T>>>, h: nat): nat {
    if s == [] then 0
    else Occurrences(s[..|s| - 1], h) + (if s[|s| - 1].Some? && s[|s| - 1].value.address == h then 1 else 0)
  }

  // Handles of library u that were handed over but not stored.
  ghost function Unstored(t: seq<Event>, u: nat, h: nat): int { Times(t, HandOver(u, h)) - Times(t, Attach(u, h)) }

  ghost function FirstN<T>(s: seq<T>, n: nat): seq<T> { if n < |s| then s[..n] else s }
  ghost function Beyond<T>(s: seq<T>, n: nat): seq<T> { if n < |s| then s[n..] else [] }

  // What a query of a VPL runtime loses: all descriptions if one is null, and otherwise whatever the
  // other arrays hold beyond the number of descriptions.
  ghost function Lost(rt: Runtime, h: nat): nat {
    if DescsOk(rt)
    then Occurrences(Beyond(ArrayOf(rt.exts), |rt.descs.value|), h)
         + Occurrences(Beyond(ArrayOf(rt.funcs), |rt.descs.value|), h)
    else Occurrences(ArrayOf(rt.descs), h)
  }

  ghost function LibsLost(libs: seq<Lib>, env: Environment, u: nat, h: nat): nat {
    if libs == [] then 0 else
      var l := libs[|libs| - 1];
      LibsLost(libs[..|libs| - 1], env, u, h)
      + (if l.libType == LibTypeVPL && l.uid == u then Lost(env.runtime(l.name), h) else 0)
  }

  lemma UnstoredConcat(s: seq<Event>, t: seq<Event>, u: nat, h: nat)
    ensures Unstored(s + t, u, h) == Unstored(s, u, h) + Unstored(t, u, h)
  {
    TimesConcat(s, t, HandOver(u, h));
    TimesConcat(s, t, Attach(u, h));
  }

  lemma {:induction false} OccurrencesConcat<T>(s: seq<Option<Ref<T>>>, t: seq<Option<Ref<T>>>, h: nat)
    ensures Occurrences(s + t, h) == Occurrences(s, h) + Occurrences(t, h)
  {
    if t == [] {
      assert s + t == s;
    } else {
      assert (s + t)[..|s + t| - 1] == s + t[..|t| - 1];
      OccurrencesConcat(s, t[..|t| - 1], h);
    }
  }

  lemma FirstAndBeyond<T>(s: seq<Option<Ref<T>>>, n: nat, h: nat)
    ensures Occurrences(s, h) == Occurrences(FirstN(s, n), h) + Occurrences(Beyond(s, n), h)
  {
    OccurrencesConcat(FirstN(s, n), Beyond(s, n), h);
    assert FirstN(s, n) + Beyond(s, n) == s;
  }

  lemma {:induction false} HandOverCounts<T>(uid: nat, s: seq<Option<Ref<T>>>, u: nat, h: nat)
    ensures Unstored(HandOverAll(uid, s), u, h) == (if u == uid then Occurrences(s, h) else 0)
    ensures Open(HandOverAll(uid, s), u) == 0
  {
    if s != [] {
      var last := s[|s| - 1];
      var e := if last.Some? then [HandOver(uid, last.value.address)] else [];
      HandOverCounts(uid, s[..|s| - 1], u, h);
      UnstoredConcat(HandOverAll(uid, s[..|s| - 1]), e, u, h);
      OpenConcat(HandOverAll(uid, s[..|s| - 1]), e, u);
    }
  }

  function Is(a: nat, h: nat): nat { if a == h && h != 0 then 1 else 0 }

  lemma {:induction false} AttachEach(uid: nat, hs: seq<nat>, a: seq<Event>, u: nat, h: nat)
    requires |a| == |hs| && forall i | 0 <= i < |hs| :: a[i] == Attach(uid, hs[i])
    ensures Unstored(a, u, h) + (if u == uid then multiset(hs)[h] else 0) == 0 && Open(a, u) == 0
  {
    if hs != [] {
      assert a == [a[0]] + a[1..] && hs == [hs[0]] + hs[1..];
      AttachEach(uid, hs[1..], a[1..], u, h);
      UnstoredConcat([a[0]], a[1..], u, h);
      OpenConcat([a[0]], a[1..], u);
    }
  }

  lemma AttachCounts(d: ImplData, u: nat, h: nat)
    ensures var k := d.handles;
            Unstored(AttachEvents(d), u, h)
              + (if u == d.libUid then Is(k.desc, h) + Is(k.funcs, h) + Is(k.ext, h) else 0) == 0
    ensures Open(AttachEvents(d), u) == 0
  {
    AttachEach(d.libUid, HandleList(d.handles), AttachEvents(d), u, h);
  }

  lemma ReleaseCounts(d: ImplData, u: nat, h: nat)
    ensures Unstored(ReleaseEvents(d), u, h) == 0 && Open(ReleaseEvents(d), u) == 0
  {
    var r := ReleaseEvents(d);
    assert forall e | e in r :: e.Release?;
    assert HandOver(u, h) !in multiset(r) && Attach(u, h) !in multiset(r) && Load(u) !in multiset(r)
           && Close(u) !in multiset(r);
  }

  lemma OneMore<T>(s: seq<Option<Ref<T>>>, i: nat, h: nat)
    ensures Occurrences(FirstN(s, i + 1), h) ==
            Occurrences(FirstN(s, i), h) + Is(AddressOf(LoaderState.At(Some(s), i)), h)
  {
    if i < |s| {
      assert FirstN(s, i + 1) == s[..i] + [s[i]];
      OccurrencesConcat(s[..i], [s[i]], h);
      assert FirstN(s, i) == s[..i];
      assert [s[i]][..0] == [];
    }
  }

  lemma AtArray<T>(o: Option<seq<Option<Ref<T>>>>, i: nat)
    ensures LoaderState.At(Some(ArrayOf(o)), i) == LoaderState.At(o, i)
  {}

  // Storing the first n implementations a runtime reports.
  lemma {:induction false} AddVplCounts(q: Query, lib: Lib, rt: Runtime, n: nat, u: nat, h: nat)
    requires DescsOk(rt) && n <= |rt.descs.value|
    ensures var r := AddVpl(q, lib, rt, n);
            && Unstored(r.trace, u, h) == Unstored(q.trace, u, h)
               - (if u == lib.uid
                  then Occurrences(FirstN(rt.descs.value, n), h) + Occurrences(FirstN(ArrayOf(rt.funcs), n), h)
                       + Occurrences(FirstN(ArrayOf(rt.exts), n), h)
                  else 0)
            && Open(r.trace, u) == Open(q.trace, u) && r.libs == q.libs
  {
    hide Unstored, Open, AttachEvents, ReleaseEvents, ExportsComplete;
    if n > 0 {
      AddVplCounts(q, lib, rt, n - 1, u, h);
      var p, i := AddVpl(q, lib, rt, n - 1), n - 1;
      var d := VplData(lib, rt, i, p.next);
      UnstoredConcat(p.trace, AttachEvents(d), u, h);
      UnstoredConcat(p.trace + AttachEvents(d), ReleaseEvents(d), u, h);
      OpenConcat(p.trace, AttachEvents(d), u);
      OpenConcat(p.trace + AttachEvents(d), ReleaseEvents(d), u);
      AttachCounts(d, u, h);
      ReleaseCounts(d, u, h);
      OneMore(rt.descs.value, i, h);
      OneMore(ArrayOf(rt.funcs), i, h);
      OneMore(ArrayOf(rt.exts), i, h);
      AtArray(rt.funcs, i);
      AtArray(rt.exts, i);
      assert LoaderState.At(Some(rt.descs.value), i) == Some(rt.descs.value[i].value);
    }
  }

  lemma {:induction false} AddMsdkTrace(q: Query, lib: Lib, rt: Runtime, n: nat)
    requires n <= MAX_NUM_IMPL_MSDK
    ensures AddMsdk(q, lib, rt, n).trace == q.trace && AddMsdk(q, lib, rt, n).libs == q.libs
  {
    if n > 0 { AddMsdkTrace(q, lib, rt, n - 1); }
  }

  lemma HandOverAccount(uid: nat, rt: Runtime, u: nat, h: nat)
    ensures Unstored(HandOverEvents(uid, rt), u, h) ==
            if u != uid then 0
            else Occurrences(ArrayOf(rt.descs), h)
                 + (if DescsOk(rt) then Occurrences(ArrayOf(rt.exts), h) + Occurrences(ArrayOf(rt.funcs), h) else 0)
    ensures Open(HandOverEvents(uid, rt), u) == 0
  {
    hide Unstored, Open;
    var a, b := HandOverAll(uid, ArrayOf(rt.descs)), HandOverAll(uid, ArrayOf(rt.exts));
    var c := HandOverAll(uid, ArrayOf(rt.funcs));
    HandOverCounts(uid, ArrayOf(rt.descs), u, h);
    HandOverCounts(uid, ArrayOf(rt.exts), u, h);
    HandOverCounts(uid, ArrayOf(rt.funcs), u, h);
    UnstoredConcat(b, c, u, h);
    OpenConcat(b, c, u);
    UnstoredConcat(a, b + c, u, h);
    OpenConcat(a, b + c, u);
    assert a + [] == a;
  }

  lemma CloseUnstored(l: Lib, u: nat, h: nat)
    ensures Unstored(CloseEvents(l), u, h) == 0
  {}

  lemma QueryVplAccount(q: Query, lib: Lib, rt: Runtime, u: nat, h: nat)
    requires lib.libType == LibTypeVPL
    ensures var r := QueryLib(q, lib, rt);
            && Unstored(r.trace, u, h) == Unstored(q.trace, u, h) + (if lib.uid == u then Lost(rt, h) else 0)
            && Open(r.trace, u) - Holding(r.libs, u) ==
               Open(q.trace, u) - Holding(q.libs, u) - (if lib.uid == u && lib.loaded then 1 else 0)
  {
    hide Unstored, Open, HandOverEvents, CloseEvents, DescsOk;
    var d := q.(trace := q.trace + HandOverEvents(lib.uid, rt));
    UnstoredConcat(q.trace, HandOverEvents(lib.uid, rt), u, h);
    OpenConcat(q.trace, HandOverEvents(lib.uid, rt), u);
    HandOverAccount(lib.uid, rt, u, h);
    if DescsOk(rt) {
      DescsPresent(rt);
      var n := |rt.descs.value|;
      AddVplCounts(d, lib, rt, n, u, h);
      HoldingAppend(q.libs, lib, u);
      FirstAndBeyond(ArrayOf(rt.exts), n, h);
      FirstAndBeyond(ArrayOf(rt.funcs), n, h);
    } else {
      UnstoredConcat(d.trace, CloseEvents(lib), u, h);
      OpenConcat(d.trace, CloseEvents(lib), u);
      CloseUnstored(lib, u, h);
      CloseOpen(lib, u);
    }
  }

  lemma DescsPresent(rt: Runtime)
    requires DescsOk(rt)
    ensures rt.descs.Some?
  {}

  lemma QueryLibAccount(q: Query, lib: Lib, rt: Runtime, u: nat, h: nat)
    ensures var r := QueryLib(q, lib, rt);
            && Unstored(r.trace, u, h) ==
               Unstored(q.trace, u, h) + (if lib.libType == LibTypeVPL && lib.uid == u then Lost(rt, h) else 0)
            && Open(r.trace, u) - Holding(r.libs, u) ==
               Open(q.trace, u) - Holding(q.libs, u) - (if lib.uid == u && lib.loaded then 1 else 0)
  {
    hide Unstored, Open, CloseEvents, Lost;
    if lib.libType == LibTypeVPL {
      QueryVplAccount(q, lib, rt, u, h);
    } else {
      AddMsdkTrace(q, lib, rt, MAX_NUM_IMPL_MSDK);
      HoldingAppend(q.libs, lib, u);
      UnstoredConcat(q.trace, CloseEvents(lib), u, h);
      OpenConcat(q.trace, CloseEvents(lib), u);
      CloseUnstored(lib, u, h);
      CloseOpen(lib, u);
    }
  }

  lemma {:induction false} QueryLibsAccount(q: Query, libs: seq<Lib>, env: Environment, u: nat, h: nat)
    ensures var r := QueryLibs(q, libs, env);
            && Unstored(r.trace, u, h) == Unstored(q.trace, u, h) + LibsLost(libs, env, u, h)
            && Open(r.trace, u) - Holding(r.libs, u) == Open(q.trace, u) - Holding(q.libs, u) - Holding(libs, u)
  {
    hide Unstored, Open, QueryLib, Lost;
    if libs != [] {
      QueryLibsAccount(q, libs[..|libs| - 1], env, u, h);
      var l := libs[|libs| - 1];
      QueryLibAccount(QueryLibs(q, libs[..|libs| - 1], env), l, env.runtime(l.name), u, h);
    }
  }

  // ---- one full query ---------------------------------------------------------------------------------

  // The libraries a full query gets to ask.
  ghost function Asked(st: State, env: Environment): seq<Lib> {
    CheckLibs(BuildList(st.(lowLatency := false), env), env).libs
  }

  // Modules opened and neither closed nor held: no library object remembers them.
  ghost function Forgotten(st: State, u: nat): int { Open(st.trace, u) - Holding(st.libs, u) }

  lemma SearchAccount(st: State, env: Environment, u: nat)
    ensures var b := BuildList(st.(lowLatency := false), env);
            b.trace == st.trace && Holding(b.libs, u) == Holding(st.libs, u)
  {
    CandidatesOpen(st.(lowLatency := false), CandidatesOf(env), u);
  }

  lemma {:induction false} ProbeStoresNothing(libs: seq<Lib>, env: Environment, windows: bool, u: nat, h: nat)
    ensures Unstored(ProbeEvents(libs, env, windows), u, h) == 0
  {
    if libs != [] {
      hide Probe, Unstored;
      var init, l := libs[..|libs| - 1], libs[|libs| - 1];
      ProbeStoresNothing(init, env, windows, u, h);
      LoadUnstored(l, env.runtime(l.name), windows, u, h);
      UnstoredConcat(ProbeEvents(init, env, windows), LoadEvents(l, env.runtime(l.name), windows), u, h);
    }
  }

  lemma LoadUnstored(l: Lib, rt: Runtime, windows: bool, u: nat, h: nat)
    ensures Unstored(LoadEvents(l, rt, windows), u, h) == 0
  {
    hide Probe, CloseEvents;
    var p := Probe(l, rt, windows);
    var loads := if rt.loads then [Load(l.uid)] else [];
    var more := if p.None? then CloseEvents(l.(loaded := rt.loads))
                else if rt.loads && !p.value.loaded then [Close(l.uid)] else [];
    assert LoadEvents(l, rt, windows) == loads + more;
    CloseUnstored(l.(loaded := rt.loads), u, h);
    UnstoredConcat(loads, more, u, h);
  }

  lemma {:induction false} PruneStoresNothing(libs: seq<Lib>, best: Option<Lib>, u: nat, h: nat)
    ensures Unstored(PruneEvents(libs, best), u, h) == 0
  {
    if libs != [] {
      var init, l := libs[..|libs| - 1], libs[|libs| - 1];
      PruneStoresNothing(init, best, u, h);
      UnstoredConcat(PruneEvents(init, best), if Kept(l, best) then [] else CloseEvents(l), u, h);
    }
  }

  lemma CheckAccount(st: State, env: Environment, u: nat, h: nat)
    ensures var r := CheckLibs(st, env);
            Forgotten(r, u) == Open(st.trace, u) && Unstored(r.trace, u, h) == Unstored(st.trace, u, h)
  {
    hide ProbeAll, Prune, ProbeEvents, PruneEvents, ChosenMsdk, Unstored, Open;
    CheckLibsOpen(st, env, u);
    var probed := ProbeAll(st.libs, env, st.windows);
    var best := ChosenMsdk(probed);
    ProbeStoresNothing(st.libs, env, st.windows, u, h);
    PruneStoresNothing(probed, best, u, h);
    UnstoredConcat(st.trace, ProbeEvents(st.libs, env, st.windows), u, h);
    UnstoredConcat(st.trace + ProbeEvents(st.libs, env, st.windows), PruneEvents(probed, best), u, h);
  }

  // A full query forgets a module for each library it finds listed with one, and loses the handles
  // the runtimes asked lose.
  lemma FullQueryAccount(st: State, env: Environment, u: nat, h: nat)
    ensures var r := FullLoadAndQuery(st, env).1;
            && Forgotten(r, u) == Forgotten(st, u) + Holding(st.libs, u)
            && Unstored(r.trace, u, h) == Unstored(st.trace, u, h) + LibsLost(Asked(st, env), env, u, h)
  {
    hide BuildList, CheckLibs, QueryLibs, Prioritize, Unstored, Open, Lost;
    var built := BuildList(st.(lowLatency := false), env);
    var checked := CheckLibs(built, env);
    SearchAccount(st, env, u);
    CheckAccount(built, env, u, h);
    if checked.libs != [] {
      QueryLibsAccount(Query([], checked.impls, checked.implIdxNext, checked.trace), checked.libs, env, u, h);
    }
  }

  // ---- whole runs ----------------------------------------------------------------------------------------

  ghost predicate Queries(st: State, call: Call) { (call.Enumerate? || call.CreateSession?) && st.needFullQuery }

  lemma StepAccount(st: State, call: Call, u: nat, h: nat)
    ensures var r := Step(st, call).1;
            && Forgotten(r, u) == Forgotten(st, u) + (if Queries(st, call) then Holding(st.libs, u) else 0)
            && Unstored(r.trace, u, h) ==
               Unstored(st.trace, u, h)
                 + (if Queries(st, call) then LibsLost(Asked(st, call.env), call.env, u, h) else 0)
  {
    hide FullLoadAndQuery, Prioritize, RecheckAll, Unstored, Open, Holding, LibsLost;
    hide ReplyToEnumerate, ReplyToCreateSession, ReleaseStatus;
    if Queries(st, call) { FullQueryAccount(st, call.env, u, h); }
  }

  // How often, up to state k, a full query found library u listed with its module already loaded.
  ghost function Reloaded(ss: seq<State>, calls: seq<Call>, k: nat, u: nat): nat
    requires IsRun(ss, calls) && k < |ss|
  {
    if k == 0 then 0
    else Reloaded(ss, calls, k - 1, u) + (if Queries(ss[k - 1], calls[k - 1]) then Holding(ss[k - 1].libs, u) else 0)
  }

  // How often, up to state k, handle h of library u was handed over and lost.
  ghost function LostUpTo(ss: seq<State>, calls: seq<Call>, k: nat, u: nat, h: nat): nat
    requires IsRun(ss, calls) && k < |ss|
  {
    if k == 0 then 0
    else LostUpTo(ss, calls, k - 1, u, h)
         + (if Queries(ss[k - 1], calls[k - 1])
            then LibsLost(Asked(ss[k - 1], calls[k - 1].env), calls[k - 1].env, u, h) else 0)
  }

  lemma {:induction false} RunAccount(ss: seq<State>, calls: seq<Call>, windows: bool, k: nat, u: nat, h: nat)
    requires LoaderRun(ss, calls, windows) && k < |ss|
    ensures Forgotten(ss[k], u) == Reloaded(ss, calls, k, u)
    ensures Unstored(ss[k].trace, u, h) == LostUpTo(ss, calls, k, u, h)
  {
    hide Step, Allowed, Queries, Asked, Unstored;
    if k == 0 {
      NothingYet(windows, u, h);
    } else {
      RunAccount(ss, calls, windows, k - 1, u, h);
      StepAccount(ss[k - 1], calls[k - 1], u, h);
    }
  }

  lemma NothingYet(windows: bool, u: nat, h: nat)
    ensures Forgotten(InitialState(windows), u) == 0 == Unstored(InitialState(windows).trace, u, h)
  {}

  lemma {:induction false} ReleaseAllAccount(s: seq<Impl>, u: nat, h: nat)
    ensures Open(ReleaseAll(s), u) == 0 == Unstored(ReleaseAll(s), u, h)
  {
    if s != [] {
      ReleaseAllAccount(s[..|s| - 1], u, h);
      ReleaseCounts(s[|s| - 1].info, u, h);
      OpenConcat(ReleaseAll(s[..|s| - 1]), ReleaseEvents(s[|s| - 1].info), u);
      UnstoredConcat(ReleaseAll(s[..|s| - 1]), ReleaseEvents(s[|s| - 1].info), u, h);
    }
  }

  lemma {:induction false} UnloadAllAccount(libs: seq<Lib>, u: nat, h: nat)
    ensures Open(UnloadAll(libs), u) == 0 - Holding(libs, u) && Unstored(UnloadAll(libs), u, h) == 0
  {
    if libs != [] {
      var l := libs[|libs| - 1];
      UnloadAllAccount(libs[..|libs| - 1], u, h);
      CloseOpen(l, u);
      CloseUnstored(l, u, h);
      OpenConcat(UnloadAll(libs[..|libs| - 1]), CloseEvents(l), u);
      UnstoredConcat(UnloadAll(libs[..|libs| - 1]), CloseEvents(l), u, h);
    }
  }

  // The exact accounts of every run that ends with MFXUnload. A module has been loaded more often
  // than closed by the number of times a full query found its library listed and loaded. A handle
  // has been handed over more often than given back by the number of times it was lost.
  lemma FinalAccounts(ss: seq<State>, calls: seq<Call>, windows: bool, u: nat, h: nat)
    requires LoaderRun(ss, calls, windows)
    ensures var t := AfterUnload(ss[|calls|]).trace;
            && Times(t, Load(u)) == Times(t, Close(u)) + Reloaded(ss, calls, |calls|, u)
            && Times(t, HandOver(u, h)) == Times(t, Release(u, h)) + LostUpTo(ss, calls, |calls|, u, h)
  {
    var end := ss[|calls|];
    RunAccount(ss, calls, windows, |calls|, u, h);
    ReleaseAllAccount(end.impls, u, h);
    UnloadAllAccount(end.libs, u, h);
    OpenConcat(end.trace, ReleaseAll(end.impls), u);
    OpenConcat(end.trace + ReleaseAll(end.impls), UnloadAll(end.libs), u);
    UnstoredConcat(end.trace, ReleaseAll(end.impls), u, h);
    UnstoredConcat(end.trace + ReleaseAll(end.impls), UnloadAll(end.libs), u, h);
    HandlesConserved(ss, calls, windows);
  }

  // ---- when everything balances -----------------------------------------------------------------------------

  // The runtime hands over nothing that cannot be stored.
  ghost predicate Tidy(rt: Runtime) {
    if DescsOk(rt)
    then (forall i | |rt.descs.value| <= i < |ArrayOf(rt.exts)| :: ArrayOf(rt.exts)[i].None?)
         && forall i | |rt.descs.value| <= i < |ArrayOf(rt.funcs)| :: ArrayOf(rt.funcs)[i].None?
    else forall i | 0 <= i < |ArrayOf(rt.descs)| :: ArrayOf(rt.descs)[i].None?
  }

  lemma {:induction false} AllNull<T>(s: seq<Option<Ref<T>>>, h: nat)
    requires forall i | 0 <= i < |s| :: s[i].None?
    ensures Occurrences(s, h) == 0
  {
    if s != [] { AllNull(s[..|s| - 1], h); }
  }

  lemma {:induction false} OneThere<T>(s: seq<Option<Ref<T>>>, i: nat)
    requires i < |s| && s[i].Some?
    ensures Occurrences(s, s[i].value.address) > 0
  {
    if i < |s| - 1 { OneThere(s[..|s| - 1], i); }
  }

  lemma TidyLosesNothing(rt: Runtime, h: nat)
    requires Tidy(rt)
    ensures Lost(rt, h) == 0
  {
    if DescsOk(rt) {
      AllNull(Beyond(ArrayOf(rt.exts), |rt.descs.value|), h);
      AllNull(Beyond(ArrayOf(rt.funcs), |rt.descs.value|), h);
    } else {
      AllNull(ArrayOf(rt.descs), h);
    }
  }

  lemma UntidyLosesSomething(rt: Runtime) returns (h: nat)
    requires !Tidy(rt)
    ensures Lost(rt, h) > 0
  {
    if !DescsOk(rt) {
      var i :| 0 <= i < |ArrayOf(rt.descs)| && ArrayOf(rt.descs)[i].Some?;
      OneThere(ArrayOf(rt.descs), i);
      h := ArrayOf(rt.descs)[i].value.address;
    } else {
      var n := |rt.descs.value|;
      if i :| n <= i < |ArrayOf(rt.exts)| && ArrayOf(rt.exts)[i].Some? {
        OneThere(Beyond(ArrayOf(rt.exts), n), i - n);
        h := ArrayOf(rt.exts)[i].value.address;
      } else {
        var i :| n <= i < |ArrayOf(rt.funcs)| && ArrayOf(rt.funcs)[i].Some?;
        OneThere(Beyond(ArrayOf(rt.funcs), n), i - n);
        h := ArrayOf(rt.funcs)[i].value.address;
      }
    }
  }

  lemma {:induction false} LibLost(libs: seq<Lib>, env: Environment, i: nat, h: nat)
    requires i < |libs| && libs[i].libType == LibTypeVPL
    ensures LibsLost(libs, env, libs[i].uid, h) >= Lost(env.runtime(libs[i].name), h)
  {
    hide Lost;
    if i < |libs| - 1 { LibLost(libs[..|libs| - 1], env, i, h); }
  }

  lemma {:induction false} TidyLibs(libs: seq<Lib>, env: Environment, u: nat, h: nat)
    requires forall i | 0 <= i < |libs| && libs[i].libType == LibTypeVPL :: Tidy(env.runtime(libs[i].name))
    ensures LibsLost(libs, env, u, h) == 0
  {
    hide Lost, Tidy;
    if libs != [] {
      TidyLibs(libs[..|libs| - 1], env, u, h);
      var l := libs[|libs| - 1];
      if l.libType == LibTypeVPL { TidyLosesNothing(env.runtime(l.name), h); }
    }
  }

  // Every VPL runtime asked by this call is tidy.
  ghost predicate TidyCall(st: State, call: Call) {
    Queries(st, call) ==>
      var libs := Asked(st, call.env);
      forall i | 0 <= i < |libs| && libs[i].libType == LibTypeVPL :: Tidy(call.env.runtime(libs[i].name))
  }

  lemma {:induction false} TidyRun(ss: seq<State>, calls: seq<Call>, k: nat, u: nat, h: nat)
    requires IsRun(ss, calls) && k < |ss| && forall j | 0 <= j < k :: TidyCall(ss[j], calls[j])
    ensures LostUpTo(ss, calls, k, u, h) == 0
  {
    hide Step, Allowed, Tidy, Asked;
    if k > 0 {
      TidyRun(ss, calls, k - 1, u, h);
      assert TidyCall(ss[k - 1], calls[k - 1]);
      if Queries(ss[k - 1], calls[k - 1]) { TidyLibs(Asked(ss[k - 1], calls[k - 1].env), calls[k - 1].env, u, h); }
    }
  }

  lemma {:induction false} LostGrows(ss: seq<State>, calls: seq<Call>, j: nat, k: nat, u: nat, h: nat)
    requires IsRun(ss, calls) && j <= k < |ss|
    ensures LostUpTo(ss, calls, j, u, h) <= LostUpTo(ss, calls, k, u, h)
    ensures Reloaded(ss, calls, j, u) <= Reloaded(ss, calls, k, u)
  {
    hide Step, Allowed, Asked, Queries;
    if j < k { LostGrows(ss, calls, j, k - 1, u, h); }
  }

  // Every handle handed over has been given back by the end of the run iff every VPL runtime asked
  // was tidy: descriptions all present or all missing, and nothing beyond their number elsewhere.
  lemma AllGivenBackExactly(ss: seq<State>, calls: seq<Call>, windows: bool)
    requires LoaderRun(ss, calls, windows)
    ensures var t := AfterUnload(ss[|calls|]).trace;
            (forall u: nat, h: nat :: Times(t, HandOver(u, h)) == Times(t, Release(u, h))) <==>
            forall k | 0 <= k < |calls| :: TidyCall(ss[k], calls[k])
  {
    hide Step, Allowed, Tidy, AfterUnload, Times, Asked, Queries;
    var t, n := AfterUnload(ss[|calls|]).trace, |calls|;
    if forall k | 0 <= k < n :: TidyCall(ss[k], calls[k]) {
      forall u: nat, h: nat ensures Times(t, HandOver(u, h)) == Times(t, Release(u, h)) {
        FinalAccounts(ss, calls, windows, u, h);
        TidyRun(ss, calls, n, u, h);
      }
    } else {
      var k :| 0 <= k < n && !TidyCall(ss[k], calls[k]);
      var u, h := UntidyCallLoses(ss, calls, k);
      LostGrows(ss, calls, k + 1, n, u, h);
      FinalAccounts(ss, calls, windows, u, h);
      assert Times(t, HandOver(u, h)) != Times(t, Release(u, h));
    }
  }

  lemma UntidyCallLoses(ss: seq<State>, calls: seq<Call>, k: nat) returns (u: nat, h: nat)
    requires IsRun(ss, calls) && k < |calls| && !TidyCall(ss[k], calls[k])
    ensures LostUpTo(ss, calls, k + 1, u, h) > 0
  {
    hide Step, Allowed, Tidy, Asked, Lost;
    var env := calls[k].env;
    var libs := Asked(ss[k], env);
    var i :| 0 <= i < |libs| && libs[i].libType == LibTypeVPL && !Tidy(env.runtime(libs[i].name));
    u := libs[i].uid;
    h := UntidyLosesSomething(env.runtime(libs[i].name));
    LibLost(libs, env, i, h);
  }

  // ---- modules loaded twice --------------------------------------------------------------------------------

  lemma {:induction false} HoldingSome(libs: seq<Lib>, i: nat)
    requires i < |libs| && libs[i].loaded
    ensures Holding(libs, libs[i].uid) > 0
  {
    if i < |libs| - 1 { HoldingSome(libs[..|libs| - 1], i); }
  }

  lemma {:induction false} HoldingNone(libs: seq<Lib>, u: nat)
    requires forall i | 0 <= i < |libs| :: !libs[i].loaded
    ensures Holding(libs, u) == 0
  {
    if libs != [] { HoldingNone(libs[..|libs| - 1], u); }
  }

  // The call is not a full query that finds a library listed with its module loaded, from an earlier
  // query that failed.
  ghost predicate FreshCall(st: State, call: Call) {
    Queries(st, call) ==> forall i | 0 <= i < |st.libs| :: !st.libs[i].loaded
  }

  lemma {:induction false} FreshRun(ss: seq<State>, calls: seq<Call>, k: nat, u: nat)
    requires IsRun(ss, calls) && k < |ss| && forall j | 0 <= j < k :: FreshCall(ss[j], calls[j])
    ensures Reloaded(ss, calls, k, u) == 0
  {
    hide Step, Allowed;
    if k > 0 {
      FreshRun(ss, calls, k - 1, u);
      assert FreshCall(ss[k - 1], calls[k - 1]);
      if Queries(ss[k - 1], calls[k - 1]) { HoldingNone(ss[k - 1].libs, u); }
    }
  }

  // Every module has been closed as often as loaded by the end of the run iff no full query found a
  // library still listed with its module loaded.
  lemma AllClosedExactly(ss: seq<State>, calls: seq<Call>, windows: bool)
    requires LoaderRun(ss, calls, windows)
    ensures var t := AfterUnload(ss[|calls|]).trace;
            (forall u: nat :: Times(t, Load(u)) == Times(t, Close(u))) <==>
            forall k | 0 <= k < |calls| :: FreshCall(ss[k], calls[k])
  {
    hide Step, Allowed, AfterUnload, Times;
    var t, n := AfterUnload(ss[|calls|]).trace, |calls|;
    if forall k | 0 <= k < n :: FreshCall(ss[k], calls[k]) {
      forall u: nat ensures Times(t, Load(u)) == Times(t, Close(u)) {
        FinalAccounts(ss, calls, windows, u, 0);
        FreshRun(ss, calls, n, u);
      }
    } else {
      var k :| 0 <= k < n && !FreshCall(ss[k], calls[k]);
      var i :| 0 <= i < |ss[k].libs| && ss[k].libs[i].loaded;
      var u := ss[k].libs[i].uid;
      HoldingSome(ss[k].libs, i);
      LostGrows(ss, calls, k + 1, n, u, 0);
      FinalAccounts(ss, calls, windows, u, 0);
      assert Times(t, Load(u)) != Times(t, Close(u));
    }
  }
}
