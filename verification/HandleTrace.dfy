// Bookkeeping of runtime handles and library objects over the trace of foreign calls.
module HandleTrace {
  import opened ImplOrder
  import opened LoaderState
  import opened StableSort
  import opened VplTypes

  function Uids(libs: seq<Lib>): set<nat> { set k | 0 <= k < |libs| :: libs[k].uid }

  ghost predicate DistinctLibs(libs: seq<Lib>) { forall i, j | 0 <= i < j < |libs| :: libs[i].uid != libs[j].uid }

  // Nothing mentions a library after it has been unloaded; in particular it is unloaded once.
  ghost predicate Safe(trace: seq<Event>) {
    forall i, j | 0 <= i < j < |trace| && trace[i].Unload? :: trace[j].uid != trace[i].uid
  }

  // Of the libraries created so far, exactly those not present have been unloaded.
  ghost predicate UnloadsMatch(trace: seq<Event>, present: set<nat>, next: nat) {
    && (forall u | u in present :: u < next)
    && forall u: nat :: Unload(u) in trace <==> u < next && u !in present
  }

  // Each handle attached has been released, or would be by unloading the implementations held.
  ghost predicate Balanced(trace: seq<Event>, impls: seq<Impl>) {
    forall u: nat, h: nat :: multiset(trace)[Attach(u, h)] ==
                             multiset(trace)[Release(u, h)] + multiset(ReleaseAll(impls))[Release(u, h)]
  }

  ghost predicate OwnersPresent(impls: seq<Impl>, present: set<nat>) {
    forall k | 0 <= k < |impls| && impls[k].info.libType == LibTypeVPL :: impls[k].info.libUid in present
  }

  ghost predicate TraceOk(trace: seq<Event>, present: set<nat>, next: nat, impls: seq<Impl>) {
    Safe(trace) && UnloadsMatch(trace, present, next) && Balanced(trace, impls) && OwnersPresent(impls, present)
  }

  // ---- elementary steps ---------------------------------------------------------------------------

  lemma SafeAppend(trace: seq<Event>, more: seq<Event>)
    requires Safe(trace)
    requires forall k | 0 <= k < |more| :: !more[k].Unload? && Unload(more[k].uid) !in trace
    ensures Safe(trace + more)
  {
    forall i, j | 0 <= i < j < |trace + more| && (trace + more)[i].Unload?
      ensures (trace + more)[j].uid != (trace + more)[i].uid
    {
      if j >= |trace| {
        assert i < |trace| && trace[i] == Unload(trace[i].uid) && trace[i] in trace;
      }
    }
  }

  lemma StepUnload(trace: seq<Event>, present: set<nat>, next: nat, impls: seq<Impl>, u: nat)
    requires TraceOk(trace, present, next, impls) && u in present
    requires OwnersPresent(impls, present - {u})
    ensures TraceOk(trace + [Unload(u)], present - {u}, next, impls)
  {
    var t := trace + [Unload(u)];
    assert Unload(u) !in trace;
    forall i, j | 0 <= i < j < |t| && t[i].Unload? ensures t[j].uid != t[i].uid {
      if j == |trace| { assert t[i] == trace[i] && trace[i] == Unload(trace[i].uid) && trace[i] in trace; }
    }
    forall v: nat ensures Unload(v) in t <==> v < next && v !in present - {u} {
      assert Unload(v) in t <==> Unload(v) in trace || v == u;
    }
    forall e: Event | !e.Unload? ensures multiset(t)[e] == multiset(trace)[e] {}
  }

  // Loading, closing and being handed something leave the books as they are.
  ghost predicate Neutral(more: seq<Event>, u: nat) {
    forall k | 0 <= k < |more| :: (more[k].Load? || more[k].Close? || more[k].HandOver?) && more[k].uid == u
  }

  lemma StepNeutral(trace: seq<Event>, present: set<nat>, next: nat, impls: seq<Impl>, u: nat, more: seq<Event>)
    requires TraceOk(trace, present, next, impls) && u in present && Neutral(more, u)
    ensures TraceOk(trace + more, present, next, impls)
  {
    var t := trace + more;
    SafeAppend(trace, more);
    forall e: Event | e in more ensures e.Load? || e.Close? || e.HandOver? {
      var k :| 0 <= k < |more| && more[k] == e;
    }
    forall v: nat, h: nat
      ensures Unload(v) !in more && Attach(v, h) !in multiset(more) && Release(v, h) !in multiset(more)
    {}
    assert multiset(t) == multiset(trace) + multiset(more);
  }

  lemma StepClose(trace: seq<Event>, present: set<nat>, next: nat, impls: seq<Impl>, l: Lib)
    requires TraceOk(trace, present, next, impls) && l.uid in present
    requires OwnersPresent(impls, present - {l.uid})
    ensures TraceOk(trace + CloseEvents(l), present - {l.uid}, next, impls)
  {
    var closed := if l.loaded then [Close(l.uid)] else [];
    StepNeutral(trace, present, next, impls, l.uid, closed);
    StepUnload(trace + closed, present, next, impls, l.uid);
    assert trace + CloseEvents(l) == trace + closed + [Unload(l.uid)];
  }

  lemma EventCounts(d: ImplData, u: nat, h: nat)
    ensures multiset(AttachEvents(d))[Release(u, h)] == 0 && multiset(ReleaseEvents(d))[Attach(u, h)] == 0
    ensures d.libType == LibTypeVPL ==>
            multiset(AttachEvents(d))[Attach(u, h)] == multiset(ReleaseEvents(d))[Release(u, h)]
    ensures d.libType != LibTypeVPL ==> ReleaseEvents(d) == []
    ensures forall v: nat :: Unload(v) !in AttachEvents(d) && Unload(v) !in ReleaseEvents(d)
  {
    if d.libType == LibTypeVPL { SameCounts(d.libUid, HandleList(d.handles), u, h, AttachEvents(d), ReleaseEvents(d)); }
  }

  lemma {:induction false} SameCounts(uid: nat, hs: seq<nat>, u: nat, h: nat, a: seq<Event>, r: seq<Event>)
    requires |a| == |r| == |hs|
    requires forall i | 0 <= i < |hs| :: a[i] == Attach(uid, hs[i]) && r[i] == Release(uid, hs[i])
    ensures multiset(a)[Attach(u, h)] == multiset(r)[Release(u, h)]
  {
    if hs != [] {
      assert a == [a[0]] + a[1..] && r == [r[0]] + r[1..];
      SameCounts(uid, hs[1..], u, h, a[1..], r[1..]);
    }
  }

  // An implementation of a present VPL library is attached and kept.
  lemma StepAttach(trace: seq<Event>, present: set<nat>, next: nat, impls: seq<Impl>, v: Impl)
    requires TraceOk(trace, present, next, impls)
    requires v.info.libType == LibTypeVPL && v.info.libUid in present
    ensures TraceOk(trace + AttachEvents(v.info), present, next, impls + [v])
  {
    var a, t := AttachEvents(v.info), trace + AttachEvents(v.info);
    EventCounts(v.info, 0, 0);
    SafeAppend(trace, a);
    ReleaseAllAppend(impls, v);
    forall u: nat, h: nat
      ensures multiset(t)[Attach(u, h)] == multiset(t)[Release(u, h)] + multiset(ReleaseAll(impls + [v]))[Release(u, h)]
    {
      EventCounts(v.info, u, h);
    }
  }

  lemma RejectBalanced(trace: seq<Event>, impls: seq<Impl>, d: ImplData)
    requires Balanced(trace, impls) && d.libType == LibTypeVPL
    ensures Balanced(trace + (AttachEvents(d) + ReleaseEvents(d)), impls)
  {
    var a, r := AttachEvents(d), ReleaseEvents(d);
    forall u: nat, h: nat
      ensures multiset(trace + (a + r))[Attach(u, h)] ==
              multiset(trace + (a + r))[Release(u, h)] + multiset(ReleaseAll(impls))[Release(u, h)]
    {
      EventCounts(d, u, h);
      hide AttachEvents, ReleaseEvents, ReleaseAll;
    }
  }

  lemma RejectUnloads(trace: seq<Event>, present: set<nat>, next: nat, d: ImplData)
    requires UnloadsMatch(trace, present, next) && Safe(trace) && d.libUid in present
    ensures var t := trace + (AttachEvents(d) + ReleaseEvents(d)); UnloadsMatch(t, present, next) && Safe(t)
  {
    SafeAppend(trace, AttachEvents(d) + ReleaseEvents(d));
    hide Safe;
  }

  // ... or attached and at once released, when the library lacks functions.
  lemma StepReject(trace: seq<Event>, present: set<nat>, next: nat, impls: seq<Impl>, d: ImplData)
    requires TraceOk(trace, present, next, impls)
    requires d.libType == LibTypeVPL && d.libUid in present
    ensures TraceOk(trace + AttachEvents(d) + ReleaseEvents(d), present, next, impls)
  {
    hide Safe, UnloadsMatch, Balanced, OwnersPresent, AttachEvents, ReleaseEvents;
    RejectBalanced(trace, impls, d);
    RejectUnloads(trace, present, next, d);
    var a, r := AttachEvents(d), ReleaseEvents(d);
    assert trace + a + r == trace + (a + r);
  }

  lemma StepMsdk(trace: seq<Event>, present: set<nat>, next: nat, impls: seq<Impl>, v: Impl)
    requires TraceOk(trace, present, next, impls) && v.info.libType == LibTypeMSDK
    ensures TraceOk(trace, present, next, impls + [v])
  {
    ReleaseAllAppend(impls, v);
    EventCounts(v.info, 0, 0);
    assert ReleaseAll(impls + [v]) == ReleaseAll(impls);
  }

  lemma ReleaseAllAppend(s: seq<Impl>, v: Impl)
    ensures ReleaseAll(s + [v]) == ReleaseAll(s) + ReleaseEvents(v.info)
  {
    assert (s + [v])[..|s|] == s;
  }

  lemma {:induction false} ReleaseAllConcat(s: seq<Impl>, t: seq<Impl>)
    ensures ReleaseAll(s + t) == ReleaseAll(s) + ReleaseAll(t)
  {
    hide ReleaseEvents;
    if t == [] {
      assert s + t == s;
    } else {
      var init, x := t[..|t| - 1], t[|t| - 1];
      ReleaseAllConcat(s, init);
      ReleaseAllAppend(s + init, x);
      ReleaseAllAppend(init, x);
      assert t == init + [x] && s + t == (s + init) + [x];
    }
  }

  // Rearranging or renumbering the list does not change what it holds.
  lemma {:induction false} ReleaseAllPermuted(s: seq<Impl>, t: seq<Impl>)
    requires multiset(s) == multiset(t)
    ensures multiset(ReleaseAll(s)) == multiset(ReleaseAll(t))
  {
    assert |multiset(s)| == |s| && |multiset(t)| == |t|;
    if t != [] {
      var x, init := t[|t| - 1], t[..|t| - 1];
      assert t == init + [x];
      assert x in multiset(s);
      var i :| 0 <= i < |s| && s[i] == x;
      var rest := s[..i] + s[i + 1..];
      assert s == s[..i] + [x] + s[i + 1..];
      assert multiset(s) == multiset(s[..i]) + multiset{x} + multiset(s[i + 1..]);
      assert multiset(rest) == multiset(s) - multiset{x};
      assert multiset(init) == multiset(t) - multiset{x};
      ReleaseAllPermuted(rest, init);
      ReleaseAllConcat(s[..i], s[i + 1..]);
      ReleaseAllConcat(s[..i] + [x], s[i + 1..]);
      ReleaseAllAppend(s[..i], x);
    }
  }

  lemma {:induction false} ReleaseAllSameData(s: seq<Impl>, t: seq<Impl>)
    requires |s| == |t| && forall i | 0 <= i < |s| :: s[i].info == t[i].info
    ensures ReleaseAll(s) == ReleaseAll(t)
  {
    if s != [] { ReleaseAllSameData(s[..|s| - 1], t[..|t| - 1]); }
  }

  lemma StepSameData(trace: seq<Event>, present: set<nat>, next: nat, s: seq<Impl>, t: seq<Impl>)
    requires TraceOk(trace, present, next, s)
    requires |s| == |t| && forall i | 0 <= i < |s| :: s[i].info == t[i].info
    ensures TraceOk(trace, present, next, t)
  {
    ReleaseAllSameData(s, t);
  }

  lemma StepPermuted(trace: seq<Event>, present: set<nat>, next: nat, s: seq<Impl>, t: seq<Impl>)
    requires TraceOk(trace, present, next, s) && multiset(s) == multiset(t)
    ensures TraceOk(trace, present, next, t)
  {
    ReleaseAllPermuted(s, t);
    forall k | 0 <= k < |t| && t[k].info.libType == LibTypeVPL ensures t[k].info.libUid in present {
      assert t[k] in multiset(t);
      assert t[k] in s;
    }
  }

  lemma StepPrioritize(trace: seq<Event>, present: set<nat>, next: nat, s: seq<Impl>, priorityPath: bool)
    requires TraceOk(trace, present, next, s)
    ensures TraceOk(trace, present, next, Prioritize(s, priorityPath))
  {
    OrderIsInOrder(s, priorityPath);
    var t := Order(s, InfoOf, priorityPath);
    StepPermuted(trace, present, next, s, t);
    StepSameData(trace, present, next, t, Renumber(t));
  }

  // ---- the library phases of a full query -----------------------------------------------------------------

  lemma UidsAppend(libs: seq<Lib>, l: Lib)
    ensures Uids(libs + [l]) == Uids(libs) + {l.uid}
  {
    assert forall k | 0 <= k < |libs| :: (libs + [l])[k] == libs[k];
    assert (libs + [l])[|libs|] == l;
  }

  ghost predicate LibsTraceOk(st: State) {
    DistinctLibs(st.libs) && TraceOk(st.trace, Uids(st.libs), st.uidNext, st.impls)
  }

  lemma StepNewLib(trace: seq<Event>, present: set<nat>, next: nat, impls: seq<Impl>)
    requires TraceOk(trace, present, next, impls)
    ensures TraceOk(trace, present + {next}, next + 1, impls) && next !in present
  {
    assert Unload(next) !in trace;
  }

  lemma {:induction false} AddCandidatesOk(st: State, cs: seq<Candidate>)
    requires LibsTraceOk(st)
    ensures LibsTraceOk(AddCandidates(st, cs))
    ensures AddCandidates(st, cs).impls == st.impls
  {
    if cs != [] {
      AddCandidatesOk(st, cs[..|cs| - 1]);
      var p := AddCandidates(st, cs[..|cs| - 1]);
      var lib := NewLib(p.uidNext, cs[|cs| - 1]);
      StepNewLib(p.trace, Uids(p.libs), p.uidNext, p.impls);
      DistinctAppend(p.libs, lib);
      UidsAppend(p.libs, lib);
    }
  }

  lemma DistinctAppend(kept: seq<Lib>, l: Lib)
    requires DistinctLibs(kept) && l.uid !in Uids(kept)
    ensures DistinctLibs(kept + [l])
  {
    assert forall k | 0 <= k < |kept| :: kept[k].uid in Uids(kept);
  }

  lemma {:induction false} UidsConcat(a: seq<Lib>, b: seq<Lib>)
    ensures Uids(a + b) == Uids(a) + Uids(b)
  {
    if b == [] {
      assert a + b == a;
    } else {
      var init, l := b[..|b| - 1], b[|b| - 1];
      assert a + b == (a + init) + [l] && b == init + [l];
      UidsConcat(a, init);
      UidsAppend(a + init, l);
      UidsAppend(init, l);
    }
  }

  // A walk over libs has dealt with its first n entries and kept some of them; those and all of
  // the rest are still present.
  ghost predicate WalkOk(trace: seq<Event>, kept: seq<Lib>, libs: seq<Lib>, n: nat, next: nat, impls: seq<Impl>)
  {
    && n <= |libs| && DistinctLibs(libs) && DistinctLibs(kept)
    && Uids(kept) <= Uids(libs[..n])
    && TraceOk(trace, Uids(kept) + Uids(libs[n..]), next, impls)
    && OwnersPresent(impls, Uids(kept))
  }

  lemma SplitUids(libs: seq<Lib>, n: nat)
    requires n < |libs| && DistinctLibs(libs)
    ensures Uids(libs[n..]) == {libs[n].uid} + Uids(libs[n + 1..])
    ensures Uids(libs[..n + 1]) == Uids(libs[..n]) + {libs[n].uid}
    ensures libs[n].uid !in Uids(libs[..n]) && libs[n].uid !in Uids(libs[n + 1..])
  {
    assert libs[n..] == [libs[n]] + libs[n + 1..];
    UidsConcat([libs[n]], libs[n + 1..]);
    assert [] + [libs[n]] == [libs[n]];
    UidsAppend([], libs[n]);
    assert libs[..n + 1] == libs[..n] + [libs[n]];
    UidsAppend(libs[..n], libs[n]);
  }

  lemma WalkStart(trace: seq<Event>, libs: seq<Lib>, next: nat, impls: seq<Impl>)
    requires DistinctLibs(libs) && TraceOk(trace, Uids(libs), next, impls) && OwnersPresent(impls, {})
    ensures WalkOk(trace, [], libs, 0, next, impls)
  {
    assert libs[..0] == [] && libs[0..] == libs;
    assert Uids([]) + Uids(libs) == Uids(libs);
  }

  lemma WalkEnd(trace: seq<Event>, kept: seq<Lib>, libs: seq<Lib>, next: nat, impls: seq<Impl>)
    requires WalkOk(trace, kept, libs, |libs|, next, impls)
    ensures DistinctLibs(kept) && TraceOk(trace, Uids(kept), next, impls)
  {
    assert libs[|libs|..] == [];
    assert Uids(kept) + Uids([]) == Uids(kept);
  }

  // The next library is kept, possibly changed but the same object.
  lemma WalkKeep(trace: seq<Event>, kept: seq<Lib>, libs: seq<Lib>, n: nat, next: nat, impls: seq<Impl>, l: Lib)
    requires n < |libs| && WalkOk(trace, kept, libs, n, next, impls) && l.uid == libs[n].uid
    ensures WalkOk(trace, kept + [l], libs, n + 1, next, impls)
  {
    SplitUids(libs, n);
    UidsAppend(kept, l);
    assert Uids(kept + [l]) + Uids(libs[n + 1..]) == Uids(kept) + Uids(libs[n..]);
    assert forall k | 0 <= k < |kept| :: kept[k].uid in Uids(kept);
  }

  // ... or it is unloaded.
  lemma WalkDrop(trace: seq<Event>, kept: seq<Lib>, libs: seq<Lib>, n: nat, next: nat, impls: seq<Impl>, l: Lib)
    requires n < |libs| && WalkOk(trace, kept, libs, n, next, impls) && l.uid == libs[n].uid
    ensures WalkOk(trace + CloseEvents(l), kept, libs, n + 1, next, impls)
  {
    SplitUids(libs, n);
    var u, present := libs[n].uid, Uids(kept) + Uids(libs[n..]);
    assert u !in Uids(kept);
    assert present - {u} == Uids(kept) + Uids(libs[n + 1..]);
    StepClose(trace, present, next, impls, l);
  }

  // While a library is being dealt with, neutral events about it may occur.
  lemma WalkNeutral(trace: seq<Event>, kept: seq<Lib>, libs: seq<Lib>, n: nat, next: nat, impls: seq<Impl>,
                    more: seq<Event>)
    requires n < |libs| && WalkOk(trace, kept, libs, n, next, impls) && Neutral(more, libs[n].uid)
    ensures WalkOk(trace + more, kept, libs, n, next, impls)
  {
    SplitUids(libs, n);
    StepNeutral(trace, Uids(kept) + Uids(libs[n..]), next, impls, libs[n].uid, more);
  }

  lemma ProbeOneOk(trace: seq<Event>, kept: seq<Lib>, libs: seq<Lib>, n: nat, next: nat, rt: Runtime, windows: bool)
    requires n < |libs| && WalkOk(trace, kept, libs, n, next, [])
    ensures var p := Probe(libs[n], rt, windows);
            WalkOk(trace + LoadEvents(libs[n], rt, windows), kept + (if p.Some? then [p.value] else []), libs,
                   n + 1, next, [])
  {
    hide WalkOk;
    var lib, p := libs[n], Probe(libs[n], rt, windows);
    var loads := if rt.loads then [Load(lib.uid)] else [];
    WalkNeutral(trace, kept, libs, n, next, [], loads);
    if p.None? {
      WalkDrop(trace + loads, kept, libs, n, next, [], lib.(loaded := rt.loads));
      assert kept + [] == kept;
      assert trace + LoadEvents(lib, rt, windows) == trace + loads + CloseEvents(lib.(loaded := rt.loads));
    } else {
      var more := if rt.loads && !p.value.loaded then [Close(lib.uid)] else [];
      WalkNeutral(trace + loads, kept, libs, n, next, [], more);
      WalkKeep(trace + loads + more, kept, libs, n, next, [], p.value);
      assert trace + LoadEvents(lib, rt, windows) == trace + loads + more;
    }
  }

  lemma {:induction false} ProbeAllOk(st: State, env: Environment, n: nat)
    requires LibsTraceOk(st) && st.impls == [] && n <= |st.libs|
    ensures WalkOk(st.trace + ProbeEvents(st.libs[..n], env, st.windows), ProbeAll(st.libs[..n], env, st.windows),
                   st.libs, n, st.uidNext, [])
  {
    hide WalkOk, TraceOk, Probe, LoadEvents;
    if n == 0 {
      assert st.libs[..0] == [] && st.trace + [] == st.trace;
      WalkStart(st.trace, st.libs, st.uidNext, []);
    } else {
      ProbeAllOk(st, env, n - 1);
      assert st.libs[..n][..n - 1] == st.libs[..n - 1];
      var lib := st.libs[n - 1];
      var kept := ProbeAll(st.libs[..n - 1], env, st.windows);
      var unloads := ProbeEvents(st.libs[..n - 1], env, st.windows);
      var t := st.trace + unloads;
      ProbeOneOk(t, kept, st.libs, n - 1, st.uidNext, env.runtime(lib.name), st.windows);
      assert st.trace + (unloads + LoadEvents(lib, env.runtime(lib.name), st.windows)) ==
             t + LoadEvents(lib, env.runtime(lib.name), st.windows);
    }
  }

  lemma {:induction false} PruneOk(trace: seq<Event>, libs: seq<Lib>, best: Option<Lib>, next: nat, n: nat)
    requires DistinctLibs(libs) && TraceOk(trace, Uids(libs), next, []) && n <= |libs|
    ensures WalkOk(trace + PruneEvents(libs[..n], best), Prune(libs[..n], best), libs, n, next, [])
  {
    hide WalkOk, TraceOk, Kept;
    if n == 0 {
      assert libs[..0] == [] && trace + [] == trace;
      WalkStart(trace, libs, next, []);
    } else {
      PruneOk(trace, libs, best, next, n - 1);
      assert libs[..n][..n - 1] == libs[..n - 1];
      var lib := libs[n - 1];
      var kept := Prune(libs[..n - 1], best);
      var unloads := PruneEvents(libs[..n - 1], best);
      var t := trace + unloads;
      if Kept(lib, best) {
        WalkKeep(t, kept, libs, n - 1, next, [], lib);
        assert unloads + [] == unloads;
      } else {
        WalkDrop(t, kept, libs, n - 1, next, [], lib);
        assert trace + (unloads + CloseEvents(lib)) == t + CloseEvents(lib);
        assert kept + [] == kept;
      }
    }
  }

  lemma CheckLibsOk(st: State, env: Environment)
    requires LibsTraceOk(st) && st.impls == []
    ensures LibsTraceOk(CheckLibs(st, env))
  {
    var probed := ProbeAll(st.libs, env, st.windows);
    var t := st.trace + ProbeEvents(st.libs, env, st.windows);
    assert st.libs[..|st.libs|] == st.libs && probed[..|probed|] == probed;
    ProbeAllOk(st, env, |st.libs|);
    WalkEnd(t, probed, st.libs, st.uidNext, []);
    PruneOk(t, probed, ChosenMsdk(probed), st.uidNext, |probed|);
    WalkEnd(t + PruneEvents(probed, ChosenMsdk(probed)), Prune(probed, ChosenMsdk(probed)), probed, st.uidNext, []);
  }

  // ---- querying the libraries ---------------------------------------------------------------------------------

  lemma OwnersAppend(impls: seq<Impl>, v: Impl, present: set<nat>)
    requires OwnersPresent(impls, present) && (v.info.libType == LibTypeVPL ==> v.info.libUid in present)
    ensures OwnersPresent(impls + [v], present)
  {}

  lemma AddVplOneOk(q: Query, lib: Lib, rt: Runtime, i: nat, present: set<nat>, next: nat, kept: set<nat>)
    requires DescsOk(rt) && i < |rt.descs.value|
    requires lib.libType == LibTypeVPL && lib.uid in present && lib.uid in kept
    requires TraceOk(q.trace, present, next, q.impls) && OwnersPresent(q.impls, kept)
    ensures var r := AddVplOne(q, lib, rt, i);
            TraceOk(r.trace, present, next, r.impls) && OwnersPresent(r.impls, kept) && r.libs == q.libs
  {
    hide TraceOk, ExportsComplete, OwnersPresent, AttachEvents, ReleaseEvents;
    var d := VplData(lib, rt, i, q.next);
    if ExportsComplete(lib.table, d.caps.desc.apiVersion) {
      StepAttach(q.trace, present, next, q.impls, NewImpl(d));
      OwnersAppend(q.impls, NewImpl(d), kept);
    } else {
      StepReject(q.trace, present, next, q.impls, d);
    }
  }

  lemma {:induction false} AddVplOk(q: Query, lib: Lib, rt: Runtime, n: nat, present: set<nat>, next: nat,
                                    kept: set<nat>)
    requires DescsOk(rt) && n <= |rt.descs.value|
    requires lib.libType == LibTypeVPL && lib.uid in present && lib.uid in kept
    requires TraceOk(q.trace, present, next, q.impls) && OwnersPresent(q.impls, kept)
    ensures var r := AddVpl(q, lib, rt, n);
            TraceOk(r.trace, present, next, r.impls) && OwnersPresent(r.impls, kept) && r.libs == q.libs
  {
    hide TraceOk, OwnersPresent, AddVplOne;
    if n > 0 {
      AddVplOk(q, lib, rt, n - 1, present, next, kept);
      AddVplOneOk(AddVpl(q, lib, rt, n - 1), lib, rt, n - 1, present, next, kept);
    }
  }

  lemma AddMsdkOneOk(q: Query, lib: Lib, rt: Runtime, i: nat, present: set<nat>, next: nat, kept: set<nat>)
    requires i < MAX_NUM_IMPL_MSDK && lib.libType == LibTypeMSDK
    requires TraceOk(q.trace, present, next, q.impls) && OwnersPresent(q.impls, kept)
    ensures var r := AddMsdkOne(q, lib, rt, i);
            TraceOk(r.trace, present, next, r.impls) && OwnersPresent(r.impls, kept) && r.libs == q.libs
  {
    if rt.adapters[i].Some? {
      var v := NewImpl(MsdkData(lib, rt.adapters[i].value, i, q.next));
      StepMsdk(q.trace, present, next, q.impls, v);
      OwnersAppend(q.impls, v, kept);
    }
  }

  lemma {:induction false} AddMsdkOk(q: Query, lib: Lib, rt: Runtime, n: nat, present: set<nat>, next: nat,
                                     kept: set<nat>)
    requires n <= MAX_NUM_IMPL_MSDK && lib.libType == LibTypeMSDK
    requires TraceOk(q.trace, present, next, q.impls) && OwnersPresent(q.impls, kept)
    ensures var r := AddMsdk(q, lib, rt, n);
            TraceOk(r.trace, present, next, r.impls) && OwnersPresent(r.impls, kept) && r.libs == q.libs
  {
    hide TraceOk, OwnersPresent, AddMsdkOne;
    if n > 0 {
      AddMsdkOk(q, lib, rt, n - 1, present, next, kept);
      AddMsdkOneOk(AddMsdk(q, lib, rt, n - 1), lib, rt, n - 1, present, next, kept);
    }
  }

  lemma {:induction false} HandOverAllShape<T>(uid: nat, s: seq<Option<Ref<T>>>)
    ensures forall k | 0 <= k < |HandOverAll(uid, s)| ::
            HandOverAll(uid, s)[k].HandOver? && HandOverAll(uid, s)[k].uid == uid
  {
    if s != [] { HandOverAllShape(uid, s[..|s| - 1]); }
  }

  lemma HandOverNeutral(uid: nat, rt: Runtime)
    ensures Neutral(HandOverEvents(uid, rt), uid)
  {
    HandOverAllShape(uid, ArrayOf(rt.descs));
    HandOverAllShape(uid, ArrayOf(rt.exts));
    HandOverAllShape(uid, ArrayOf(rt.funcs));
  }

  lemma QueryLibOk(q: Query, libs: seq<Lib>, n: nat, rt: Runtime, next: nat)
    requires n < |libs| && WalkOk(q.trace, q.libs, libs, n, next, q.impls)
    ensures var r := QueryLib(q, libs[n], rt); WalkOk(r.trace, r.libs, libs, n + 1, next, r.impls)
  {
    var lib := libs[n];
    var present := Uids(q.libs) + Uids(libs[n..]);
    SplitUids(libs, n);
    if lib.libType == LibTypeVPL {
      HandOverNeutral(lib.uid, rt);
      WalkNeutral(q.trace, q.libs, libs, n, next, q.impls, HandOverEvents(lib.uid, rt));
      var d := q.(trace := q.trace + HandOverEvents(lib.uid, rt));
      if DescsOk(rt) {
        UidsAppend(q.libs, lib);
        AddVplOk(d, lib, rt, |rt.descs.value|, present, next, Uids(q.libs + [lib]));
        var p := AddVpl(d, lib, rt, |rt.descs.value|);
        WalkKeepNew(p.trace, q.libs, libs, n, next, p.impls);
      } else {
        WalkDrop(d.trace, q.libs, libs, n, next, q.impls, lib);
      }
    } else if lib.libType == LibTypeMSDK {
      AddMsdkOk(q, lib, rt, MAX_NUM_IMPL_MSDK, present, next, Uids(q.libs));
      var p := AddMsdk(q, lib, rt, MAX_NUM_IMPL_MSDK);
      if p.next == q.next {
        WalkDrop(p.trace, q.libs, libs, n, next, p.impls, lib);
      } else {
        WalkKeep(p.trace, q.libs, libs, n, next, p.impls, lib);
      }
    } else {
      WalkKeep(q.trace, q.libs, libs, n, next, q.impls, lib);
    }
  }

  lemma WalkKeepNew(trace: seq<Event>, kept: seq<Lib>, libs: seq<Lib>, n: nat, next: nat, impls: seq<Impl>)
    requires n < |libs| && DistinctLibs(libs) && DistinctLibs(kept) && Uids(kept) <= Uids(libs[..n])
    requires TraceOk(trace, Uids(kept) + Uids(libs[n..]), next, impls)
    requires OwnersPresent(impls, Uids(kept + [libs[n]]))
    ensures WalkOk(trace, kept + [libs[n]], libs, n + 1, next, impls)
  {
    SplitUids(libs, n);
    UidsAppend(kept, libs[n]);
    assert Uids(kept + [libs[n]]) + Uids(libs[n + 1..]) == Uids(kept) + Uids(libs[n..]);
    assert forall k | 0 <= k < |kept| :: kept[k].uid in Uids(kept);
  }

  lemma {:induction false} QueryLibsOk(q: Query, libs: seq<Lib>, n: nat, env: Environment, next: nat)
    requires n <= |libs| && WalkOk(q.trace, q.libs, libs, 0, next, q.impls)
    ensures var r := QueryLibs(q, libs[..n], env); WalkOk(r.trace, r.libs, libs, n, next, r.impls)
  {
    if n == 0 {
      assert libs[..0] == [];
    } else {
      QueryLibsOk(q, libs, n - 1, env, next);
      assert libs[..n][..n - 1] == libs[..n - 1];
      QueryLibOk(QueryLibs(q, libs[..n - 1], env), libs, n - 1, env.runtime(libs[n - 1].name), next);
    }
  }

  lemma QueryCapsOk(st: State, env: Environment)
    requires LibsTraceOk(st) && st.impls == []
    ensures LibsTraceOk(QueryCaps(st, env))
  {
    var q0 := Query([], st.impls, st.implIdxNext, st.trace);
    WalkStart(st.trace, st.libs, st.uidNext, []);
    QueryLibsOk(q0, st.libs, |st.libs|, env, st.uidNext);
    assert st.libs[..|st.libs|] == st.libs;
    var q := QueryLibs(q0, st.libs, env);
    WalkEnd(q.trace, q.libs, st.libs, st.uidNext, q.impls);
    var post := PostProcessAll(q.impls, q.impls, D3D9Requested(st.special));
    StepSameData(q.trace, Uids(q.libs), st.uidNext, q.impls, post);
    StepPrioritize(q.trace, Uids(q.libs), st.uidNext, post, st.priorityPath);
  }

  lemma FullQueryOk(st: State, env: Environment)
    requires LibsTraceOk(st) && st.impls == []
    ensures LibsTraceOk(FullLoadAndQuery(st, env).1)
  {
    var st0 := st.(lowLatency := false);
    AddCandidatesOk(st0, CandidatesOf(env));
    var built := BuildList(st0, env);
    CheckLibsOk(built, env);
    var checked := CheckLibs(built, env);
    if checked.libs != [] { QueryCapsOk(checked, env); }
  }

  // ---- the end of the loader's life ---------------------------------------------------------------------------

  lemma {:induction false} ReleaseAllShape(s: seq<Impl>, present: set<nat>)
    requires OwnersPresent(s, present)
    ensures forall k | 0 <= k < |ReleaseAll(s)| :: ReleaseAll(s)[k].Release? && ReleaseAll(s)[k].uid in present
  {
    if s != [] {
      var init, v := s[..|s| - 1], s[|s| - 1];
      ReleaseAllShape(init, present);
      assert v.info.libType == LibTypeVPL ==> v.info.libUid in present;
    }
  }

  // Releasing what every implementation holds leaves nothing outstanding.
  lemma ReleaseHeld(trace: seq<Event>, present: set<nat>, next: nat, impls: seq<Impl>)
    requires TraceOk(trace, present, next, impls)
    ensures TraceOk(trace + ReleaseAll(impls), present, next, [])
  {
    var r := ReleaseAll(impls);
    var t := trace + r;
    ReleaseAllShape(impls, present);
    SafeAppend(trace, r);
    forall e: Event | e in r ensures e.Release? { var k :| 0 <= k < |r| && r[k] == e; }
    forall u: nat, h: nat
      ensures multiset(t)[Attach(u, h)] == multiset(t)[Release(u, h)] + multiset(ReleaseAll([]))[Release(u, h)]
    {
      assert Attach(u, h) !in r;
      assert multiset(t) == multiset(trace) + multiset(r);
    }
  }

  lemma UnloadEach(trace: seq<Event>, libs: seq<Lib>, next: nat)
    requires DistinctLibs(libs) && TraceOk(trace, Uids(libs), next, [])
    ensures TraceOk(trace + UnloadAll(libs), {}, next, [])
  {
    UnloadEachFrom(trace, libs, |libs|, next);
    assert libs[..|libs|] == libs && libs[|libs|..] == [];
  }

  lemma UnloadAllNext(libs: seq<Lib>, n: nat)
    requires n < |libs|
    ensures UnloadAll(libs[..n + 1]) == UnloadAll(libs[..n]) + CloseEvents(libs[n])
  {
    assert libs[..n + 1][..n] == libs[..n];
  }

  lemma {:induction false} UnloadEachFrom(trace: seq<Event>, libs: seq<Lib>, n: nat, next: nat)
    requires n <= |libs| && DistinctLibs(libs) && TraceOk(trace, Uids(libs), next, [])
    ensures TraceOk(trace + UnloadAll(libs[..n]), Uids(libs[n..]), next, [])
  {
    hide TraceOk, CloseEvents, Uids;
    if n == 0 {
      assert libs[..0] == [] && libs[0..] == libs && trace + [] == trace;
    } else {
      hide UnloadAll;
      UnloadEachFrom(trace, libs, n - 1, next);
      UnloadAllNext(libs, n - 1);
      SplitUids(libs, n - 1);
      var done, x := UnloadAll(libs[..n - 1]), libs[n - 1];
      StepClose(trace + done, Uids(libs[n - 1..]), next, [], x);
      assert trace + (done + CloseEvents(x)) == (trace + done) + CloseEvents(x);
    }
  }

  // After MFXUnload every handle ever attached has been released exactly as often as it was
  // attached, every library object created has been unloaded, and no event about a library
  // follows its unloading.
  lemma UnloadSettles(st: State)
    requires LibsTraceOk(st)
    ensures var end := AfterUnload(st); end.impls == [] && end.libs == [] && end.implIdxNext == 0
    ensures var t := AfterUnload(st).trace;
            && (forall u: nat, h: nat :: multiset(t)[Attach(u, h)] == multiset(t)[Release(u, h)])
            && (forall u: nat :: Unload(u) in t <==> u < st.uidNext)
            && Safe(t)
  {
    var t := st.trace + ReleaseAll(st.impls);
    ReleaseHeld(st.trace, Uids(st.libs), st.uidNext, st.impls);
    UnloadEach(t, st.libs, st.uidNext);
    var end := t + UnloadAll(st.libs);
    forall u: nat, h: nat ensures multiset(end)[Attach(u, h)] == multiset(end)[Release(u, h)] {
      assert ReleaseAll([]) == [];
    }
  }
}
