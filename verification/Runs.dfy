// Theorems about whole runs: any sequence of calls on one loader, each query of the file system
// and the runtimes answered arbitrarily, in which no session is created in low latency mode.
module Runs {
  import opened Config
  import opened FilterLaws
  import opened Filters
  import opened HandleTrace
  import opened ImplOrder
  import opened LoaderInvariant
  import opened LoaderState
  import opened PropNames
  import opened Special
  import opened StableSort
  import opened VplTypes

  ghost predicate IsRun(ss: seq<State>, calls: seq<Call>) {
    && |ss| == |calls| + 1
    && forall k | 0 <= k < |calls| :: Allowed(ss[k], calls[k]) && ss[k + 1] == Step(ss[k], calls[k]).1
  }

  // A run of a loader from MFXLoad on.
  ghost predicate LoaderRun(ss: seq<State>, calls: seq<Call>, windows: bool) {
    IsRun(ss, calls) && ss[0] == InitialState(windows)
  }

  lemma {:induction false} RunInv(ss: seq<State>, calls: seq<Call>, k: nat)
    requires IsRun(ss, calls) && Inv(ss[0]) && k < |ss|
    ensures Inv(ss[k])
  {
    hide Inv, Allowed, Step;
    if k > 0 {
      RunInv(ss, calls, k - 1);
      StepInv(ss[k - 1], calls[k - 1]);
    }
  }

  lemma Reachable(ss: seq<State>, calls: seq<Call>, windows: bool, k: nat)
    requires LoaderRun(ss, calls, windows) && k < |ss|
    ensures Inv(ss[k])
  {
    InitialInv(windows);
    RunInv(ss, calls, k);
  }

  // ---- the cached list is never stale --------------------------------------------------------------

  lemma CurrentListStable(st: State)
    requires Inv(st) && !st.needFullQuery && !st.needUpdateValidImpls
    ensures UpdateValid(st).impls == st.impls
  {
    UpdateRenumbers(st);
    var checked := RecheckAll(st.impls, st.configs, st.special);
    assert checked == st.impls;
    assert forall i | 0 <= i < |st.impls| :: Renumber(st.impls)[i] == st.impls[i];
  }

  // Whenever neither flag asks for work, doing the work again would change neither the order of the
  // list nor any index. This covers failed calls that unset a property without raising a flag.
  lemma CacheCoherent(ss: seq<State>, calls: seq<Call>, windows: bool, k: nat)
    requires LoaderRun(ss, calls, windows) && k < |ss|
    requires !ss[k].needFullQuery && !ss[k].needUpdateValidImpls
    ensures UpdateValid(ss[k]).impls == ss[k].impls
  {
    Reachable(ss, calls, windows, k);
    CurrentListStable(ss[k]);
  }

  // ---- indices ------------------------------------------------------------------------------------------

  // In every state of every run, the indices in use are exactly 0 .. n-1, increasing in list order,
  // and all others are -1.
  lemma IndexBijection(ss: seq<State>, calls: seq<Call>, windows: bool, k: nat)
    requires LoaderRun(ss, calls, windows) && k < |ss|
    ensures var s := ss[k].impls;
            && (forall i | 0 <= i < |s| :: -1 <= s[i].validImplIdx < CountValid(s))
            && (forall i, j | 0 <= i < j < |s| && s[i].Valid() && s[j].Valid() :: s[i].validImplIdx < s[j].validImplIdx)
            && (forall n | 0 <= n < CountValid(s) :: HasIndex(s, n))
  {
    Reachable(ss, calls, windows, k);
    NumberedBijection(ss[k].impls);
  }

  // Which indices find an implementation, for every 32-bit index: those below the number of valid
  // implementations - and, read as -1, the greatest one, as soon as any implementation is invalid.
  lemma FoundExactly(s: seq<Impl>, i: u32)
    requires Numbered(s)
    ensures FindIndex(s, SignedIndex(i)) != -1 <==>
            (i < 0x8000_0000 && i < CountValid(s)) || (i == 0xFFFF_FFFF && exists k | 0 <= k < |s| :: !s[k].Valid())
    ensures i < 0x8000_0000 && i < CountValid(s) ==>
              i < |Filter(s, IsValid())| && s[FindIndex(s, SignedIndex(i))] == Filter(s, IsValid())[i]
    ensures i == 0xFFFF_FFFF ==>
              var k := FindIndex(s, SignedIndex(i));
              k >= 0 ==> !s[k].Valid() && forall j | 0 <= j < k :: s[j].Valid()
  {
    NumberedBijection(s);
    if i < 0x8000_0000 && i < CountValid(s) {
      assert HasIndex(s, i);
      EnumerationIsFilter(s, FindIndex(s, i));
    }
    if i == 0xFFFF_FFFF && exists k | 0 <= k < |s| :: !s[k].Valid() {
      var k :| 0 <= k < |s| && !s[k].Valid();
      assert s[k].validImplIdx == -1;
    }
  }

  // Both replies are about the i-th valid implementation of the list.
  ghost predicate RepliesAgree(s: seq<Impl>, i: u32, f: Format, e: Reply, c: Reply) {
    var valid := Filter(s, IsValid());
    && (e.sts == ErrNotFound <==> i >= |valid|)
    && (c.request.None? <==> i >= |valid|)
    && (i < |valid| ==> c.request.value.impl == valid[i].info && e.delivered == Deliver(valid[i], f))
  }

  lemma RepliesMeaning(s: seq<Impl>, i: u32, f: Format, sp: SpecialConfig, session: Status)
    requires Numbered(s) && i < 0x8000_0000
    ensures RepliesAgree(s, i, f, ReplyToEnumerate(s, i, f), ReplyToCreateSession(s, i, sp, false, session))
  {
    FoundExactly(s, i);
    FilterCounts(s);
  }

  // Enumeration and session creation agree with each other and with the priority order: each brings
  // the list up to date and takes its i-th valid implementation.
  lemma EnumerationMeaning(st: State, i: u32, f: Format, session: Status, env: Environment)
    requires Inv(st) && Refresh(st, env).0 == ErrNone && i < 0x8000_0000
    ensures var now := Refresh(st, env).1;
            && Order(now.impls, InfoOf, now.priorityPath) == now.impls
            && RepliesAgree(now.impls, i, f, EnumerateStep(st, i, f, env).0, CreateSessionStep(st, i, session, env).0)
            && EnumerateStep(st, i, f, env).1 == CreateSessionStep(st, i, session, env).1 == now
  {
    RefreshInv(st, env);
    var now := Refresh(st, env).1;
    ListIsNumbered(now);
    RepliesMeaning(now.impls, i, f, now.special, session);
  }

  lemma ListIsNumbered(st: State)
    requires Inv(st)
    ensures Numbered(st.impls) && Order(st.impls, InfoOf, st.priorityPath) == st.impls
  {}

  // The calls that leave a current list alone: all but a successful change of a property.
  ghost predicate Quiet(st: State, call: Call) { call.SetProperty? ==> Step(st, call).0.sts != ErrNone }

  lemma QuietStep(st: State, call: Call)
    requires !st.needFullQuery && !st.needUpdateValidImpls && Quiet(st, call)
    ensures var r := Step(st, call).1;
            !r.needFullQuery && !r.needUpdateValidImpls && r.impls == st.impls && r.special == st.special
  {}

  // If no property is changed successfully in between, creating a session with index i uses the
  // implementation that enumerating index i reported.
  lemma SessionMatchesEnumeration(ss: seq<State>, calls: seq<Call>, windows: bool, e: nat, c: nat, i: u32, f: Format)
    requires LoaderRun(ss, calls, windows) && e < c < |calls|
    requires calls[e].Enumerate? && calls[e].i == i && calls[e].format == f && Refresh(ss[e], calls[e].env).0 == ErrNone
    requires forall k | e < k < c :: Quiet(ss[k], calls[k])
    requires calls[c].CreateSession? && calls[c].i == i
    ensures var enumerated := FindIndex(ss[e + 1].impls, SignedIndex(i));
            var created := Step(ss[c], calls[c]).0;
            && (enumerated == -1 <==> created.request.None?)
            && (enumerated != -1 ==> created.request.value.impl == ss[e + 1].impls[enumerated].info)
            && Step(ss[e], calls[e]).0 == ReplyToEnumerate(ss[e + 1].impls, i, f)
  {
    hide Inv, FullLoadAndQuery, UpdateValid;
    Reachable(ss, calls, windows, e);
    RefreshInv(ss[e], calls[e].env);
    QuietRun(ss, calls, e + 1, c);
    QuietStep(ss[c], calls[c]);
  }

  lemma {:induction false} QuietRun(ss: seq<State>, calls: seq<Call>, q: nat, n: nat)
    requires IsRun(ss, calls) && q <= n < |ss|
    requires !ss[q].needFullQuery && !ss[q].needUpdateValidImpls
    requires forall k | q <= k < n :: Quiet(ss[k], calls[k])
    ensures !ss[n].needFullQuery && !ss[n].needUpdateValidImpls
    ensures ss[n].impls == ss[q].impls && ss[n].special == ss[q].special
    decreases n
  {
    hide Step;
    if n > q {
      QuietRun(ss, calls, q, n - 1);
      QuietStep(ss[n - 1], calls[n - 1]);
    }
  }

  lemma RefreshConfigs(st: State, env: Environment)
    requires Inv(st)
    ensures Refresh(st, env).1.configs == st.configs
  {
    if st.needFullQuery { FullQueryList(st, env); }
  }

  // ---- survivors --------------------------------------------------------------------------------------------

  // The call brings the valid list up to date (a full query having succeeded before).
  ghost predicate Updates(st: State, call: Call) {
    st.needUpdateValidImpls && (call.Enumerate? || call.CreateSession?)
  }

  ghost predicate SameEntries(s: seq<Impl>, t: seq<Impl>) {
    |s| == |t| && forall e | 0 <= e < |s| :: s[e].info == t[e].info && s[e].adapterIdx == t[e].adapterIdx
  }

  lemma StepList(st: State, call: Call)
    requires !st.needFullQuery
    ensures var r := Step(st, call).1;
            !r.needFullQuery && r.impls == if Updates(st, call) then UpdateValid(st).impls else st.impls
  {}

  lemma StepSurvivors(st: State, call: Call)
    requires ListOk(st) && !st.needFullQuery
    ensures !Step(st, call).1.needFullQuery && SameEntries(st.impls, Step(st, call).1.impls)
  {
    StepList(st, call);
    UpdateEntries(st);
  }

  // The entry passes the configurations in force at every update from call q up to call n.
  ghost predicate PassedAll(ss: seq<State>, calls: seq<Call>, q: nat, n: nat, v: Impl)
    requires IsRun(ss, calls) && n < |ss|
  {
    forall k | q <= k < n && Updates(ss[k], calls[k]) :: Passes(v.info, v.adapterIdx, ss[k].configs, ss[k].special)
  }

  lemma PassedStep(ss: seq<State>, calls: seq<Call>, q: nat, n: nat, v: Impl)
    requires IsRun(ss, calls) && q < n < |ss|
    ensures PassedAll(ss, calls, q, n, v) <==>
            PassedAll(ss, calls, q, n - 1, v)
            && (Updates(ss[n - 1], calls[n - 1]) ==> Passes(v.info, v.adapterIdx, ss[n - 1].configs, ss[n - 1].special))
  {
    hide Step, Allowed, Passes;
  }

  lemma PassedNone(ss: seq<State>, calls: seq<Call>, q: nat, v: Impl)
    requires IsRun(ss, calls) && q < |ss|
    ensures PassedAll(ss, calls, q, q, v)
  {}

  lemma EntryAfterStep(st: State, call: Call, e: nat)
    requires ListOk(st) && !st.needFullQuery && e < |st.impls|
    ensures var r := Step(st, call).1;
            && |r.impls| == |st.impls|
            && (r.impls[e].Valid() <==>
                st.impls[e].Valid()
                && (Updates(st, call) ==> Passes(st.impls[e].info, st.impls[e].adapterIdx, st.configs, st.special)))
  {
    StepList(st, call);
    UpdateEntries(st);
  }

  // Once a full query has succeeded (state q) the list never changes: no implementation is added,
  // removed or moved. At any later time the valid ones are exactly those that were valid then and
  // have passed the configurations in force at every update since.
  lemma {:induction false} SurvivorsOnlyShrink(ss: seq<State>, calls: seq<Call>, windows: bool, q: nat, n: nat)
    requires LoaderRun(ss, calls, windows) && q <= n < |ss| && !ss[q].needFullQuery
    ensures SameEntries(ss[q].impls, ss[n].impls) && !ss[n].needFullQuery
    ensures forall e | 0 <= e < |ss[q].impls| ::
              ss[n].impls[e].Valid() <==> ss[q].impls[e].Valid() && PassedAll(ss, calls, q, n, ss[q].impls[e])
    decreases n
  {
    hide Step, Allowed, ListOk, LibsTraceOk, ValidPass, NumbersCurrent, OnlySettable, Passes, PassedAll;
    if n == q {
      forall e | 0 <= e < |ss[q].impls| ensures PassedAll(ss, calls, q, q, ss[q].impls[e]) {
        PassedNone(ss, calls, q, ss[q].impls[e]);
      }
    } else {
      SurvivorsOnlyShrink(ss, calls, windows, q, n - 1);
      Reachable(ss, calls, windows, n - 1);
      StepSurvivors(ss[n - 1], calls[n - 1]);
      forall e | 0 <= e < |ss[q].impls|
        ensures ss[n].impls[e].Valid() <==> ss[q].impls[e].Valid() && PassedAll(ss, calls, q, n, ss[q].impls[e])
      {
        PassedStep(ss, calls, q, n, ss[q].impls[e]);
        EntryAfterStep(ss[n - 1], calls[n - 1], e);
      }
    }
  }

  // Whatever call e delivered is recognised by the release call at any later time.
  lemma DeliveredStaysReleasable(ss: seq<State>, calls: seq<Call>, windows: bool, e: nat, n: nat)
    requires LoaderRun(ss, calls, windows) && e < n < |ss|
    requires calls[e].Enumerate? && Step(ss[e], calls[e]).0.sts == ErrNone
    ensures ReleaseStatus(ss[n].impls, Step(ss[e], calls[e]).0.delivered) == ErrNone
  {
    hide Inv, UpdateValid, FullLoadAndQuery;
    var d := Step(ss[e], calls[e]).0.delivered;
    Reachable(ss, calls, windows, e);
    RefreshInv(ss[e], calls[e].env);
    var k := FindIndex(ss[e + 1].impls, SignedIndex(calls[e].i));
    assert d == Deliver(ss[e + 1].impls[k], calls[e].format);
    SurvivorsOnlyShrink(ss, calls, windows, e + 1, n);
    assert Holds(ss[n].impls[k], d);
  }

  // ---- legacy implementations that a VPL one supersedes --------------------------------------------------------

  ghost predicate NoSuperseded(s: seq<Impl>) {
    forall a, b | 0 <= a < |s| && 0 <= b < |s| && s[a].Valid() && s[a].info.libType == LibTypeMSDK ::
      !(IsHardwareVpl(s[b].info) && s[b].info.caps.desc.dev.deviceID == s[a].info.caps.desc.dev.deviceID)
  }

  // VPL runtimes loaded through the compatibility entry point report 1.255.
  ghost predicate NoCompatibility(s: seq<Impl>) {
    forall a | 0 <= a < |s| && s[a].Valid() && s[a].info.libType == LibTypeMSDK ::
      s[a].info.caps.desc.apiVersion != Version(1, 255)
  }

  lemma PostProcessSuppresses(q: seq<Impl>, d3d9: bool)
    ensures NoCompatibility(PostProcessAll(q, q, d3d9)) && (!d3d9 ==> NoSuperseded(PostProcessAll(q, q, d3d9)))
  {
    var p := PostProcessAll(q, q, d3d9);
    forall a, b | 0 <= a < |p| && 0 <= b < |p| && p[a].Valid() && p[a].info.libType == LibTypeMSDK && !d3d9
      ensures !(IsHardwareVpl(p[b].info) && p[b].info.caps.desc.dev.deviceID == p[a].info.caps.desc.dev.deviceID)
    {
      assert q[a].info == p[a].info && q[b].info == p[b].info;
      assert !Superseded(q[a].info, q);
    }
  }

  lemma PrioritizeSuppresses(s: seq<Impl>, priorityPath: bool)
    ensures NoCompatibility(s) ==> NoCompatibility(Prioritize(s, priorityPath))
    ensures NoSuperseded(s) ==> NoSuperseded(Prioritize(s, priorityPath))
  {
    hide Order, CountValid;
    var o := Order(s, InfoOf, priorityPath);
    OrderPermutes(s, InfoOf, priorityPath);
    forall k | 0 <= k < |o| ensures o[k] in s { assert o[k] in multiset(o); }
    assert NoCompatibility(s) ==> NoCompatibility(o);
    assert NoSuperseded(s) ==> NoSuperseded(o);
  }

  lemma FullQuerySuppresses(st: State, env: Environment)
    requires Inv(st) && st.needFullQuery && FullLoadAndQuery(st, env).0 == ErrNone
    ensures NoCompatibility(FullLoadAndQuery(st, env).1.impls)
    ensures !D3D9Requested(st.special) ==> NoSuperseded(FullLoadAndQuery(st, env).1.impls)
  {
    var st0 := st.(lowLatency := false);
    AddCandidatesFrame(st0, CandidatesOf(env));
    var checked := CheckLibs(BuildList(st0, env), env);
    var q := QueryLibs(Query([], [], checked.implIdxNext, checked.trace), checked.libs, env);
    PostProcessSuppresses(q.impls, D3D9Requested(st.special));
    PrioritizeSuppresses(PostProcessAll(q.impls, q.impls, D3D9Requested(st.special)), checked.priorityPath);
  }

  lemma SuppressionKept(s: seq<Impl>, t: seq<Impl>)
    requires SameEntries(s, t) && forall e | 0 <= e < |s| :: t[e].Valid() ==> s[e].Valid()
    ensures NoCompatibility(s) ==> NoCompatibility(t)
    ensures NoSuperseded(s) ==> NoSuperseded(t)
  {}

  // The call in which the full query succeeds goes on to update the valid list.
  lemma QueryingStep(st: State, call: Call)
    requires Inv(st) && Allowed(st, call) && st.needFullQuery && !Step(st, call).1.needFullQuery
    ensures NoCompatibility(Step(st, call).1.impls)
    ensures !D3D9Requested(st.special) ==> NoSuperseded(Step(st, call).1.impls)
  {
    hide FullLoadAndQuery, ListOk, LibsTraceOk, UpdateValid;
    var env := call.env;
    FullQueryList(st, env);
    FullQuerySuppresses(st, env);
    var queried := FullLoadAndQuery(st, env).1;
    UpdateEntries(queried);
    SuppressionKept(queried.impls, UpdateValid(queried).impls);
  }

  // If D3D9 was not the acceleration mode last asked for when the full query succeeded, then in no
  // later state is a legacy implementation valid for a device that a hardware VPL implementation
  // also serves; and one that reports 1.255 is never valid.
  lemma LegacySuppressed(ss: seq<State>, calls: seq<Call>, windows: bool, q: nat, n: nat)
    requires LoaderRun(ss, calls, windows) && q < n < |ss|
    requires ss[q].needFullQuery && !ss[q + 1].needFullQuery
    ensures NoCompatibility(ss[n].impls)
    ensures WrittenU32(None, ss[q].configs, MAIN_ACCELERATION_MODE) != Some(ACCEL_MODE_VIA_D3D9) ==>
              NoSuperseded(ss[n].impls)
  {
    hide ListOk, LibsTraceOk, ValidPass, OnlySettable, Allowed, Step, Passes, NoCompatibility, NoSuperseded, PassedAll;
    Reachable(ss, calls, windows, q);
    QueryingStep(ss[q], calls[q]);
    SurvivorsOnlyShrink(ss, calls, windows, q + 1, n);
    SuppressionKept(ss[q + 1].impls, ss[n].impls);
  }

  // ---- handles ------------------------------------------------------------------------------------------------

  // Every run followed by MFXUnload: each handle stored in an implementation was given back exactly as
  // often, every library object ever created was unloaded, and nothing was done with a library after
  // it was unloaded (so each was unloaded once). What was handed over but never stored, and modules
  // loaded more than once, are accounted for in Accounts.
  lemma HandlesConserved(ss: seq<State>, calls: seq<Call>, windows: bool)
    requires LoaderRun(ss, calls, windows)
    ensures var end := ss[|calls|];
            var t := AfterUnload(end).trace;
            && (forall u: nat, h: nat :: multiset(t)[Attach(u, h)] == multiset(t)[Release(u, h)])
            && (forall u: nat :: Unload(u) in t <==> u < end.uidNext)
            && Safe(t)
  {
    Reachable(ss, calls, windows, |calls|);
    UnloadSettles(ss[|calls|]);
  }
}
