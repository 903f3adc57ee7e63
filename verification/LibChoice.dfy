// Which libraries CheckValidLibraries keeps.
module LibChoice {
  import opened HandleTrace
  import opened ImplOrder
  import opened LoaderInvariant
  import opened LoaderState
  import opened Runs
  import opened StableSort
  import opened VplTypes

  predicate Eligible(l: Lib, ds: bool) {
    l.libType == LibTypeMSDK && (ds ==> l.priority == LIB_PRIORITY_LEGACY_DRIVERSTORE)
  }

  // Position i holds the first eligible library of greatest version.
  ghost predicate FirstBest(libs: seq<Lib>, ds: bool, i: nat) {
    && i < |libs| && Eligible(libs[i], ds)
    && (forall j | 0 <= j < |libs| && Eligible(libs[j], ds) :: libs[j].msdkVersion <= libs[i].msdkVersion)
    && (forall j | 0 <= j < i && Eligible(libs[j], ds) :: libs[j].msdkVersion < libs[i].msdkVersion)
  }

  ghost predicate AnyEligible(libs: seq<Lib>, ds: bool) { exists j | 0 <= j < |libs| :: Eligible(libs[j], ds) }

  // The library found is at position i.
  lemma {:induction false} BestIsFirstBest(libs: seq<Lib>, ds: bool) returns (i: nat)
    ensures var b := BestMsdk(libs, ds);
            && (b.Some? <==> AnyEligible(libs, ds))
            && (b.Some? ==> FirstBest(libs, ds, i) && libs[i] == b.value)
  {
    i := 0;
    if libs != [] {
      var n := |libs| - 1;
      i := BestIsFirstBest(libs[..n], ds);
      var b := BestMsdk(libs[..n], ds);
      AnyStep(libs, ds, n);
      if b.Some? { BestStep(libs, ds, n, i); }
      if Eligible(libs[n], ds) && (b.None? || libs[n].msdkVersion > b.value.msdkVersion) {
        if b.None? { FirstEligible(libs, ds, n); }
        i := n;
      }
    }
  }

  lemma AnyStep(libs: seq<Lib>, ds: bool, n: nat)
    requires |libs| == n + 1
    ensures AnyEligible(libs, ds) <==> AnyEligible(libs[..n], ds) || Eligible(libs[n], ds)
  {
    hide Eligible;
    assert forall j | 0 <= j < n :: libs[..n][j] == libs[j];
  }

  lemma FirstEligible(libs: seq<Lib>, ds: bool, n: nat)
    requires |libs| == n + 1 && !AnyEligible(libs[..n], ds) && Eligible(libs[n], ds)
    ensures FirstBest(libs, ds, n)
  {
    hide Eligible;
    assert forall j | 0 <= j < n :: libs[..n][j] == libs[j];
  }

  lemma BestStep(libs: seq<Lib>, ds: bool, n: nat, i: nat)
    requires |libs| == n + 1 && FirstBest(libs[..n], ds, i)
    ensures FirstBest(libs, ds, if Eligible(libs[n], ds) && libs[n].msdkVersion > libs[i].msdkVersion then n else i)
  {
    hide Eligible;
    assert forall j | 0 <= j < n :: libs[..n][j] == libs[j];
  }

  lemma {:induction false} ProbedKinds(libs: seq<Lib>, env: Environment, windows: bool)
    ensures forall l | l in ProbeAll(libs, env, windows) :: l.libType == LibTypeVPL || l.libType == LibTypeMSDK
  {
    if libs != [] { ProbedKinds(libs[..|libs| - 1], env, windows); }
  }

  lemma {:induction false} PruneIsFilter(libs: seq<Lib>, best: Option<Lib>)
    ensures Prune(libs, best) == Filter(libs, l => Kept(l, best))
  {
    if libs != [] {
      var init, l := libs[..|libs| - 1], libs[|libs| - 1];
      PruneIsFilter(init, best);
      assert libs == init + [l];
      FilterConcat(init, [l], x => Kept(x, best));
    }
  }

  ghost predicate IsFirstBest(libs: seq<Lib>, l: Lib) {
    exists i: nat :: FirstBest(libs, AnyEligible(libs, true), i) && libs[i] == l
  }

  lemma FirstBestUnique(libs: seq<Lib>, ds: bool, i: nat, k: nat)
    requires FirstBest(libs, ds, i) && FirstBest(libs, ds, k)
    ensures i == k
  {}

  lemma ChosenIsFirstBest(libs: seq<Lib>)
    ensures var b := ChosenMsdk(libs);
            && (b.Some? ==> IsFirstBest(libs, b.value))
            && (b.None? ==> forall j | 0 <= j < |libs| :: libs[j].libType != LibTypeMSDK)
  {
    var i := BestIsFirstBest(libs, true);
    var k := BestIsFirstBest(libs, false);
    assert forall j | 0 <= j < |libs| :: Eligible(libs[j], false) <==> libs[j].libType == LibTypeMSDK;
  }

  lemma KeptLegacy(libs: seq<Lib>, l: Lib)
    requires DistinctLibs(libs) && l in libs && l.libType == LibTypeMSDK
    ensures Kept(l, ChosenMsdk(libs)) <==> IsFirstBest(libs, l)
  {
    var best := ChosenMsdk(libs);
    ChosenIsFirstBest(libs);
    var i: nat :| FirstBest(libs, AnyEligible(libs, true), i) && libs[i] == best.value;
    if Kept(l, best) { SameUidSameLib(libs, l, best.value); }
    if IsFirstBest(libs, l) {
      var k: nat :| FirstBest(libs, AnyEligible(libs, true), k) && libs[k] == l;
      FirstBestUnique(libs, AnyEligible(libs, true), i, k);
    }
  }

  lemma {:induction false} ProbedDistinct(libs: seq<Lib>, env: Environment, windows: bool)
    requires DistinctLibs(libs)
    ensures DistinctLibs(ProbeAll(libs, env, windows))
    ensures forall p | p in ProbeAll(libs, env, windows) :: exists l :: l in libs && l.uid == p.uid
  {
    if libs != [] {
      var before, l := libs[..|libs| - 1], libs[|libs| - 1];
      ProbedDistinct(before, env, windows);
      forall p | p in ProbeAll(before, env, windows) ensures p.uid != l.uid {
        var o :| o in before && o.uid == p.uid;
        var k :| 0 <= k < |before| && before[k] == o;
        assert libs[k] == o;
      }
      forall p | p in ProbeAll(libs, env, windows) ensures exists o :: o in libs && o.uid == p.uid {
        if p in ProbeAll(before, env, windows) {
          var o :| o in before && o.uid == p.uid;
          assert o in libs;
        } else {
          assert l in libs && l.uid == p.uid;
        }
      }
    }
  }

  // The survivors, in their original order, are all the VPL libraries and at most one legacy one:
  // the first of greatest version in the driver store if any is there, else the first overall.
  lemma LibrariesKept(st: State, env: Environment)
    requires DistinctLibs(st.libs)
    ensures var probed, kept := ProbeAll(st.libs, env, st.windows), CheckLibs(st, env).libs;
            && kept == Filter(probed, l => l in kept)
            && (forall l :: l in kept <==> l in probed && (l.libType == LibTypeVPL || IsFirstBest(probed, l)))
  {
    var probed, best := ProbeAll(st.libs, env, st.windows), ChosenMsdk(ProbeAll(st.libs, env, st.windows));
    var kept := CheckLibs(st, env).libs;
    PruneIsFilter(probed, best);
    ProbedDistinct(st.libs, env, st.windows);
    forall l ensures l in kept <==> l in probed && (l.libType == LibTypeVPL || IsFirstBest(probed, l)) {
      FilterMembers(probed, l => Kept(l, best), l);
      if l in probed {
        ProbedKinds(st.libs, env, st.windows);
        if l.libType == LibTypeMSDK { KeptLegacy(probed, l); }
      }
    }
    forall l | l in probed ensures Kept(l, best) == (l in kept) { FilterMembers(probed, l => Kept(l, best), l); }
    FilterCongruent(probed, l => Kept(l, best), l => l in kept);
  }

  lemma SameUidSameLib(libs: seq<Lib>, a: Lib, b: Lib)
    requires DistinctLibs(libs) && a in libs && b in libs && a.uid == b.uid
    ensures a == b
  {
    var i :| 0 <= i < |libs| && libs[i] == a;
    var j :| 0 <= j < |libs| && libs[j] == b;
    assert i == j;
  }

  lemma {:induction false} FilterCongruent(s: seq<Lib>, p: Lib -> bool, q: Lib -> bool)
    requires forall l | l in s :: p(l) == q(l)
    ensures Filter(s, p) == Filter(s, q)
  {
    if s != [] {
      assert s[0] in s;
      FilterCongruent(s[1..], p, q);
    }
  }

  // ---- finding candidates ---------------------------------------------------------------------

  ghost predicate DistinctNames(libs: seq<Lib>) { forall i, j | 0 <= i < j < |libs| :: libs[i].name != libs[j].name }

  // Candidate i is the first of its path, and no library was listed under that path before.
  ghost predicate FirstFound(libs: seq<Lib>, cs: seq<Candidate>, i: nat) {
    i < |cs| && !Listed(libs, cs[i].name) && forall j | 0 <= j < i :: cs[j].name != cs[i].name
  }

  // The candidate that library l was created for.
  ghost predicate CreatedFor(l: Lib, libs: seq<Lib>, cs: seq<Candidate>) {
    exists i: nat :: FirstFound(libs, cs, i) && l == NewLib(l.uid, cs[i])
  }

  // A search lists every file it finds once, under the priority of the location it was first found
  // in, and leaves what was listed before alone.
  lemma {:induction false} CandidatesListedOnce(st: State, cs: seq<Candidate>)
    requires DistinctNames(st.libs)
    ensures var libs := AddCandidates(st, cs).libs;
            && DistinctNames(libs) && st.libs <= libs
            && (forall n :: Listed(libs, n) <==> Listed(st.libs, n) || Found(cs, n))
            && (forall k | |st.libs| <= k < |libs| :: CreatedFor(libs[k], st.libs, cs))
  {
    hide Listed, CreatedFor, Found, DistinctNames;
    if cs == [] {
      FoundAppend([], Candidate("", 0));
    } else {
      var before, c := cs[..|cs| - 1], cs[|cs| - 1];
      assert cs == before + [c];
      CandidatesListedOnce(st, before);
      var mid := AddCandidates(st, before);
      ListedAppend(mid, c);
      FoundAppend(before, c);
      var libs := AddCandidate(mid, c).libs;
      forall k | |st.libs| <= k < |libs| ensures CreatedFor(libs[k], st.libs, cs) {
        if k < |mid.libs| {
          StillCreatedFor(mid.libs[k], st.libs, before, c);
        } else {
          NewCreatedFor(NewLib(mid.uidNext, c), st.libs, before, c);
        }
      }
    }
  }

  ghost predicate Found(cs: seq<Candidate>, n: string) { exists i | 0 <= i < |cs| :: cs[i].name == n }

  lemma FoundAppend(cs: seq<Candidate>, c: Candidate)
    ensures forall n :: Found(cs + [c], n) <==> Found(cs, n) || n == c.name
    ensures forall n :: !Found([], n)
  {
    assert (cs + [c])[|cs|] == c;
    forall n | Found(cs, n) ensures Found(cs + [c], n) {
      var i :| 0 <= i < |cs| && cs[i].name == n;
      assert (cs + [c])[i].name == n;
    }
  }

  lemma ListedAppend(st: State, c: Candidate)
    ensures var libs := AddCandidate(st, c).libs;
            && (forall n :: Listed(libs, n) <==> Listed(st.libs, n) || n == c.name)
            && (DistinctNames(st.libs) ==> DistinctNames(libs))
  {
    var libs := AddCandidate(st, c).libs;
    if !Listed(st.libs, c.name) { assert libs[|st.libs|].name == c.name; }
    forall n | Listed(st.libs, n) ensures Listed(libs, n) {
      var k :| 0 <= k < |st.libs| && st.libs[k].name == n;
      assert libs[k].name == n;
    }
  }

  lemma StillCreatedFor(l: Lib, libs: seq<Lib>, cs: seq<Candidate>, c: Candidate)
    requires CreatedFor(l, libs, cs)
    ensures CreatedFor(l, libs, cs + [c])
  {
    var i: nat :| FirstFound(libs, cs, i) && l == NewLib(l.uid, cs[i]);
    assert FirstFound(libs, cs + [c], i);
  }

  lemma NewCreatedFor(l: Lib, libs: seq<Lib>, cs: seq<Candidate>, c: Candidate)
    requires l == NewLib(l.uid, c) && !Listed(libs, c.name) && !Found(cs, c.name)
    ensures CreatedFor(l, libs, cs + [c])
  {
    assert FirstFound(libs, cs + [c], |cs|);
  }

  // ---- every state of every run -----------------------------------------------------------------

  ghost predicate NameIn(name: string, libs: seq<Lib>) { exists l :: l in libs && l.name == name }

  lemma NameInAppend(name: string, libs: seq<Lib>, l: Lib)
    ensures NameIn(name, libs + [l]) <==> NameIn(name, libs) || name == l.name
  {
    if NameIn(name, libs) {
      var o :| o in libs && o.name == name;
      assert o in libs + [l];
    }
    if name == l.name { assert l in libs + [l]; }
  }

  lemma DistinctNamesAppend(libs: seq<Lib>, l: Lib)
    ensures DistinctNames(libs + [l]) <==> DistinctNames(libs) && !NameIn(l.name, libs)
  {
    var t := libs + [l];
    if DistinctNames(t) {
      forall i, j | 0 <= i < j < |libs| ensures libs[i].name != libs[j].name {
        assert t[i].name != t[j].name;
      }
      forall o | o in libs ensures o.name != l.name {
        var k :| 0 <= k < |libs| && libs[k] == o;
        assert t[k].name != t[|libs|].name;
      }
    }
    if DistinctNames(libs) && !NameIn(l.name, libs) {
      forall i, j | 0 <= i < j < |t| ensures t[i].name != t[j].name {
        if j == |libs| { assert libs[i] in libs; }
      }
    }
  }

  // A list that is libs with some entries left out and the others changed, but not in name.
  ghost predicate NamesFrom(kept: seq<Lib>, libs: seq<Lib>) {
    DistinctNames(kept) && forall n :: NameIn(n, kept) ==> NameIn(n, libs)
  }

  // One more entry, kept under its name or left out.
  lemma NamesFromStep(kept: seq<Lib>, libs: seq<Lib>, l: Lib, o: Lib)
    requires NamesFrom(kept, libs) && DistinctNames(libs + [l]) && o.name == l.name
    ensures NamesFrom(kept, libs + [l]) && NamesFrom(kept + [o], libs + [l])
  {
    hide NameIn, DistinctNames;
    DistinctNamesAppend(libs, l);
    DistinctNamesAppend(kept, o);
    forall n: string { NameInAppend(n, libs, l); }
    forall n: string { NameInAppend(n, kept, o); }
  }

  lemma {:induction false} ProbedNames(libs: seq<Lib>, env: Environment, windows: bool)
    requires DistinctNames(libs)
    ensures NamesFrom(ProbeAll(libs, env, windows), libs)
  {
    if libs != [] {
      var init, l := libs[..|libs| - 1], libs[|libs| - 1];
      assert libs == init + [l];
      DistinctNamesAppend(init, l);
      ProbedNames(init, env, windows);
      var p := Probe(l, env.runtime(l.name), windows);
      NamesFromStep(ProbeAll(init, env, windows), init, l, if p.Some? then p.value else l);
      assert ProbeAll(init, env, windows) + [] == ProbeAll(init, env, windows);
    }
  }

  lemma {:induction false} PrunedNames(libs: seq<Lib>, best: Option<Lib>)
    requires DistinctNames(libs)
    ensures NamesFrom(Prune(libs, best), libs)
  {
    if libs != [] {
      var init, l := libs[..|libs| - 1], libs[|libs| - 1];
      assert libs == init + [l];
      DistinctNamesAppend(init, l);
      PrunedNames(init, best);
      NamesFromStep(Prune(init, best), init, l, l);
      assert Prune(init, best) + [] == Prune(init, best);
    }
  }

  lemma {:induction false} QueriedNames(q: Query, libs: seq<Lib>, env: Environment)
    requires DistinctNames(libs) && q.libs == []
    ensures NamesFrom(QueryLibs(q, libs, env).libs, libs)
  {
    hide NamesFrom;
    if libs == [] {
      NamesFromNothing();
    } else {
      var init, l := libs[..|libs| - 1], libs[|libs| - 1];
      assert libs == init + [l];
      DistinctNamesAppend(init, l);
      QueriedNames(q, init, env);
      NamesFromStep(QueryLibs(q, init, env).libs, init, l, l);
      QueryLibKeeps(QueryLibs(q, init, env), l, env.runtime(l.name));
    }
  }

  lemma NamesFromNothing()
    ensures NamesFrom([], [])
  {}

  lemma QueryLibKeeps(q: Query, lib: Lib, rt: Runtime)
    ensures QueryLib(q, lib, rt).libs == q.libs || QueryLib(q, lib, rt).libs == q.libs + [lib]
  {
    var d := q.(trace := q.trace + HandOverEvents(lib.uid, rt));
    if DescsOk(rt) { AddVplLibs(d, lib, rt, |rt.descs.value|); }
    AddMsdkLibs(q, lib, rt, MAX_NUM_IMPL_MSDK);
  }

  lemma {:induction false} AddVplLibs(q: Query, lib: Lib, rt: Runtime, n: nat)
    requires DescsOk(rt) && n <= |rt.descs.value|
    ensures AddVpl(q, lib, rt, n).libs == q.libs
  {
    if n > 0 { AddVplLibs(q, lib, rt, n - 1); }
  }

  lemma {:induction false} AddMsdkLibs(q: Query, lib: Lib, rt: Runtime, n: nat)
    requires n <= MAX_NUM_IMPL_MSDK
    ensures AddMsdk(q, lib, rt, n).libs == q.libs
  {
    if n > 0 { AddMsdkLibs(q, lib, rt, n - 1); }
  }

  lemma FullQueryNames(st: State, env: Environment)
    requires DistinctNames(st.libs)
    ensures DistinctNames(FullLoadAndQuery(st, env).1.libs)
  {
    hide DistinctNames, AddCandidates, ProbeAll, Prune, QueryLibs, Prioritize, ChosenMsdk;
    var st0 := st.(lowLatency := false);
    CandidatesListedOnce(st0, CandidatesOf(env));
    var built := BuildList(st0, env);
    AddCandidatesFrame(st0, CandidatesOf(env));
    ProbedNames(built.libs, env, built.windows);
    PrunedNames(ProbeAll(built.libs, env, built.windows), ChosenMsdk(ProbeAll(built.libs, env, built.windows)));
    var checked := CheckLibs(built, env);
    QueriedNames(Query([], checked.impls, checked.implIdxNext, checked.trace), checked.libs, env);
  }

  lemma StepNames(st: State, call: Call)
    requires DistinctNames(st.libs)
    ensures DistinctNames(Step(st, call).1.libs)
  {
    hide DistinctNames, FullLoadAndQuery, Prioritize, RecheckAll;
    if call.Enumerate? || call.CreateSession? { FullQueryNames(st, call.env); }
  }

  // In every state of every run no path is listed twice.
  lemma {:induction false} ListedOnce(ss: seq<State>, calls: seq<Call>, windows: bool, k: nat)
    requires LoaderRun(ss, calls, windows) && k < |ss|
    ensures DistinctNames(ss[k].libs)
  {
    hide Step, Allowed;
    if k > 0 {
      ListedOnce(ss, calls, windows, k - 1);
      StepNames(ss[k - 1], calls[k - 1]);
    }
  }
}
