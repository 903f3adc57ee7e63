// Which of the files found are used, as what, and what is recorded about them, in terms of how each
// file answers.
module LibUse {
  import opened HandleTrace
  import opened ImplOrder
  import opened LibChoice
  import opened LoaderInvariant
  import opened LoaderState
  import opened StableSort
  import opened VplTypes

  // ---- what makes a file usable ------------------------------------------------------------------------

  const LEGACY_NAME := "libmfxhw64."

  // The file exports MFXInitialize, or did when it was loaded before, and was not found in the part of
  // the driver store, or the search paths after it, that are for legacy runtimes.
  ghost predicate UsableVpl(l: Lib, rt: Runtime) {
    (l.table[5] || (rt.loads && rt.exports[5])) && l.priority < 10000
  }

  ghost predicate Within(part: string, s: string) { exists before, after :: s == before + part + after }

  // Otherwise it must load, have the name of a legacy runtime, export both functions of one, and
  // report a version.
  ghost predicate UsableLegacy(l: Lib, rt: Runtime) {
    !UsableVpl(l, rt) && rt.loads && Within(LEGACY_NAME, l.name) && rt.msdkExports == 2 && rt.msdkVersion.Some?
  }

  // Old runtimes, of version 1.0 to 1.27, do not stay loaded on Windows.
  predicate StaysLoaded(version: u32, windows: bool) { windows ==> version / 0x1_0000 != 1 || version % 0x1_0000 > 27 }

  // The entry m kept for the listed library l.
  ghost predicate KeptFor(m: Lib, l: Lib, rt: Runtime, windows: bool) {
    && m.uid == l.uid && m.name == l.name && m.priority == l.priority
    && (forall i | 0 <= i < 13 :: m.table[i] == (l.table[i] || (rt.loads && rt.exports[i])))
    && if UsableVpl(l, rt)
       then m.libType == LibTypeVPL && m.loaded == rt.loads
       else UsableLegacy(l, rt) && m.libType == LibTypeMSDK && m.msdkVersion == rt.msdkVersion.value
            && m.loaded == StaysLoaded(rt.msdkVersion.value, windows)
  }

  lemma {:induction false} OccursWithin(part: string, s: string)
    ensures Occurs(part, s) <==> Within(part, s)
  {
    if part <= s { assert s == "" + part + s[|part|..]; }
    if s != "" {
      OccursWithin(part, s[1..]);
      if Occurs(part, s[1..]) {
        var before, after :| s[1..] == before + part + after;
        assert s == ([s[0]] + before) + part + after;
      }
    }
    if Within(part, s) {
      var before, after :| s == before + part + after;
      if before == "" {
        assert part <= s;
      } else {
        assert s[1..] == before[1..] + part + after;
      }
    }
  }

  lemma ProbeMeans(l: Lib, rt: Runtime, windows: bool)
    ensures Probe(l, rt, windows).Some? <==> UsableVpl(l, rt) || UsableLegacy(l, rt)
    ensures Probe(l, rt, windows).Some? ==> KeptFor(Probe(l, rt, windows).value, l, rt, windows)
  {
    hide Occurs, Within;
    OccursWithin(MSDK_LIB_NAME, l.name);
  }

  // ---- walking the list --------------------------------------------------------------------------------

  // The positions of the libraries that survive probing.
  ghost function Survivors(libs: seq<Lib>, env: Environment, windows: bool): seq<nat> {
    if libs == [] then [] else
      var n := |libs| - 1;
      Survivors(libs[..n], env, windows)
      + (if Probe(libs[n], env.runtime(libs[n].name), windows).Some? then [n] else [])
  }

  ghost predicate Survives(libs: seq<Lib>, env: Environment, windows: bool, j: nat, m: Lib) {
    j < |libs| && Probe(libs[j], env.runtime(libs[j].name), windows) == Some(m)
  }

  ghost predicate Lists(from: seq<nat>, kept: seq<Lib>, libs: seq<Lib>, env: Environment, windows: bool) {
    && |from| == |kept|
    && (forall a | 0 <= a < |from| :: Survives(libs, env, windows, from[a], kept[a]))
    && (forall a, b | 0 <= a < b < |from| :: from[a] < from[b])
    && forall j, m | Survives(libs, env, windows, j, m) :: j in from
  }

  lemma SurvivesIn(init: seq<Lib>, l: Lib, env: Environment, windows: bool, j: nat, m: Lib)
    ensures Survives(init + [l], env, windows, j, m) <==>
            if j == |init| then Probe(l, env.runtime(l.name), windows) == Some(m)
            else Survives(init, env, windows, j, m)
  {
    hide Probe;
  }

  lemma ListsNext(from: seq<nat>, kept: seq<Lib>, init: seq<Lib>, l: Lib, env: Environment, windows: bool)
    requires Lists(from, kept, init, env, windows)
    ensures var p := Probe(l, env.runtime(l.name), windows);
            if p.Some? then Lists(from + [|init|], kept + [p.value], init + [l], env, windows)
            else Lists(from, kept, init + [l], env, windows)
  {
    hide Survives;
    forall j: nat, m { SurvivesIn(init, l, env, windows, j, m); }
    assert forall a | 0 <= a < |from| :: from[a] < |init| by {
      forall a | 0 <= a < |from| ensures from[a] < |init| { SurvivorBelow(init, env, windows, from[a], kept[a]); }
    }
  }

  lemma SurvivorBelow(libs: seq<Lib>, env: Environment, windows: bool, j: nat, m: Lib)
    requires Survives(libs, env, windows, j, m)
    ensures j < |libs|
  {}

  lemma {:induction false} SurvivorsListed(libs: seq<Lib>, env: Environment, windows: bool)
    ensures Lists(Survivors(libs, env, windows), ProbeAll(libs, env, windows), libs, env, windows)
  {
    hide Probe, Lists;
    if libs == [] {
      NothingListed(env, windows);
    } else {
      var init, l := libs[..|libs| - 1], libs[|libs| - 1];
      assert libs == init + [l];
      SurvivorsListed(init, env, windows);
      ListsNext(Survivors(init, env, windows), ProbeAll(init, env, windows), init, l, env, windows);
      assert Survivors(init, env, windows) + [] == Survivors(init, env, windows);
      assert ProbeAll(init, env, windows) + [] == ProbeAll(init, env, windows);
    }
  }

  lemma NothingListed(env: Environment, windows: bool)
    ensures Lists([], [], [], env, windows)
  {}

  // ---- the one legacy library ------------------------------------------------------------------------------

  ghost predicate Competes(libs: seq<Lib>, env: Environment, j: nat) {
    j < |libs| && UsableLegacy(libs[j], env.runtime(libs[j].name))
  }

  lemma CompetitorAnswers(libs: seq<Lib>, env: Environment, j: nat)
    requires Competes(libs, env, j)
    ensures j < |libs| && env.runtime(libs[j].name).msdkVersion.Some?
  {}

  // Of two usable legacy libraries, the one of the driver store counts, then the greater version, then
  // the one found first.
  ghost predicate Preferred(libs: seq<Lib>, env: Environment, j: nat, k: nat)
    requires Competes(libs, env, j) && Competes(libs, env, k)
  {
    var a, b := env.runtime(libs[j].name).msdkVersion.value, env.runtime(libs[k].name).msdkVersion.value;
    if libs[j].priority == 10000 || libs[k].priority == 10000
    then libs[j].priority == 10000 && (libs[k].priority == 10000 ==> a > b || (a == b && j < k))
    else a > b || (a == b && j < k)
  }

  ghost predicate Wins(libs: seq<Lib>, env: Environment, j: nat) {
    Competes(libs, env, j) && forall k | Competes(libs, env, k) && k != j :: Preferred(libs, env, j, k)
  }

  lemma SurvivorFacts(libs: seq<Lib>, env: Environment, windows: bool, j: nat, m: Lib)
    requires Survives(libs, env, windows, j, m)
    ensures m.priority == libs[j].priority && (m.libType == LibTypeMSDK <==> Competes(libs, env, j))
    ensures m.libType == LibTypeMSDK || m.libType == LibTypeVPL
    ensures m.libType == LibTypeMSDK ==> m.msdkVersion == env.runtime(libs[j].name).msdkVersion.value
    ensures KeptFor(m, libs[j], env.runtime(libs[j].name), windows)
  {
    hide Probe;
    ProbeMeans(libs[j], env.runtime(libs[j].name), windows);
  }

  lemma CompetitorSurvives(libs: seq<Lib>, env: Environment, windows: bool, from: seq<nat>, probed: seq<Lib>, j: nat)
    requires Lists(from, probed, libs, env, windows) && Competes(libs, env, j)
    ensures exists a :: 0 <= a < |from| && from[a] == j && probed[a].libType == LibTypeMSDK
  {
    hide Probe;
    ProbeMeans(libs[j], env.runtime(libs[j].name), windows);
    var m := Probe(libs[j], env.runtime(libs[j].name), windows).value;
    assert Survives(libs, env, windows, j, m);
    var a :| 0 <= a < |from| && from[a] == j;
    assert Survives(libs, env, windows, from[a], probed[a]);
  }

  // What is known of each survivor, without the details.
  ghost predicate Known(libs: seq<Lib>, env: Environment, from: seq<nat>, probed: seq<Lib>, b: nat)
    requires b < |from| == |probed|
  {
    && from[b] < |libs| && probed[b].priority == libs[from[b]].priority
    && (probed[b].libType == LibTypeMSDK <==> Competes(libs, env, from[b]))
    && (Competes(libs, env, from[b]) ==> probed[b].msdkVersion == env.runtime(libs[from[b]].name).msdkVersion.value)
  }

  lemma AllKnown(libs: seq<Lib>, env: Environment, windows: bool, from: seq<nat>, probed: seq<Lib>)
    requires Lists(from, probed, libs, env, windows)
    ensures forall b | 0 <= b < |from| :: Known(libs, env, from, probed, b)
  {
    hide Survives, Competes;
    forall b | 0 <= b < |from| ensures Known(libs, env, from, probed, b) {
      SurvivorBelow(libs, env, windows, from[b], probed[b]);
      SurvivorFacts(libs, env, windows, from[b], probed[b]);
      if Competes(libs, env, from[b]) { CompetitorAnswers(libs, env, from[b]); }
    }
  }

  lemma PreferredTo(libs: seq<Lib>, env: Environment, from: seq<nat>, probed: seq<Lib>, a: nat, b: nat)
    requires a < |from| == |probed| && b < |from| && a != b && (from[a] < from[b] <==> a < b)
    requires Known(libs, env, from, probed, a) && Known(libs, env, from, probed, b)
    requires Competes(libs, env, from[a]) && Competes(libs, env, from[b])
    ensures Preferred(libs, env, from[a], from[b]) <==> Better(probed, a, b)
  {
    hide UsableLegacy;
  }

  ghost predicate Better(s: seq<Lib>, a: nat, b: nat)
    requires a < |s| && b < |s|
  {
    var newer := s[a].msdkVersion > s[b].msdkVersion || (s[a].msdkVersion == s[b].msdkVersion && a < b);
    if Eligible(s[a], true) || Eligible(s[b], true)
    then Eligible(s[a], true) && (Eligible(s[b], true) ==> newer) else newer
  }

  lemma FirstBestIsBest(s: seq<Lib>, a: nat)
    requires a < |s| && s[a].libType == LibTypeMSDK
    ensures FirstBest(s, AnyEligible(s, true), a) <==>
            forall b | 0 <= b < |s| && b != a && s[b].libType == LibTypeMSDK :: Better(s, a, b)
  {
    if forall b | 0 <= b < |s| && b != a && s[b].libType == LibTypeMSDK :: Better(s, a, b) {
      forall b | 0 <= b < |s| && b != a && Eligible(s[b], AnyEligible(s, true))
        ensures s[b].msdkVersion <= s[a].msdkVersion && (b < a ==> s[b].msdkVersion < s[a].msdkVersion)
      {
        assert Better(s, a, b);
      }
    }
  }

  lemma WinnerIsFirstBest(libs: seq<Lib>, env: Environment, windows: bool, from: seq<nat>, probed: seq<Lib>, a: nat)
    requires Lists(from, probed, libs, env, windows) && a < |from| && probed[a].libType == LibTypeMSDK
    ensures FirstBest(probed, AnyEligible(probed, true), a) <==> Wins(libs, env, from[a])
  {
    hide Survives, Competes, Preferred, FirstBest, Better;
    AllKnown(libs, env, windows, from, probed);
    FirstBestIsBest(probed, a);
    assert Known(libs, env, from, probed, a);
    forall b | 0 <= b < |from| && b != a && probed[b].libType == LibTypeMSDK
      ensures Competes(libs, env, from[b]) && from[b] != from[a]
      ensures Better(probed, a, b) <==> Preferred(libs, env, from[a], from[b])
    {
      assert Known(libs, env, from, probed, b);
      assert if a < b then from[a] < from[b] else from[b] < from[a];
      PreferredTo(libs, env, from, probed, a, b);
    }
    if forall b | 0 <= b < |from| && b != a && probed[b].libType == LibTypeMSDK :: Better(probed, a, b) {
      forall k | Competes(libs, env, k) && k != from[a] ensures Preferred(libs, env, from[a], k) {
        CompetitorSurvives(libs, env, windows, from, probed, k);
        var b :| 0 <= b < |from| && from[b] == k && probed[b].libType == LibTypeMSDK;
        assert Better(probed, a, b);
      }
    }
  }

  // ---- what is left -----------------------------------------------------------------------------------------

  // from gives the position in the list of each library kept.
  ghost predicate UsedFrom(from: seq<nat>, kept: seq<Lib>, st: State, env: Environment) {
    && |from| == |kept|
    && (forall a | 0 <= a < |from| ::
          from[a] < |st.libs| && KeptFor(kept[a], st.libs[from[a]], env.runtime(st.libs[from[a]].name), st.windows))
    && (forall a, b | 0 <= a < b < |from| :: from[a] < from[b])
    && forall j | 0 <= j < |st.libs| ::
         j in from <==> UsableVpl(st.libs[j], env.runtime(st.libs[j].name)) || Wins(st.libs, env, j)
  }

  ghost function PrunedFrom(from: seq<nat>, probed: seq<Lib>, best: Option<Lib>): seq<nat>
    requires |from| == |probed|
  {
    if from == [] then [] else
      var n := |from| - 1;
      PrunedFrom(from[..n], probed[..n], best) + (if Kept(probed[n], best) then [from[n]] else [])
  }

  // Each library kept was at some position of the longer list.
  ghost predicate Part(from: seq<nat>, kept: seq<Lib>, all: seq<nat>, probed: seq<Lib>, best: Option<Lib>) {
    && |from| == |kept| && |all| == |probed|
    && (forall a | 0 <= a < |from| :: PairIn(from[a], kept[a], all, probed) && Kept(kept[a], best))
    && (forall a, b | 0 <= a < b < |from| :: from[a] < from[b])
    && forall b | 0 <= b < |all| && Kept(probed[b], best) :: all[b] in from
  }

  ghost predicate PairIn(j: nat, m: Lib, all: seq<nat>, probed: seq<Lib>) {
    exists b :: 0 <= b < |all| && b < |probed| && all[b] == j && probed[b] == m
  }

  lemma PairStays(j: nat, m: Lib, all: seq<nat>, probed: seq<Lib>, i: nat, l: Lib)
    requires |all| == |probed|
    ensures PairIn(j, m, all, probed) ==> PairIn(j, m, all + [i], probed + [l])
    ensures PairIn(i, l, all + [i], probed + [l])
  {
    if b :| 0 <= b < |all| && b < |probed| && all[b] == j && probed[b] == m {
      assert (all + [i])[b] == j && (probed + [l])[b] == m;
    }
    assert (all + [i])[|all|] == i && (probed + [l])[|all|] == l;
  }

  lemma PartNext(from: seq<nat>, kept: seq<Lib>, all: seq<nat>, probed: seq<Lib>, best: Option<Lib>, i: nat, l: Lib)
    requires Part(from, kept, all, probed, best) && forall b | 0 <= b < |all| :: all[b] < i
    ensures if Kept(l, best) then Part(from + [i], kept + [l], all + [i], probed + [l], best)
            else Part(from, kept, all + [i], probed + [l], best)
  {
    hide Kept, PairIn;
    forall j: nat, m { PairStays(j, m, all, probed, i, l); }
    forall a | 0 <= a < |from| ensures from[a] < i { PairBelow(from[a], kept[a], all, probed, i); }
  }

  lemma PairBelow(j: nat, m: Lib, all: seq<nat>, probed: seq<Lib>, i: nat)
    requires PairIn(j, m, all, probed) && forall b | 0 <= b < |all| :: all[b] < i
    ensures j < i
  {}

  lemma {:induction false} PrunedPart(all: seq<nat>, probed: seq<Lib>, best: Option<Lib>)
    requires |all| == |probed| && forall a, b | 0 <= a < b < |all| :: all[a] < all[b]
    ensures Part(PrunedFrom(all, probed, best), Prune(probed, best), all, probed, best)
  {
    hide Kept, Part;
    if all == [] {
      EmptyPart(best);
    } else {
      var n := |all| - 1;
      PrunedPart(all[..n], probed[..n], best);
      var from, kept := PrunedFrom(all[..n], probed[..n], best), Prune(probed[..n], best);
      PartNext(from, kept, all[..n], probed[..n], best, all[n], probed[n]);
      assert all == all[..n] + [all[n]] && probed == probed[..n] + [probed[n]];
      assert from + [] == from && kept + [] == kept;
    }
  }

  lemma EmptyPart(best: Option<Lib>)
    ensures Part([], [], [], [], best)
  {}

  lemma KeptExactly(libs: seq<Lib>, env: Environment, windows: bool, from: seq<nat>, probed: seq<Lib>, b: nat)
    requires Lists(from, probed, libs, env, windows) && b < |from| && DistinctLibs(probed)
    ensures from[b] < |libs|
    ensures Kept(probed[b], ChosenMsdk(probed)) <==>
            UsableVpl(libs[from[b]], env.runtime(libs[from[b]].name)) || Wins(libs, env, from[b])
    ensures KeptFor(probed[b], libs[from[b]], env.runtime(libs[from[b]].name), windows)
  {
    hide Survives, FirstBest, IsFirstBest, ChosenMsdk, Kept;
    SurvivorBelow(libs, env, windows, from[b], probed[b]);
    SurvivorFacts(libs, env, windows, from[b], probed[b]);
    if probed[b].libType == LibTypeMSDK {
      KeptLegacy(probed, probed[b]);
      WinnerIsFirstBest(libs, env, windows, from, probed, b);
      OnlyFirstBest(probed, b);
    } else {
      VplKept(probed[b], ChosenMsdk(probed));
    }
  }

  lemma OnlyFirstBest(libs: seq<Lib>, b: nat)
    requires DistinctLibs(libs) && b < |libs|
    ensures IsFirstBest(libs, libs[b]) <==> FirstBest(libs, AnyEligible(libs, true), b)
  {
    if IsFirstBest(libs, libs[b]) {
      var i: nat :| FirstBest(libs, AnyEligible(libs, true), i) && libs[i] == libs[b];
      assert i == b;
    }
  }

  lemma VplKept(m: Lib, best: Option<Lib>)
    requires m.libType != LibTypeMSDK
    ensures Kept(m, best)
  {}

  // The libraries that survive the check, from how the listed files answer. All that are usable as
  // VPL runtimes do, and at most one legacy library, which beats all others; each with what is
  // recorded about it, and in the order in which they were listed.
  lemma LibrariesUsed(st: State, env: Environment)
    requires DistinctLibs(st.libs)
    ensures exists from: seq<nat> :: UsedFrom(from, CheckLibs(st, env).libs, st, env)
  {
    hide Probe, Kept, ChosenMsdk, UsedFrom, Part, Survives, ProbeAll, Prune, PrunedFrom, ProbeEvents, PruneEvents;
    var libs, windows := st.libs, st.windows;
    SurvivorsListed(libs, env, windows);
    ProbedDistinct(libs, env, windows);
    var all, probed := Survivors(libs, env, windows), ProbeAll(libs, env, windows);
    var best := ChosenMsdk(probed);
    PrunedPart(all, probed, best);
    PartIsUsed(PrunedFrom(all, probed, best), Prune(probed, best), all, probed, st, env);
    assert UsedFrom(PrunedFrom(all, probed, best), CheckLibs(st, env).libs, st, env);
  }

  ghost predicate Used(libs: seq<Lib>, env: Environment, j: nat)
    requires j < |libs|
  {
    UsableVpl(libs[j], env.runtime(libs[j].name)) || Wins(libs, env, j)
  }

  lemma PartIsUsed(from: seq<nat>, kept: seq<Lib>, all: seq<nat>, probed: seq<Lib>, st: State, env: Environment)
    requires Lists(all, probed, st.libs, env, st.windows) && DistinctLibs(probed)
    requires Part(from, kept, all, probed, ChosenMsdk(probed))
    ensures UsedFrom(from, kept, st, env)
  {
    hide Lists, Kept, ChosenMsdk, UsableVpl, Wins, KeptFor, PairIn;
    var libs, windows, best := st.libs, st.windows, ChosenMsdk(probed);
    forall a | 0 <= a < |from|
      ensures from[a] < |libs| && KeptFor(kept[a], libs[from[a]], env.runtime(libs[from[a]].name), windows)
      ensures Used(libs, env, from[a])
    {
      PairUsed(from[a], kept[a], all, probed, st, env);
    }
    forall j | 0 <= j < |libs| && Used(libs, env, j) ensures j in from {
      UsedSurvives(libs, env, windows, all, probed, j);
      var b :| 0 <= b < |all| && all[b] == j;
      KeptExactly(libs, env, windows, all, probed, b);
    }
    assert forall j | 0 <= j < |libs| :: Used(libs, env, j) <==>
        (UsableVpl(libs[j], env.runtime(libs[j].name)) || Wins(libs, env, j));
  }

  lemma PairUsed(j: nat, m: Lib, all: seq<nat>, probed: seq<Lib>, st: State, env: Environment)
    requires Lists(all, probed, st.libs, env, st.windows) && DistinctLibs(probed)
    requires PairIn(j, m, all, probed) && Kept(m, ChosenMsdk(probed))
    ensures j < |st.libs| && Used(st.libs, env, j)
    ensures KeptFor(m, st.libs[j], env.runtime(st.libs[j].name), st.windows)
  {
    hide Lists, Kept, ChosenMsdk, UsableVpl, Wins, KeptFor;
    var b :| 0 <= b < |all| && b < |probed| && all[b] == j && probed[b] == m;
    KeptExactly(st.libs, env, st.windows, all, probed, b);
  }

  lemma UsedSurvives(libs: seq<Lib>, env: Environment, windows: bool, all: seq<nat>, probed: seq<Lib>, j: nat)
    requires Lists(all, probed, libs, env, windows) && j < |libs|
    requires UsableVpl(libs[j], env.runtime(libs[j].name)) || Wins(libs, env, j)
    ensures j in all
  {
    hide Probe;
    ProbeMeans(libs[j], env.runtime(libs[j].name), windows);
    assert Survives(libs, env, windows, j, Probe(libs[j], env.runtime(libs[j].name), windows).value);
  }

  // ---- searching -------------------------------------------------------------------------------------------

  // New libraries are appended in the order in which the candidates they were created for were found.
  ghost predicate Appended(pos: seq<nat>, added: seq<Lib>, libs: seq<Lib>, cs: seq<Candidate>, uid: nat) {
    && |pos| == |added|
    && (forall k | 0 <= k < |pos| :: FirstFound(libs, cs, pos[k]) && added[k] == NewLib(uid + k, cs[pos[k]]))
    && (forall k, m | 0 <= k < m < |pos| :: pos[k] < pos[m])
    && forall i | FirstFound(libs, cs, i) :: i in pos
  }

  lemma FoundStays(libs: seq<Lib>, cs: seq<Candidate>, c: Candidate, i: nat)
    ensures FirstFound(libs, cs + [c], i) <==>
            if i == |cs| then !Listed(libs, c.name) && !Found(cs, c.name) else FirstFound(libs, cs, i)
  {
    hide Listed;
    assert forall j | 0 <= j < |cs| :: (cs + [c])[j] == cs[j];
    assert (cs + [c])[|cs|] == c;
    if i == |cs| { assert Found(cs, c.name) <==> exists j | 0 <= j < |cs| :: cs[j].name == c.name; }
  }

  lemma FoundBelow(libs: seq<Lib>, cs: seq<Candidate>, i: nat)
    requires FirstFound(libs, cs, i)
    ensures i < |cs|
  {}

  lemma AppendedNew(pos: seq<nat>, added: seq<Lib>, libs: seq<Lib>, cs: seq<Candidate>, uid: nat, c: Candidate)
    requires Appended(pos, added, libs, cs, uid) && !Listed(libs, c.name) && !Found(cs, c.name)
    ensures Appended(pos + [|cs|], added + [NewLib(uid + |pos|, c)], libs, cs + [c], uid)
  {
    hide FirstFound, Listed, Found, NewLib;
    var all, list := pos + [|cs|], added + [NewLib(uid + |pos|, c)];
    forall k | 0 <= k < |all|
      ensures FirstFound(libs, cs + [c], all[k]) && all[k] <= |cs| && list[k] == NewLib(uid + k, (cs + [c])[all[k]])
    {
      FoundStays(libs, cs, c, all[k]);
      if k < |pos| { FoundBelow(libs, cs, pos[k]); }
    }
    forall k, m | 0 <= k < m < |all| ensures all[k] < all[m] { FoundBelow(libs, cs, pos[k]); }
    forall i | FirstFound(libs, cs + [c], i) ensures i in all {
      FoundStays(libs, cs, c, i);
      if i == |cs| { assert all[|pos|] == i; }
    }
  }

  lemma AppendedSame(pos: seq<nat>, added: seq<Lib>, libs: seq<Lib>, cs: seq<Candidate>, uid: nat, c: Candidate)
    requires Appended(pos, added, libs, cs, uid) && (Listed(libs, c.name) || Found(cs, c.name))
    ensures Appended(pos, added, libs, cs + [c], uid)
  {
    hide FirstFound, Listed, Found, NewLib;
    forall k | 0 <= k < |pos|
      ensures FirstFound(libs, cs + [c], pos[k]) && pos[k] < |cs| && added[k] == NewLib(uid + k, (cs + [c])[pos[k]])
    {
      FoundStays(libs, cs, c, pos[k]);
      FoundBelow(libs, cs, pos[k]);
    }
    forall i | FirstFound(libs, cs + [c], i) ensures i in pos { FoundStays(libs, cs, c, i); }
  }

  lemma {:induction false} CandidatesAppended(st: State, cs: seq<Candidate>) returns (pos: seq<nat>)
    requires DistinctNames(st.libs)
    ensures var r := AddCandidates(st, cs);
            && st.libs <= r.libs && r.uidNext == st.uidNext + |pos|
            && Appended(pos, r.libs[|st.libs|..], st.libs, cs, st.uidNext)
  {
    hide Appended, Listed, Found, DistinctNames, NewLib;
    if cs == [] {
      pos := [];
      NothingAppended(st.libs, st.uidNext);
    } else {
      var before, c := cs[..|cs| - 1], cs[|cs| - 1];
      assert cs == before + [c];
      pos := CandidatesAppended(st, before);
      var mid := AddCandidates(st, before);
      var added, lib := mid.libs[|st.libs|..], NewLib(mid.uidNext, c);
      CandidatesListedOnce(st, before);
      assert AddCandidates(st, cs) == AddCandidate(mid, c);
      if Listed(mid.libs, c.name) {
        AppendedSame(pos, added, st.libs, before, st.uidNext, c);
      } else {
        AppendedNew(pos, added, st.libs, before, st.uidNext, c);
        assert (mid.libs + [lib])[|st.libs|..] == added + [lib];
        pos := pos + [|before|];
      }
    }
  }

  lemma NothingAppended(libs: seq<Lib>, uid: nat)
    ensures Appended([], [], libs, [], uid)
  {}

  ghost predicate InDirs(name: string, dirs: seq<seq<string>>) { exists d :: 0 <= d < |dirs| && name in dirs[d] }

  lemma {:induction false} ConcatHas(dirs: seq<seq<string>>, name: string)
    ensures name in Concat(dirs) <==> InDirs(name, dirs)
  {
    if dirs != [] {
      var init, last := dirs[..|dirs| - 1], dirs[|dirs| - 1];
      ConcatHas(init, name);
      if d :| 0 <= d < |init| && name in init[d] { assert name in dirs[d]; }
      if d :| 0 <= d < |dirs| && name in dirs[d] { assert d < |init| ==> name in init[d]; }
      if name in last { assert name in dirs[|dirs| - 1]; }
    }
  }

  // The first file with this path in the other search locations.
  ghost predicate FirstOther(others: seq<OtherCandidate>, k: nat, name: string) {
    k < |others| && others[k].name == name && forall j | 0 <= j < k :: others[j].name != name
  }

  // A library listed for a file that no library was listed for: nothing is known of it yet but where it
  // was found, 0 for the directories of the priority path, which also win over all others.
  ghost predicate NewlyListed(l: Lib, env: Environment) {
    && l.libType == LibTypeUnknown && !l.loaded && (forall i | 0 <= i < 13 :: !l.table[i])
    && if InDirs(l.name, env.priorityPathDirs) then l.priority == 0
       else exists k: nat :: FirstOther(env.others, k, l.name) && l.priority == env.others[k].priority != 0
  }

  lemma CandidatesMean(env: Environment, libs: seq<Lib>, i: nat)
    requires FirstFound(libs, CandidatesOf(env), i)
    ensures var c := CandidatesOf(env)[i];
            && NewlyListed(NewLib(0, c), env) && (i < |Concat(env.priorityPathDirs)| <==> c.priority == 0)
  {
    var cs, first := CandidatesOf(env), Concat(env.priorityPathDirs);
    var c := cs[i];
    ConcatHas(env.priorityPathDirs, c.name);
    if i < |first| {
      assert c.name == first[i];
    } else {
      var k := i - |first|;
      assert c == env.others[k];
      assert c.name !in first by {
        forall j | 0 <= j < |first| ensures first[j] != c.name { assert cs[j].name == first[j]; }
      }
      assert FirstOther(env.others, k, c.name) by {
        forall j | 0 <= j < k ensures env.others[j].name != c.name { assert cs[|first| + j] == env.others[j]; }
      }
    }
  }

  lemma {:induction false} FirstOfName(others: seq<OtherCandidate>, j: nat) returns (k: nat)
    requires j < |others|
    ensures FirstOther(others, k, others[j].name)
  {
    if i :| 0 <= i < j && others[i].name == others[j].name { k := FirstOfName(others, i); } else { k := j; }
  }

  lemma CandidateNames(env: Environment, n: string)
    ensures Found(CandidatesOf(env), n) <==>
            InDirs(n, env.priorityPathDirs) || exists k: nat :: FirstOther(env.others, k, n)
  {
    hide InDirs;
    var cs, first := CandidatesOf(env), Concat(env.priorityPathDirs);
    ConcatHas(env.priorityPathDirs, n);
    if Found(cs, n) {
      var i :| 0 <= i < |cs| && cs[i].name == n;
      if i < |first| { assert first[i] == n; } else { var k := FirstOfName(env.others, i - |first|); }
    }
    if n in first {
      var j :| 0 <= j < |first| && first[j] == n;
      assert cs[j].name == n;
    }
    if k: nat :| FirstOther(env.others, k, n) { assert cs[|first| + k].name == n; }
  }

  lemma AppendedAt(pos: seq<nat>, added: seq<Lib>, libs: seq<Lib>, cs: seq<Candidate>, uid: nat, k: nat)
    requires Appended(pos, added, libs, cs, uid) && k < |added|
    ensures |pos| == |added| && FirstFound(libs, cs, pos[k]) && pos[k] < |cs|
    ensures added[k] == NewLib(uid + k, cs[pos[k]])
    ensures !Listed(libs, added[k].name)
    ensures forall m | 0 <= m < k :: pos[m] < pos[k]
  {}

  lemma AppendedLength(pos: seq<nat>, added: seq<Lib>, libs: seq<Lib>, cs: seq<Candidate>, uid: nat)
    requires Appended(pos, added, libs, cs, uid)
    ensures |pos| == |added|
  {}

  lemma NewlyListedUid(u: nat, c: Candidate, env: Environment)
    requires NewlyListed(NewLib(0, c), env)
    ensures NewlyListed(NewLib(u, c), env)
  {
    hide InDirs, FirstOther;
  }

  // A search adds one library for each file found that is not listed, those of the priority path before
  // all others, and remembers whether it was given a priority path.
  lemma SearchLists(st: State, env: Environment)
    requires DistinctNames(st.libs)
    ensures var r := BuildList(st, env);
            && r == st.(libs := r.libs, uidNext := r.uidNext,
                        priorityPath := st.priorityPath || env.priorityPathDirs != [])
            && st.libs <= r.libs && DistinctNames(r.libs) && r.uidNext == st.uidNext + |r.libs| - |st.libs|
            && (forall n :: Listed(r.libs, n) <==>
                  || Listed(st.libs, n) || InDirs(n, env.priorityPathDirs)
                  || exists k: nat :: FirstOther(env.others, k, n))
            && (forall k | |st.libs| <= k < |r.libs| ::
                  r.libs[k].uid == st.uidNext + k - |st.libs| && NewlyListed(r.libs[k], env)
                  && !Listed(st.libs, r.libs[k].name))
            && forall k, m | |st.libs| <= k < m < |r.libs| && r.libs[m].priority == 0 :: r.libs[k].priority == 0
  {
    hide Appended, Listed, Found, NewlyListed, InDirs, FirstOther, DistinctNames, FirstFound;
    hide CandidatesOf, AddCandidates;
    var cs, libs := CandidatesOf(env), st.libs;
    AddCandidatesFrame(st, cs);
    CandidatesListedOnce(st, cs);
    var pos := CandidatesAppended(st, cs);
    var r := AddCandidates(st, cs);
    var added := r.libs[|libs|..];
    AppendedLength(pos, added, libs, cs, st.uidNext);
    forall n { CandidateNames(env, n); }
    forall k | 0 <= k < |added|
      ensures r.libs[|libs| + k] == added[k] && added[k].uid == st.uidNext + k && NewlyListed(added[k], env)
      ensures !Listed(libs, added[k].name) && forall m | 0 <= m < k :: pos[m] < pos[k]
      ensures pos[k] < |Concat(env.priorityPathDirs)| <==> added[k].priority == 0
    {
      AppendedAt(pos, added, libs, cs, st.uidNext, k);
      CandidatesMean(env, libs, pos[k]);
      NewlyListedUid(st.uidNext + k, cs[pos[k]], env);
    }
    forall k | |libs| <= k < |r.libs|
      ensures r.libs[k].uid == st.uidNext + k - |libs| && NewlyListed(r.libs[k], env) && !Listed(libs, r.libs[k].name)
    {
      assert r.libs[k] == added[k - |libs|];
    }
    forall k, m | |libs| <= k < m < |r.libs| && r.libs[m].priority == 0 ensures r.libs[k].priority == 0 {
      assert r.libs[k] == added[k - |libs|] && r.libs[m] == added[m - |libs|];
    }
  }
}
