// The pass over the implementation list after all libraries have been queried, for entries whose
// description may be missing. Such entries come from low latency sessions; the pass asks their
// runtimes again, and a legacy entry whose runtime does not answer is not passed over but retried.
module PostPass {
  import opened DeviceId
  import opened ImplOrder
  import opened LoaderState
  import opened VplTypes

  // What the pass reads and writes of one implementation.
  datatype Entry = Entry(libType: LibType, desc: Option<ImplDesc>, adapterIdx: u32, validImplIdx: int)

  // it is the iterator, attempt the number of times its entry has been tried in vain.
  datatype Pass = Pass(list: seq<Entry>, it: nat, attempt: nat)

  // The adapter number that IsValidX86GPU finds.
  function AdapterOf(e: Entry): Option<u32> {
    if e.desc.Some? && e.validImplIdx >= 0 && e.desc.value.vendorID == VENDOR_INTEL
       && e.desc.value.impl == IMPL_TYPE_HARDWARE
       && ParseDeviceIDx86(e.desc.value.dev.deviceID).ok
    then Some(ParseDeviceIDx86(e.desc.value.dev.deviceID).adapterIdx) else None
  }

  // A missing description counts as one with an empty device id.
  function DeviceOf(e: Entry): string { if e.desc.Some? then e.desc.value.dev.deviceID else "" }

  predicate IsHardwareVplFor(e: Entry, deviceID: string) {
    && e.libType == LibTypeVPL && e.desc.Some? && e.desc.value.impl == IMPL_TYPE_HARDWARE
    && e.desc.value.dev.deviceID == deviceID
  }

  predicate FindVpl(list: seq<Entry>, deviceID: string) {
    exists k | 0 <= k < |list| :: IsHardwareVplFor(list[k], deviceID)
  }

  // The first part of the loop body: the adapter number, and hiding of superseded legacy entries.
  function Mark(e: Entry, list: seq<Entry>, d3d9: bool): Entry {
    var a := AdapterOf(e);
    var w := if a.Some? then e.(adapterIdx := a.value) else e;
    if w.libType == LibTypeMSDK
       && ((FindVpl(list, DeviceOf(w)) && !d3d9) || (w.desc.Some? && w.desc.value.apiVersion == Version(1, 255)))
    then w.(validImplIdx := -1) else w
  }

  // One execution of the loop body. A legacy entry without description whose query fails leaves the
  // iterator where it is.
  function Next(p: Pass, d3d9: bool, ans: Answers): Pass
    requires p.it < |p.list|
  {
    var e := Mark(p.list[p.it], p.list, d3d9);
    if e.desc.None? && e.libType == LibTypeVPL then
      Pass(p.list[p.it := e.(desc := ans.vpl(p.it))], p.it + 1, 0)
    else if e.desc.None? && e.libType == LibTypeMSDK then
      var d := ans.legacy(p.it, p.attempt);
      if d.None? then Pass(p.list[p.it := e], p.it, p.attempt + 1)
      else Pass(p.list[p.it := e.(desc := d)], p.it + 1, 0)
    else Pass(p.list[p.it := e], p.it + 1, 0)
  }

  // After n executions of the loop body, or fewer if the loop ends before.
  function After(p: Pass, n: nat, d3d9: bool, ans: Answers): (r: Pass)
    requires p.it <= |p.list|
    ensures |r.list| == |p.list| && p.it <= r.it <= |r.list|
    decreases n
  {
    if n == 0 || p.it == |p.list| then p else After(Next(p, d3d9, ans), n - 1, d3d9, ans)
  }

  function Start(list: seq<Entry>): Pass { Pass(list, 0, 0) }

  ghost predicate Ends(list: seq<Entry>, d3d9: bool, ans: Answers) {
    exists n :: After(Start(list), n, d3d9, ans).it == |list|
  }

  predicate AsksAgain(e: Entry) { e.libType == LibTypeMSDK && e.desc.None? }

  // Every legacy entry without description gets one at some attempt.
  ghost predicate Answered(list: seq<Entry>, ans: Answers) {
    forall i | 0 <= i < |list| && AsksAgain(list[i]) :: AnsweredAt(ans, i)
  }

  ghost predicate AnsweredAt(ans: Answers, i: nat) { exists a :: AnswerAt(ans, i, a) }
  predicate AnswerAt(ans: Answers, i: nat, a: nat) { ans.legacy(i, a).Some? }

  // ---- when the pass ends -----------------------------------------------------------------------------

  lemma MarkKeeps(e: Entry, list: seq<Entry>, d3d9: bool)
    ensures Mark(e, list, d3d9).libType == e.libType && Mark(e, list, d3d9).desc == e.desc
  {}

  // One execution changes at most the entry at the iterator.
  lemma NextFrame(p: Pass, d3d9: bool, ans: Answers)
    requires p.it < |p.list|
    ensures var q := Next(p, d3d9, ans);
            && |q.list| == |p.list| && p.it <= q.it <= p.it + 1
            && (forall j | 0 <= j < |p.list| && j != p.it :: q.list[j] == p.list[j])
            && (q.it == p.it <==> AsksAgain(p.list[p.it]) && !AnswerAt(ans, p.it, p.attempt))
            && (q.it == p.it ==> AsksAgain(q.list[p.it]) && q.attempt == p.attempt + 1)
            && (q.it > p.it ==> q.it == p.it + 1 && q.attempt == 0)
  {
    hide Mark;
    MarkKeeps(p.list[p.it], p.list, d3d9);
  }

  lemma {:induction false} AfterAdds(p: Pass, m: nat, n: nat, d3d9: bool, ans: Answers)
    requires p.it <= |p.list|
    ensures After(After(p, m, d3d9, ans), n, d3d9, ans) == After(p, m + n, d3d9, ans)
    decreases m
  {
    hide Next;
    if m > 0 && p.it < |p.list| {
      NextFrame(p, d3d9, ans);
      AfterAdds(Next(p, d3d9, ans), m - 1, n, d3d9, ans);
    }
  }

  // An entry that is never answered is never passed.
  lemma {:induction false} NeverPasses(p: Pass, n: nat, d3d9: bool, ans: Answers, i: nat)
    requires p.it <= i < |p.list| && AsksAgain(p.list[i]) && !AnsweredAt(ans, i)
    ensures After(p, n, d3d9, ans).it <= i
    decreases n
  {
    hide Next;
    if n > 0 {
      NextFrame(p, d3d9, ans);
      NeverPasses(Next(p, d3d9, ans), n - 1, d3d9, ans, i);
    }
  }

  // An entry that will be answered is passed within the attempts that takes.
  lemma {:induction false} PassesOne(p: Pass, d3d9: bool, ans: Answers, a: nat) returns (n: nat)
    requires p.it < |p.list|
    requires AsksAgain(p.list[p.it]) ==> AnswerAt(ans, p.it, a) && p.attempt <= a
    ensures var q := After(p, n, d3d9, ans);
            && q.it == p.it + 1 && q.attempt == 0
            && forall j | p.it < j < |p.list| :: q.list[j] == p.list[j]
    decreases a - p.attempt
  {
    hide Next;
    NextFrame(p, d3d9, ans);
    var q := Next(p, d3d9, ans);
    if q.it == p.it {
      var m := PassesOne(q, d3d9, ans, a);
      n := m + 1;
    } else {
      n := 1;
    }
  }

  lemma {:induction false} PassesAll(p: Pass, d3d9: bool, ans: Answers) returns (n: nat)
    requires p.it <= |p.list| && p.attempt == 0
    requires forall i | p.it <= i < |p.list| && AsksAgain(p.list[i]) :: AnsweredAt(ans, i)
    ensures After(p, n, d3d9, ans).it == |p.list|
    decreases |p.list| - p.it
  {
    hide Next;
    n := 0;
    if p.it < |p.list| {
      var a: nat := 0;
      if AsksAgain(p.list[p.it]) { a :| AnswerAt(ans, p.it, a); }
      var m := PassesOne(p, d3d9, ans, a);
      var k := PassesAll(After(p, m, d3d9, ans), d3d9, ans);
      AfterAdds(p, m, k, d3d9, ans);
      n := m + k;
    }
  }

  // The pass ends iff every legacy entry without description is answered in the end. With a runtime
  // that always answers alike: iff none of those queries fails.
  lemma EndsExactly(list: seq<Entry>, d3d9: bool, ans: Answers)
    ensures Ends(list, d3d9, ans) <==> Answered(list, ans)
    ensures (forall i: nat, a: nat, b: nat :: ans.legacy(i, a) == ans.legacy(i, b)) ==>
              (Ends(list, d3d9, ans) <==> forall i | 0 <= i < |list| && AsksAgain(list[i]) :: AnswerAt(ans, i, 0))
  {
    hide After, Next;
    if Answered(list, ans) {
      var n := PassesAll(Start(list), d3d9, ans);
    }
    if n :| After(Start(list), n, d3d9, ans).it == |list| {
      forall i | 0 <= i < |list| && AsksAgain(list[i]) ensures AnsweredAt(ans, i) {
        if !AnsweredAt(ans, i) { NeverPasses(Start(list), n, d3d9, ans, i); }
      }
    }
    if forall i: nat, a: nat, b: nat :: ans.legacy(i, a) == ans.legacy(i, b) {
      forall i: nat ensures AnsweredAt(ans, i) <==> AnswerAt(ans, i, 0) {
        if a :| AnswerAt(ans, i, a) { assert ans.legacy(i, a) == ans.legacy(i, 0); }
      }
    }
  }


  // ---- what the pass fills in --------------------------------------------------------------------------

  // What an entry e at position j has become.
  ghost predicate FilledIn(f: Entry, e: Entry, j: nat, ans: Answers) {
    && f.libType == e.libType
    && (f.validImplIdx == e.validImplIdx || (f.validImplIdx == -1 && e.libType == LibTypeMSDK))
    && (e.desc.Some? || e.libType == LibTypeUnknown ==> f.desc == e.desc)
    && (e.desc.None? && e.libType == LibTypeVPL ==> f.desc == ans.vpl(j))
    && (e.desc.None? && e.libType == LibTypeMSDK ==> exists a :: FirstAnswer(f.desc, j, a, ans))
  }

  ghost predicate FirstAnswer(desc: Option<ImplDesc>, j: nat, a: nat, ans: Answers) {
    desc.Some? && desc == ans.legacy(j, a) && forall b: nat | b < a :: ans.legacy(j, b).None?
  }

  ghost predicate Filling(p: Pass, list: seq<Entry>, ans: Answers) {
    && |p.list| == |list| && p.it <= |list|
    && (forall j | 0 <= j < p.it :: FilledIn(p.list[j], list[j], j, ans))
    && (forall j | p.it < j < |list| :: p.list[j] == list[j])
    && (p.it < |list| ==>
          && p.list[p.it].libType == list[p.it].libType && p.list[p.it].desc == list[p.it].desc
          && (p.list[p.it].validImplIdx == list[p.it].validImplIdx
              || (p.list[p.it].validImplIdx == -1 && list[p.it].libType == LibTypeMSDK))
          && forall b: nat | b < p.attempt :: ans.legacy(p.it, b).None?)
  }

  lemma MarkHides(e: Entry, list: seq<Entry>, d3d9: bool)
    ensures var f := Mark(e, list, d3d9);
            f.validImplIdx == e.validImplIdx || (f.validImplIdx == -1 && e.libType == LibTypeMSDK)
  {}

  lemma FillStep(p: Pass, list: seq<Entry>, d3d9: bool, ans: Answers)
    requires Filling(p, list, ans) && p.it < |list|
    ensures Filling(Next(p, d3d9, ans), list, ans)
  {
    hide Mark;
    var e, q := p.list[p.it], Next(p, d3d9, ans);
    MarkKeeps(e, p.list, d3d9);
    MarkHides(e, p.list, d3d9);
    if q.it > p.it {
      if list[p.it].desc.None? && e.libType == LibTypeMSDK {
        assert FirstAnswer(q.list[p.it].desc, p.it, p.attempt, ans);
      }
      assert FilledIn(q.list[p.it], list[p.it], p.it, ans);
    }
  }

  lemma {:induction false} FillsFrom(p: Pass, list: seq<Entry>, n: nat, d3d9: bool, ans: Answers)
    requires Filling(p, list, ans)
    ensures Filling(After(p, n, d3d9, ans), list, ans)
    decreases n
  {
    hide Next, FilledIn;
    if n > 0 && p.it < |p.list| {
      FillStep(p, list, d3d9, ans);
      FillsFrom(Next(p, d3d9, ans), list, n - 1, d3d9, ans);
    }
  }

  // When the pass ends, no description that was there has changed, and a missing one is what its
  // runtime answered: a VPL runtime at once, a legacy one at the first attempt it answers. Only legacy
  // entries have been hidden, and no index has changed otherwise.
  lemma PassFills(list: seq<Entry>, n: nat, d3d9: bool, ans: Answers)
    requires After(Start(list), n, d3d9, ans).it == |list|
    ensures var end := After(Start(list), n, d3d9, ans).list;
            forall j | 0 <= j < |list| :: FilledIn(end[j], list[j], j, ans)
  {
    hide After, FilledIn;
    FillsFrom(Start(list), list, n, d3d9, ans);
  }

  // Wherever the pass is found ended, it is in the same state.
  lemma EndIsUnique(p: Pass, m: nat, n: nat, d3d9: bool, ans: Answers)
    requires p.it <= |p.list| && After(p, m, d3d9, ans).it == |p.list| == After(p, n, d3d9, ans).it
    ensures After(p, m, d3d9, ans) == After(p, n, d3d9, ans)
  {
    if m <= n {
      AfterAdds(p, m, n - m, d3d9, ans);
    } else {
      AfterAdds(p, n, m - n, d3d9, ans);
    }
  }

  // ---- entries that all have descriptions ------------------------------------------------------------

  function AsEntry(v: Impl): Entry { Entry(v.info.libType, Some(v.info.caps.desc), v.adapterIdx, v.validImplIdx) }

  function AsEntries(s: seq<Impl>): (r: seq<Entry>)
    ensures |r| == |s| && forall i | 0 <= i < |s| :: r[i] == AsEntry(s[i])
  {
    seq(|s|, i requires 0 <= i < |s| => AsEntry(s[i]))
  }

  // The list part way through the pass still names the same devices.
  ghost predicate SameDevices(list: seq<Entry>, s: seq<Impl>) {
    |list| == |s| &&
    forall k | 0 <= k < |s| ::
      list[k].libType == s[k].info.libType && list[k].desc == Some(s[k].info.caps.desc)
  }

  lemma FindVplSuperseded(list: seq<Entry>, s: seq<Impl>, d: ImplData)
    requires SameDevices(list, s)
    ensures FindVpl(list, d.caps.desc.dev.deviceID) <==> Superseded(d, s)
  {
    if k :| 0 <= k < |list| && IsHardwareVplFor(list[k], d.caps.desc.dev.deviceID) {
      assert IsHardwareVpl(s[k].info) && s[k].info.caps.desc.dev.deviceID == d.caps.desc.dev.deviceID;
    }
    if k :| 0 <= k < |s| && IsHardwareVpl(s[k].info) && s[k].info.caps.desc.dev.deviceID == d.caps.desc.dev.deviceID {
      assert IsHardwareVplFor(list[k], d.caps.desc.dev.deviceID);
    }
  }

  lemma MarkIsPostProcess(v: Impl, list: seq<Entry>, s: seq<Impl>, d3d9: bool)
    requires SameDevices(list, s)
    ensures Mark(AsEntry(v), list, d3d9) == AsEntry(PostProcess(v, s, d3d9))
  {
    FindVplSuperseded(list, s, v.info);
  }

  // Part way through: the first i entries are done.
  ghost function PartWay(s: seq<Impl>, i: nat, d3d9: bool): Pass
    requires i <= |s|
  {
    Pass(AsEntries(PostProcessAll(s[..i], s, d3d9) + s[i..]), i, 0)
  }

  lemma {:induction false} DescribedPass(s: seq<Impl>, n: nat, d3d9: bool, ans: Answers)
    requires n <= |s|
    ensures After(Start(AsEntries(s)), n, d3d9, ans) == PartWay(s, n, d3d9)
  {
    hide Next, PostProcess;
    if n == 0 {
      assert PostProcessAll(s[..0], s, d3d9) + s[0..] == s;
    } else {
      DescribedPass(s, n - 1, d3d9, ans);
      AfterAdds(Start(AsEntries(s)), n - 1, 1, d3d9, ans);
      DescribedStep(s, n - 1, d3d9, ans);
    }
  }

  lemma DescribedStep(s: seq<Impl>, i: nat, d3d9: bool, ans: Answers)
    requires i < |s|
    ensures Next(PartWay(s, i, d3d9), d3d9, ans) == PartWay(s, i + 1, d3d9)
  {
    hide Mark, PostProcess;
    var p, q := PartWay(s, i, d3d9), PartWay(s, i + 1, d3d9);
    assert p.list[i] == AsEntry(s[i]);
    PartWayDevices(s, i, d3d9);
    MarkIsPostProcess(s[i], p.list, s, d3d9);
    assert p.list[i := AsEntry(PostProcess(s[i], s, d3d9))] == q.list;
  }

  lemma PartWayDevices(s: seq<Impl>, i: nat, d3d9: bool)
    requires i <= |s|
    ensures SameDevices(PartWay(s, i, d3d9).list, s)
  {}

  // Without low latency sessions every entry has its description: the pass ends, asks nobody again,
  // and does to each entry what PostProcess says.
  lemma DescribedPassEnds(s: seq<Impl>, d3d9: bool, ans: Answers)
    ensures Ends(AsEntries(s), d3d9, ans)
    ensures After(Start(AsEntries(s)), |s|, d3d9, ans) == Pass(AsEntries(PostProcessAll(s, s, d3d9)), |s|, 0)
  {
    DescribedPass(s, |s|, d3d9, ans);
    assert s[..|s|] == s && PostProcessAll(s, s, d3d9) + s[|s|..] == PostProcessAll(s, s, d3d9);
  }
}
