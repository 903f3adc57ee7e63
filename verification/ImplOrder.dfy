// The implementation list: priority order and enumeration indices.
module ImplOrder {
  import opened Filters
  import opened StableSort
  import opened VplTypes

  const LIB_PRIORITY_SPECIAL := 0
  const LIB_PRIORITY_LEGACY_DRIVERSTORE := 10000

  // Addresses handed out for the three capability structures of one implementation; 0 is null.
  datatype Handles = Handles(desc: nat, funcs: nat, ext: nat)

  // Everything about an implementation that is fixed when it is discovered. id stands for its
  // object identity; the library is given by its own identity, search priority and type.
  datatype ImplData = ImplData(
    id: nat,
    libUid: nat,
    libPriority: nat,
    libType: LibType,
    caps: Caps,
    handles: Handles,
    libImplIdx: nat,
    msdkImplIdx: nat)

  datatype Impl = Impl(info: ImplData, adapterIdx: u32, validImplIdx: int) {
    predicate Valid() { validImplIdx >= 0 }
  }

  // ---- the four priority rules, as ranks (lower comes first) -----------------------------------

  function PathRank(d: ImplData): int { d.libPriority }
  function VersionRank(d: ImplData): int { var n: int := d.caps.desc.apiVersion.Number(); -n }
  function HddlRank(d: ImplData): int { if d.caps.desc.accelerationMode == ACCEL_MODE_VIA_HDDLUNITE then 1 else 0 }
  function ImplRank(d: ImplData): int { var n: int := d.caps.desc.impl; -n }
  predicate FromPriorityPath(d: ImplData) { d.libPriority == LIB_PRIORITY_SPECIAL }

  // The comparisons handed to the sort. data gives access to the fixed part of whatever the
  // list holds.
  function ByPath<T>(data: T -> ImplData): T -> int { x => PathRank(data(x)) }
  function ByVersion<T>(data: T -> ImplData): T -> int { x => VersionRank(data(x)) }
  function ByHddl<T>(data: T -> ImplData): T -> int { x => HddlRank(data(x)) }
  function ByImpl<T>(data: T -> ImplData): T -> int { x => ImplRank(data(x)) }
  function IsSpecial<T>(data: T -> ImplData): T -> bool { x => FromPriorityPath(data(x)) }
  function NotSpecial<T>(data: T -> ImplData): T -> bool { x => !FromPriorityPath(data(x)) }

  // Successive stable sorts, from the lowest to the highest rule.
  function SortByRules<T>(s: seq<T>, data: T -> ImplData): seq<T> {
    Sort(Sort(Sort(Sort(s, ByPath(data)), ByVersion(data)), ByHddl(data)), ByImpl(data))
  }

  // Libraries from the user's priority path are taken out, and put back in front unsorted.
  function Order<T>(s: seq<T>, data: T -> ImplData, priorityPath: bool): seq<T> {
    if priorityPath
    then Filter(s, IsSpecial(data)) + SortByRules(Filter(s, NotSpecial(data)), data)
    else SortByRules(s, data)
  }

  const InfoOf: Impl -> ImplData := (v: Impl) => v.info

  function CountValid(s: seq<Impl>): nat {
    if s == [] then 0 else CountValid(s[..|s| - 1]) + (if s[|s| - 1].Valid() then 1 else 0)
  }

  // The final pass: valid entries are numbered in list order, invalid ones keep what they have.
  function Renumber(s: seq<Impl>): (r: seq<Impl>)
    ensures |r| == |s|
  {
    seq(|s|, i requires 0 <= i < |s| => if s[i].Valid() then s[i].(validImplIdx := CountValid(s[..i])) else s[i])
  }

  function Prioritize(s: seq<Impl>, priorityPath: bool): seq<Impl> { Renumber(Order(s, InfoOf, priorityPath)) }

  // ---- the four sorts are one lexicographic order ---------------------------------------------

  ghost predicate Distinct(s: seq<Impl>) {
    forall i, j | 0 <= i < j < |s| :: s[i].info.id != s[j].info.id
  }

  // a stands before b in s (compared by identity).
  ghost predicate At(s: seq<Impl>, i: nat, a: Impl) { i < |s| && s[i].info.id == a.info.id }
  ghost predicate Earlier(s: seq<Impl>, a: Impl, b: Impl) { exists i, j :: i < j && At(s, i, a) && At(s, j, b) }

  // Greatest Impl first, general hardware before HDDL, greatest API version first, lowest search
  // path value first, and otherwise as before.
  ghost predicate RulesBefore(s: seq<Impl>, a: Impl, b: Impl) {
    var x, y := a.info.caps.desc, b.info.caps.desc;
    var ax, ay := x.accelerationMode == ACCEL_MODE_VIA_HDDLUNITE, y.accelerationMode == ACCEL_MODE_VIA_HDDLUNITE;
    || x.impl > y.impl
    || (x.impl == y.impl && !ax && ay)
    || (x.impl == y.impl && ax == ay && x.apiVersion.Number() > y.apiVersion.Number())
    || (x.impl == y.impl && ax == ay && x.apiVersion == y.apiVersion && a.info.libPriority < b.info.libPriority)
    || (x.impl == y.impl && ax == ay && x.apiVersion == y.apiVersion && a.info.libPriority == b.info.libPriority
        && Earlier(s, a, b))
  }

  // The whole order: with a priority path, its entries come first in their original order.
  ghost predicate ComesBefore(s: seq<Impl>, priorityPath: bool, a: Impl, b: Impl) {
    if priorityPath && (FromPriorityPath(a.info) || FromPriorityPath(b.info))
    then FromPriorityPath(a.info) && (FromPriorityPath(b.info) ==> Earlier(s, a, b))
    else RulesBefore(s, a, b)
  }

  ghost function EarlierIn(s: seq<Impl>): (Impl, Impl) -> bool { (a, b) => Earlier(s, a, b) }
  ghost function RulesIn(s: seq<Impl>): (Impl, Impl) -> bool { (a, b) => RulesBefore(s, a, b) }
  ghost function OrderIn(s: seq<Impl>, priorityPath: bool): (Impl, Impl) -> bool {
    (a, b) => ComesBefore(s, priorityPath, a, b)
  }

  lemma EarlierAsymmetric(s: seq<Impl>, a: Impl, b: Impl)
    requires Distinct(s) && Earlier(s, a, b)
    ensures !Earlier(s, b, a)
  {
    var i, j :| i < j && At(s, i, a) && At(s, j, b);
    forall i', j' | i' < j' && At(s, i', b) && At(s, j', a) ensures false {}
  }

  lemma OrderAsymmetric(s: seq<Impl>, priorityPath: bool)
    requires Distinct(s)
    ensures Asymmetric(OrderIn(s, priorityPath))
  {
    forall a, b ensures !(ComesBefore(s, priorityPath, a, b) && ComesBefore(s, priorityPath, b, a)) {
      if Earlier(s, a, b) { EarlierAsymmetric(s, a, b); }
    }
  }

  ghost function LexIn(s: seq<Impl>): (Impl, Impl) -> bool {
    ByRank(ByImpl(InfoOf), ByRank(ByHddl(InfoOf), ByRank(ByVersion(InfoOf), ByRank(ByPath(InfoOf), EarlierIn(s)))))
  }

  lemma LexIsRules(s: seq<Impl>, a: Impl, b: Impl)
    ensures LexIn(s)(a, b) <==> RulesBefore(s, a, b)
  {
    var x, y := a.info.caps.desc.apiVersion, b.info.caps.desc.apiVersion;
    assert x.Number() == y.Number() ==> x == y;
  }

  // The four sorts order by all four rules at once, with ties as they were.
  lemma RulesOrder(s: seq<Impl>, t: seq<Impl>)
    requires Ordered(t, EarlierIn(s))
    ensures Ordered(SortByRules(t, InfoOf), RulesIn(s))
  {
    var s4 := Sort(t, ByPath(InfoOf));
    var s3 := Sort(s4, ByVersion(InfoOf));
    var s2 := Sort(s3, ByHddl(InfoOf));
    var b4 := ByRank(ByPath(InfoOf), EarlierIn(s));
    var b3 := ByRank(ByVersion(InfoOf), b4);
    SortRefines(t, ByPath(InfoOf), EarlierIn(s));
    SortRefines(s4, ByVersion(InfoOf), b4);
    SortRefines(s3, ByHddl(InfoOf), b3);
    SortRefines(s2, ByImpl(InfoOf), ByRank(ByHddl(InfoOf), b3));
    var s1 := SortByRules(t, InfoOf);
    forall i, j | 0 <= i < j < |s1| ensures RulesIn(s)(s1[i], s1[j]) {
      assert LexIn(s)(s1[i], s1[j]);
      LexIsRules(s, s1[i], s1[j]);
    }
  }

  lemma SelfEarlier(s: seq<Impl>)
    ensures Ordered(s, EarlierIn(s))
  {
    forall i, j | 0 <= i < j < |s| ensures Earlier(s, s[i], s[j]) {
      assert At(s, i, s[i]) && At(s, j, s[j]);
    }
  }

  lemma FiltersPartition(s: seq<Impl>)
    ensures multiset(Filter(s, IsSpecial(InfoOf))) + multiset(Filter(s, NotSpecial(InfoOf))) == multiset(s)
    ensures forall v | v in Filter(s, IsSpecial(InfoOf)) :: FromPriorityPath(v.info)
    ensures forall v | v in Filter(s, NotSpecial(InfoOf)) :: !FromPriorityPath(v.info)
  {
    var a, b := Filter(s, IsSpecial(InfoOf)), Filter(s, NotSpecial(InfoOf));
    FilterSplits(s, IsSpecial(InfoOf), NotSpecial(InfoOf));
    forall v ensures v in a ==> FromPriorityPath(v.info) { FilterMembers(s, IsSpecial(InfoOf), v); }
    forall v ensures v in b ==> !FromPriorityPath(v.info) { FilterMembers(s, NotSpecial(InfoOf), v); }
  }

  // Order rearranges s into its priority order.
  lemma OrderIsInOrder(s: seq<Impl>, priorityPath: bool)
    ensures Ordered(Order(s, InfoOf, priorityPath), OrderIn(s, priorityPath))
    ensures multiset(Order(s, InfoOf, priorityPath)) == multiset(s)
  {
    SelfEarlier(s);
    if priorityPath {
      var a, b := Filter(s, IsSpecial(InfoOf)), Filter(s, NotSpecial(InfoOf));
      var c := SortByRules(b, InfoOf);
      FiltersPartition(s);
      FilterOrdered(s, IsSpecial(InfoOf), EarlierIn(s));
      FilterOrdered(s, NotSpecial(InfoOf), EarlierIn(s));
      RulesOrder(s, b);
      SortByRulesPermutes(b, InfoOf);
      forall v | v in c ensures !FromPriorityPath(v.info) { assert v in multiset(c); }
      var t := a + c;
      forall i, j | 0 <= i < j < |t| ensures ComesBefore(s, priorityPath, t[i], t[j]) {
        if j < |a| {
          assert EarlierIn(s)(a[i], a[j]);
        } else if i >= |a| {
          assert RulesIn(s)(c[i - |a|], c[j - |a|]);
        } else {
          assert t[i] in a && t[j] in c;
        }
      }
    } else {
      RulesOrder(s, s);
      SortByRulesPermutes(s, InfoOf);
      var t := SortByRules(s, InfoOf);
      forall i, j | 0 <= i < j < |t| ensures ComesBefore(s, priorityPath, t[i], t[j]) {
        assert RulesIn(s)(t[i], t[j]);
      }
    }
  }

  // The priority order is the only arrangement of s that follows the rules.
  lemma OrderUnique(s: seq<Impl>, priorityPath: bool, t: seq<Impl>)
    requires Distinct(s)
    ensures t == Order(s, InfoOf, priorityPath) <==>
            Ordered(t, OrderIn(s, priorityPath)) && multiset(t) == multiset(s)
  {
    OrderIsInOrder(s, priorityPath);
    OrderAsymmetric(s, priorityPath);
    if Ordered(t, OrderIn(s, priorityPath)) && multiset(t) == multiset(s) {
      OrderedUnique(t, Order(s, InfoOf, priorityPath), OrderIn(s, priorityPath));
    }
  }

  // ---- consequences ------------------------------------------------------------------------------

  lemma FilterTwice<T>(s: seq<T>, p: T -> bool, q: T -> bool)
    ensures Filter(Filter(s, p), q) == Filter(Filter(s, q), p)
  {
    if s != [] {
      FilterTwice(s[1..], p, q);
      FilterConcat(if p(s[0]) then [s[0]] else [], Filter(s[1..], p), q);
      FilterConcat(if q(s[0]) then [s[0]] else [], Filter(s[1..], q), p);
    }
  }

  lemma RulesFilter(s: seq<Impl>, keep: Impl -> bool)
    ensures Filter(SortByRules(s, InfoOf), keep) == SortByRules(Filter(s, keep), InfoOf)
  {
    var s4 := Sort(s, ByPath(InfoOf));
    var s3 := Sort(s4, ByVersion(InfoOf));
    SortFilter(s, ByPath(InfoOf), keep);
    SortFilter(s4, ByVersion(InfoOf), keep);
    SortFilter(s3, ByHddl(InfoOf), keep);
    SortFilter(Sort(s3, ByHddl(InfoOf)), ByImpl(InfoOf), keep);
  }

  // Filtering then ordering gives the same list as ordering then filtering.
  lemma OrderFilter(s: seq<Impl>, keep: Impl -> bool, priorityPath: bool)
    ensures Filter(Order(s, InfoOf, priorityPath), keep) == Order(Filter(s, keep), InfoOf, priorityPath)
  {
    if priorityPath {
      var a, b := Filter(s, IsSpecial(InfoOf)), Filter(s, NotSpecial(InfoOf));
      FilterConcat(a, SortByRules(b, InfoOf), keep);
      RulesFilter(b, keep);
      FilterTwice(s, IsSpecial(InfoOf), keep);
      FilterTwice(s, NotSpecial(InfoOf), keep);
    } else {
      RulesFilter(s, keep);
    }
  }

  lemma PermutedDistinct(s: seq<Impl>, t: seq<Impl>)
    requires Distinct(s) && multiset(s) == multiset(t)
    ensures Distinct(t)
  {
    forall i, j | 0 <= i < j < |t| ensures t[i].info.id != t[j].info.id {
      assert t[i] in multiset(s) && t[j] in multiset(s);
      if t[i].info.id == t[j].info.id {
        assert t[i] == t[j];
        TwiceInMultiset(t, i, j);
        DistinctOnce(s, t[i]);
      }
    }
  }

  lemma TwiceInMultiset(t: seq<Impl>, i: nat, j: nat)
    requires i < j < |t| && t[i] == t[j]
    ensures multiset(t)[t[i]] >= 2
  {
    assert t == t[..j] + [t[j]] + t[j + 1..];
    assert t[i] in t[..j];
  }

  lemma {:induction false} DistinctOnce(s: seq<Impl>, v: Impl)
    requires Distinct(s)
    ensures multiset(s)[v] <= 1
  {
    if s != [] {
      assert s == [s[0]] + s[1..];
      DistinctOnce(s[1..], v);
      assert forall k | 0 <= k < |s[1..]| :: s[1..][k] == s[k + 1];
    }
  }

  // An ordered list is left alone.
  lemma OrderIdempotent(s: seq<Impl>, priorityPath: bool)
    requires Distinct(s)
    ensures Order(Order(s, InfoOf, priorityPath), InfoOf, priorityPath) == Order(s, InfoOf, priorityPath)
    ensures Distinct(Order(s, InfoOf, priorityPath))
  {
    var t := Order(s, InfoOf, priorityPath);
    OrderIsInOrder(s, priorityPath);
    PermutedDistinct(s, t);
    forall i, j | 0 <= i < j < |t| ensures ComesBefore(t, priorityPath, t[i], t[j]) {
      assert OrderIn(s, priorityPath)(t[i], t[j]);
      assert At(t, i, t[i]) && At(t, j, t[j]);
    }
    OrderUnique(t, priorityPath, t);
  }

  lemma RulesMap<T>(s: seq<T>, data: T -> ImplData, f: T ~> Impl)
    requires forall x | x in s :: f.requires(x) && f(x).info == data(x)
    ensures forall x | x in SortByRules(s, data) :: f.requires(x) && f(x).info == data(x)
    ensures Map(SortByRules(s, data), f) == SortByRules(Map(s, f), InfoOf)
  {
    var s4 := Sort(s, ByPath(data));
    var s3 := Sort(s4, ByVersion(data));
    var s2 := Sort(s3, ByHddl(data));
    SortKeeps(s, data, f, ByPath(data));
    SortMap(s, f, ByPath(data), ByPath(InfoOf));
    SortKeeps(s4, data, f, ByVersion(data));
    SortMap(s4, f, ByVersion(data), ByVersion(InfoOf));
    SortKeeps(s3, data, f, ByHddl(data));
    SortMap(s3, f, ByHddl(data), ByHddl(InfoOf));
    SortKeeps(s2, data, f, ByImpl(data));
    SortMap(s2, f, ByImpl(data), ByImpl(InfoOf));
  }

  lemma SortKeeps<T>(s: seq<T>, data: T -> ImplData, f: T ~> Impl, rank: T -> int)
    requires forall x | x in s :: f.requires(x) && f(x).info == data(x)
    ensures forall x | x in Sort(s, rank) :: f.requires(x) && f(x).info == data(x)
  {
    SortPermutes(s, rank);
    forall x | x in Sort(s, rank) ensures x in s { assert x in multiset(Sort(s, rank)); }
  }

  // The order depends on the fixed data alone: ordering objects and then reading them gives the
  // order of what they read as.
  lemma OrderMap<T>(s: seq<T>, data: T -> ImplData, f: T ~> Impl, priorityPath: bool)
    requires forall x | x in s :: f.requires(x) && f(x).info == data(x)
    ensures forall x | x in Order(s, data, priorityPath) :: f.requires(x) && f(x).info == data(x)
    ensures Map(Order(s, data, priorityPath), f) == Order(Map(s, f), InfoOf, priorityPath)
  {
    if priorityPath {
      var a, b := Filter(s, IsSpecial(data)), Filter(s, NotSpecial(data));
      FilterMap(s, f, IsSpecial(data), IsSpecial(InfoOf));
      FilterMap(s, f, NotSpecial(data), NotSpecial(InfoOf));
      RulesMap(b, data, f);
      forall x | x in a + SortByRules(b, data) ensures f.requires(x) && f(x).info == data(x) {}
      MapConcat(a, SortByRules(b, data), f);
    } else {
      RulesMap(s, data, f);
    }
  }

  lemma OrderPermutes<T>(s: seq<T>, data: T -> ImplData, priorityPath: bool)
    ensures multiset(Order(s, data, priorityPath)) == multiset(s)
  {
    if priorityPath {
      var a, b := Filter(s, IsSpecial(data)), Filter(s, NotSpecial(data));
      SortByRulesPermutes(b, data);
      FilterSplits(s, IsSpecial(data), NotSpecial(data));
      assert multiset(a + SortByRules(b, data)) == multiset(a) + multiset(SortByRules(b, data));
    } else {
      SortByRulesPermutes(s, data);
    }
  }

  lemma SortByRulesPermutes<T>(s: seq<T>, data: T -> ImplData)
    ensures multiset(SortByRules(s, data)) == multiset(s)
  {
    var s4 := Sort(s, ByPath(data));
    var s3 := Sort(s4, ByVersion(data));
    SortPermutes(s, ByPath(data));
    SortPermutes(s4, ByVersion(data));
    SortPermutes(s3, ByHddl(data));
    SortPermutes(Sort(s3, ByHddl(data)), ByImpl(data));
  }

  // ---- numbering -------------------------------------------------------------------------------------

  lemma {:induction false} CountCongruent(s: seq<Impl>, t: seq<Impl>)
    requires |s| == |t| && forall i | 0 <= i < |s| :: s[i].Valid() == t[i].Valid()
    ensures CountValid(s) == CountValid(t)
  {
    if s != [] {
      assert s[|s| - 1].Valid() == t[|t| - 1].Valid();
      CountCongruent(s[..|s| - 1], t[..|t| - 1]);
    }
  }

  lemma RenumberStable(s: seq<Impl>, t: seq<Impl>)
    requires |s| == |t|
    requires forall i | 0 <= i < |s| :: s[i].Valid() == t[i].Valid()
    requires forall i | 0 <= i < |s| :: s[i].info == t[i].info && s[i].adapterIdx == t[i].adapterIdx
    requires forall i | 0 <= i < |s| :: !s[i].Valid() ==> s[i].validImplIdx == t[i].validImplIdx
    ensures Renumber(s) == Renumber(t)
  {
    forall i | 0 <= i < |s| ensures Renumber(s)[i] == Renumber(t)[i] { CountCongruent(s[..i], t[..i]); }
  }

  const PairInfo: ((Impl, Impl)) -> ImplData := (p: (Impl, Impl)) => p.0.info
  const First: ((Impl, Impl)) -> Impl := (p: (Impl, Impl)) => p.0
  const Second: ((Impl, Impl)) -> Impl := (p: (Impl, Impl)) => p.1

  function Zip(s: seq<Impl>, t: seq<Impl>): (z: seq<(Impl, Impl)>)
    requires |s| == |t|
    ensures |z| == |s| && forall i | 0 <= i < |s| :: z[i] == (s[i], t[i])
  {
    seq(|s|, i requires 0 <= i < |s| => (s[i], t[i]))
  }

  lemma OrderTwins(s: seq<Impl>, t: seq<Impl>, priorityPath: bool)
    requires |s| == |t| && forall i | 0 <= i < |s| :: Twins(s[i], t[i])
    ensures var a, b := Order(s, InfoOf, priorityPath), Order(t, InfoOf, priorityPath);
            |a| == |b| && forall i | 0 <= i < |a| :: Twins(a[i], b[i])
  {
    var z := Zip(s, t);
    OrderMap(z, PairInfo, First, priorityPath);
    OrderMap(z, PairInfo, Second, priorityPath);
    assert Map(z, First) == s && Map(z, Second) == t;
    OrderPermutes(z, PairInfo, priorityPath);
    var o := Order(z, PairInfo, priorityPath);
    forall i | 0 <= i < |o| ensures Twins(o[i].0, o[i].1) {
      assert o[i] in multiset(o);
      assert o[i] in z;
    }
  }

  // Prioritizing looks at the fixed data and at which entries are valid, not at their numbers.
  lemma PrioritizeStable(s: seq<Impl>, t: seq<Impl>, priorityPath: bool)
    requires |s| == |t| && forall i | 0 <= i < |s| :: Twins(s[i], t[i])
    ensures Prioritize(s, priorityPath) == Prioritize(t, priorityPath)
  {
    OrderTwins(s, t, priorityPath);
    RenumberStable(Order(s, InfoOf, priorityPath), Order(t, InfoOf, priorityPath));
  }

  predicate Twins(v: Impl, w: Impl) {
    && v.info == w.info && v.adapterIdx == w.adapterIdx && v.Valid() == w.Valid()
    && (!v.Valid() ==> v.validImplIdx == w.validImplIdx)
  }

  lemma RenumberIdempotent(s: seq<Impl>)
    ensures Renumber(Renumber(s)) == Renumber(s)
  {
    RenumberStable(Renumber(s), s);
  }

  lemma {:induction false} CountMonotone(s: seq<Impl>, i: nat, j: nat)
    requires i <= j <= |s|
    ensures CountValid(s[..i]) <= CountValid(s[..j])
    ensures i < j && s[i].Valid() ==> CountValid(s[..i]) < CountValid(s[..j])
  {
    if i < j {
      assert s[..j][..j - 1] == s[..j - 1];
      CountMonotone(s, i, j - 1);
    }
  }

  // The numbers in use are exactly 0 .. k-1, increasing along the list.
  ghost predicate Numbered(s: seq<Impl>) {
    forall i | 0 <= i < |s| :: s[i].validImplIdx == if s[i].Valid() then CountValid(s[..i]) else -1
  }

  lemma {:induction false} NthValid(s: seq<Impl>, k: nat)
    requires k < CountValid(s)
    ensures exists i | 0 <= i < |s| :: s[i].Valid() && CountValid(s[..i]) == k
  {
    var init := s[..|s| - 1];
    if k < CountValid(init) {
      NthValid(init, k);
      var i :| 0 <= i < |init| && init[i].Valid() && CountValid(init[..i]) == k;
      assert init[..i] == s[..i] && s[i] == init[i];
    } else {
      assert s[|s| - 1].Valid() && CountValid(s[..|s| - 1]) == k;
    }
  }

  ghost predicate HasIndex(s: seq<Impl>, k: int) { exists i | 0 <= i < |s| :: s[i].validImplIdx == k }

  lemma NumberedBijection(s: seq<Impl>)
    requires Numbered(s)
    ensures forall i | 0 <= i < |s| :: -1 <= s[i].validImplIdx < CountValid(s)
    ensures forall i, j | 0 <= i < j < |s| && s[i].Valid() && s[j].Valid() :: s[i].validImplIdx < s[j].validImplIdx
    ensures forall k | 0 <= k < CountValid(s) :: HasIndex(s, k)
  {
    assert s[..|s|] == s;
    forall i | 0 <= i < |s| ensures -1 <= s[i].validImplIdx < CountValid(s) { CountMonotone(s, i, |s|); }
    forall i, j | 0 <= i < j < |s| && s[i].Valid() && s[j].Valid() ensures s[i].validImplIdx < s[j].validImplIdx {
      CountMonotone(s, i, j);
    }
    forall k | 0 <= k < CountValid(s) ensures HasIndex(s, k) { NthValid(s, k); }
  }

  function IsValid(): Impl -> bool { (v: Impl) => v.Valid() }

  // Entry k of the enumeration is the k-th valid implementation of the list.
  lemma {:induction false} EnumerationIsFilter(s: seq<Impl>, i: nat)
    requires i < |s| && s[i].Valid()
    ensures |Filter(s, IsValid())| == CountValid(s)
    ensures CountValid(s[..i]) < CountValid(s) && Filter(s, IsValid())[CountValid(s[..i])] == s[i]
  {
    FilterCounts(s);
    FilterCounts(s[..i]);
    assert s[..|s|] == s;
    CountMonotone(s, i, |s|);
    assert s == s[..i] + s[i..];
    FilterConcat(s[..i], s[i..], IsValid());
    assert s[i..][0] == s[i];
  }

  lemma {:induction false} FilterCounts(s: seq<Impl>)
    ensures |Filter(s, IsValid())| == CountValid(s)
  {
    if s != [] {
      var n := |s| - 1;
      assert s == s[..n] + [s[n]];
      FilterConcat(s[..n], [s[n]], IsValid());
      FilterCounts(s[..n]);
    }
  }

  // Prioritizing twice is prioritizing once: neither order nor indices change.
  lemma PrioritizeIdempotent(s: seq<Impl>, priorityPath: bool)
    requires Distinct(s)
    ensures Prioritize(Prioritize(s, priorityPath), priorityPath) == Prioritize(s, priorityPath)
  {
    var t := Order(s, InfoOf, priorityPath);
    OrderIdempotent(s, priorityPath);
    RenumberedOrder(t, priorityPath);
    RenumberIdempotent(t);
  }

  // If s is in priority order, so is any list with the same fixed data in the same places.
  lemma SameDataSameOrder(s: seq<Impl>, t: seq<Impl>, priorityPath: bool)
    requires Distinct(s) && Order(s, InfoOf, priorityPath) == s
    requires |t| == |s| && forall i | 0 <= i < |s| :: t[i].info == s[i].info
    ensures Distinct(t) && Order(t, InfoOf, priorityPath) == t
  {
    OrderIsInOrder(s, priorityPath);
    forall i, j | 0 <= i < j < |t| ensures ComesBefore(t, priorityPath, t[i], t[j]) {
      assert OrderIn(s, priorityPath)(s[i], s[j]);
      assert At(t, i, t[i]) && At(t, j, t[j]);
    }
    OrderUnique(t, priorityPath, t);
  }

  lemma RenumberedOrder(t: seq<Impl>, priorityPath: bool)
    requires Distinct(t) && Order(t, InfoOf, priorityPath) == t
    ensures Distinct(Renumber(t)) && Order(Renumber(t), InfoOf, priorityPath) == Renumber(t)
  {
    SameDataSameOrder(t, Renumber(t), priorityPath);
  }
}
