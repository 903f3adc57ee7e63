// Laws of the ValidateConfig verdict: order, number and grouping of configurations, and
// growth of the capability trees.
module FilterLaws {
  import opened CapsTree
  import opened Config
  import opened Filters
  import opened PropNames
  import opened Special
  import opened VplTypes

  ghost predicate NoVersion(c: Config) { MajorIn(c).None? && MinorIn(c).None? }

  ghost predicate OneAccepts(c: Config, p: Caps, lt: LibType) {
    ConfigAccepts(c, p.desc, p.ext, lt) && FunctionOk(c, p.funcs)
  }

  // ---- configurations that say nothing about the version ------------------------------------------

  lemma {:induction false} VersionSkips(a: seq<Config>, c: Config, b: seq<Config>)
    requires NoVersion(c)
    ensures RequestedVersion(a + [c] + b) == RequestedVersion(a + b)
    ensures LastMajor(a + [c] + b) == LastMajor(a + b) && LastMinor(a + [c] + b) == LastMinor(a + b)
  {
    if b == [] {
      assert a + [c] + b == a + [c] && (a + [c])[..|a|] == a && a + b == a;
    } else {
      var init := b[..|b| - 1];
      assert (a + [c] + b)[..|a| + |b|] == a + [c] + init;
      assert (a + b)[..|a + b| - 1] == a + init;
      VersionSkips(a, c, init);
    }
  }

  lemma {:induction false} NoVersions(cs: seq<Config>)
    requires forall k | 0 <= k < |cs| :: NoVersion(cs[k])
    ensures LastMajor(cs).None? && LastMinor(cs).None?
  {
    if cs != [] { NoVersions(cs[..|cs| - 1]); }
  }

  ghost predicate EachAccepts(p: Caps, cs: seq<Config>, lt: LibType) {
    forall k | 0 <= k < |cs| :: OneAccepts(cs[k], p, lt)
  }

  lemma EachOfAll(p: Caps, cs: seq<Config>, lt: LibType)
    ensures Accepts(p, cs, lt) <==> EachAccepts(p, cs, lt) && VersionOk(cs, p.desc.apiVersion)
  {
    hide ConfigAccepts, FunctionOk, VersionOk;
  }

  lemma EachConcat(p: Caps, a: seq<Config>, b: seq<Config>, lt: LibType)
    ensures EachAccepts(p, a + b, lt) <==> EachAccepts(p, a, lt) && EachAccepts(p, b, lt)
  {
    hide OneAccepts;
    assert forall k | 0 <= k < |a| :: (a + b)[k] == a[k];
    assert forall k | 0 <= k < |b| :: (a + b)[|a| + k] == b[k];
  }

  // With a version-free configuration anywhere in the list, the verdict splits in two.
  lemma AcceptsInsert(p: Caps, a: seq<Config>, c: Config, b: seq<Config>, lt: LibType)
    requires NoVersion(c)
    ensures Accepts(p, a + [c] + b, lt) <==> Accepts(p, a + b, lt) && OneAccepts(c, p, lt)
  {
    hide OneAccepts, Accepts, RequestedVersion;
    VersionSkips(a, c, b);
    EachConcat(p, a + [c], b, lt);
    EachConcat(p, a, [c], lt);
    EachConcat(p, a, b, lt);
    EachOfAll(p, a + [c] + b, lt);
    EachOfAll(p, a + b, lt);
    assert EachAccepts(p, [c], lt) <==> OneAccepts(c, p, lt) by { assert [c][0] == c; }
  }

  // With no version properties, only which configurations are present matters: not their order,
  // nor how often each occurs.
  lemma AcceptsOrderFree(p: Caps, cs: seq<Config>, ds: seq<Config>, lt: LibType)
    requires forall k | 0 <= k < |cs| :: NoVersion(cs[k])
    requires forall c :: c in cs <==> c in ds
    ensures Accepts(p, cs, lt) <==> Accepts(p, ds, lt)
  {
    forall k | 0 <= k < |ds| ensures NoVersion(ds[k]) {
      assert ds[k] in cs;
    }
    NoVersions(cs);
    NoVersions(ds);
    if Accepts(p, cs, lt) { SubsetAccepts(p, cs, ds, lt); }
    if Accepts(p, ds, lt) { SubsetAccepts(p, ds, cs, lt); }
  }

  lemma SubsetAccepts(p: Caps, cs: seq<Config>, ds: seq<Config>, lt: LibType)
    requires forall c | c in ds :: c in cs
    requires LastMajor(ds).None? && Accepts(p, cs, lt)
    ensures Accepts(p, ds, lt)
  {
    forall k | 0 <= k < |ds| ensures OneAccepts(ds[k], p, lt) {
      assert ds[k] in cs;
      var j :| 0 <= j < |cs| && cs[j] == ds[k];
    }
  }

  ghost predicate AllAccept(p: Caps, cs: seq<Config>, lt: LibType) {
    forall k | 0 <= k < |cs| :: OneAccepts(cs[k], p, lt)
  }

  // c, appended to cs, lowers the API version asked for.
  predicate LowersVersion(cs: seq<Config>, c: Config) {
    && RequestedVersion(cs).Some? && RequestedVersion(cs + [c]).Some?
    && RequestedVersion(cs + [c]).value.Number() < RequestedVersion(cs).value.Number()
  }

  // When appending a configuration turns rejection into acceptance: exactly if all configurations are
  // met one by one, and the implementation's version lies below the one asked for before, but not
  // below the one asked for now.
  lemma AppendAcceptsExactly(p: Caps, cs: seq<Config>, c: Config, lt: LibType)
    ensures Accepts(p, cs + [c], lt) && !Accepts(p, cs, lt) <==>
            && AllAccept(p, cs, lt) && OneAccepts(c, p, lt)
            && RequestedVersion(cs).Some? && RequestedVersion(cs + [c]).Some?
            && RequestedVersion(cs + [c]).value.Number() <= p.desc.apiVersion.Number()
            && p.desc.apiVersion.Number() < RequestedVersion(cs).value.Number()
  {
    hide ConfigAccepts, FunctionOk;
    assert (cs + [c])[..|cs|] == cs;
    assert forall k | 0 <= k < |cs| :: (cs + [c])[k] == cs[k];
    assert (cs + [c])[|cs|] == c;
    AllOfAccepts(p, cs, lt);
    AllOfAccepts(p, cs + [c], lt);
  }

  lemma AllOfAccepts(p: Caps, cs: seq<Config>, lt: LibType)
    ensures Accepts(p, cs, lt) <==> AllAccept(p, cs, lt) && VersionOk(cs, p.desc.apiVersion)
  {
    hide ConfigAccepts, FunctionOk;
    assert forall k | 0 <= k < |cs| ::
        OneAccepts(cs[k], p, lt) <==> ConfigAccepts(cs[k], p.desc, p.ext, lt) && FunctionOk(cs[k], p.funcs);
  }

  // So a configuration that does not lower the version, in particular one that says nothing about
  // it, only restricts, whatever the implementation.
  lemma AppendOnlyRestricts(p: Caps, cs: seq<Config>, c: Config, lt: LibType)
    requires !LowersVersion(cs, c) || NoVersion(c)
    ensures Accepts(p, cs + [c], lt) ==> Accepts(p, cs, lt)
  {
    hide ConfigAccepts, FunctionOk;
    AppendAcceptsExactly(p, cs, c, lt);
    if NoVersion(c) {
      VersionSkips(cs, c, []);
      assert cs + [c] + [] == cs + [c] && cs + [] == cs;
    }
  }

  function WithVersion(v: Version): Config {
    EmptyConfig()[MAIN_API_VERSION := Slot(TypeU32, Num(v.Number()))]
  }

  // It does happen: asking for 2.9 and then for 2.0 accepts what asking for 2.9 refused.
  lemma AppendCanAccept(p: Caps, lt: LibType)
    requires p.desc.apiVersion == Version(2, 0)
    ensures !Accepts(p, [WithVersion(Version(2, 9))], lt)
    ensures Accepts(p, [WithVersion(Version(2, 9)), WithVersion(Version(2, 0))], lt)
  {
    var a, b := WithVersion(Version(2, 9)), WithVersion(Version(2, 0));
    assert [a][..0] == [] && [a, b][..1] == [a];
    OnlyVersionAccepted(Version(2, 9), p, lt);
    OnlyVersionAccepted(Version(2, 0), p, lt);
    assert LastMajor([a, b]) == Some(2) && LastMinor([a, b]) == Some(0);
    assert LastMajor([a]) == Some(2) && LastMinor([a]) == Some(9);
  }

  lemma OnlyVersionAccepted(v: Version, p: Caps, lt: LibType)
    ensures OneAccepts(WithVersion(v), p, lt)
  {
    var c := WithVersion(v);
    assert forall i :: IsSet(c, i) ==> i == MAIN_API_VERSION;
    forall g ensures !Has(c, g) {
      assert forall i :: !InGroup(c, i, g);
    }
  }

  // ---- fewer demands ------------------------------------------------------------------------------------

  // d asks for no more than c: every slot set in d is set alike in c.
  ghost predicate Weaker(d: Config, c: Config) {
    forall i | IsSet(d, i) :: IsSet(c, i) && d[i] == c[i]
  }

  lemma WeakerAccepts(d: Config, c: Config, p: Caps, lt: LibType)
    requires Weaker(d, c) && OneAccepts(c, p, lt)
    ensures OneAccepts(d, p, lt)
  {
    forall g | Has(d, g) ensures Has(c, g) {
      var i :| InGroup(d, i, g);
      assert InGroup(c, i, g);
    }
    forall x | DecLeafOk(c, x) ensures DecLeafOk(d, x) {}
    forall x | EncLeafOk(c, x) ensures EncLeafOk(d, x) {}
    forall x | VPPLeafOk(c, x) ensures VPPLeafOk(d, x) {}
  }

  // A weaker list of configurations with the same requested version accepts at least as much.
  lemma WeakerListAccepts(p: Caps, ds: seq<Config>, cs: seq<Config>, lt: LibType)
    requires |ds| == |cs| && forall k | 0 <= k < |cs| :: Weaker(ds[k], cs[k])
    requires RequestedVersion(ds) == RequestedVersion(cs)
    requires Accepts(p, cs, lt)
    ensures Accepts(p, ds, lt)
  {
    forall k | 0 <= k < |ds| ensures OneAccepts(ds[k], p, lt) {
      assert OneAccepts(cs[k], p, lt);
      WeakerAccepts(ds[k], cs[k], p, lt);
    }
  }

  // ---- merging two configurations into one -----------------------------------------------------------------

  ghost predicate Disjoint(c: Config, d: Config) { forall i :: !(IsSet(c, i) && IsSet(d, i)) }

  function Merge(c: Config, d: Config): (m: Config)
    ensures forall i | 0 <= i < TOTAL_PROPS :: m[i] == if c[i].Set() then c[i] else d[i]
  {
    var m := seq(TOTAL_PROPS, i requires 0 <= i < TOTAL_PROPS => if c[i].Set() then c[i] else d[i]);
    assert forall i | 0 <= i < TOTAL_PROPS :: SlotOk(i, m[i]);
    m
  }

  ghost predicate TreeGroup(g: Group) { g == DecGroup || g == EncGroup || g == VPPGroup }

  lemma MergedHas(c: Config, d: Config, g: Group)
    ensures Has(Merge(c, d), g) <==> Has(c, g) || Has(d, g)
  {
    var m := Merge(c, d);
    forall i ensures InGroup(m, i, g) <==> InGroup(c, i, g) || InGroup(d, i, g) {}
  }

  lemma MergeStrictOne(c: Config, d: Config, p: Caps, lt: LibType)
    requires Disjoint(c, d)
    ensures OneAccepts(Merge(c, d), p, lt) ==> OneAccepts(c, p, lt) && OneAccepts(d, p, lt)
  {
    if OneAccepts(Merge(c, d), p, lt) {
      WeakerAccepts(c, Merge(c, d), p, lt);
      WeakerAccepts(d, Merge(c, d), p, lt);
    }
  }

  lemma MergeGeneral(c: Config, d: Config, p: Caps)
    requires GeneralOk(c, p.desc) && GeneralOk(d, p.desc)
    ensures GeneralOk(Merge(c, d), p.desc)
    ensures FunctionOk(c, p.funcs) && FunctionOk(d, p.funcs) ==> FunctionOk(Merge(c, d), p.funcs)
  {}

  lemma MergeExtDev(c: Config, d: Config, e: ExtDeviceID)
    requires Has(c, ExtDevGroup) ==> ExtDevOk(c, e)
    requires Has(d, ExtDevGroup) ==> ExtDevOk(d, e)
    ensures ExtDevOk(Merge(c, d), e)
  {
    forall i | IsExtDevProp(i) && IsSet(Merge(c, d), i) ensures MeetsExtDev(i, Merge(c, d)[i].data, e) {
      assert InGroup(c, i, ExtDevGroup) || InGroup(d, i, ExtDevGroup);
    }
  }

  // If only one of two configurations asks for a group, the merged one asks for the same.
  lemma MergeDecLeaves(c: Config, d: Config)
    ensures !Has(d, DecGroup) ==> forall x :: DecLeafOk(Merge(c, d), x) <==> DecLeafOk(c, x)
    ensures !Has(c, DecGroup) ==> forall x :: DecLeafOk(Merge(c, d), x) <==> DecLeafOk(d, x)
  {
    forall i | GroupOf(i) == Some(DecGroup)
      ensures (!Has(c, DecGroup) ==> !IsSet(c, i)) && (!Has(d, DecGroup) ==> !IsSet(d, i))
    {
      assert InGroup(c, i, DecGroup) <==> IsSet(c, i);
      assert InGroup(d, i, DecGroup) <==> IsSet(d, i);
    }
  }

  lemma MergeEncLeaves(c: Config, d: Config)
    ensures !Has(d, EncGroup) ==> forall x :: EncLeafOk(Merge(c, d), x) <==> EncLeafOk(c, x)
    ensures !Has(c, EncGroup) ==> forall x :: EncLeafOk(Merge(c, d), x) <==> EncLeafOk(d, x)
  {
    forall i | GroupOf(i) == Some(EncGroup)
      ensures (!Has(c, EncGroup) ==> !IsSet(c, i)) && (!Has(d, EncGroup) ==> !IsSet(d, i))
    {
      assert InGroup(c, i, EncGroup) <==> IsSet(c, i);
      assert InGroup(d, i, EncGroup) <==> IsSet(d, i);
    }
  }

  lemma MergeVPPLeaves(c: Config, d: Config)
    ensures !Has(d, VPPGroup) ==> forall x :: VPPLeafOk(Merge(c, d), x) <==> VPPLeafOk(c, x)
    ensures !Has(c, VPPGroup) ==> forall x :: VPPLeafOk(Merge(c, d), x) <==> VPPLeafOk(d, x)
  {
    forall i | GroupOf(i) == Some(VPPGroup)
      ensures (!Has(c, VPPGroup) ==> !IsSet(c, i)) && (!Has(d, VPPGroup) ==> !IsSet(d, i))
    {
      assert InGroup(c, i, VPPGroup) <==> IsSet(c, i);
      assert InGroup(d, i, VPPGroup) <==> IsSet(d, i);
    }
  }

  lemma MergeExactOne(c: Config, d: Config, p: Caps, lt: LibType)
    requires Disjoint(c, d)
    requires lt == LibTypeMSDK || forall g | TreeGroup(g) :: !(Has(c, g) && Has(d, g))
    requires OneAccepts(c, p, lt) && OneAccepts(d, p, lt)
    ensures OneAccepts(Merge(c, d), p, lt)
  {
    forall g ensures Has(Merge(c, d), g) <==> Has(c, g) || Has(d, g) { MergedHas(c, d, g); }
    MergeGeneral(c, d, p);
    if Has(Merge(c, d), ExtDevGroup) { MergeExtDev(c, d, p.ext.value); }
    if lt != LibTypeMSDK {
      assert TreeGroup(DecGroup) && TreeGroup(EncGroup) && TreeGroup(VPPGroup);
      MergeDecLeaves(c, d);
      MergeEncLeaves(c, d);
      MergeVPPLeaves(c, d);
    }
  }

  // One object holding the properties of two disjoint version-free ones, in place of both, is at
  // least as strict, and exactly as strict when no decoder, encoder or VPP group is set in both
  // (which never matters for an MSDK library).
  lemma MergeConfigs(p: Caps, a: seq<Config>, c: Config, b: seq<Config>, d: Config, e: seq<Config>, lt: LibType)
    requires Disjoint(c, d) && NoVersion(c) && NoVersion(d)
    ensures Accepts(p, a + [Merge(c, d)] + (b + e), lt) ==> Accepts(p, a + [c] + (b + [d] + e), lt)
    ensures lt == LibTypeMSDK || (forall g | TreeGroup(g) :: !(Has(c, g) && Has(d, g))) ==>
              (Accepts(p, a + [Merge(c, d)] + (b + e), lt) <==> Accepts(p, a + [c] + (b + [d] + e), lt))
  {
    AcceptsInsert(p, a, Merge(c, d), b + e, lt);
    AcceptsInsert(p, a, c, b + [d] + e, lt);
    assert a + (b + [d] + e) == (a + b) + [d] + e && a + (b + e) == (a + b) + e;
    AcceptsInsert(p, a + b, d, e, lt);
    MergeStrictOne(c, d, p, lt);
    if (lt == LibTypeMSDK || forall g | TreeGroup(g) :: !(Has(c, g) && Has(d, g)))
       && OneAccepts(c, p, lt) && OneAccepts(d, p, lt) {
      MergeExactOne(c, d, p, lt);
    }
  }

  // ---- the primary node filter -----------------------------------------------------------------------------

  const NO_PRIMARY_NODE: u32 := 0x7FFF_FFFF

  // The filters as the structure is documented: a primary node number of 0x7FFFFFFF is not valid.
  predicate MeetsDocumented(i: int, s: Data, e: ExtDeviceID)
    requires DataFits(i, s)
  {
    if i == EXTDEV_DRM_PRIMARY_NODE_NUM then e.drmPrimaryNodeNum != NO_PRIMARY_NODE && s.U32() == e.drmPrimaryNodeNum
    else MeetsExtDev(i, s, e)
  }

  ghost predicate DocumentedOk(c: Config, e: ExtDeviceID) {
    forall i | IsExtDevProp(i) && IsSet(c, i) :: MeetsDocumented(i, c[i].data, e)
  }

  // The render node has the value that marks a missing primary node, or the primary node has it, but
  // not both.
  predicate NodesDisagree(e: ExtDeviceID) {
    (e.drmRenderNodeNum == NO_PRIMARY_NODE) != (e.drmPrimaryNodeNum == NO_PRIMARY_NODE)
  }

  ghost predicate OthersMet(c: Config, e: ExtDeviceID) {
    forall i | IsExtDevProp(i) && IsSet(c, i) && i != EXTDEV_DRM_PRIMARY_NODE_NUM :: MeetsExtDev(i, c[i].data, e)
  }

  // The verdict on a device departs from the documented one exactly if the configuration asks for the
  // device's own primary node number, everything else it asks of the device is met, and exactly one
  // of the two node numbers is 0x7FFFFFFF.
  lemma PrimaryNodeExactly(c: Config, e: ExtDeviceID)
    ensures ExtDevOk(c, e) != DocumentedOk(c, e) <==>
            && IsSet(c, EXTDEV_DRM_PRIMARY_NODE_NUM) && c[EXTDEV_DRM_PRIMARY_NODE_NUM].data.U32() == e.drmPrimaryNodeNum
            && OthersMet(c, e) && NodesDisagree(e)
  {
    hide MeetsExtDev;
    var n := EXTDEV_DRM_PRIMARY_NODE_NUM;
    assert ExtDevOk(c, e) <==> OthersMet(c, e) && (IsSet(c, n) ==> MeetsExtDev(n, c[n].data, e));
    assert DocumentedOk(c, e) <==> OthersMet(c, e) && (IsSet(c, n) ==> MeetsDocumented(n, c[n].data, e));
    if IsSet(c, n) { PrimaryNodeGuard(c[n].data, e); }
  }

  lemma PrimaryNodeGuard(s: Data, e: ExtDeviceID)
    requires DataFits(EXTDEV_DRM_PRIMARY_NODE_NUM, s)
    ensures MeetsExtDev(EXTDEV_DRM_PRIMARY_NODE_NUM, s, e) <==>
            e.drmRenderNodeNum != NO_PRIMARY_NODE && s.U32() == e.drmPrimaryNodeNum
  {}

  function WithPrimaryNode(n: u32): Config {
    EmptyConfig()[EXTDEV_DRM_PRIMARY_NODE_NUM := Slot(TypeU32, Num(n))]
  }

  // It happens in both directions: a device without a primary node is accepted for having the number
  // that says so, and one with primary node 1 is refused because of its render node number.
  lemma PrimaryNodeDeparts(e: ExtDeviceID)
    ensures var missing := e.(drmRenderNodeNum := 128, drmPrimaryNodeNum := NO_PRIMARY_NODE);
            ExtDevOk(WithPrimaryNode(NO_PRIMARY_NODE), missing)
              && !DocumentedOk(WithPrimaryNode(NO_PRIMARY_NODE), missing)
    ensures var present := e.(drmRenderNodeNum := NO_PRIMARY_NODE, drmPrimaryNodeNum := 1);
            !ExtDevOk(WithPrimaryNode(1), present) && DocumentedOk(WithPrimaryNode(1), present)
  {
    PrimaryNodeExactly(WithPrimaryNode(NO_PRIMARY_NODE),
                       e.(drmRenderNodeNum := 128, drmPrimaryNodeNum := NO_PRIMARY_NODE));
    PrimaryNodeExactly(WithPrimaryNode(1), e.(drmRenderNodeNum := NO_PRIMARY_NODE, drmPrimaryNodeNum := 1));
    assert IsSet(WithPrimaryNode(1), EXTDEV_DRM_PRIMARY_NODE_NUM);
    assert IsSet(WithPrimaryNode(NO_PRIMARY_NODE), EXTDEV_DRM_PRIMARY_NODE_NUM);
  }

  // ---- growing a capability tree ------------------------------------------------------------------------------

  // A new subtree at each level: a codec or filter, a profile, a memory description, a leaf.
  function InsertCodec<A, B, C, D>(t: Tree<A, B, C, D>, i: nat, n: Node<A, Node<B, Node<C, D>>>): Tree<A, B, C, D>
    requires i <= |t|
  {
    t[..i] + [n] + t[i..]
  }

  function InsertProfile<A, B, C, D>(t: Tree<A, B, C, D>, i: nat, j: nat, n: Node<B, Node<C, D>>): Tree<A, B, C, D>
    requires i < |t| && j <= |t[i].kids|
  {
    t[i := Node(t[i].info, t[i].kids[..j] + [n] + t[i].kids[j..])]
  }

  function InsertMem<A, B, C, D>(t: Tree<A, B, C, D>, i: nat, j: nat, k: nat, n: Node<C, D>): Tree<A, B, C, D>
    requires i < |t| && j < |t[i].kids| && k <= |t[i].kids[j].kids|
  {
    var profile := t[i].kids[j];
    t[i := Node(t[i].info, t[i].kids[j := Node(profile.info, profile.kids[..k] + [n] + profile.kids[k..])])]
  }

  function InsertLeaf<A, B, C, D>(t: Tree<A, B, C, D>, i: nat, j: nat, k: nat, l: nat, d: D): Tree<A, B, C, D>
    requires i < |t| && j < |t[i].kids| && k < |t[i].kids[j].kids| && l <= |t[i].kids[j].kids[k].kids|
  {
    var mem := t[i].kids[j].kids[k];
    var mem' := Node(mem.info, mem.kids[..l] + [d] + mem.kids[l..]);
    t[i := Node(t[i].info, t[i].kids[j := Node(t[i].kids[j].info, t[i].kids[j].kids[k := mem'])])]
  }

  // Where a position of a list ends up when something is inserted at i.
  function Shifted(p: nat, i: nat): nat { if p >= i then p + 1 else p }

  ghost predicate KeepsPaths<A(!new), B(!new), C(!new), D(!new)>(t: Tree<A, B, C, D>, t': Tree<A, B, C, D>) {
    forall x | HasPath(t, x) :: HasPath(t', x)
  }

  lemma CodecKeepsPaths<A(!new), B(!new), C(!new), D(!new)>(
      t: Tree<A, B, C, D>, i: nat, n: Node<A, Node<B, Node<C, D>>>)
    requires i <= |t|
    ensures KeepsPaths(t, InsertCodec(t, i, n))
  {
    forall x | HasPath(t, x) ensures HasPath(InsertCodec(t, i, n), x) {
      var i': nat, j': nat, k': nat, l': nat :| PathAt(t, i', j', k', l', x);
      assert PathAt(InsertCodec(t, i, n), Shifted(i', i), j', k', l', x);
    }
  }

  lemma ProfileKeepsPaths<A(!new), B(!new), C(!new), D(!new)>(
      t: Tree<A, B, C, D>, i: nat, j: nat, n: Node<B, Node<C, D>>)
    requires i < |t| && j <= |t[i].kids|
    ensures KeepsPaths(t, InsertProfile(t, i, j, n))
  {
    forall x | HasPath(t, x) ensures HasPath(InsertProfile(t, i, j, n), x) {
      var i': nat, j': nat, k': nat, l': nat :| PathAt(t, i', j', k', l', x);
      assert PathAt(InsertProfile(t, i, j, n), i', if i' == i then Shifted(j', j) else j', k', l', x);
    }
  }

  lemma MemKeepsPaths<A(!new), B(!new), C(!new), D(!new)>(t: Tree<A, B, C, D>, i: nat, j: nat, k: nat, n: Node<C, D>)
    requires i < |t| && j < |t[i].kids| && k <= |t[i].kids[j].kids|
    ensures KeepsPaths(t, InsertMem(t, i, j, k, n))
  {
    forall x | HasPath(t, x) ensures HasPath(InsertMem(t, i, j, k, n), x) {
      var i': nat, j': nat, k': nat, l': nat :| PathAt(t, i', j', k', l', x);
      assert PathAt(InsertMem(t, i, j, k, n), i', j', if i' == i && j' == j then Shifted(k', k) else k', l', x);
    }
  }

  // Change the description at the third level (the memory type of a decoder or encoder).
  function SetThird<A, B, C, D>(t: Tree<A, B, C, D>, i: nat, j: nat, k: nat, c: C): Tree<A, B, C, D>
    requires i < |t| && j < |t[i].kids| && k < |t[i].kids[j].kids|
  {
    var mem' := Node(c, t[i].kids[j].kids[k].kids);
    t[i := Node(t[i].info, t[i].kids[j := Node(t[i].kids[j].info, t[i].kids[j].kids[k := mem'])])]
  }

  // Change the description at the second level (the memory type of a VPP filter).
  function SetSecond<A, B, C, D>(t: Tree<A, B, C, D>, i: nat, j: nat, b: B): Tree<A, B, C, D>
    requires i < |t| && j < |t[i].kids|
  {
    t[i := Node(t[i].info, t[i].kids[j := Node(b, t[i].kids[j].kids)])]
  }

  lemma LeafKeepsPaths<A(!new), B(!new), C(!new), D(!new)>(t: Tree<A, B, C, D>, i: nat, j: nat, k: nat, l: nat, d: D)
    requires i < |t| && j < |t[i].kids| && k < |t[i].kids[j].kids| && l <= |t[i].kids[j].kids[k].kids|
    ensures KeepsPaths(t, InsertLeaf(t, i, j, k, l, d))
  {
    forall x | HasPath(t, x) ensures HasPath(InsertLeaf(t, i, j, k, l, d), x) {
      var i': nat, j': nat, k': nat, l': nat :| PathAt(t, i', j', k', l', x);
      var shifted := if i' == i && j' == j && k' == k then Shifted(l', l) else l';
      assert PathAt(InsertLeaf(t, i, j, k, l, d), i', j', k', shifted, x);
    }
  }

  lemma SetThirdPaths<A, B, C, D>(t: Tree<A, B, C, D>, i: nat, j: nat, k: nat, c: C, x: Leaf<A, B, C, D>)
    requires i < |t| && j < |t[i].kids| && k < |t[i].kids[j].kids|
    requires HasPath(t, x)
    ensures var t' := SetThird(t, i, j, k, c);
            HasPath(t', x) || (x.c == t[i].kids[j].kids[k].info && HasPath(t', x.(c := c)))
  {
    var i': nat, j': nat, k': nat, l': nat :| PathAt(t, i', j', k', l', x);
    var t' := SetThird(t, i, j, k, c);
    assert PathAt(t', i', j', k', l', if i' == i && j' == j && k' == k then x.(c := c) else x);
  }

  lemma SetSecondPaths<A, B, C, D>(t: Tree<A, B, C, D>, i: nat, j: nat, b: B, x: Leaf<A, B, C, D>)
    requires i < |t| && j < |t[i].kids|
    requires HasPath(t, x)
    ensures var t' := SetSecond(t, i, j, b);
            HasPath(t', x) || (x.b == t[i].kids[j].info && HasPath(t', x.(b := b)))
  {
    var i': nat, j': nat, k': nat, l': nat :| PathAt(t, i', j', k', l', x);
    var t' := SetSecond(t, i, j, b);
    assert PathAt(t', i', j', k', l', if i' == i && j' == j then x.(b := b) else x);
  }

  predicate Looser(m': MemDesc, m: MemDesc) {
    && m'.memHandleType == m.memHandleType
    && Contains(m'.width, m.width)
    && Contains(m'.height, m.height)
  }

  // y offers whatever x offers.
  predicate DecOffers(y: DecLeaf, x: DecLeaf) { y == x.(c := y.c) && (y.c == x.c || Looser(y.c, x.c)) }
  predicate EncOffers(y: EncLeaf, x: EncLeaf) { y == x.(c := y.c) && (y.c == x.c || Looser(y.c, x.c)) }
  predicate VPPOffers(y: VPPLeaf, x: VPPLeaf) { y == x.(b := y.b) && (y.b == x.b || Looser(y.b, x.b)) }

  ghost predicate DecGrows(t: DecTree, t': DecTree) {
    forall x | HasPath(t, x) :: exists y :: HasPath(t', y) && DecOffers(y, x)
  }
  ghost predicate EncGrows(t: EncTree, t': EncTree) {
    forall x | HasPath(t, x) :: exists y :: HasPath(t', y) && EncOffers(y, x)
  }
  ghost predicate VPPGrows(t: VPPTree, t': VPPTree) {
    forall x | HasPath(t, x) :: exists y :: HasPath(t', y) && VPPOffers(y, x)
  }

  // Inserting a subtree at any level, or loosening minimum, maximum or step anywhere, makes a decoder
  // tree grow.
  lemma GrowingDecTree(t: DecTree, i: nat, j: nat, k: nat, l: nat, codec: Node<DecCodec, Node<u32, Node<MemDesc, u32>>>,
                       profile: Node<u32, Node<MemDesc, u32>>, mem: Node<MemDesc, u32>, d: u32, m: MemDesc)
    ensures i <= |t| ==> DecGrows(t, InsertCodec(t, i, codec))
    ensures i < |t| && j <= |t[i].kids| ==> DecGrows(t, InsertProfile(t, i, j, profile))
    ensures i < |t| && j < |t[i].kids| && k <= |t[i].kids[j].kids| ==> DecGrows(t, InsertMem(t, i, j, k, mem))
    ensures i < |t| && j < |t[i].kids| && k < |t[i].kids[j].kids| && l <= |t[i].kids[j].kids[k].kids| ==>
              DecGrows(t, InsertLeaf(t, i, j, k, l, d))
    ensures i < |t| && j < |t[i].kids| && k < |t[i].kids[j].kids| && Looser(m, t[i].kids[j].kids[k].info) ==>
              DecGrows(t, SetThird(t, i, j, k, m))
  {
    hide HasPath;
    if i <= |t| { CodecKeepsPaths(t, i, codec); }
    if i < |t| && j <= |t[i].kids| { ProfileKeepsPaths(t, i, j, profile); }
    if i < |t| && j < |t[i].kids| && k <= |t[i].kids[j].kids| {
      MemKeepsPaths(t, i, j, k, mem);
      if k < |t[i].kids[j].kids| {
        if l <= |t[i].kids[j].kids[k].kids| { LeafKeepsPaths(t, i, j, k, l, d); }
        if Looser(m, t[i].kids[j].kids[k].info) {
          forall x | HasPath(t, x) ensures exists y :: HasPath(SetThird(t, i, j, k, m), y) && DecOffers(y, x) {
            SetThirdPaths(t, i, j, k, m, x);
          }
        }
      }
    }
  }

  lemma GrowingEncTree(t: EncTree, i: nat, j: nat, k: nat, l: nat, codec: Node<EncCodec, Node<u32, Node<MemDesc, u32>>>,
                       profile: Node<u32, Node<MemDesc, u32>>, mem: Node<MemDesc, u32>, d: u32, m: MemDesc)
    ensures i <= |t| ==> EncGrows(t, InsertCodec(t, i, codec))
    ensures i < |t| && j <= |t[i].kids| ==> EncGrows(t, InsertProfile(t, i, j, profile))
    ensures i < |t| && j < |t[i].kids| && k <= |t[i].kids[j].kids| ==> EncGrows(t, InsertMem(t, i, j, k, mem))
    ensures i < |t| && j < |t[i].kids| && k < |t[i].kids[j].kids| && l <= |t[i].kids[j].kids[k].kids| ==>
              EncGrows(t, InsertLeaf(t, i, j, k, l, d))
    ensures i < |t| && j < |t[i].kids| && k < |t[i].kids[j].kids| && Looser(m, t[i].kids[j].kids[k].info) ==>
              EncGrows(t, SetThird(t, i, j, k, m))
  {
    hide HasPath;
    if i <= |t| { CodecKeepsPaths(t, i, codec); }
    if i < |t| && j <= |t[i].kids| { ProfileKeepsPaths(t, i, j, profile); }
    if i < |t| && j < |t[i].kids| && k <= |t[i].kids[j].kids| {
      MemKeepsPaths(t, i, j, k, mem);
      if k < |t[i].kids[j].kids| {
        if l <= |t[i].kids[j].kids[k].kids| { LeafKeepsPaths(t, i, j, k, l, d); }
        if Looser(m, t[i].kids[j].kids[k].info) {
          forall x | HasPath(t, x) ensures exists y :: HasPath(SetThird(t, i, j, k, m), y) && EncOffers(y, x) {
            SetThirdPaths(t, i, j, k, m, x);
          }
        }
      }
    }
  }

  lemma GrowingVPPTree(t: VPPTree, i: nat, j: nat, k: nat, l: nat,
                       filter: Node<VPPFilter, Node<MemDesc, Node<u32, u32>>>,
                       mem: Node<MemDesc, Node<u32, u32>>, format: Node<u32, u32>, d: u32, m: MemDesc)
    ensures i <= |t| ==> VPPGrows(t, InsertCodec(t, i, filter))
    ensures i < |t| && j <= |t[i].kids| ==> VPPGrows(t, InsertProfile(t, i, j, mem))
    ensures i < |t| && j < |t[i].kids| && k <= |t[i].kids[j].kids| ==> VPPGrows(t, InsertMem(t, i, j, k, format))
    ensures i < |t| && j < |t[i].kids| && k < |t[i].kids[j].kids| && l <= |t[i].kids[j].kids[k].kids| ==>
              VPPGrows(t, InsertLeaf(t, i, j, k, l, d))
    ensures i < |t| && j < |t[i].kids| && Looser(m, t[i].kids[j].info) ==> VPPGrows(t, SetSecond(t, i, j, m))
  {
    hide HasPath;
    if i <= |t| { CodecKeepsPaths(t, i, filter); }
    if i < |t| && j <= |t[i].kids| { ProfileKeepsPaths(t, i, j, mem); }
    if i < |t| && j < |t[i].kids| {
      if k <= |t[i].kids[j].kids| { MemKeepsPaths(t, i, j, k, format); }
      if k < |t[i].kids[j].kids| && l <= |t[i].kids[j].kids[k].kids| { LeafKeepsPaths(t, i, j, k, l, d); }
      if Looser(m, t[i].kids[j].info) {
        forall x | HasPath(t, x) ensures exists y :: HasPath(SetSecond(t, i, j, m), y) && VPPOffers(y, x) {
          SetSecondPaths(t, i, j, m, x);
        }
      }
    }
  }

  // d' describes an implementation that offers at least what d does, and is the same otherwise.
  ghost predicate Grows(d: ImplDesc, d': ImplDesc) {
    && d' == d.(dec := d'.dec, enc := d'.enc, vpp := d'.vpp)
    && DecGrows(d.dec, d'.dec) && EncGrows(d.enc, d'.enc) && VPPGrows(d.vpp, d'.vpp)
  }

  lemma GrowingOne(c: Config, p: Caps, d': ImplDesc, lt: LibType)
    requires Grows(p.desc, d') && ConfigAccepts(c, p.desc, p.ext, lt)
    ensures ConfigAccepts(c, d', p.ext, lt)
  {
    hide HasPath;
    assert GeneralOk(c, d') by {
      forall i | IsGeneralProp(i) && IsSet(c, i) ensures MeetsGeneral(i, c[i].data, d') {
        assert MeetsGeneral(i, c[i].data, p.desc);
      }
    }
    if lt != LibTypeMSDK {
      if Has(c, DecGroup) { GrowingDec(c, p.desc.dec, d'.dec); }
      if Has(c, EncGroup) { GrowingEnc(c, p.desc.enc, d'.enc); }
      if Has(c, VPPGroup) { GrowingVPP(c, p.desc.vpp, d'.vpp); }
    }
  }

  lemma GrowingDec(c: Config, t: DecTree, t': DecTree)
    requires DecGrows(t, t') && DecOk(c, t)
    ensures DecOk(c, t')
  {
    hide HasPath;
    var x :| HasPath(t, x) && DecLeafOk(c, x);
    var y :| HasPath(t', y) && DecOffers(y, x);
    assert DecLeafOk(c, y);
  }

  lemma GrowingEnc(c: Config, t: EncTree, t': EncTree)
    requires EncGrows(t, t') && EncOk(c, t)
    ensures EncOk(c, t')
  {
    hide HasPath;
    var x :| HasPath(t, x) && EncLeafOk(c, x);
    var y :| HasPath(t', y) && EncOffers(y, x);
    assert EncLeafOk(c, y);
  }

  lemma GrowingVPP(c: Config, t: VPPTree, t': VPPTree)
    requires VPPGrows(t, t') && VPPOk(c, t)
    ensures VPPOk(c, t')
  {
    hide HasPath;
    var x :| HasPath(t, x) && VPPLeafOk(c, x);
    var y :| HasPath(t', y) && VPPOffers(y, x);
    assert VPPLeafOk(c, y);
  }

  // An implementation that offers more is never refused where the one that offers less was accepted,
  // by any list of configurations.
  lemma GrowingAccepts(p: Caps, d': ImplDesc, cs: seq<Config>, lt: LibType)
    requires Grows(p.desc, d') && Accepts(p, cs, lt)
    ensures Accepts(p.(desc := d'), cs, lt)
  {
    hide Grows, ConfigAccepts, FunctionOk;
    forall k | 0 <= k < |cs| ensures ConfigAccepts(cs[k], d', p.ext, lt) { GrowingOne(cs[k], p, d', lt); }
    SameVersionGrown(p.desc, d');
  }

  lemma SameVersionGrown(d: ImplDesc, d': ImplDesc)
    requires Grows(d, d')
    ensures d'.apiVersion == d.apiVersion
  {}
}
