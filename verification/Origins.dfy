// Where the entries of the implementation list come from: which library reported each, at which
// position, and what of the library's answers it holds.
module Origins {
  import opened ImplOrder
  import opened LoaderState
  import opened StableSort
  import opened VplTypes

  // ---- what a library has to offer -----------------------------------------------------------------

  // The functions a runtime must export, by the API version that introduced them, in the order of the
  // function table.
  const FUNCTIONS_2_0 := ["MFXQueryImplsDescription", "MFXReleaseImplDescription", "MFXMemory_GetSurfaceForVPP",
                          "MFXMemory_GetSurfaceForEncode", "MFXMemory_GetSurfaceForDecode", "MFXInitialize"]
  const FUNCTIONS_2_1 := ["MFXMemory_GetSurfaceForVPPOut", "MFXVideoDECODE_VPP_Init",
                          "MFXVideoDECODE_VPP_DecodeFrameAsync", "MFXVideoDECODE_VPP_Reset",
                          "MFXVideoDECODE_VPP_GetChannelParam", "MFXVideoDECODE_VPP_Close",
                          "MFXVideoVPP_ProcessFrameAsync"]

  // A description of API 2.0 or later needs the first group, of 2.1 or later both.
  predicate Supports(l: Lib, v: Version) {
    && (v.major >= 2 ==> forall i | 0 <= i < |FUNCTIONS_2_0| :: l.table[i])
    && (v.major > 2 || (v.major == 2 && v.minor >= 1) ==>
          forall i | |FUNCTIONS_2_0| <= i < |FUNCTIONS_2_0| + |FUNCTIONS_2_1| :: l.table[i])
  }

  // The pointer at position i of an array, or null.
  function Pointed<T>(o: Option<seq<Option<Ref<T>>>>, i: nat): Option<Ref<T>> {
    if o == None || i >= |o.value| then None else o.value[i]
  }

  // A VPL runtime that hands out descriptions, none of them null, offers each whose API version the
  // library supports; a legacy one offers the adapters it supports.
  ghost predicate Offers(l: Lib, rt: Runtime, i: nat) {
    match l.libType
    case LibTypeVPL =>
      && rt.descs.Some? && i < |rt.descs.value|
      && (forall k | 0 <= k < |rt.descs.value| :: rt.descs.value[k].Some?)
      && Supports(l, rt.descs.value[i].value.target.apiVersion)
    case LibTypeMSDK => i < 4 && rt.adapters[i].Some?
    case LibTypeUnknown => false
  }

  // d is what the loader holds of the offer at position i.
  ghost predicate Matches(d: ImplData, l: Lib, rt: Runtime, i: nat)
    requires Offers(l, rt, i)
  {
    && d.libUid == l.uid && d.libPriority == l.priority && d.libType == l.libType
    && if l.libType == LibTypeMSDK then
         var a := rt.adapters[i].value;
         && d.libImplIdx == 0 && d.msdkImplIdx == i
         && Same(Some(a.desc), Some(d.caps.desc), d.handles.desc)
         && Same(Some(a.funcs), d.caps.funcs, d.handles.funcs) && Same(a.ext, d.caps.ext, d.handles.ext)
       else
         && d.libImplIdx == i && d.msdkImplIdx == 0
         && Same(rt.descs.value[i], Some(d.caps.desc), d.handles.desc)
         && Same(Pointed(rt.funcs, i), d.caps.funcs, d.handles.funcs)
         && Same(Pointed(rt.exts, i), d.caps.ext, d.handles.ext)
  }

  // The address kept, and what it points to, are those of the pointer; 0 and nothing for null.
  predicate Same<T(==)>(r: Option<Ref<T>>, target: Option<T>, address: nat) {
    if r.Some? then target == Some(r.value.target) && address == r.value.address else target == None && address == 0
  }

  lemma SupportsComplete(l: Lib, v: Version)
    ensures ExportsComplete(l.table, v) <==> Supports(l, v)
  {
    assert |FUNCTIONS_2_0| == 6 && |FUNCTIONS_2_1| == 7;
  }

  // ---- the list after a query ----------------------------------------------------------------------------

  ghost predicate OfferAt(libs: seq<Lib>, env: Environment, a: nat, i: nat) {
    a < |libs| && Offers(libs[a], env.runtime(libs[a].name), i)
  }

  ghost predicate HeldAt(d: ImplData, libs: seq<Lib>, env: Environment, a: nat, i: nat) {
    OfferAt(libs, env, a, i) && Matches(d, libs[a], env.runtime(libs[a].name), i)
  }

  // Position pos of the library at position lib.
  datatype Place = Place(lib: nat, pos: nat)

  predicate Before(x: Place, y: Place) { x.lib < y.lib || (x.lib == y.lib && x.pos < y.pos) }

  // Entry x holds offer from[x]; the offers are in the order of the libraries and of their positions,
  // and so are the identities.
  ghost predicate Hold(from: seq<Place>, impls: seq<Impl>, libs: seq<Lib>, env: Environment, first: nat) {
    && |from| == |impls|
    && (forall x | 0 <= x < |from| ::
          HeldAt(impls[x].info, libs, env, from[x].lib, from[x].pos) && impls[x].info.id == first + x)
    && forall x, y | 0 <= x < y < |from| :: Before(from[x], from[y])
  }

  // They are all the offers there are.
  ghost predicate Complete(from: seq<Place>, libs: seq<Lib>, env: Environment) {
    forall a: nat, i: nat | OfferAt(libs, env, a, i) :: Place(a, i) in from
  }

  // ... or all up to position n of the last library.
  ghost predicate UpTo(from: seq<Place>, libs: seq<Lib>, env: Environment, n: nat)
    requires libs != []
  {
    && (forall x | x in from :: Before(x, Place(|libs| - 1, n)))
    && forall a: nat, i: nat | OfferAt(libs, env, a, i) && Before(Place(a, i), Place(|libs| - 1, n)) ::
         Place(a, i) in from
  }

  ghost predicate Queried(from: seq<Place>, q: Query, libs: seq<Lib>, env: Environment, first: nat, n: nat) {
    libs != [] && Hold(from, q.impls, libs, env, first) && UpTo(from, libs, env, n) && q.next == first + |q.impls|
  }

  lemma OfferOfMore(init: seq<Lib>, l: Lib, env: Environment, a: nat, i: nat)
    ensures OfferAt(init + [l], env, a, i) <==>
            if a == |init| then Offers(l, env.runtime(l.name), i) else OfferAt(init, env, a, i)
  {
    hide Offers;
  }

  lemma HeldOfMore(init: seq<Lib>, l: Lib, env: Environment, a: nat, i: nat, d: ImplData)
    ensures HeldAt(d, init, env, a, i) ==> HeldAt(d, init + [l], env, a, i)
  {
    hide Offers, Matches;
  }

  lemma Begin(from: seq<Place>, q: Query, init: seq<Lib>, l: Lib, env: Environment, first: nat)
    requires Hold(from, q.impls, init, env, first) && Complete(from, init, env) && q.next == first + |q.impls|
    ensures Queried(from, q, init + [l], env, first, 0)
  {
    hide HeldAt, OfferAt;
    forall a: nat, i: nat { OfferOfMore(init, l, env, a, i); }
    forall a: nat, i: nat, d { HeldOfMore(init, l, env, a, i, d); }
    forall x | 0 <= x < |from| ensures from[x].lib < |init| {
      HeldBelow(q.impls[x].info, init, env, from[x].lib, from[x].pos);
    }
    forall a: nat, i: nat | OfferAt(init + [l], env, a, i) && Before(Place(a, i), Place(|init|, 0))
      ensures Place(a, i) in from
    {
      assert OfferAt(init, env, a, i);
    }
  }

  lemma HeldBelow(d: ImplData, libs: seq<Lib>, env: Environment, a: nat, i: nat)
    requires HeldAt(d, libs, env, a, i)
    ensures a < |libs| && OfferAt(libs, env, a, i)
  {}

  lemma Skip(from: seq<Place>, q: Query, q': Query, libs: seq<Lib>, env: Environment, first: nat, n: nat)
    requires Queried(from, q, libs, env, first, n) && q'.impls == q.impls && q'.next == q.next
    requires !OfferAt(libs, env, |libs| - 1, n)
    ensures Queried(from, q', libs, env, first, n + 1)
  {
    hide HeldAt, OfferAt;
  }

  lemma Take(from: seq<Place>, q: Query, q': Query, libs: seq<Lib>, env: Environment, first: nat, n: nat, v: Impl)
    requires Queried(from, q, libs, env, first, n) && q'.impls == q.impls + [v] && q'.next == q.next + 1
    requires HeldAt(v.info, libs, env, |libs| - 1, n) && v.info.id == q.next
    ensures Queried(from + [Place(|libs| - 1, n)], q', libs, env, first, n + 1)
  {
    hide HeldAt, OfferAt;
    forall x | 0 <= x < |from| ensures Before(from[x], Place(|libs| - 1, n)) { assert from[x] in from; }
  }

  lemma End(from: seq<Place>, q: Query, libs: seq<Lib>, env: Environment, first: nat, n: nat, last: nat)
    requires Queried(from, q, libs, env, first, n) && last == |libs| - 1
    requires forall i: nat | OfferAt(libs, env, last, i) :: i < n
    ensures Hold(from, q.impls, libs, env, first) && Complete(from, libs, env)
  {
    hide HeldAt, OfferAt;
    forall a: nat, i: nat | OfferAt(libs, env, a, i) ensures Place(a, i) in from { OfferBelow(libs, env, a, i); }
  }

  lemma OfferBelow(libs: seq<Lib>, env: Environment, a: nat, i: nat)
    requires OfferAt(libs, env, a, i)
    ensures a < |libs|
  {}

  // ---- one library ------------------------------------------------------------------------------------------

  lemma VplOne(from: seq<Place>, q: Query, libs: seq<Lib>, env: Environment, first: nat, n: nat)
    returns (from': seq<Place>)
    requires libs != [] && Queried(from, q, libs, env, first, n)
    requires var l := libs[|libs| - 1]; var rt := env.runtime(l.name);
             l.libType == LibTypeVPL && DescsOk(rt) && n < |rt.descs.value|
    ensures var l := libs[|libs| - 1];
            Queried(from', AddVplOne(q, l, env.runtime(l.name), n), libs, env, first, n + 1)
  {
    hide Queried;
    var l := libs[|libs| - 1];
    var rt := env.runtime(l.name);
    var q' := AddVplOne(q, l, rt, n);
    var d := VplData(l, rt, n, q.next);
    SupportsComplete(l, d.caps.desc.apiVersion);
    if ExportsComplete(l.table, d.caps.desc.apiVersion) {
      assert HeldAt(d, libs, env, |libs| - 1, n);
      Take(from, q, q', libs, env, first, n, NewImpl(d));
      from' := from + [Place(|libs| - 1, n)];
    } else {
      Skip(from, q, q', libs, env, first, n);
      from' := from;
    }
  }

  lemma {:induction false} VplSome(from: seq<Place>, q: Query, libs: seq<Lib>, env: Environment, first: nat, n: nat)
    returns (from': seq<Place>)
    requires libs != [] && Queried(from, q, libs, env, first, 0)
    requires var l := libs[|libs| - 1]; var rt := env.runtime(l.name);
             l.libType == LibTypeVPL && DescsOk(rt) && n <= |rt.descs.value|
    ensures var l := libs[|libs| - 1];
            Queried(from', AddVpl(q, l, env.runtime(l.name), n), libs, env, first, n)
  {
    hide Queried, AddVplOne, DescsOk;
    if n == 0 {
      from' := from;
    } else {
      var l := libs[|libs| - 1];
      from' := VplSome(from, q, libs, env, first, n - 1);
      from' := VplOne(from', AddVpl(q, l, env.runtime(l.name), n - 1), libs, env, first, n - 1);
    }
  }

  lemma {:induction false} MsdkSome(from: seq<Place>, q: Query, libs: seq<Lib>, env: Environment, first: nat, n: nat)
    returns (from': seq<Place>)
    requires libs != [] && Queried(from, q, libs, env, first, 0)
    requires libs[|libs| - 1].libType == LibTypeMSDK && n <= MAX_NUM_IMPL_MSDK
    ensures var l := libs[|libs| - 1];
            Queried(from', AddMsdk(q, l, env.runtime(l.name), n), libs, env, first, n)
  {
    hide Queried;
    from' := from;
    if n > 0 {
      var l := libs[|libs| - 1];
      var rt := env.runtime(l.name);
      from' := MsdkSome(from, q, libs, env, first, n - 1);
      var q1 := AddMsdk(q, l, rt, n - 1);
      var q' := AddMsdk(q, l, rt, n);
      if rt.adapters[n - 1].Some? {
        var d := MsdkData(l, rt.adapters[n - 1].value, n - 1, q1.next);
        assert HeldAt(d, libs, env, |libs| - 1, n - 1);
        Take(from', q1, q', libs, env, first, n - 1, NewImpl(d));
        from' := from' + [Place(|libs| - 1, n - 1)];
      } else {
        Skip(from', q1, q', libs, env, first, n - 1);
      }
    }
  }

  lemma SameQueried(from: seq<Place>, q: Query, q': Query, libs: seq<Lib>, env: Environment, first: nat, n: nat)
    requires Queried(from, q, libs, env, first, n) && q'.impls == q.impls && q'.next == q.next
    ensures Queried(from, q', libs, env, first, n)
  {
    hide Hold, UpTo;
  }

  lemma LibOffers(from: seq<Place>, q: Query, libs: seq<Lib>, env: Environment, first: nat) returns (from': seq<Place>)
    requires libs != [] && Queried(from, q, libs, env, first, 0)
    ensures var l := libs[|libs| - 1]; var r := QueryLib(q, l, env.runtime(l.name));
            Hold(from', r.impls, libs, env, first) && Complete(from', libs, env) && r.next == first + |r.impls|
  {
    hide Queried, AddVpl, AddMsdk, Hold, Complete;
    var l := libs[|libs| - 1];
    var rt := env.runtime(l.name);
    var r := QueryLib(q, l, rt);
    var n := 0;
    from' := from;
    if l.libType == LibTypeVPL && DescsOk(rt) {
      var d := q.(trace := q.trace + HandOverEvents(l.uid, rt));
      SameQueried(from, q, d, libs, env, first, 0);
      n := |rt.descs.value|;
      from' := VplSome(from, d, libs, env, first, n);
      SameQueried(from', AddVpl(d, l, rt, n), r, libs, env, first, n);
    } else if l.libType == LibTypeMSDK {
      n := MAX_NUM_IMPL_MSDK;
      from' := MsdkSome(from, q, libs, env, first, n);
      SameQueried(from', AddMsdk(q, l, rt, n), r, libs, env, first, n);
    } else {
      SameQueried(from, q, r, libs, env, first, 0);
    }
    End(from', r, libs, env, first, n, |libs| - 1);
    NextIs(from', r, libs, env, first, n);
  }

  lemma NextIs(from: seq<Place>, q: Query, libs: seq<Lib>, env: Environment, first: nat, n: nat)
    requires Queried(from, q, libs, env, first, n)
    ensures q.next == first + |q.impls|
  {}

  // After all libraries have been queried, the list holds exactly what they offer, once each, in the
  // order of the libraries and of the positions they report.
  lemma {:induction false} QueriedOffers(q: Query, libs: seq<Lib>, env: Environment) returns (from: seq<Place>)
    requires q.impls == []
    ensures var r := QueryLibs(q, libs, env);
            Hold(from, r.impls, libs, env, q.next) && Complete(from, libs, env) && r.next == q.next + |r.impls|
  {
    hide QueryLib, Hold, Complete;
    if libs == [] {
      from := [];
      NoOffers(env, q.next);
    } else {
      var init, l := libs[..|libs| - 1], libs[|libs| - 1];
      assert libs == init + [l];
      from := QueriedOffers(q, init, env);
      Begin(from, QueryLibs(q, init, env), init, l, env, q.next);
      from := LibOffers(from, QueryLibs(q, init, env), libs, env, q.next);
    }
  }

  lemma NoOffers(env: Environment, first: nat)
    ensures Hold([], [], [], env, first) && Complete([], [], env)
  {}

  // ---- the libraries left after a query ----------------------------------------------------------------------

  // A VPL runtime is given up if it hands out no descriptions or a null one, and a legacy one if it
  // supports no adapter.
  ghost predicate Remains(l: Lib, rt: Runtime) {
    match l.libType
    case LibTypeVPL => rt.descs.Some? && forall k | 0 <= k < |rt.descs.value| :: rt.descs.value[k].Some?
    case LibTypeMSDK => exists i | 0 <= i < 4 :: rt.adapters[i].Some?
    case LibTypeUnknown => true
  }

  lemma {:induction false} MsdkGrows(q: Query, l: Lib, rt: Runtime, n: nat)
    requires n <= MAX_NUM_IMPL_MSDK
    ensures AddMsdk(q, l, rt, n).libs == q.libs && AddMsdk(q, l, rt, n).next >= q.next
    ensures AddMsdk(q, l, rt, n).next == q.next <==> forall i | 0 <= i < n :: rt.adapters[i].None?
  {
    if n > 0 { MsdkGrows(q, l, rt, n - 1); }
  }

  lemma {:induction false} VplLibs(q: Query, l: Lib, rt: Runtime, n: nat)
    requires DescsOk(rt) && n <= |rt.descs.value|
    ensures AddVpl(q, l, rt, n).libs == q.libs
  {
    if n > 0 { VplLibs(q, l, rt, n - 1); }
  }

  lemma LibRemains(q: Query, l: Lib, rt: Runtime)
    ensures QueryLib(q, l, rt).libs == if Remains(l, rt) then q.libs + [l] else q.libs
  {
    hide AddVpl, AddMsdk;
    if DescsOk(rt) { VplLibs(q.(trace := q.trace + HandOverEvents(l.uid, rt)), l, rt, |rt.descs.value|); }
    MsdkGrows(q, l, rt, MAX_NUM_IMPL_MSDK);
  }

  ghost function RemainsIn(env: Environment): Lib -> bool { (l: Lib) => Remains(l, env.runtime(l.name)) }

  // All other libraries stay, in their order.
  lemma {:induction false} LibrariesRemain(q: Query, libs: seq<Lib>, env: Environment)
    ensures QueryLibs(q, libs, env).libs == q.libs + Filter(libs, RemainsIn(env))
  {
    hide QueryLib, Remains;
    if libs == [] {
      assert q.libs + Filter(libs, RemainsIn(env)) == q.libs;
    } else {
      var init, l := libs[..|libs| - 1], libs[|libs| - 1];
      LibrariesRemain(q, init, env);
      LibRemains(QueryLibs(q, init, env), l, env.runtime(l.name));
      assert libs == init + [l];
      FilterSnoc(init, l, RemainsIn(env));
    }
  }
}
