// What a session is initialised with. The special properties are collected anew by each successful
// property change and by each update of the valid list. A failed change that unsets an extension
// buffer or the device handle triggers neither: sessions go on passing the buffer until the next
// collection, and the handle until a configuration sets another one.
module SessionProps {
  import opened Config
  import opened HandleTrace
  import opened ImplOrder
  import opened LoaderInvariant
  import opened LoaderState
  import opened PropNames
  import opened Runs
  import opened Special
  import opened Tokens
  import opened VplTypes

  // The call walks over all configurations to collect the special properties.
  ghost predicate Collects(st: State, call: Call) {
    match call
    case SetProperty(_, _, _) => Step(st, call).0.sts == ErrNone
    case Enumerate(_, _, env) => RefreshCollects(st, env)
    case CreateSession(_, _, env) => RefreshCollects(st, env)
    case _ => false
  }

  ghost predicate RefreshCollects(st: State, env: Environment) {
    var (sts, queried) := if st.needFullQuery then FullLoadAndQuery(st, env) else (ErrNone, st);
    sts == ErrNone && queried.needUpdateValidImpls && AnyValid(queried.impls)
  }

  // The configurations as they were at the last collection before state k.
  ghost function Collected(ss: seq<State>, calls: seq<Call>, k: nat): seq<Config>
    requires IsRun(ss, calls) && k < |ss|
  {
    if k == 0 then [] else if Collects(ss[k - 1], calls[k - 1]) then ss[k].configs else Collected(ss, calls, k - 1)
  }

  // A call that collects does so with the configurations it leaves; any other keeps the properties.
  lemma StepSpecial(st: State, call: Call)
    requires Inv(st)
    ensures var r := Step(st, call).1;
            if Collects(st, call)
            then r.special == AfterValidate(st.special, r.configs)
                 || r.special == AfterLowLatencyCheck(st.special, r.configs)
            else r.special == st.special
  {
    hide ListOk, LibsTraceOk, ValidPass, OnlySettable, NumbersCurrent, FullLoadAndQuery, LowLatency, RecheckAll;
    hide Prioritize, AfterValidate, AfterLowLatencyCheck;
    if call.Enumerate? || call.CreateSession? {
      if st.needFullQuery { FullQueryList(st, call.env); }
    }
  }

  lemma StepBuffers(st: State, call: Call)
    requires Inv(st)
    ensures var r := Step(st, call).1;
            r.special.extBuffers == if Collects(st, call) then ExtBuffers(r.configs) else st.special.extBuffers
  {
    hide Step, Collects, Inv, RequestedVersion;
    StepSpecial(st, call);
  }

  // The buffers held for sessions are those of the configurations at the last collection.
  lemma {:induction false} BuffersCollected(ss: seq<State>, calls: seq<Call>, windows: bool, k: nat)
    requires LoaderRun(ss, calls, windows) && k < |ss|
    ensures ss[k].special.extBuffers == ExtBuffers(Collected(ss, calls, k))
  {
    hide Step, Collects, Inv, Allowed;
    if k > 0 {
      BuffersCollected(ss, calls, windows, k - 1);
      Reachable(ss, calls, windows, k - 1);
      StepBuffers(ss[k - 1], calls[k - 1]);
    }
  }

  // All extension buffers for these configurations: the thread count, then their own, in order.
  ghost predicate PassesBuffers(r: SessionRequest, threads: Option<u32>, own: seq<Data>) {
    var bufs := (if threads.Some? then [ThreadsParam(threads.value % 0x1_0000)] else [])
                + seq(|own|, i requires 0 <= i < |own| => FromConfig(own[i]));
    r.numExtParam == |bufs| % 0x1_0000 && r.extParam == if r.numExtParam == 0 then [] else bufs
  }

  // ---- the device handle ---------------------------------------------------------------------------

  // The call collects a device handle.
  ghost predicate CollectsHandle(st: State, call: Call) {
    Collects(st, call) && Last(Step(st, call).1.configs, SPECIAL_HANDLE).Some?
  }

  // The handle collected last before state k; a collection that finds none leaves it.
  ghost function HandleCollected(ss: seq<State>, calls: seq<Call>, k: nat): Option<Data>
    requires IsRun(ss, calls) && k < |ss|
  {
    if k == 0 then None
    else if CollectsHandle(ss[k - 1], calls[k - 1]) then Last(ss[k].configs, SPECIAL_HANDLE)
    else HandleCollected(ss, calls, k - 1)
  }

  lemma StepHandle(st: State, call: Call)
    requires Inv(st)
    ensures var r := Step(st, call).1;
            r.special.deviceHandle ==
            if CollectsHandle(st, call) then Last(r.configs, SPECIAL_HANDLE) else st.special.deviceHandle
  {
    hide Step, Collects, Inv, RequestedVersion;
    StepSpecial(st, call);
  }

  lemma {:induction false} HandleIsCollected(ss: seq<State>, calls: seq<Call>, windows: bool, k: nat)
    requires LoaderRun(ss, calls, windows) && k < |ss|
    ensures ss[k].special.deviceHandle == HandleCollected(ss, calls, k)
  {
    hide Step, CollectsHandle, Inv, Allowed;
    if k > 0 {
      HandleIsCollected(ss, calls, windows, k - 1);
      Reachable(ss, calls, windows, k - 1);
      StepHandle(ss[k - 1], calls[k - 1]);
    }
  }

  // ---- what a session is initialised with ------------------------------------------------------------

  // The whole request: the numbers the configurations cs write last, in configuration order, the
  // buffers own, and the handle, which is passed only with a handle type and neither being null.
  ghost predicate RequestFrom(r: SessionRequest, cs: seq<Config>, own: seq<Data>, handle: Option<Data>) {
    var accel, threads, handleType :=
      WrittenU32(None, cs, MAIN_ACCELERATION_MODE), WrittenU32(None, cs, SPECIAL_NUM_THREAD),
      WrittenU32(None, cs, SPECIAL_HANDLE_TYPE);
    var desc := r.impl.caps.desc;
    && r.accelerationMode == (if accel.Some? then accel.value else desc.accelerationMode)
    && r.vendorImplID == desc.vendorImplID
    && r.legacyAdapter == (if r.impl.libType == LibTypeMSDK
                           then OfQuery(r.impl.msdkImplIdx, r.accelerationMode == ACCEL_MODE_VIA_D3D9) else NotLegacy)
    && PassesBuffers(r, threads, own)
    && r.setHandle == (if handleType.Some? && handleType.value != 0 && handle.Some? && handle.value != Handle(0)
                       then Some((handleType.value, handle.value)) else None)
  }

  lemma RequestIs(v: Impl, sp: SpecialConfig, cs: seq<Config>)
    requires NumbersCurrent(sp, cs)
    ensures RequestFrom(RequestFor(v, sp, false), cs, sp.extBuffers, sp.deviceHandle)
  {}

  // In low latency mode nothing has been filtered: the API version and the range of the adapter index
  // are checked now, and the index selects the implementation of a VPL runtime, or one of the four
  // adapters of a legacy one. The rest of the request is as always.
  lemma LowLatencyReply(s: seq<Impl>, i: u32, sp: SpecialConfig, session: Status)
    ensures var reply, k := ReplyToCreateSession(s, i, sp, true, session), FindIndex(s, SignedIndex(i));
            var tooOld := k >= 0 && sp.apiVersion.Some?
                          && (var have, want := s[k].info.caps.desc.apiVersion, sp.apiVersion.value;
                              have.major < want.major || (have.major == want.major && have.minor < want.minor));
            var outOfRange := k >= 0 && sp.dxgiAdapterIdx.Some? && sp.dxgiAdapterIdx.value >= 4
                              && s[k].info.libType == LibTypeMSDK;
            if k == -1 || tooOld || outOfRange then reply == Reply(ErrNotFound, Nothing, None)
            else
              var usual := RequestFor(s[k], sp, false);
              reply == Reply(session, Nothing, Some(
                if sp.dxgiAdapterIdx.None? then usual
                else if s[k].info.libType == LibTypeMSDK
                then usual.(legacyAdapter := FromTable(sp.dxgiAdapterIdx.value))
                else if s[k].info.libType == LibTypeVPL then usual.(vendorImplID := sp.dxgiAdapterIdx.value)
                else usual))
  {
    hide SessionBuffers;
    var k := FindIndex(s, SignedIndex(i));
    if k >= 0 && sp.apiVersion.Some? {
      var have, want := s[k].info.caps.desc.apiVersion, sp.apiVersion.value;
      assert have.Number() < want.Number() <==>
             have.major < want.major || (have.major == want.major && have.minor < want.minor);
    }
  }

  // In every run, each session is initialised with the numbers written last, the buffers collected
  // last, in configuration order, and the handle collected last. The number of buffers is truncated
  // to 16 bits, and a multiple of 2^16 passes none.
  lemma SessionUsesLastWritten(ss: seq<State>, calls: seq<Call>, windows: bool, k: nat)
    requires LoaderRun(ss, calls, windows) && k < |calls| && calls[k].CreateSession?
    requires Step(ss[k], calls[k]).0.request.Some?
    ensures RequestFrom(Step(ss[k], calls[k]).0.request.value, ss[k].configs,
                        ExtBuffers(Collected(ss, calls, k + 1)), HandleCollected(ss, calls, k + 1))
  {
    hide Collects, CollectsHandle, Refresh, ListOk, LibsTraceOk, ValidPass, OnlySettable, NumbersCurrent, Allowed,
         RequestFrom, RequestFor;
    Reachable(ss, calls, windows, k);
    Reachable(ss, calls, windows, k + 1);
    RefreshConfigs(ss[k], calls[k].env);
    BuffersCollected(ss, calls, windows, k + 1);
    HandleIsCollected(ss, calls, windows, k + 1);
    var now := ss[k + 1];
    RequestIs(now.impls[FindIndex(now.impls, SignedIndex(calls[k].i))], now.special, now.configs);
  }

  // ---- when they are the buffers the configurations hold now ------------------------------------------

  // A failed call that takes a buffer away: a null pointer for the ExtBuffer property of a
  // configuration that has one.
  ghost predicate UnsetsBuffer(st: State, call: Call) {
    && call.SetProperty? && call.config < |st.configs| && IsSet(st.configs[call.config], SPECIAL_EXT_BUFFER)
    && NullFor(call, SPECIAL_EXT_BUFFER, st.windows)
  }

  ghost predicate NullFor(call: Call, i: int, windows: bool)
    requires call.SetProperty?
  {
    Selects(call.name, call.value, i, windows) && call.value.Pointer? && call.value.target.None?
  }

  lemma {:induction false} ReplacedBuffers(cs: seq<Config>, k: nat, c: Config)
    requires k < |cs|
    ensures IsSet(c, SPECIAL_EXT_BUFFER) == IsSet(cs[k], SPECIAL_EXT_BUFFER)
            && c[SPECIAL_EXT_BUFFER].data == cs[k][SPECIAL_EXT_BUFFER].data
            ==> ExtBuffers(cs[k := c]) == ExtBuffers(cs)
    ensures IsSet(cs[k], SPECIAL_EXT_BUFFER) && !IsSet(c, SPECIAL_EXT_BUFFER) ==>
              |ExtBuffers(cs[k := c])| == |ExtBuffers(cs)| - 1
  {
    var ds := cs[k := c];
    if k < |cs| - 1 {
      ReplacedBuffers(cs[..|cs| - 1], k, c);
      assert ds[..|ds| - 1] == cs[..|cs| - 1][k := c];
    } else {
      assert ds[..|ds| - 1] == cs[..|cs| - 1];
    }
  }

  // The name selects slot i.
  ghost predicate Selects(name: Option<string>, v: Variant, i: int, windows: bool) {
    name.Some? && Resolve(Split(name.value, '.'), v.Type() == TypePtr, windows) == i
  }

  // What a call does to one slot: nothing if the name selects another or the type is wrong, and
  // otherwise it is set, or unset by a null pointer.
  lemma SlotAfterSet(c: Config, name: Option<string>, v: Variant, windows: bool, i: int)
    requires IsProp(i)
    ensures var (sts, d) := AfterSet(c, name, v, windows);
            if Selects(name, v, i, windows) && v.Type() == TypeOf(i)
            then if v.Pointer? && v.target.None? then sts == ErrNullPtr && d[i] == Slot(TypeUnset, c[i].data)
                 else sts == ErrNone && IsSet(d, i)
            else d[i] == c[i]
  {
    hide Resolve, Split;
  }

  // A call changes the configurations by adding an empty one or by setting a property of one.
  ghost predicate ConfigsChange(cs: seq<Config>, ds: seq<Config>, call: Call, windows: bool) {
    match call
    case CreateConfig => ds == cs + [EmptyConfig()]
    case SetProperty(k, name, v) =>
      if k < |cs| then ds == cs[k := AfterSet(cs[k], name, v, windows).1] else ds == cs
    case _ => ds == cs
  }

  lemma StepConfigs(st: State, call: Call)
    requires Inv(st)
    ensures ConfigsChange(st.configs, Step(st, call).1.configs, call, st.windows)
    ensures call.SetProperty? && call.config < |st.configs| ==>
              (Collects(st, call) <==>
               AfterSet(st.configs[call.config], call.name, call.value, st.windows).0 == ErrNone)
  {
    hide ListOk, LibsTraceOk, ValidPass, OnlySettable, NumbersCurrent, Refresh, LowLatency, AfterSet;
    match call
    case Enumerate(_, _, env) => RefreshConfigs(st, env);
    case CreateSession(_, _, env) => RefreshConfigs(st, env);
    case _ =>
  }

  // A call that collects nothing changes the buffers held by the configurations only by taking one
  // away.
  lemma QuietBuffers(st: State, call: Call)
    requires Inv(st) && !Collects(st, call)
    ensures var cs := Step(st, call).1.configs;
            if UnsetsBuffer(st, call) then |ExtBuffers(cs)| == |ExtBuffers(st.configs)| - 1
            else ExtBuffers(cs) == ExtBuffers(st.configs)
  {
    hide Step, Collects, Inv, AfterSet, Selects;
    StepConfigs(st, call);
    match call
    case CreateConfig =>
      assert (st.configs + [EmptyConfig()])[..|st.configs|] == st.configs;
    case SetProperty(k, name, v) =>
      if k < |st.configs| {
        SlotAfterSet(st.configs[k], name, v, st.windows, SPECIAL_EXT_BUFFER);
        ReplacedBuffers(st.configs, k, AfterSet(st.configs[k], name, v, st.windows).1);
      }
    case _ =>
  }

  ghost predicate NothingCollected(ss: seq<State>, calls: seq<Call>, j: nat, k: nat)
    requires IsRun(ss, calls) && j <= k < |ss|
  {
    forall i | j <= i < k :: !Collects(ss[i], calls[i])
  }

  ghost predicate NothingUnset(ss: seq<State>, calls: seq<Call>, j: nat, k: nat)
    requires IsRun(ss, calls) && j <= k < |ss|
  {
    forall i | j <= i < k :: !UnsetsBuffer(ss[i], calls[i])
  }

  lemma {:induction false} BuffersSince(ss: seq<State>, calls: seq<Call>, windows: bool, j: nat, k: nat)
    requires LoaderRun(ss, calls, windows) && j <= k < |ss| && NothingCollected(ss, calls, j, k)
    ensures Collected(ss, calls, k) == Collected(ss, calls, j)
    ensures |ExtBuffers(ss[k].configs)| <= |ExtBuffers(ss[j].configs)|
    ensures ExtBuffers(ss[k].configs) == ExtBuffers(ss[j].configs) <==> NothingUnset(ss, calls, j, k)
    decreases k
  {
    hide Step, Collects, UnsetsBuffer, Inv, Allowed, ExtBuffers;
    if j < k {
      BuffersSince(ss, calls, windows, j, k - 1);
      Reachable(ss, calls, windows, k - 1);
      QuietBuffers(ss[k - 1], calls[k - 1]);
      SplitLast(ss, calls, j, k);
      assert NothingUnset(ss, calls, j, k) ==> ExtBuffers(ss[k].configs) == ExtBuffers(ss[j].configs);
    }
  }

  lemma SplitLast(ss: seq<State>, calls: seq<Call>, j: nat, k: nat)
    requires IsRun(ss, calls) && j < k < |ss|
    ensures NothingUnset(ss, calls, j, k) <==>
            NothingUnset(ss, calls, j, k - 1) && !UnsetsBuffer(ss[k - 1], calls[k - 1])
  {
    hide Step, UnsetsBuffer, Allowed;
  }

  // With the last collection made by the call before state j (or none yet, and j = 0), sessions are
  // passed the buffers that the configurations hold now iff no failed call has taken one away since.
  lemma BuffersCurrentExactly(ss: seq<State>, calls: seq<Call>, windows: bool, j: nat, k: nat)
    requires LoaderRun(ss, calls, windows) && j <= k < |ss|
    requires (j > 0 ==> Collects(ss[j - 1], calls[j - 1])) && NothingCollected(ss, calls, j, k)
    ensures ss[k].special.extBuffers == ExtBuffers(ss[k].configs) <==> NothingUnset(ss, calls, j, k)
  {
    hide Step, Collects, UnsetsBuffer, Inv, Allowed;
    BuffersCollected(ss, calls, windows, k);
    BuffersSince(ss, calls, windows, j, k);
    if j == 0 { assert ss[0].configs == []; }
  }

  // ---- when the handle is the one the configurations hold now -------------------------------------------

  // The last configuration, in their order, that sets property i, or -1.
  ghost function LastSetter(cs: seq<Config>, i: int): (r: int)
    ensures -1 <= r < |cs| && (r >= 0 ==> IsSet(cs[r], i)) && forall k | r < k < |cs| :: !IsSet(cs[k], i)
  {
    if cs == [] then -1
    else if IsSet(cs[|cs| - 1], i) then |cs| - 1
    else
      var r := LastSetter(cs[..|cs| - 1], i);
      assert forall k | 0 <= k < |cs| - 1 :: cs[k] == cs[..|cs| - 1][k];
      r
  }

  lemma {:induction false} LastOfSetter(cs: seq<Config>, i: int)
    ensures Last(cs, i) == if LastSetter(cs, i) == -1 then None else Some(cs[LastSetter(cs, i)][i].data)
  {
    if cs != [] { LastOfSetter(cs[..|cs| - 1], i); }
  }

  // A failed call that takes the handle of configuration m away.
  ghost predicate UnsetsHandle(st: State, call: Call, m: nat) {
    call.SetProperty? && call.config == m && m < |st.configs| && NullFor(call, SPECIAL_HANDLE, st.windows)
  }

  // ds holds the handles of cs, except those a predicate takes away, and no others.
  ghost predicate HandlesLeft(cs: seq<Config>, ds: seq<Config>, taken: nat -> bool) {
    && |cs| <= |ds|
    && (forall x | 0 <= x < |cs| :: IsSet(ds[x], SPECIAL_HANDLE) <==> IsSet(cs[x], SPECIAL_HANDLE) && !taken(x))
    && (forall x | 0 <= x < |cs| && IsSet(ds[x], SPECIAL_HANDLE) ::
          ds[x][SPECIAL_HANDLE].data == cs[x][SPECIAL_HANDLE].data)
    && forall x | |cs| <= x < |ds| :: !IsSet(ds[x], SPECIAL_HANDLE)
  }

  // A call that collects no handle changes the handles held only by taking one away.
  lemma QuietHandles(st: State, call: Call)
    requires Inv(st) && !CollectsHandle(st, call)
    ensures HandlesLeft(st.configs, Step(st, call).1.configs, (x: nat) => UnsetsHandle(st, call, x))
  {
    hide Step, Collects, Inv, AfterSet, Selects;
    StepConfigs(st, call);
    match call
    case SetProperty(k, name, v) =>
      if k < |st.configs| {
        SlotAfterSet(st.configs[k], name, v, st.windows, SPECIAL_HANDLE);
        var cs := Step(st, call).1.configs;
        assert cs[k] == AfterSet(st.configs[k], name, v, st.windows).1;
        assert IsSet(cs[k], SPECIAL_HANDLE) ==> Last(cs, SPECIAL_HANDLE).Some?;
      }
    case _ =>
  }

  ghost predicate NoHandleCollected(ss: seq<State>, calls: seq<Call>, j: nat, k: nat)
    requires IsRun(ss, calls) && j <= k < |ss|
  {
    forall i | j <= i < k :: !CollectsHandle(ss[i], calls[i])
  }

  ghost predicate HandleTaken(ss: seq<State>, calls: seq<Call>, j: nat, k: nat, m: nat)
    requires IsRun(ss, calls) && j <= k < |ss|
  {
    exists i | j <= i < k :: UnsetsHandle(ss[i], calls[i], m)
  }

  lemma {:induction false} HandlesSince(ss: seq<State>, calls: seq<Call>, windows: bool, j: nat, k: nat)
    requires LoaderRun(ss, calls, windows) && j <= k < |ss| && NoHandleCollected(ss, calls, j, k)
    ensures HandleCollected(ss, calls, k) == HandleCollected(ss, calls, j)
    ensures HandlesLeft(ss[j].configs, ss[k].configs, (m: nat) => HandleTaken(ss, calls, j, k, m))
    decreases k
  {
    hide Step, CollectsHandle, UnsetsHandle, Inv, Allowed;
    if j < k {
      HandlesSince(ss, calls, windows, j, k - 1);
      Reachable(ss, calls, windows, k - 1);
      QuietHandles(ss[k - 1], calls[k - 1]);
      forall m: nat ensures HandleTaken(ss, calls, j, k, m) <==>
                            HandleTaken(ss, calls, j, k - 1, m) || UnsetsHandle(ss[k - 1], calls[k - 1], m)
      {}
    }
  }

  lemma HandlesLeftLast(cs: seq<Config>, ds: seq<Config>, taken: nat -> bool)
    requires HandlesLeft(cs, ds, taken)
    ensures var m := LastSetter(cs, SPECIAL_HANDLE);
            if m == -1 then Last(ds, SPECIAL_HANDLE) == None
            else taken(m) ==> LastSetter(ds, SPECIAL_HANDLE) < m
    ensures var m := LastSetter(cs, SPECIAL_HANDLE);
            m >= 0 && !taken(m) ==> Last(ds, SPECIAL_HANDLE) == Last(cs, SPECIAL_HANDLE)
  {
    LastOfSetter(cs, SPECIAL_HANDLE);
    LastOfSetter(ds, SPECIAL_HANDLE);
  }

  // An earlier configuration still holds a handle, and it is the same one.
  ghost predicate SameHandleElsewhere(cs: seq<Config>, m: nat, handle: Data) {
    var o := LastSetter(cs, SPECIAL_HANDLE);
    0 <= o < m && cs[o][SPECIAL_HANDLE].data == handle
  }

  // With the last handle collected by the call before state j, from configuration m: sessions are
  // passed the handle that the configurations hold now iff no failed call has taken it from m since,
  // or an earlier configuration happens to hold the same one. If no handle has been collected yet,
  // none is held either.
  lemma HandleCurrentExactly(ss: seq<State>, calls: seq<Call>, windows: bool, j: nat, k: nat)
    requires LoaderRun(ss, calls, windows) && j <= k < |ss|
    requires (j > 0 ==> CollectsHandle(ss[j - 1], calls[j - 1])) && NoHandleCollected(ss, calls, j, k)
    ensures var handle, now := ss[k].special.deviceHandle, Last(ss[k].configs, SPECIAL_HANDLE);
            var m := LastSetter(ss[j].configs, SPECIAL_HANDLE);
            if j == 0 then handle == None == now
            else m >= 0 && handle.Some?
                 && (handle == now <==>
                     !HandleTaken(ss, calls, j, k, m) || SameHandleElsewhere(ss[k].configs, m, handle.value))
  {
    hide Step, UnsetsHandle, Inv, Allowed, HandleTaken;
    HandleIsCollected(ss, calls, windows, k);
    HandlesSince(ss, calls, windows, j, k);
    HandlesLeftLast(ss[j].configs, ss[k].configs, (m: nat) => HandleTaken(ss, calls, j, k, m));
    LastOfSetter(ss[j].configs, SPECIAL_HANDLE);
    LastOfSetter(ss[k].configs, SPECIAL_HANDLE);
    if j == 0 { assert ss[0].configs == []; }
  }
}
