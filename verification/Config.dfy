// A configuration object (mfxConfig): 58 property slots plus the backing fields that hold
// copies of whatever the application passed by pointer.
module Config {
  import opened PropNames
  import opened Tokens
  import opened VplTypes

  // ---- values -------------------------------------------------------------------------

  // What reading the application's pointer yields, for each type it may be cast to.
  datatype Pointee = Pointee(
    asRange: Range32U,
    asText: string,
    asBytes: Bytes8,       // for a LUID
    asExtBuf: seq<int>,    // the first BufferSz bytes, for an extension buffer
    address: nat)

  datatype Variant = Scalar(typ: ScalarType, bits: nat) | Pointer(target: Option<Pointee>) {
    function Type(): VariantType { if Scalar? then typ else TypePtr }
  }
  type ScalarType = t: VariantType | t != TypePtr witness TypeUnset

  // The meaning of a slot's data, with the pointers into the configuration followed.
  datatype Data =
    | Num(bits: nat)
    | RangeData(range: Range32U)
    | Text(text: string)
    | Bytes(bytes: seq<int>)
    | Handle(address: nat)
  {
    // Reading the union through one of its members.
    function U16(): u16 { if Num? then bits % 0x1_0000 else 0 }
    function U32(): u32 { if Num? then bits % 0x1_0000_0000 else 0 }
  }

  datatype Slot = Slot(typ: VariantType, data: Data) {
    predicate Set() { typ != TypeUnset }
  }

  predicate DataFits(i: int, d: Data) {
    if IsRangeProp(i) then d.RangeData?
    else if IsTextProp(i) then d.Text?
    else if i == EXTDEV_DEVICE_LUID then d.Bytes? && |d.bytes| == 8
    else if i == SPECIAL_EXT_BUFFER then d == Num(0) || (d.Bytes? && d.bytes != [])
    else if i == SPECIAL_HANDLE then d.Handle?
    else d.Num?
  }

  // A slot is unset or has its table type and data of that shape. (The extension buffer
  // keeps its old copy while unset, and may use it again.)
  predicate SlotOk(i: int, s: Slot) {
    && (s.Set() ==> s.typ == TypeOf(i))
    && (s.Set() || i == SPECIAL_EXT_BUFFER ==> DataFits(i, s.data))
  }

  predicate ConfigOk(c: seq<Slot>) { |c| == TOTAL_PROPS && forall i | 0 <= i < TOTAL_PROPS :: SlotOk(i, c[i]) }

  function EmptyConfig(): (c: seq<Slot>)
    ensures ConfigOk(c) && forall i | 0 <= i < TOTAL_PROPS :: !c[i].Set()
  {
    seq(TOTAL_PROPS, i => Slot(TypeUnset, if i == FUNC_FUNCTION_NAME then Text("") else Num(0)))
  }

  type Config = c: seq<Slot> | ConfigOk(c) witness EmptyConfig()

  predicate IsSet(c: Config, i: int) { IsProp(i) && c[i].Set() }

  // ---- what one call does to the slots ----------------------------------------------------

  function Stored(i: int, v: Variant, old_: Data): Data
    requires v.Pointer? ==> v.target.Some?
  {
    if v.Scalar? then Num(v.bits) else
      var p := v.target.value;
      if IsRangeProp(i) then RangeData(p.asRange)
      else if IsTextProp(i) then Text(p.asText)
      else if i == EXTDEV_DEVICE_LUID then Bytes(p.asBytes)
      else if i == SPECIAL_EXT_BUFFER then if p.asExtBuf != [] then Bytes(p.asExtBuf) else old_
      else Handle(p.address)
  }

  function AfterStore(c: Config, i: int, v: Variant): (r: (Status, Config))
  {
    if !IsProp(i) then (ErrNotFound, c)
    else if v.Type() != TypeOf(i) then (ErrUnsupported, c)
    else if v.Pointer? && v.target.None? then (ErrNullPtr, c[i := Slot(TypeUnset, c[i].data)])
    else (ErrNone, c[i := Slot(v.Type(), Stored(i, v, c[i].data))])
  }

  // One SetFilterProperty call; name is None for a null pointer.
  function AfterSet(c: Config, name: Option<string>, v: Variant, windows: bool): (Status, Config)
  {
    if name.None? then (ErrNullPtr, c)
    else AfterStore(c, Resolve(Split(name.value, '.'), v.Type() == TypePtr, windows), v)
  }

  datatype SetCall = SetCall(name: Option<string>, value: Variant)

  function AfterSets(c: Config, calls: seq<SetCall>, windows: bool): Config
  {
    if calls == [] then c else
      var last := calls[|calls| - 1];
      AfterSet(AfterSets(c, calls[..|calls| - 1], windows), last.name, last.value, windows).1
  }

  // Frame of one call: at most one slot changes, it is the one the name selects, and a failing
  // call leaves it alone or, on a null pointer, only marks it unset.
  lemma SetFrame(c: Config, name: Option<string>, v: Variant, windows: bool)
    ensures var (sts, c') := AfterSet(c, name, v, windows);
            && (forall i, j | 0 <= i < j < TOTAL_PROPS :: c'[i] == c[i] || c'[j] == c[j])
            && (forall i | 0 <= i < TOTAL_PROPS && c'[i] != c[i] :: Settable(i, windows) && TypeOf(i) == v.Type())
            && (sts != ErrNone ==> forall i | 0 <= i < TOTAL_PROPS ::
                  c'[i] == c[i] || (sts == ErrNullPtr && TypeOf(i) == TypePtr && c'[i] == Slot(TypeUnset, c[i].data)))
  {
    hide Split, Resolve, TypeOf, Settable;
    if name.Some? {
      OnlySettableReached(Split(name.value, '.'), v.Type() == TypePtr, windows);
    }
  }

  // Reading back what one call wrote: a number as it was given, and for a pointer the copy of what it
  // points to, the eight bytes of a LUID, the buffer unless it is empty, or the address itself.
  ghost predicate ReadsBack(i: int, v: Variant, d: Data, before: Data) {
    && (v.Scalar? ==> d == Num(v.bits))
    && (v.Pointer? ==>
          && v.target.Some?
          && var q := v.target.value;
             && (i in {DEC_WIDTH, DEC_HEIGHT, ENC_WIDTH, ENC_HEIGHT, VPP_WIDTH, VPP_HEIGHT} ==>
                   && d.RangeData? && d.range.min == q.asRange.min && d.range.max == q.asRange.max
                   && d.range.step == q.asRange.step)
             && (i in {MAIN_IMPL_NAME, MAIN_LICENSE, MAIN_KEYWORDS} ==> d.Text? && d.text == q.asText)
             && (i in {DEVICE_DEVICE_ID_STR, EXTDEV_DEVICE_NAME, FUNC_FUNCTION_NAME} ==> d.Text? && d.text == q.asText)
             && (i == EXTDEV_DEVICE_LUID ==> d.Bytes? && d.bytes == q.asBytes)
             && (i == SPECIAL_EXT_BUFFER && q.asExtBuf != [] ==> d.Bytes? && d.bytes == q.asExtBuf)
             && (i == SPECIAL_EXT_BUFFER && q.asExtBuf == [] ==> d == before)
             && (i == SPECIAL_HANDLE ==> d.Handle? && d.address == q.address))
  }

  // The status of a call through any name, and the value found in the slot after a success.
  lemma SetWrites(c: Config, name: Option<string>, v: Variant, windows: bool)
    ensures var (sts, c') := AfterSet(c, name, v, windows);
            var i := if name.Some? then Resolve(Split(name.value, '.'), v.Type() == TypePtr, windows) else NOT_A_PROP;
            && (sts == ErrNotFound <==> name.Some? && i == NOT_A_PROP)
            && (sts == ErrUnsupported <==> i != NOT_A_PROP && v.Type() != TypeOf(i))
            && (sts == ErrNullPtr <==>
                name.None? || (i != NOT_A_PROP && v.Type() == TypeOf(i) && v.Pointer? && v.target.None?))
            && sts in {ErrNone, ErrNotFound, ErrUnsupported, ErrNullPtr}
            && (sts == ErrNone ==> IsSet(c', i) && ReadsBack(i, v, c'[i].data, c[i].data))
  {
    hide Resolve, Split, Settable;
    if name.Some? {
      OnlySettableReached(Split(name.value, '.'), v.Type() == TypePtr, windows);
      ReachedIsProp(Split(name.value, '.'), v.Type() == TypePtr, windows);
    }
  }

  lemma ReachedIsProp(ts: seq<string>, isPtr: bool, windows: bool)
    ensures Resolve(ts, isPtr, windows) == NOT_A_PROP || IsProp(Resolve(ts, isPtr, windows))
  {
    hide Resolve;
    OnlySettableReached(ts, isPtr, windows);
  }

  // Over any sequence of calls with any names and values, no slot outside the settable ones is
  // ever set; that every slot has its table type is part of the type Config.
  lemma {:induction false} SetsReachOnlySettable(calls: seq<SetCall>, windows: bool, i: int)
    ensures ConfigOk(AfterSets(EmptyConfig(), calls, windows))
    ensures IsSet(AfterSets(EmptyConfig(), calls, windows), i) ==> Settable(i, windows)
  {
    if calls != [] {
      var last := calls[|calls| - 1];
      SetsReachOnlySettable(calls[..|calls| - 1], windows, i);
      SetFrame(AfterSets(EmptyConfig(), calls[..|calls| - 1], windows), last.name, last.value, windows);
    }
  }

  // A complete name followed by any further dotted components behaves as the name itself.
  lemma SetIgnoresSuffix(c: Config, name: string, more: string, v: Variant, windows: bool)
    requires AfterSet(c, Some(name), v, windows).0 != ErrNotFound
    ensures AfterSet(c, Some(name + "." + more), v, windows) == AfterSet(c, Some(name), v, windows)
  {
    NamePrefixStable(name, more, v.Type() == TypePtr, windows);
  }

  // ---- the object ---------------------------------------------------------------------------

  // What m_propVar physically holds: bits, the caller's handle, or a pointer to a backing field.
  datatype RawData = Raw(bits: nat) | External(address: nat) | OwnRange(k: nat) | OwnText | OwnLUID | OwnExtBuf
  datatype RawSlot = RawSlot(typ: VariantType, data: RawData)

  function RangeField(i: int): nat {
    if i == DEC_WIDTH then 0 else if i == DEC_HEIGHT then 1
    else if i == ENC_WIDTH then 2 else if i == ENC_HEIGHT then 3
    else if i == VPP_WIDTH then 4 else 5
  }

  class ConfigCtxVPL {
    var propVar: seq<RawSlot>
    var propRange32U: seq<Range32U>
    var implName: string
    var implLicense: string
    var implKeywords: string
    var deviceIdStr: string
    var implFunctionName: string
    var extDevLUID8U: Bytes8
    var extDevNameStr: string
    var extBuf: seq<int>
    const windows: bool

    predicate Valid()
      reads this
    {
      && |propVar| == TOTAL_PROPS && |propRange32U| == 6
      && (forall i | 0 <= i < TOTAL_PROPS :: RawOk(i, propVar[i]))
      && (propVar[SPECIAL_EXT_BUFFER].data == OwnExtBuf <==> extBuf != [])
    }

    predicate RawOk(i: int, s: RawSlot) {
      && (s.typ == TypeUnset || s.typ == TypeOf(i))
      && (s.typ != TypeUnset || i == SPECIAL_EXT_BUFFER ==>
            if IsRangeProp(i) then s.data == OwnRange(RangeField(i))
            else if i == FUNC_FUNCTION_NAME then true
            else if IsTextProp(i) then s.data == OwnText
            else if i == EXTDEV_DEVICE_LUID then s.data == OwnLUID
            else if i == SPECIAL_EXT_BUFFER then s.data == OwnExtBuf || s.data == Raw(0)
            else if i == SPECIAL_HANDLE then s.data.External?
            else s.data.Raw?)
      // a backing field is pointed to from its own slot only
      && (s.data.OwnRange? ==> IsRangeProp(i) && s.data == OwnRange(RangeField(i)))
      && (s.data.OwnText? ==> IsTextProp(i))
      && (s.data.OwnLUID? ==> i == EXTDEV_DEVICE_LUID)
      && (s.data.OwnExtBuf? ==> i == SPECIAL_EXT_BUFFER)
    }

    function TextField(i: int): string
      reads this`implName, this`implLicense, this`implKeywords, this`deviceIdStr, this`extDevNameStr
      reads this`implFunctionName
    {
      if i == MAIN_IMPL_NAME then implName
      else if i == MAIN_LICENSE then implLicense
      else if i == MAIN_KEYWORDS then implKeywords
      else if i == DEVICE_DEVICE_ID_STR then deviceIdStr
      else if i == EXTDEV_DEVICE_NAME then extDevNameStr
      else implFunctionName
    }

    function Content(i: int): Data
      requires Valid() && 0 <= i < TOTAL_PROPS
      reads this
    {
      if i == FUNC_FUNCTION_NAME then Text(TextField(i)) else
        match propVar[i].data
        case Raw(bits) => Num(bits)
        case External(address) => Handle(address)
        case OwnRange(k) => RangeData(propRange32U[RangeField(i)])
        case OwnText => Text(TextField(i))
        case OwnLUID => Bytes(extDevLUID8U)
        case OwnExtBuf => Bytes(extBuf)
    }

    // The slots as the matching code sees them.
    function View(): (c: Config)
      requires Valid()
      reads this
      ensures forall i | 0 <= i < TOTAL_PROPS :: c[i] == Slot(propVar[i].typ, Content(i))
    {
      var c := seq(TOTAL_PROPS,
                   i requires 0 <= i < TOTAL_PROPS && Valid() reads this => Slot(propVar[i].typ, Content(i)));
      assert forall i | 0 <= i < TOTAL_PROPS :: SlotOk(i, c[i]) by {
        assert forall i | 0 <= i < TOTAL_PROPS :: RawOk(i, propVar[i]);
      }
      c
    }

    constructor (windows: bool)
      ensures Valid() && View() == EmptyConfig() && this.windows == windows
    {
      this.windows := windows;
      propVar := seq(TOTAL_PROPS, i => RawSlot(TypeUnset, Raw(0)));
      propRange32U := seq(6, i => Range32U(0, 0, 0));
      implName, implLicense, implKeywords, deviceIdStr, implFunctionName, extDevNameStr := "", "", "", "", "", "";
      extDevLUID8U := [0, 0, 0, 0, 0, 0, 0, 0];
      extBuf := [];
    }

    method StoreText(idx: int, text: string)
      requires IsTextProp(idx)
      modifies this`implName, this`implLicense, this`implKeywords, this`deviceIdStr, this`extDevNameStr
      modifies this`implFunctionName
      ensures forall i | IsTextProp(i) :: TextField(i) == if i == idx then text else old(TextField(i))
    {
      if idx == MAIN_IMPL_NAME { implName := text; }
      else if idx == MAIN_LICENSE { implLicense := text; }
      else if idx == MAIN_KEYWORDS { implKeywords := text; }
      else if idx == DEVICE_DEVICE_ID_STR { deviceIdStr := text; }
      else if idx == EXTDEV_DEVICE_NAME { extDevNameStr := text; }
      else { implFunctionName := text; }
    }

    // Keep a copy of a string in the field that belongs to the slot.
    method SaveText(idx: int, text: string)
      requires Valid() && IsTextProp(idx)
      modifies this
      ensures Valid() && View() == old(View())[idx := Slot(TypePtr, Text(text))]
    {
      hide TextField;
      ghost var before := View();
      StoreText(idx, text);
      assert forall i | 0 <= i < TOTAL_PROPS :: RawOk(i, propVar[i]);
      var data := if idx == FUNC_FUNCTION_NAME then propVar[idx].data else OwnText;
      propVar := propVar[idx := RawSlot(TypePtr, data)];
      assert View() == before[idx := Slot(TypePtr, Text(text))];
    }

    // SetExtBuf copies a non-empty buffer; GetExtBuf succeeds whenever a copy is held.
    method SaveExtBuf(bytes: seq<int>)
      requires Valid()
      modifies this
      ensures Valid()
      ensures var old_ := old(View())[SPECIAL_EXT_BUFFER].data;
              View() == old(View())[SPECIAL_EXT_BUFFER := Slot(TypePtr, if bytes != [] then Bytes(bytes) else old_)]
    {
      ghost var before := View();
      if bytes != [] { extBuf := bytes; }
      var data := if extBuf != [] then OwnExtBuf else propVar[SPECIAL_EXT_BUFFER].data;
      propVar := propVar[SPECIAL_EXT_BUFFER := RawSlot(TypePtr, data)];
      assert View() == before[SPECIAL_EXT_BUFFER := View()[SPECIAL_EXT_BUFFER]];
    }

    method SaveRange(idx: int, r: Range32U)
      requires Valid() && IsRangeProp(idx)
      modifies this
      ensures Valid() && View() == old(View())[idx := Slot(TypePtr, RangeData(r))]
    {
      hide TextField;
      ghost var before := View();
      propRange32U := propRange32U[RangeField(idx) := r];
      propVar := propVar[idx := RawSlot(TypePtr, OwnRange(RangeField(idx)))];
      assert View() == before[idx := Slot(TypePtr, RangeData(r))];
    }

    method SaveLUID(bytes: Bytes8)
      requires Valid()
      modifies this
      ensures Valid() && View() == old(View())[EXTDEV_DEVICE_LUID := Slot(TypePtr, Bytes(bytes))]
    {
      ghost var before := View();
      extDevLUID8U := bytes;
      propVar := propVar[EXTDEV_DEVICE_LUID := RawSlot(TypePtr, OwnLUID)];
      assert View() == before[EXTDEV_DEVICE_LUID := Slot(TypePtr, Bytes(bytes))];
    }

    // A number or the caller's handle is held in the slot itself.
    method SaveDirect(idx: int, typ: VariantType, data: RawData)
      requires Valid() && IsProp(idx) && idx != SPECIAL_EXT_BUFFER && idx != FUNC_FUNCTION_NAME
      requires (data.Raw? || data.External?) && RawOk(idx, RawSlot(typ, data))
      modifies this`propVar
      ensures Valid()
      ensures View() == old(View())[idx := Slot(typ, if data.Raw? then Num(data.bits) else Handle(data.address))]
    {
      ghost var before := View();
      propVar := propVar[idx := RawSlot(typ, data)];
      assert View() == before[idx := View()[idx]];
    }

    method Unset(idx: int)
      requires Valid() && IsProp(idx)
      modifies this`propVar
      ensures Valid() && View() == old(View())[idx := Slot(TypeUnset, old(View())[idx].data)]
    {
      ghost var before := View();
      propVar := propVar[idx := RawSlot(TypeUnset, propVar[idx].data)];
      assert View() == before[idx := View()[idx]];
    }

    method ValidateAndSetProp(idx: int, value: Variant) returns (sts: Status)
      requires Valid()
      modifies this
      ensures Valid()
      ensures (sts, View()) == AfterStore(old(View()), idx, value)
    {
      if idx < 0 || idx >= TOTAL_PROPS { return ErrNotFound; }
      if value.Type() != TypeOf(idx) { return ErrUnsupported; }
      if value.Scalar? {
        SaveDirect(idx, value.Type(), Raw(value.bits));
      } else if value.target.None? {
        Unset(idx);
        return ErrNullPtr;
      } else {
        var p := value.target.value;
        if IsRangeProp(idx) {
          SaveRange(idx, p.asRange);
        } else if IsTextProp(idx) {
          SaveText(idx, p.asText);
        } else if idx == EXTDEV_DEVICE_LUID {
          SaveLUID(p.asBytes);
        } else if idx == SPECIAL_EXT_BUFFER {
          SaveExtBuf(p.asExtBuf);
        } else {
          SaveDirect(idx, TypePtr, External(p.address));
        }
      }
      return ErrNone;
    }

    method SetFilterProperty(name: Option<string>, value: Variant) returns (sts: Status)
      requires Valid()
      modifies this
      ensures Valid()
      ensures (sts, View()) == AfterSet(old(View()), name, value, windows)
    {
      if name.None? { return ErrNullPtr; }
      var parsed := Tokenize(name.value, '.');
      sts := ValidateAndSetProp(Resolve(parsed, value.Type() == TypePtr, windows), value);
    }
  }
}
