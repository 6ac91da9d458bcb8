/** The four synthetic-children providers for Arrow values. Each one is built
    (`update`) from the members of the value it shows and then answers
    `num_children`, `get_child_index` and `get_child_at_index`. */
module Providers {
  import opened Wrappers
  import opened Memory
  import opened Buffers
  import ChildNames
  import ArrowTypes

  /** What the member and type lookups a provider performs on a value resolve
      to. A value whose lookups do not find the members of its kind is
      `Opaque`. */
  datatype Layout =
    | PrimitiveArrayLayout(values: ScalarBufferHandle, elementType: ElementType, nulls: OptionHandle)
    | StringArrayLayout(valueData: BufferHandle, valueOffsets: OffsetBufferHandle, offsetType: ElementType, nulls: OptionHandle)
    | BooleanBufferLayout(bits: BooleanBufferHandle)
    | OffsetBufferLayout(offsets: OffsetBufferHandle, offsetType: ElementType)
    | Opaque

  /** A child value handed back to the debugger. Every child is named
      `[i]` after its index. */
  datatype Child =
    | Raw(name: string, address: nat, elementType: ElementType)  // a value of the element type at an address
    | Expression(name: string, text: string)                     // a value the debugger evaluates from text
    | NoneOf(name: string, typeName: string)                      // an empty `Option<typeName>`
    | SomeOf(inner: Child)                                        // `inner` cast to `Option<_>::Some`
  {
    function Name(): string {
      if SomeOf? then inner.Name() else name
    }
  }

  const StrTypeName: string := "&str"

  /** The text `"s"`: the string expression for `s`. */
  function Quote(s: string): (q: string)
    ensures |q| == |s| + 2 && q[0] == '"' && q[|q| - 1] == '"' && q[1 .. |q| - 1] == s
  {
    "\"" + s + "\""
  }

  /** Bytes `lo .. hi` after `ptr`, one character per byte whose code is the
      byte. Empty when `hi <= lo`, as a Python `range` is. */
  function BytesAsText(mem: Mem, ptr: nat, lo: nat, hi: nat): (s: string)
    ensures |s| == if hi <= lo then 0 else hi - lo
    ensures forall k :: 0 <= k < |s| ==> s[k] as int == ReadByte(mem, ptr + lo + k)
    decreases hi
  {
    if hi <= lo then "" else BytesAsText(mem, ptr, lo, hi - 1) + [ReadByte(mem, ptr + hi - 1) as char]
  }

  /** `string_data_slice`: an empty slice is the two-character text `""`;
      otherwise the bytes between the offsets, as characters. */
  function StringDataSlice(mem: Mem, ptr: nat, start: nat, end: nat): (s: string)
    ensures start == end ==> s == "\"\""
    ensures start != end ==> |s| == (if end < start then 0 else end - start)
    ensures start != end ==> forall k :: 0 <= k < |s| ==> s[k] as int == ReadByte(mem, ptr + start + k)
  {
    if end - start == 0 then "\"\"" else BytesAsText(mem, ptr, start, end)
  }

  /** A built provider. */
  datatype Provider =
    | PrimitiveProvider(elementType: ElementType, values: ScalarParser, nulls: NullParser)
    | StringProvider(dataPtr: nat, offsets: OffsetParser, length: int, nulls: NullParser)
    | BooleanProvider(bits: BooleanParser)
    | OffsetProvider(offsets: OffsetParser)
  {
    /** The classification this provider serves. */
    function Type(): ArrowTypes.ArrowType {
      match this
      case PrimitiveProvider(_, _, _) => ArrowTypes.PrimitiveArray
      case StringProvider(_, _, _, _) => ArrowTypes.StringArray
      case BooleanProvider(_) => ArrowTypes.BooleanBuffer
      case OffsetProvider(_) => ArrowTypes.OffsetBuffer
    }

    /** `num_children`. */
    function NumChildren(): int {
      match this
      case PrimitiveProvider(_, values, _) => values.length
      case StringProvider(_, _, length, _) => length
      case BooleanProvider(bits) => bits.Length()
      case OffsetProvider(offsets) => offsets.Length()
    }

    /** `get_child_index`: the same rule in all four providers. */
    function ChildIndex(name: string): (r: int)
      ensures r >= -1
    {
      ChildNames.ChildIndex(name)
    }

    /** Offset `i` of a string array, read as an unsigned integer of the
        offset type's width. */
    function OffsetAt(mem: Mem, i: nat): nat
      requires StringProvider?
    {
      ReadUnsigned(mem, offsets.ValueAddress(i), offsets.scalar.elementType.size)
    }

    /** `get_value_unchecked` of the string provider. */
    function StringValue(mem: Mem, i: nat): Child
      requires StringProvider?
    {
      Expression(ChildNames.ChildName(i), Quote(StringDataSlice(mem, dataPtr, OffsetAt(mem, i), OffsetAt(mem, i + 1))))
    }

    /** `get_child_at_index`. A null slot of a primitive array is an empty
        `Option` of the element type and any other slot the raw element; a
        null slot of a string array is an empty `Option<&str>`, and the other
        slots are wrapped in `Some` only when the array has nulls. */
    function ChildAt(mem: Mem, i: nat): (c: Child)
      ensures c.Name() == ChildNames.ChildName(i)
      ensures c.NoneOf? <==> (PrimitiveProvider? || StringProvider?) && nulls.IsNull(mem, i)
      ensures c.SomeOf? <==> StringProvider? && nulls.HasNulls() && !nulls.IsNull(mem, i)
      ensures c.SomeOf? ==> StringProvider? && c.inner == StringValue(mem, i)
      ensures StringProvider? && !c.NoneOf? && !c.SomeOf? ==> c == StringValue(mem, i)
      ensures PrimitiveProvider? && !c.NoneOf? ==> c == Raw(ChildNames.ChildName(i), values.ValueAddress(i), elementType)
    {
      match this
      case PrimitiveProvider(elementType, values, nulls) =>
        var name := ChildNames.ChildName(i);
        if nulls.HasNulls() && nulls.IsNull(mem, i) then NoneOf(name, elementType.name)
        else Raw(name, values.ValueAddress(i), elementType)
      case StringProvider(_, _, _, nulls) =>
        if nulls.HasNulls() then
          if nulls.IsNull(mem, i) then NoneOf(ChildNames.ChildName(i), StrTypeName)
          else SomeOf(StringValue(mem, i))
        else StringValue(mem, i)
      case BooleanProvider(bits) =>
        Expression(ChildNames.ChildName(i), if bits.Value(mem, i) then "true" else "false")
      case OffsetProvider(offsets) =>
        Raw(ChildNames.ChildName(i), offsets.ValueAddress(i), offsets.scalar.elementType)
    }
  }

  /** Every child carries the name its index parses back from. */
  lemma ChildNameParsesBack(p: Provider, mem: Mem, i: nat)
    ensures p.ChildIndex(p.ChildAt(mem, i).Name()) == i
  {
    ChildNames.ChildNameRoundTrip(i);
  }

  // ---------------------------------------------------------------------------
  // Construction (`update`)

  /** The primitive-array provider: the values buffer parsed with the element
      type, then the `nulls` option. */
  function NewPrimitiveProvider(layout: Layout): (r: Result<Provider, Error>)
    ensures r.Success? <==>
      layout.PrimitiveArrayLayout? && layout.elementType.size != 0
      && Text.StartsWith(layout.nulls.typeName, OptionTypePrefix)
    ensures r.Success? ==> r.value.PrimitiveProvider? && r.value.Type() == ArrowTypes.PrimitiveArray
    ensures r.Success? ==>
      r.value.NumChildren() * layout.elementType.size <= layout.values.buffer.length
                          < (r.value.NumChildren() + 1) * layout.elementType.size
  {
    match layout
    case PrimitiveArrayLayout(values, et, nulls) =>
      (match NewScalarParser(values, et)
       case Failure(e) => Failure(e)
       case Success(scalar) =>
         match NewNullParser(nulls)
         case Failure(e) => Failure(e)
         case Success(np) => Success(PrimitiveProvider(et, scalar, np)))
    case _ => Failure(MissingLayout)
  }

  /** The string-array provider: the offsets parsed with the offset type, the
      length one less than the number of offsets, then the `nulls` option. */
  function NewStringProvider(layout: Layout): (r: Result<Provider, Error>)
    ensures r.Success? <==>
      layout.StringArrayLayout? && layout.offsetType.size != 0
      && Text.StartsWith(layout.nulls.typeName, OptionTypePrefix)
    ensures r.Success? ==> r.value.StringProvider? && r.value.Type() == ArrowTypes.StringArray
    ensures r.Success? ==> r.value.dataPtr == layout.valueData.ptr
    ensures r.Success? ==>
      (r.value.NumChildren() + 1) * layout.offsetType.size <= layout.valueOffsets.scalar.buffer.length
                                < (r.value.NumChildren() + 2) * layout.offsetType.size
    ensures r.Success? ==> r.value.NumChildren() >= -1
  {
    match layout
    case StringArrayLayout(valueData, valueOffsets, ot, nulls) =>
      (match NewOffsetParser(valueOffsets, ot)
       case Failure(e) => Failure(e)
       case Success(op) =>
         var length := op.Length() - 1;
         match NewNullParser(nulls)
         case Failure(e) => Failure(e)
         case Success(np) => Success(StringProvider(valueData.ptr, op, length, np)))
    case _ => Failure(MissingLayout)
  }

  /** The boolean-buffer provider. It never fails: over a value lacking the
      `BooleanBuffer` members every read yields 0, so it shows no children. */
  function NewBooleanProvider(layout: Layout): (r: Result<Provider, Error>)
    ensures r.Success? && r.value.BooleanProvider? && r.value.Type() == ArrowTypes.BooleanBuffer
    ensures layout.BooleanBufferLayout? ==> r.value.NumChildren() == layout.bits.len
    ensures !layout.BooleanBufferLayout? ==> r.value.NumChildren() == 0
  {
    match layout
    case BooleanBufferLayout(bits) => Success(BooleanProvider(NewBooleanParser(bits)))
    case _ => Success(BooleanProvider(BooleanParser(0, 0, 0)))
  }

  /** The offset-buffer provider: child 0 parsed with the offset type. */
  function NewOffsetProvider(layout: Layout): (r: Result<Provider, Error>)
    ensures r.Success? <==> layout.OffsetBufferLayout? && layout.offsetType.size != 0
    ensures r.Success? ==> r.value.OffsetProvider? && r.value.Type() == ArrowTypes.OffsetBuffer
    ensures r.Success? ==>
      r.value.NumChildren() * layout.offsetType.size <= layout.offsets.scalar.buffer.length
                          < (r.value.NumChildren() + 1) * layout.offsetType.size
  {
    match layout
    case OffsetBufferLayout(offsets, ot) =>
      (match NewOffsetParser(offsets, ot)
       case Failure(e) => Failure(e)
       case Success(op) => Success(OffsetProvider(op)))
    case _ => Failure(MissingLayout)
  }

  // ---------------------------------------------------------------------------
  // What the children are

  /** A primitive array's child `i` is an empty `Option` of the element type
      exactly at a null slot, and otherwise the element at `ptr + i * size`,
      unwrapped. */
  lemma PrimitiveChildren(layout: Layout, mem: Mem, i: nat)
    requires NewPrimitiveProvider(layout).Success?
    ensures var c := NewPrimitiveProvider(layout).value.ChildAt(mem, i);
      && (c.NoneOf? <==> NullSlot(mem, layout.nulls, i))
      && (c.NoneOf? ==> c == NoneOf(ChildNames.ChildName(i), layout.elementType.name))
      && (!c.NoneOf? ==>
            c == Raw(ChildNames.ChildName(i), layout.values.buffer.ptr + i * layout.elementType.size, layout.elementType))
  {
    NullParserSemantics(mem, layout.nulls, i);
  }

  /** A string array's child `i` is an empty `Option<&str>` exactly at a null
      slot; otherwise it is the string value, wrapped in `Some` exactly when
      the array has nulls. */
  lemma StringChildren(layout: Layout, mem: Mem, i: nat)
    requires NewStringProvider(layout).Success?
    ensures var p := NewStringProvider(layout).value;
      var c := p.ChildAt(mem, i);
      var hasNulls := !Text.EndsWith(layout.nulls.valueName, NoneSuffix) && layout.nulls.payload.nullCount != 0;
      && (c.NoneOf? <==> NullSlot(mem, layout.nulls, i))
      && (c.NoneOf? ==> c == NoneOf(ChildNames.ChildName(i), StrTypeName))
      && (!c.NoneOf? && hasNulls ==> c == SomeOf(p.StringValue(mem, i)))
      && (!hasNulls ==> c == p.StringValue(mem, i))
  {
    NullParserSemantics(mem, layout.nulls, i);
  }

  /** A boolean buffer's child `i` is the text `true` or `false` for its
      bitmap slot `i`. */
  lemma BooleanChildren(h: BooleanBufferHandle, mem: Mem, i: nat)
    ensures NewBooleanProvider(BooleanBufferLayout(h)).value.ChildAt(mem, i)
         == Expression(ChildNames.ChildName(i), if BitmapSlot(mem, h, i) then "true" else "false")
  {
    BooleanValueIsBitmapSlot(mem, h, i);
  }

  /** On a `BooleanBuffer` that is not sliced, child `i` is what the parser
      as written shows. */
  lemma UnslicedBooleanChildren(h: BooleanBufferHandle, mem: Mem, i: nat)
    requires h.offset == h.buffer.offsetMember.GetOr(0)
    ensures NewBooleanProvider(BooleanBufferLayout(h)).value.ChildAt(mem, i)
         == Expression(ChildNames.ChildName(i), if NewBooleanParserAsWritten(h).Value(mem, i) then "true" else "false")
  {
  }

  /** An offset buffer's child `i` is the offset at `ptr + i * size`, exactly
      what a scalar buffer over child 0 would give. */
  lemma OffsetChildren(layout: Layout, mem: Mem, i: nat)
    requires NewOffsetProvider(layout).Success?
    ensures NewOffsetProvider(layout).value.ChildAt(mem, i)
         == Raw(ChildNames.ChildName(i), NewScalarParser(layout.offsets.scalar, layout.offsetType).value.ValueAddress(i),
                layout.offsetType)
  {
    OffsetDelegatesToScalar(layout.offsets, layout.offsetType, i);
  }

  /** The number of children does not depend on the validity bitmap: arrays
      that differ only in their `nulls` option show the same count. */
  lemma NumChildrenIgnoresNulls(values: ScalarBufferHandle, et: ElementType, valueData: BufferHandle,
                                offsets: OffsetBufferHandle, ot: ElementType, n1: OptionHandle, n2: OptionHandle)
    ensures var a := NewPrimitiveProvider(PrimitiveArrayLayout(values, et, n1));
            var b := NewPrimitiveProvider(PrimitiveArrayLayout(values, et, n2));
            a.Success? && b.Success? ==> a.value.NumChildren() == b.value.NumChildren()
    ensures var a := NewStringProvider(StringArrayLayout(valueData, offsets, ot, n1));
            var b := NewStringProvider(StringArrayLayout(valueData, offsets, ot, n2));
            a.Success? && b.Success? ==> a.value.NumChildren() == b.value.NumChildren()
  {
  }

  // ---------------------------------------------------------------------------
  // The variable-size binary layout

  /** `offs` is stored at `base` as consecutive unsigned integers of `width` bytes. */
  predicate HoldsOffsets(mem: Mem, base: nat, width: nat, offs: seq<nat>) {
    forall j :: 0 <= j < |offs| ==> ReadUnsigned(mem, base + j * width, width) == offs[j]
  }

  /** Bytes as text, one character per byte. */
  function AsText(bytes: seq<Byte>): (s: string)
    ensures |s| == |bytes|
    ensures forall k :: 0 <= k < |s| ==> s[k] as int == bytes[k]
  {
    seq(|bytes|, k requires 0 <= k < |bytes| => bytes[k] as char)
  }

  /** String element `i` of an array in the variable-size binary layout is
      the value bytes between offsets `i` and `i + 1`, quoted; an empty
      element is the text `""`, quoted. */
  lemma StringElementIsSlice(layout: Layout, mem: Mem, data: seq<Byte>, offs: seq<nat>, i: nat)
    requires NewStringProvider(layout).Success?
    requires HoldsBytes(mem, layout.valueData.ptr, data)
    requires HoldsOffsets(mem, layout.valueOffsets.scalar.buffer.ptr, layout.offsetType.size, offs)
    requires i + 1 < |offs| && offs[i] <= offs[i + 1] <= |data|
    ensures NewStringProvider(layout).value.StringValue(mem, i)
         == Expression(ChildNames.ChildName(i),
                       Quote(if offs[i] == offs[i + 1] then "\"\"" else AsText(data[offs[i] .. offs[i + 1]])))
  {
    var p := NewStringProvider(layout).value;
    assert p.OffsetAt(mem, i) == offs[i];
    assert p.OffsetAt(mem, i + 1) == offs[i + 1];
    if offs[i] != offs[i + 1] {
      SliceIsText(mem, p.dataPtr, data, offs[i], offs[i + 1]);
    }
  }

  /** A non-empty slice of stored bytes is those bytes as text. */
  lemma SliceIsText(mem: Mem, ptr: nat, data: seq<Byte>, lo: nat, hi: nat)
    requires HoldsBytes(mem, ptr, data) && lo < hi <= |data|
    ensures StringDataSlice(mem, ptr, lo, hi) == AsText(data[lo .. hi])
  {
    var s := StringDataSlice(mem, ptr, lo, hi);
    var t := AsText(data[lo .. hi]);
    assert |s| == |t|;
    forall k | 0 <= k < |s| ensures s[k] == t[k] {
      assert s[k] as int == data[lo + k];
    }
  }
}
