/** Handles on arrow-rs buffer structs in the inspected process, and the four
    parsers that decode them: scalar (fixed-width elements), offset (a scalar
    buffer of offsets), boolean (a bit-packed bitmap) and null (an optional
    validity bitmap). */
module Buffers {
  import opened Wrappers
  import opened Memory
  import Text

  /** A resolved element type: its name and its size in bytes. A type the
      debugger could not resolve has size 0. */
  datatype ElementType = ElementType(name: string, size: nat)

  /** arrow-rs `Buffer`: the address of its first byte and its length in
      bytes. `offsetMember` is the value of a member named `offset` when the
      debugger shows one; arrow-rs's `Buffer { data, ptr, length }` has none. */
  datatype BufferHandle = BufferHandle(ptr: nat, length: nat, offsetMember: Option<nat>)

  /** arrow-rs `ScalarBuffer<T>`: a `Buffer` of `T` values. */
  datatype ScalarBufferHandle = ScalarBufferHandle(buffer: BufferHandle)

  /** arrow-rs `OffsetBuffer<O>(ScalarBuffer<O>)`: its child 0. */
  datatype OffsetBufferHandle = OffsetBufferHandle(scalar: ScalarBufferHandle)

  /** arrow-rs `BooleanBuffer { buffer, offset, len }`: `len` bits starting at
      bit `offset` of `buffer`. */
  datatype BooleanBufferHandle = BooleanBufferHandle(buffer: BufferHandle, offset: nat, len: nat)

  /** arrow-rs `NullBuffer { buffer: BooleanBuffer, null_count }`. */
  datatype NullBufferHandle = NullBufferHandle(validity: BooleanBufferHandle, nullCount: nat)

  /** An `Option<NullBuffer>` value: the name of its type, the name the
      debugger gives the value (which ends in `::None` for the empty variant),
      and its child 0, the `NullBuffer` it holds when it is `Some`. */
  datatype OptionHandle = OptionHandle(typeName: string, valueName: string, payload: NullBufferHandle)

  /** The exceptions building a view can raise. */
  datatype Error =
    | ZeroSizedElement(typeName: string)  // `// 0`: ZeroDivisionError
    | NotAnOption(typeName: string)       // the `assert` of `is_option_equal_none`
    | MissingLayout                       // the value lacks the members a provider reads

  // ---------------------------------------------------------------------------
  // Scalar buffers

  /** `ScalarBufferParser` after construction. */
  datatype ScalarParser = ScalarParser(ptr: nat, elementType: ElementType, length: nat) {

    /** `get_value_at_index`: where element `i` lives. There is no check
        against `length`. */
    function ValueAddress(i: nat): nat {
      ptr + i * elementType.size
    }
  }

  /** `ScalarBufferParser(valobj, element_type)`: the element count is the
      byte length floor-divided by the element size. */
  function NewScalarParser(h: ScalarBufferHandle, et: ElementType): (r: Result<ScalarParser, Error>)
    ensures r.Failure? <==> et.size == 0
    ensures r.Failure? ==> r.error == ZeroSizedElement(et.name)
    ensures r.Success? ==> r.value.ptr == h.buffer.ptr && r.value.elementType == et
    ensures r.Success? ==> r.value.length * et.size <= h.buffer.length < (r.value.length + 1) * et.size
  {
    if et.size == 0 then Failure(ZeroSizedElement(et.name))
    else
      var n := h.buffer.length / et.size;
      assert n * et.size <= h.buffer.length < (n + 1) * et.size by {
        assert h.buffer.length == et.size * n + h.buffer.length % et.size;
      }
      Success(ScalarParser(h.buffer.ptr, et, n))
  }

  /** Elements are laid end to end from the buffer's first byte: consecutive
      elements are one element size apart, elements at lower indices come
      first, and the first `length` elements lie inside the buffer. */
  lemma ElementsTileBuffer(h: ScalarBufferHandle, et: ElementType, i: nat, j: nat)
    requires NewScalarParser(h, et).Success?
    ensures var p := NewScalarParser(h, et).value;
      && p.ValueAddress(0) == h.buffer.ptr
      && p.ValueAddress(i + 1) == p.ValueAddress(i) + et.size
      && (i < j ==> p.ValueAddress(i) + et.size <= p.ValueAddress(j))
      && (i < p.length ==> p.ValueAddress(i) + et.size <= h.buffer.ptr + h.buffer.length)
  {
    var p := NewScalarParser(h, et).value;
    MulStep(i, et.size);
    if i < j {
      MulMono(i + 1, j, et.size);
    }
    if i < p.length {
      MulMono(i + 1, p.length, et.size);
    }
  }

  // Two steps of multiplication the solver does not take on its own inside
  // the proof above.

  lemma MulStep(i: nat, s: nat)
    ensures (i + 1) * s == i * s + s
  {
  }

  lemma MulMono(a: nat, b: nat, s: nat)
    requires a <= b
    ensures a * s <= b * s
  {
    assert b * s == a * s + (b - a) * s;
  }

  // ---------------------------------------------------------------------------
  // Offset buffers

  /** `OffsetBufferParser`: a scalar parser over child 0 of the `OffsetBuffer`. */
  datatype OffsetParser = OffsetParser(scalar: ScalarParser) {

    /** `get_length`: the number of offsets (one more than the values they delimit). */
    function Length(): nat {
      scalar.length
    }

    /** `get_value_at_index`. */
    function ValueAddress(i: nat): nat {
      scalar.ValueAddress(i)
    }
  }

  /** `OffsetBufferParser(valobj, element_type)` with the offset type given. */
  function NewOffsetParser(h: OffsetBufferHandle, et: ElementType): (r: Result<OffsetParser, Error>)
    ensures r.Failure? <==> et.size == 0
    ensures r.Success? ==> r.value.Length() * et.size <= h.scalar.buffer.length < (r.value.Length() + 1) * et.size
    ensures r.Success? ==> forall i: nat :: r.value.ValueAddress(i) == h.scalar.buffer.ptr + i * et.size
  {
    match NewScalarParser(h.scalar, et)
    case Failure(e) => Failure(e)
    case Success(p) => Success(OffsetParser(p))
  }

  /** The offset parser answers exactly as a scalar parser built over child 0
      would, and fails exactly when that one does. */
  lemma OffsetDelegatesToScalar(h: OffsetBufferHandle, et: ElementType, i: nat)
    ensures NewOffsetParser(h, et).Success? <==> NewScalarParser(h.scalar, et).Success?
    ensures NewOffsetParser(h, et).Success? ==>
      && NewOffsetParser(h, et).value.Length() == NewScalarParser(h.scalar, et).value.length
      && NewOffsetParser(h, et).value.ValueAddress(i) == NewScalarParser(h.scalar, et).value.ValueAddress(i)
  {
  }

  // ---------------------------------------------------------------------------
  // Boolean buffers

  /** `BooleanBufferParser` after construction: `len` bits starting at bit
      `offset` of the bytes at `ptr`. */
  datatype BooleanParser = BooleanParser(ptr: nat, offset: nat, len: nat) {

    /** `get_length`. */
    function Length(): nat {
      len
    }

    /** `get_value_at_index`: bit `(i + offset) % 8` of the byte
        `(i + offset) / 8` bytes past `ptr`, which is bit `offset + i` of the
        bitmap at `ptr`. There is no check against `len`. */
    function Value(mem: Mem, i: nat): (b: bool)
      ensures b == BitStream(mem, ptr, ByteSpan(offset, i + 1))[offset + i]
    {
      var pos := i + offset;
      BitStreamIndex(mem, ptr, ByteSpan(offset, i + 1), pos);
      IsBitOn(ReadByte(mem, ptr + pos / 8), pos % 8)
    }

    /** The values of all `len` slots, in order. */
    function Values(mem: Mem): (vs: seq<bool>)
      ensures |vs| == len
      ensures forall i :: 0 <= i < len ==> vs[i] == Value(mem, i)
    {
      seq(len, i requires 0 <= i < len => Value(mem, i))
    }
  }

  /** The parser over a `BooleanBuffer`, starting at the buffer's own bit
      offset. The rest of the model uses this one. */
  function NewBooleanParser(h: BooleanBufferHandle): BooleanParser {
    BooleanParser(h.buffer.ptr, h.offset, h.len)
  }

  /** The parser as the source builds it: the bit offset is read from a member
      `offset` of the inner `Buffer`, which arrow-rs's `Buffer` does not have,
      so the debugger's fail value 0 is used. */
  function NewBooleanParserAsWritten(h: BooleanBufferHandle): (r: BooleanParser)
    ensures r.Length() == h.len
    ensures r == NewBooleanParser(h) <==> h.offset == h.buffer.offsetMember.GetOr(0)
    ensures h.buffer.offsetMember.None? ==>
      forall mem: Mem, i: nat :: r.Value(mem, i) == BitStream(mem, h.buffer.ptr, ByteSpan(0, i + 1))[i]
  {
    BooleanParser(h.buffer.ptr, h.buffer.offsetMember.GetOr(0), h.len)
  }

  /** The bits of the `nbytes` bytes at `ptr` numbered as the Arrow columnar
      format numbers validity bits: bit `k` of byte `j` is bit `8 * j + k`,
      least significant first. */
  function BitStream(mem: Mem, ptr: nat, nbytes: nat): (bits: seq<bool>)
    ensures |bits| == 8 * nbytes
  {
    if nbytes == 0 then [] else BitStream(mem, ptr, nbytes - 1) + ByteBits(ReadByte(mem, ptr + nbytes - 1))
  }

  lemma {:induction false} BitStreamIndex(mem: Mem, ptr: nat, nbytes: nat, pos: nat)
    requires pos < 8 * nbytes
    ensures BitStream(mem, ptr, nbytes)[pos] == IsBitOn(ReadByte(mem, ptr + pos / 8), pos % 8)
  {
    var prefix := BitStream(mem, ptr, nbytes - 1);
    if pos < 8 * (nbytes - 1) {
      BitStreamIndex(mem, ptr, nbytes - 1, pos);
      assert BitStream(mem, ptr, nbytes)[pos] == prefix[pos];
    } else {
      assert BitStream(mem, ptr, nbytes)[pos] == ByteBits(ReadByte(mem, ptr + nbytes - 1))[pos - 8 * (nbytes - 1)];
      assert pos / 8 == nbytes - 1;
    }
  }

  /** Number of bytes that hold bits `0 .. offset + len` of a bitmap. */
  function ByteSpan(offset: nat, len: nat): nat {
    (offset + len + 7) / 8
  }

  /** Slot `i` of a `BooleanBuffer`: bit `offset + i` of its bitmap. */
  function BitmapSlot(mem: Mem, h: BooleanBufferHandle, i: nat): bool {
    BitStream(mem, h.buffer.ptr, ByteSpan(h.offset, i + 1))[h.offset + i]
  }

  /** Slot `i` is bit `(offset + i) % 8` of byte `(offset + i) / 8`. */
  lemma BitmapSlotBit(mem: Mem, h: BooleanBufferHandle, i: nat)
    ensures BitmapSlot(mem, h, i)
        == IsBitOn(ReadByte(mem, h.buffer.ptr + (h.offset + i) / 8), (h.offset + i) % 8)
  {
    BitStreamIndex(mem, h.buffer.ptr, ByteSpan(h.offset, i + 1), h.offset + i);
  }

  /** The parser's value at any index, in bounds or not, is that slot of the
      buffer's bitmap. */
  lemma BooleanValueIsBitmapSlot(mem: Mem, h: BooleanBufferHandle, i: nat)
    ensures NewBooleanParser(h).Value(mem, i) == BitmapSlot(mem, h, i)
  {
    BitStreamIndex(mem, h.buffer.ptr, ByteSpan(h.offset, i + 1), h.offset + i);
  }

  /** The bytes `ByteSpan(offset, len)` hold at least `offset + len` bits. */
  lemma ByteSpanCovers(offset: nat, len: nat)
    ensures offset + len <= 8 * ByteSpan(offset, len)
  {
  }

  /** The parser decodes a `BooleanBuffer` the way the Arrow columnar format
      lays out bitmaps: its values are bits `offset .. offset + len` of the
      buffer's bit stream. */
  lemma BooleanParserDecodesBitmap(mem: Mem, h: BooleanBufferHandle)
    ensures h.offset + h.len <= 8 * ByteSpan(h.offset, h.len)
    ensures NewBooleanParser(h).Values(mem)
         == BitStream(mem, h.buffer.ptr, ByteSpan(h.offset, h.len))[h.offset .. h.offset + h.len]
  {
    var p := NewBooleanParser(h);
    var n := ByteSpan(h.offset, h.len);
    ByteSpanCovers(h.offset, h.len);
    var bits := BitStream(mem, h.buffer.ptr, n);
    var lhs := p.Values(mem);
    var rhs := bits[h.offset .. h.offset + h.len];
    forall i | 0 <= i < h.len
      ensures lhs[i] == rhs[i]
    {
      BitStreamIndex(mem, h.buffer.ptr, n, h.offset + i);
    }
  }

  /** The source's parser reads the wrong offset: over a `BooleanBuffer` that
      starts at bit 3 of a byte holding 8 (only bit 3 set), slot 0 is `true`,
      but the parser as written reads bit 0 and reports `false`. */
  lemma AsWrittenIgnoresBitOffset(mem: Mem, ptr: nat)
    requires ReadByte(mem, ptr) == 8
    ensures var h := BooleanBufferHandle(BufferHandle(ptr, 1, None), 3, 1);
            && BitmapSlot(mem, h, 0)
            && NewBooleanParser(h).Value(mem, 0)
            && !NewBooleanParserAsWritten(h).Value(mem, 0)
  {
    var h := BooleanBufferHandle(BufferHandle(ptr, 1, None), 3, 1);
    assert IsBitOn(8, 3) && !IsBitOn(8, 0);
    BooleanValueIsBitmapSlot(mem, h, 0);
  }

  // ---------------------------------------------------------------------------
  // Null buffers

  /** `NullBufferParser` after construction. `nullCount` is `None` when the
      source never assigned `null_count`; `validity` is the boolean parser
      it builds when there are nulls. */
  datatype NullParser = NullParser(nullCount: Option<nat>, validity: Option<BooleanParser>) {

    /** `has_nulls`. */
    predicate HasNulls() {
      validity.Some?
    }

    /** `is_null`: never without nulls; otherwise a clear validity bit. */
    function IsNull(mem: Mem, i: nat): (r: bool)
      ensures r ==> HasNulls()
      ensures HasNulls() ==>
        var v := validity.value;
        (r <==> !BitStream(mem, v.ptr, ByteSpan(v.offset, i + 1))[v.offset + i])
    {
      if validity.None? then false else !validity.value.Value(mem, i)
    }

    /** `get_length`: the null count, or `None` where the source raises
        AttributeError because `null_count` was never assigned. */
    function Length(): Option<nat> {
      nullCount
    }
  }

  const OptionTypePrefix: string := "core::option::Option<"
  const NoneSuffix: string := "::None"

  /** `is_option_equal_none`: asserts that the value's type is an `Option`,
      then tells the empty variant by the value's name. */
  function IsOptionNone(h: OptionHandle): (r: Result<bool, Error>)
    ensures r.Failure? <==> !Text.StartsWith(h.typeName, OptionTypePrefix)
    ensures r.Success? ==> (r.value <==> Text.EndsWith(h.valueName, NoneSuffix))
  {
    if !Text.StartsWith(h.typeName, OptionTypePrefix) then Failure(NotAnOption(h.typeName))
    else Success(Text.EndsWith(h.valueName, NoneSuffix))
  }

  /** `NullBufferParser(valobj, is_option=True)`. An empty `Option`, or a
      present one whose null count is 0, has no nulls; only otherwise is the
      validity bitmap parsed. */
  function NewNullParser(h: OptionHandle): (r: Result<NullParser, Error>)
    ensures r.Failure? <==> !Text.StartsWith(h.typeName, OptionTypePrefix)
    ensures r.Success? ==>
      (r.value.HasNulls() <==> !Text.EndsWith(h.valueName, NoneSuffix) && h.payload.nullCount != 0)
    ensures r.Success? ==> (r.value.Length().Some? <==> !Text.EndsWith(h.valueName, NoneSuffix))
    ensures r.Success? && r.value.Length().Some? ==> r.value.Length().value == h.payload.nullCount
  {
    match IsOptionNone(h)
    case Failure(e) => Failure(e)
    case Success(isNone) =>
      if isNone then Success(NullParser(None, None))
      else if h.payload.nullCount == 0 then Success(NullParser(Some(0), None))
      else Success(NullParser(Some(h.payload.nullCount), Some(NewBooleanParser(h.payload.validity))))
  }

  /** Slot `i` of an array whose validity is `nulls` is null: the `Option`
      holds a `NullBuffer` with a non-zero null count whose bitmap slot `i`
      is clear. A set bit means valid. */
  predicate NullSlot(mem: Mem, nulls: OptionHandle, i: nat) {
    && !Text.EndsWith(nulls.valueName, NoneSuffix)
    && nulls.payload.nullCount != 0
    && !BitmapSlot(mem, nulls.payload.validity, i)
  }

  /** On a validity bitmap that is not sliced, the null slots are the ones
      the parser as written reports: clear bits counted from the bitmap's
      first bit. */
  lemma UnslicedNullSlot(mem: Mem, nulls: OptionHandle, i: nat)
    requires nulls.payload.validity.offset == nulls.payload.validity.buffer.offsetMember.GetOr(0)
    ensures NullSlot(mem, nulls, i) <==>
      && !Text.EndsWith(nulls.valueName, NoneSuffix)
      && nulls.payload.nullCount != 0
      && !NewBooleanParserAsWritten(nulls.payload.validity).Value(mem, i)
  {
  }

  /** The null parser reports exactly the null slots; without nulls it
      reports none. */
  lemma NullParserSemantics(mem: Mem, h: OptionHandle, i: nat)
    requires NewNullParser(h).Success?
    ensures !NewNullParser(h).value.HasNulls() ==> !NewNullParser(h).value.IsNull(mem, i)
    ensures NewNullParser(h).value.IsNull(mem, i) <==> NullSlot(mem, h, i)
  {
    BooleanValueIsBitmapSlot(mem, h.payload.validity, i);
  }
}
