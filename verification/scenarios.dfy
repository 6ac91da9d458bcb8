/** Worked examples: concrete names and memory images, and what the model
    makes of them. */
module Scenarios {
  import opened Wrappers
  import opened Memory
  import opened Buffers
  import opened Providers
  import ArrowTypes
  import ChildNames
  import Text

  // ---------------------------------------------------------------------------
  // Classification

  /** `array::primitive_array::` */
  const SamplePath: string := ArrowTypes.JoinPath(["array", "primitive_array"])
  const SampleArgument: string := "arrow_array::types::UInt16Type"

  /** `arrow_array::array::primitive_array::PrimitiveArray<arrow_array::types::UInt16Type>` */
  const PrimitiveName: string := ArrowTypes.ArrayCrate + SamplePath + ArrowTypes.PrimitiveHead + SampleArgument + ">"

  lemma ModulePathSample()
    ensures ArrowTypes.IsModulePath(SamplePath)
  {
    var ws := ["array", "primitive_array"];
    assert ArrowTypes.IsWord(ws[0]) && ArrowTypes.IsWord(ws[1]);
  }

  lemma GenericArgumentSample()
    ensures ArrowTypes.AnyText(SampleArgument)
  {
  }

  /** Any `arrow_array::` name with a module path, the `PrimitiveArray` head
      and a non-empty generic argument matches the primitive-array pattern. */
  lemma PrimitiveFromParts(p: string, x: string)
    requires ArrowTypes.IsModulePath(p) && ArrowTypes.AnyText(x)
    ensures ArrowTypes.RegexMatch(ArrowTypes.PrimitiveArray, ArrowTypes.ArrayCrate + p + ArrowTypes.PrimitiveHead + x + ">")
  {
    var s := ArrowTypes.ArrayCrate + p + ArrowTypes.PrimitiveHead + x + ">";
    assert ArrowTypes.Ampersands("");
    assert s == "" + ArrowTypes.ArrayCrate + p + ArrowTypes.PrimitiveHead + x + ">";
  }

  /** A name matching a pattern classifies as that pattern's tag once the
      type has fields. */
  lemma ClassifiesAs(t: ArrowTypes.ArrowType, name: string, fields: seq<string>)
    requires t != ArrowTypes.Unknown && ArrowTypes.RegexMatch(t, name) && |fields| > 0
    ensures ArrowTypes.Classify(name, fields) == t
  {
  }

  /** A fully qualified `PrimitiveArray` with fields is a primitive array. */
  lemma PrimitiveNameClassifies()
    ensures ArrowTypes.Classify(PrimitiveName, ["data_type", "values", "nulls"]) == ArrowTypes.PrimitiveArray
  {
    ModulePathSample();
    GenericArgumentSample();
    PrimitiveFromParts(SamplePath, SampleArgument);
    ClassifiesAs(ArrowTypes.PrimitiveArray, PrimitiveName, ["data_type", "values", "nulls"]);
  }

  /** Without fields the same name is unknown. */
  lemma NoFieldsIsUnknown()
    ensures ArrowTypes.Classify(PrimitiveName, []) == ArrowTypes.Unknown
  {
  }

  /** `arrow_array::PrimitiveArray<X>`: no module path between the crate and
      the type, so it is unknown. */
  lemma MissingModulePathIsUnknown()
    ensures ArrowTypes.Classify(ArrowTypes.ArrayCrate + "PrimitiveArray<X>", ["values"]) == ArrowTypes.Unknown
  {
    ArrowTypes.CrateWithoutPathIsUnknown("PrimitiveArray<X>", ["values"]);
  }

  // ---------------------------------------------------------------------------
  // Bitmaps

  /** The byte 6 (binary 110) holds the bits false, true, true, false. */
  lemma ByteSixDecodes(mem: Mem)
    requires ReadByte(mem, 100) == 6
    ensures NewBooleanParser(BooleanBufferHandle(BufferHandle(100, 1, None), 0, 4)).Values(mem)
         == [false, true, true, false]
  {
    var p := NewBooleanParser(BooleanBufferHandle(BufferHandle(100, 1, None), 0, 4));
    assert !IsBitOn(6, 0) && IsBitOn(6, 1) && IsBitOn(6, 2) && !IsBitOn(6, 3);
    var vs := p.Values(mem);
    assert vs[0] == p.Value(mem, 0) == false;
    assert vs[1] == p.Value(mem, 1) == true;
    assert vs[2] == p.Value(mem, 2) == true;
    assert vs[3] == p.Value(mem, 3) == false;
  }

  // ---------------------------------------------------------------------------
  // A primitive array of three `u32`

  const U32: ElementType := ElementType("u32", 4)
  const NullBufferType: string := "arrow_buffer::buffer::null::NullBuffer"
  /** `core::option::Option<arrow_buffer::buffer::null::NullBuffer>` */
  const NullsName: string := OptionTypePrefix + NullBufferType + ">"

  lemma NullsNameIsOption()
    ensures Text.StartsWith(NullsName, OptionTypePrefix)
  {
    PrefixOfConcat(OptionTypePrefix, NullBufferType + ">");
  }

  lemma PrefixOfConcat(a: string, b: string)
    ensures Text.StartsWith(a + b, a)
  {
    assert (a + b)[..|a|] == a;
  }
  const NoNulls: OptionHandle :=
    OptionHandle(NullsName, NullsName + "::None", NullBufferHandle(BooleanBufferHandle(BufferHandle(0, 0, None), 0, 0), 0))
  const ThreeU32: Layout := PrimitiveArrayLayout(ScalarBufferHandle(BufferHandle(200, 12, None)), U32, NoNulls)
  const ThreeU32Mem: Mem := map[200 := 1, 204 := 2, 208 := 3]

  /** Twelve bytes of `u32` are three elements, four bytes apart, read as
      1, 2 and 3. */
  lemma ThreeU32Children(i: nat)
    requires i < 3
    ensures NewPrimitiveProvider(ThreeU32).Success?
    ensures NewPrimitiveProvider(ThreeU32).value.NumChildren() == 3
    ensures NewPrimitiveProvider(ThreeU32).value.ChildAt(ThreeU32Mem, i)
         == Raw(ChildNames.ChildName(i), 200 + 4 * i, U32)
    ensures ReadUnsigned(ThreeU32Mem, 200 + 4 * i, 4) == i + 1
  {
    NullsNameIsOption();
    PrimitiveChildren(ThreeU32, ThreeU32Mem, i);
    var a := 200 + 4 * i;
    assert ReadByte(ThreeU32Mem, a) == i + 1;
    assert ReadByte(ThreeU32Mem, a + 1) == 0 && ReadByte(ThreeU32Mem, a + 2) == 0 && ReadByte(ThreeU32Mem, a + 3) == 0;
    SmallWord(ThreeU32Mem, a, i + 1);
  }

  /** Four bytes whose upper three are zero read as their lowest byte. */
  lemma SmallWord(mem: Mem, a: nat, v: Byte)
    requires ReadByte(mem, a) == v
    requires ReadByte(mem, a + 1) == 0 && ReadByte(mem, a + 2) == 0 && ReadByte(mem, a + 3) == 0
    ensures ReadUnsigned(mem, a, 4) == v
  {
    assert ReadUnsigned(mem, a + 3, 1) == 0;
  }

  // ---------------------------------------------------------------------------
  // A string array ["cat", null, "do"]

  const I32: ElementType := ElementType("i32", 4)
  const CatDog: seq<Byte> := [99, 97, 116, 100, 111, 103]
  const CatDogOffsets: seq<nat> := [0, 3, 3, 5]
  const CatDogNulls: OptionHandle :=
    OptionHandle(NullsName, NullsName + "::Some", NullBufferHandle(BooleanBufferHandle(BufferHandle(500, 1, None), 0, 3), 1))
  const CatDogLayout: Layout :=
    StringArrayLayout(BufferHandle(300, 6, None), OffsetBufferHandle(ScalarBufferHandle(BufferHandle(400, 16, None))), I32, CatDogNulls)
  const CatDogMem: Mem :=
    map[300 := 99, 301 := 97, 302 := 116, 303 := 100, 304 := 111, 305 := 103,
        404 := 3, 408 := 3, 412 := 5,
        500 := 5]

  /** `mem` holds the array: "catdog" at 300, the offsets as `i32` at 400
      and the validity byte 5 (binary 101) at 500. */
  predicate CatDogImage(mem: Mem) {
    HoldsBytes(mem, 300, CatDog) && HoldsOffsets(mem, 400, 4, CatDogOffsets) && ReadByte(mem, 500) == 5
  }

  lemma CatDogStored()
    ensures CatDogImage(CatDogMem)
  {
    forall j | 0 <= j < 4
      ensures ReadUnsigned(CatDogMem, 400 + j * 4, 4) == CatDogOffsets[j]
    {
      CatDogOffsetStored(j);
    }
  }

  lemma CatDogOffsetStored(j: nat)
    requires j < 4
    ensures ReadUnsigned(CatDogMem, 400 + j * 4, 4) == CatDogOffsets[j]
  {
    var a := 400 + j * 4;
    assert ReadByte(CatDogMem, a) == CatDogOffsets[j];
    assert ReadByte(CatDogMem, a + 1) == 0 && ReadByte(CatDogMem, a + 2) == 0 && ReadByte(CatDogMem, a + 3) == 0;
    SmallWord(CatDogMem, a, CatDogOffsets[j] as Byte);
  }

  lemma CatDogHasNulls()
    ensures !Text.EndsWith(CatDogNulls.valueName, NoneSuffix) && CatDogNulls.payload.nullCount != 0
  {
    var n := CatDogNulls.valueName;
    assert n == NullsName + "::Some";
    assert n[|n| - 4] == 'S';
  }

  /** Validity byte 5 makes slot 1 of three the only null one. */
  lemma CatDogNullSlots(mem: Mem, i: nat)
    requires CatDogImage(mem) && i < 3
    ensures NullSlot(mem, CatDogNulls, i) <==> i == 1
  {
    CatDogHasNulls();
    var v := CatDogNulls.payload.validity;
    assert v.buffer.ptr == 500 && v.offset == 0;
    BitmapSlotBit(mem, v, i);
    assert (v.offset + i) / 8 == 0 && (v.offset + i) % 8 == i;
    assert IsBitOn(5, 0) && !IsBitOn(5, 1) && IsBitOn(5, 2);
  }

  lemma CatDogTexts()
    ensures Quote(AsText(CatDog[0 .. 3])) == "\"cat\""
    ensures Quote(AsText(CatDog[3 .. 5])) == "\"do\""
  {
    assert AsText(CatDog[0 .. 3]) == "cat";
    assert AsText(CatDog[3 .. 5]) == "do";
  }

  lemma CatDogBuilds()
    ensures NewStringProvider(CatDogLayout).Success?
    ensures NewStringProvider(CatDogLayout).value.NumChildren() == 3
  {
    NullsNameIsOption();
  }

  /** Offsets 0, 3, 3, 5 over "catdog" with slot 1 null are three strings:
      `Some("cat")`, an empty `Option<&str>`, and `Some("do")`. */
  lemma CatDogFirst(mem: Mem)
    requires CatDogImage(mem)
    ensures NewStringProvider(CatDogLayout).Success?
    ensures NewStringProvider(CatDogLayout).value.ChildAt(mem, 0) == SomeOf(Expression("[0]", "\"cat\""))
  {
    CatDogPresent(mem, 0);
    CatDogTexts();
    SmallChildName(0);
  }

  lemma CatDogSecond(mem: Mem)
    requires CatDogImage(mem)
    ensures NewStringProvider(CatDogLayout).Success?
    ensures NewStringProvider(CatDogLayout).value.ChildAt(mem, 1) == NoneOf("[1]", "&str")
  {
    CatDogBuilds();
    SmallChildName(1);
    CatDogNullSlots(mem, 1);
    StringChildren(CatDogLayout, mem, 1);
  }

  lemma CatDogThird(mem: Mem)
    requires CatDogImage(mem)
    ensures NewStringProvider(CatDogLayout).Success?
    ensures NewStringProvider(CatDogLayout).value.ChildAt(mem, 2) == SomeOf(Expression("[2]", "\"do\""))
  {
    CatDogPresent(mem, 2);
    CatDogTexts();
    SmallChildName(2);
  }

  /** The valid slots 0 and 2 are `Some` of their slice of "catdog". */
  lemma CatDogPresent(mem: Mem, i: nat)
    requires CatDogImage(mem) && (i == 0 || i == 2)
    ensures NewStringProvider(CatDogLayout).Success?
    ensures NewStringProvider(CatDogLayout).value.ChildAt(mem, i)
         == SomeOf(Expression(ChildNames.ChildName(i), Quote(AsText(CatDog[CatDogOffsets[i] .. CatDogOffsets[i + 1]]))))
  {
    CatDogBuilds();
    CatDogNullSlots(mem, i);
    CatDogHasNulls();
    StringChildren(CatDogLayout, mem, i);
    assert CatDogOffsets[i] < CatDogOffsets[i + 1] <= |CatDog|;
    StringElementIsSlice(CatDogLayout, mem, CatDog, CatDogOffsets, i);
  }

  /** Children 0, 1 and 2 are named `[0]`, `[1]` and `[2]`. */
  lemma SmallChildName(i: nat)
    requires i < 10
    ensures ChildNames.ChildName(i) == "[" + [ChildNames.DigitChar(i)] + "]"
    ensures i == 0 ==> ChildNames.ChildName(i) == "[0]"
    ensures i == 1 ==> ChildNames.ChildName(i) == "[1]"
    ensures i == 2 ==> ChildNames.ChildName(i) == "[2]"
  {
  }

  const CatDogNoNulls: Layout :=
    StringArrayLayout(BufferHandle(300, 6, None), OffsetBufferHandle(ScalarBufferHandle(BufferHandle(400, 16, None))), I32, NoNulls)

  /** Without a validity bitmap, the empty slot 1 is the text `""`, quoted. */
  lemma EmptyStringIsTwoQuotes(mem: Mem)
    requires CatDogImage(mem)
    ensures NewStringProvider(CatDogNoNulls).Success?
    ensures NewStringProvider(CatDogNoNulls).value.ChildAt(mem, 1) == Expression("[1]", "\"\"\"\"")
  {
    NullsNameIsOption();
    SmallChildName(1);
    StringChildren(CatDogNoNulls, mem, 1);
    StringElementIsSlice(CatDogNoNulls, mem, CatDog, CatDogOffsets, 1);
  }
}
