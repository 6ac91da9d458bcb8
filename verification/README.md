# Arrow pretty-printers for LLDB: a verified model of the layout arithmetic

The repository holds LLDB pretty-printers that display Apache Arrow
structures in a Rust process. The structures come from the arrow-rs crates
`arrow_array` and `arrow_buffer`. A printer reads raw memory and decodes
four things:

- primitive arrays (`PrimitiveArray<T>`);
- string arrays (`GenericByteArray<GenericStringType<O>>`);
- boolean bitmaps (`BooleanBuffer`);
- offset buffers (`OffsetBuffer<O>`).

This Dafny project models the pure part of that work:

- the four buffer parsers;
- the string slicing of the variable-size binary layout;
- the four synthetic-children providers with their null-wrapping policy and
  child-name parsing;
- the type-name classifier with its four regular expressions;
- the dispatch that unwraps pointers, picks a summary and a provider, and
  retries once.

Modules, in dependency order:

- `Wrappers`: `Option` and `Result`.
- `Text`: prefix and suffix scans, and Python's `lstrip` and `rstrip` of
  one character.
- `Memory`: the inspected process's memory as a map from address to byte.
  - An address the map does not hold reads as 0, LLDB's fail value.
  - Integers wider than a byte are read least significant byte first.
  - It also defines the bit test `is_bit_on` and the bits of a byte.
- `ChildNames`: Python's `str(n)` and `int(s)` on ASCII digits, the child
  name `[i]`, and `get_child_index`.
- `ArrowTypes`: the classification tags, `classify_struct` and
  `classify_union`.
  - Each pattern is stated twice. `RegexMatch` is a declarative reading that
    uses Python's `re` semantics: `.` does not match a newline, and `$`
    also matches before a final newline. `Matches` is the scan the
    classifier runs.
  - The two are proved equal, and the four patterns are proved pairwise
    disjoint.
- `Buffers`: handles on the arrow-rs structs and the scalar, offset, boolean
  and null parsers.
  - `BitStream` is an independent reading of a bitmap: bit `k` of byte `j`
    is bit `8j + k`, as the "Validity bitmaps" section of the Apache Arrow
    Columnar Format defines it.
- `Providers`: the layouts a provider reads, its construction (`update`),
  and its three queries.
- `Lookup`: `classify_arrow_type`, `unwrap_pointers`, `summary_lookup` and
  `synthetic_lookup`.
- `Scenarios`: worked examples on concrete names and memory images.

Debugger values are replaced by plain data:

- A child handed back to the debugger is a tag: a raw element at an
  address, an expression text, an empty `Option` of a named type, or a
  `Some` wrapper.
- An element type is its name and its byte size, given as input.
- A pointer carries what the providers' lookups resolve to when they are
  given the pointer itself, so that the retry rule can be stated.

Some behaviours of the code are easy to miss:

- A byte length that the element size does not divide is not an error. The
  count is floor-divided and the remainder dropped
  (`src/lldb/lldb_providers.py:191`, `Buffers.NewScalarParser`).
- The dispatch builds the provider over the original value first. Only when
  that fails for a pointer does it retry once over the unwrapped value
  (`src/lldb/lldb_lookup.py:63-79`, `Lookup.SyntheticLookup`).
- Element 2 of offsets `0, 3, 3, 5` over "catdog" is bytes 3 to 5, "do"
  (`Scenarios.CatDogThird`).
- The offset-buffer pattern accepts any non-empty text between `<` and the
  final `>`, not only a single generic argument
  (`src/lldb/arrow_types.py:17`).

## Model

| member | source | states |
|---|---|---|
| Memory.ByteBits | src/lldb/lldb_providers.py:145-146 | position `k` of a byte's eight bits is the bit `n & (1 << k) != 0` tests, least significant first |
| Memory.ByteBitsRoundTrip | src/lldb/lldb_providers.py:145-146 | a byte is recovered from its eight masked bits, and a bit list is the byte's bits exactly when it encodes that byte |
| Memory.FromBitsOfBits | src/lldb/lldb_providers.py:145-146 | reading back the low `width` bits of a number below `2^width` gives the number |
| Memory.BitsOfFromBits | src/lldb/lldb_providers.py:145-146 | the bits of the number a bit list encodes are that list |
| Memory.ReadUnsigned | src/lldb/lldb_providers.py:564-565 | an offset read as an unsigned integer of `width` bytes is below `256^width` |
| Memory.ReadStoredUnsigned | src/lldb/lldb_providers.py:564-565 | an integer below `256^width` stored as its `width` little-endian bytes reads back as itself |
| Memory.StoredBytesOfRead | src/lldb/lldb_providers.py:564-565 | conversely, the integer read is the one whose little-endian bytes are the bytes in memory |
| Memory.IsBitOn | src/lldb/lldb_providers.py:145-146 | `n & (1 << bit) != 0` holds exactly when `n` divided by `2^bit` is odd |
| Text.StripLeading | src/lldb/lldb_providers.py:329 | `lstrip("[")`: the result is a suffix of the name, every removed character is `[`, and the result does not start with `[` |
| Text.StripTrailing | src/lldb/lldb_providers.py:329 | `rstrip("]")`: the result is a prefix of the name, every removed character is `]`, and the result does not end with `]` |
| ChildNames.NatToString | src/lldb/lldb_providers.py:197 | the decimal text of an index is a non-empty digit run without a leading zero, with no `[` at its start and no `]` at its end |
| ChildNames.ChildIndex | src/lldb/lldb_providers.py:327-333 | `get_child_index` is at least -1, and it is an index exactly when the name stripped of `[` and `]` is a non-empty digit run |
| ChildNames.ParseNatToString | src/lldb/lldb_providers.py:330-331 | `int(str(n)) == n` |
| ChildNames.NatToStringParse | src/lldb/lldb_providers.py:330-331 | a digit run without a leading zero is `str(int(s))` |
| ChildNames.ChildNameRoundTrip | src/lldb/lldb_providers.py:329-333 | the child name `[i]` parses back to `i` |
| ArrowTypes.NamesDistinct | src/lldb/arrow_types.py:4-10 | distinct tags have distinct text values |
| ArrowTypes.MatchesIsRegex | src/lldb/arrow_types.py:14-17 | the classifier's scan accepts a name exactly when the Python expression of that tag matches it |
| ArrowTypes.WholeMatchScanSound | src/lldb/arrow_types.py:14-17 | a name the scan accepts can be cut into `&*`, the crate, a `([a-z_]+::)+` path and the pattern's type pieces |
| ArrowTypes.WholeMatchScanComplete | src/lldb/arrow_types.py:14-17 | every name built from those pieces is accepted by the scan |
| ArrowTypes.PatternsDisjoint | src/lldb/arrow_types.py:14-17 | no name matches two of the four patterns |
| ArrowTypes.QualifiedTailOf | src/lldb/arrow_types.py:14-17 | a name made of `&*`, a crate, a module path and a type name starting outside `[a-z_:]` splits back into exactly that type name |
| ArrowTypes.QualifiedTailParts | src/lldb/arrow_types.py:14-17 | conversely, every successful split comes from `&*`, the crate and a module path in front of the tail |
| ArrowTypes.CrateWithoutPathIsUnknown | src/lldb/arrow_types.py:14-17 | `arrow_array::` followed directly by a type name, with no module path, matches no pattern and is `Unknown` whatever its fields |
| ArrowTypes.FirstMatch | src/lldb/arrow_types.py:30-34 | the first matching tag in the given order, or `Unknown` exactly when no tag in the order matches |
| ArrowTypes.AnyOrderClassifiesAlike | src/lldb/arrow_types.py:19-32 | any iteration order over the four patterns gives the tag the registered order gives |
| ArrowTypes.Classify | src/lldb/arrow_types.py:26-34 | an empty field list gives `Unknown`; otherwise the result is a tag `t` exactly when `t`'s expression matches the name |
| ArrowTypes.ClassifyUnion | src/lldb/arrow_types.py:37-38 | a union is always `Unknown` |
| Buffers.NewScalarParser | src/lldb/lldb_providers.py:180-191 | it fails exactly for a zero element size; otherwise `length * size <= byte length < (length + 1) * size` |
| Buffers.ElementsTileBuffer | src/lldb/lldb_providers.py:193-200 | element 0 is at `ptr`, consecutive elements are one size apart, lower indices come first, and the first `length` elements lie inside the buffer |
| Buffers.NewOffsetParser | src/lldb/lldb_providers.py:205-221 | it fails exactly for a zero offset size; the length bounds hold, and offset `i` is at `ptr + i * size` of child 0 |
| Buffers.OffsetDelegatesToScalar | src/lldb/lldb_providers.py:211-221 | the offset parser fails, counts and addresses exactly as a scalar parser over child 0 does |
| Buffers.BitStreamIndex | src/lldb/lldb_providers.py:243-255 | bit `pos` of a bitmap is bit `pos % 8` of byte `pos / 8` |
| Buffers.BooleanParser.Value | src/lldb/lldb_providers.py:243-255 | `get_value_at_index(i)`, with no bounds check, is bit `offset + i` of the reference bitmap at `ptr`, for whatever bit offset the parser holds |
| Buffers.BooleanValueIsBitmapSlot | src/lldb/lldb_providers.py:243-255 | the corrected parser's value at any index, in bounds or not, is bit `offset + i` of the `BooleanBuffer`'s bitmap |
| Buffers.BooleanParserDecodesBitmap | src/lldb/lldb_providers.py:225-255 | the corrected parser's `len` values are bits `offset .. offset + len` of the buffer's bitmap |
| Buffers.NewBooleanParserAsWritten | src/lldb/lldb_providers.py:225-237 | the parser as written has `len` slots; it equals the corrected parser exactly when the `BooleanBuffer`'s offset is the inner `Buffer`'s `offset` member, or 0 without one; without that member slot `i` is bit `i` of the bitmap whatever the `BooleanBuffer`'s offset |
| Buffers.AsWrittenIgnoresBitOffset | src/lldb/lldb_providers.py:233-237 | for this example, offset 3 over the byte 8, the slot is set in the bitmap and in the corrected parser, but the parser as written reads `false` |
| Buffers.NewNullParser | src/lldb/lldb_providers.py:265-292 | it fails exactly for a non-`Option` type; it has nulls exactly for a present `Option` with a non-zero null count; the count is defined exactly for a present `Option` and is the stored `null_count` |
| Buffers.NullParser.IsNull | src/lldb/lldb_providers.py:301-307 | `is_null` is never true without nulls; with nulls it is true exactly when validity bit `offset + i` of the reference bitmap is clear |
| Buffers.UnslicedNullSlot | src/lldb/lldb_providers.py:237 | on a validity bitmap that is not sliced, the null slots are exactly the clear bits the parser as written reads |
| Buffers.NullParserSemantics | src/lldb/lldb_providers.py:298-307 | without nulls no slot is null; otherwise slot `i` is null exactly when its validity bit is clear |
| Providers.Quote | src/lldb/lldb_providers.py:561 | `'"%s"' % s` is `s` between two double quotes |
| Providers.BytesAsText | src/lldb/lldb_providers.py:134-142 | one character per byte of `[lo, hi)`, each the byte's code; empty when `hi <= lo` |
| Providers.StringDataSlice | src/lldb/lldb_providers.py:126-142 | equal offsets give the two-character text `""`; otherwise each character of the slice is the byte at `ptr + start + k` |
| Providers.Provider.ChildIndex | src/lldb/lldb_providers.py:327-333 | every provider's `get_child_index` is at least -1 |
| Providers.Provider.ChildAt | src/lldb/lldb_providers.py:391-547 | every child is named `[i]` (primitive children at 391-405, string children at 538-547); a child is an empty `Option` exactly at a null slot of a primitive or string array, a `Some` of the string exactly for a non-null string of an array with nulls, and the bare string or raw element otherwise |
| Providers.ChildNameParsesBack | src/lldb/lldb_providers.py:335-340 | every child a provider creates, `Some`-wrapped or not, is named with the index its name parses back to |
| Providers.NewPrimitiveProvider | src/lldb/lldb_providers.py:379-431 | it builds exactly for a primitive layout with a non-zero element size and an `Option` for `nulls`; `num_children` is the byte length floor-divided by the element size: `n * size <= length < (n + 1) * size` |
| Providers.NewStringProvider | src/lldb/lldb_providers.py:526-584 | it builds exactly for a string layout with a non-zero offset size and an `Option` for `nulls`; `num_children` is one less than the number of offsets the offset buffer holds |
| Providers.NewBooleanProvider | src/lldb/lldb_providers.py:323-345 | it always builds; `num_children` is `len` of a `BooleanBuffer`, and 0 when the members are missing |
| Providers.NewOffsetProvider | src/lldb/lldb_providers.py:465-488 | it builds exactly for an offset layout with a non-zero offset size; `num_children` is the byte length floor-divided by the offset size: `n * size <= length < (n + 1) * size` |
| Providers.PrimitiveChildren | src/lldb/lldb_providers.py:391-405 | child `i` is an empty `Option` of the element type exactly at a null slot; otherwise it is the unwrapped element at `ptr + i * size` |
| Providers.StringChildren | src/lldb/lldb_providers.py:538-550 | child `i` is an empty `Option<&str>` exactly at a null slot; otherwise it is the string, wrapped in `Some` exactly when the array has nulls |
| Providers.BooleanChildren | src/lldb/lldb_providers.py:335-340 | child `i` is the text `true` or `false` for bitmap slot `i` |
| Providers.UnslicedBooleanChildren | src/lldb/lldb_providers.py:335-340 | on a `BooleanBuffer` that is not sliced, child `i` is the `true` or `false` the parser as written reads |
| Providers.OffsetChildren | src/lldb/lldb_providers.py:477-480 | child `i` is the offset at the address a scalar parser over child 0 gives |
| Providers.NumChildrenIgnoresNulls | src/lldb/lldb_providers.py:379-381 | arrays that differ only in their `nulls` option report the same child count |
| Providers.StringElementIsSlice | src/lldb/lldb_providers.py:553-565 | when memory holds value bytes and offsets, string `i` is the quoted bytes `[off[i], off[i+1])`, and an empty element is the quoted `""` |
| Lookup.ClassifyArrowType | src/lldb/lldb_lookup.py:21-28 | a non-struct type is `Unknown`; a struct is tag `t` exactly when it has fields and `t`'s expression matches its name |
| Lookup.Unwrap | src/lldb/lldb_lookup.py:30-33 | the result is not a pointer; a non-pointer is returned unchanged, and a pointer unwraps as its pointee does |
| Lookup.UnwrapIdempotent | src/lldb/lldb_lookup.py:30-33 | unwrapping twice is unwrapping once |
| Lookup.LengthSummary | src/lldb/lldb_providers.py:121-123 | the summary is `length=` followed by a digit run that parses back to the child count |
| Lookup.SummaryLookup | src/lldb/lldb_lookup.py:35-52 | the summary is empty exactly when the unwrapped type classifies as `Unknown`, and is the length summary otherwise |
| Lookup.Construct | src/lldb/lldb_lookup.py:62-73 | each Arrow tag is served by a provider of that tag |
| Lookup.SyntheticLookup | src/lldb/lldb_lookup.py:55-85 | `Unknown` gives the pass-through provider over the original value; otherwise the provider of the tag is built over the original value; on failure a pointer is retried once over the unwrapped value, whose failure is raised, and a non-pointer's failure is raised |
| Lookup.SummaryMatchesSynthetic | src/lldb/lldb_lookup.py:35-85 | the summary is empty exactly when the pass-through provider is chosen |
| Lookup.PointerFallsBackToPointee | src/lldb/lldb_lookup.py:74-79 | when the build over a pointer fails, the lookup answers as the lookup of the unwrapped value does |
| Lookup.ObjectsAreNotRetried | src/lldb/lldb_lookup.py:78-83 | for a value that is not a pointer the lookup fails exactly when the one build fails |
| Scenarios.PrimitiveNameClassifies | src/lldb/arrow_types.py:26-32 | `arrow_array::array::primitive_array::PrimitiveArray<arrow_array::types::UInt16Type>` with fields is a primitive array |
| Scenarios.NoFieldsIsUnknown | src/lldb/arrow_types.py:27-28 | the same name without fields is `Unknown` |
| Scenarios.MissingModulePathIsUnknown | src/lldb/arrow_types.py:14 | `arrow_array::PrimitiveArray<X>`, which has no module path, is `Unknown` |
| Scenarios.ByteSixDecodes | src/lldb/lldb_providers.py:243-255 | byte 6 at offset 0 decodes as false, true, true, false |
| Scenarios.ThreeU32Children | src/lldb/lldb_providers.py:191-200 | twelve bytes of `u32` are three children four bytes apart, reading 1, 2 and 3 |
| Scenarios.CatDogFirst | src/lldb/lldb_providers.py:538-561 | offsets 0, 3, 3, 5 over "catdog" with slot 1 null give `Some("cat")` at 0 |
| Scenarios.CatDogSecond | src/lldb/lldb_providers.py:538-547 | the same array gives an empty `Option<&str>` at 1 |
| Scenarios.CatDogThird | src/lldb/lldb_providers.py:538-561 | the same array gives `Some("do")` at 2 |
| Scenarios.EmptyStringIsTwoQuotes | src/lldb/lldb_providers.py:126-132 | without a validity bitmap the empty element 1 is the quoted text `""` |

## Left out

- NullParserSemantics: a null slot is a clear bit at the `BooleanBuffer`'s
  own `offset + i`, the corrected reading under "Findings". The code reads
  bit `i`, because it takes the offset from the inner `Buffer`, which has
  none (`src/lldb/lldb_providers.py:237`). The two agree exactly when the
  validity bitmap is not sliced (`Buffers.UnslicedNullSlot`). On a sliced
  `NullBuffer` the model marks the slots null that the offset selects, not
  the ones the code reports.
- PrimitiveChildren: which slots are empty `Option`s follows the corrected
  null slots, for the reason given for `NullParserSemantics`. It matches the
  code on unsliced validity bitmaps.
- StringChildren: the same substitution of the corrected null slots. It
  matches the code on unsliced validity bitmaps.
- BooleanChildren: child `i` is bit `offset + i` of the bitmap, the corrected
  reading. The code shows bit `i` (`src/lldb/lldb_providers.py:237, 345`).
  The two agree exactly when the `BooleanBuffer` is not sliced
  (`Providers.UnslicedBooleanChildren`).
- NewBooleanProvider and NewNullParser build on the corrected
  `Buffers.NewBooleanParser`, not on `Buffers.NewBooleanParserAsWritten`.
  The rest of the model follows them.
- LLDB API plumbing is not modelled. This covers type lookup by name
  (`get_type_by_name`, `get_type`), the creation of child values from an
  address, an expression or data, and the `Option` type synthesis and
  `Cast` (`src/lldb/lldb_providers.py:148-178`). Children are tags instead.
- Type resolution is an input, not a computation. Element types and offset
  widths come from template arguments and typedefs
  (`src/lldb/lldb_providers.py:208-209, 417-428, 605-621`). The model
  takes the resolved name and byte size as input. An unresolved type is
  size 0.
- Integer decoding by the debugger is replaced by a little-endian read of
  the element's width.
- A value that lacks the members a provider reads builds no provider
  (`MissingLayout`). The model does not tell the Python exception types
  apart. The boolean provider is the exception: there every read yields 0,
  so it shows no children.
- `NullBufferParser` with `is_option=False` is not modelled. No provider
  uses it.
- `has_children`, which is constant `True` in all four Arrow providers, is
  not modelled. Neither are `DefaultSyntheticProvider`,
  `EmptySyntheticProvider` and `ValueBuilder`, the
  `get_struct_field_*_by_name` helpers, or `unwrap_unique_or_non_null`.
- Plugin loading and registration (`import_file`, `__lldb_init_module`) are
  debugger configuration and are not modelled. Their registered string
  pattern admits only `GenericStringType<i32>`
  (`src/lldb/lldb_lookup.py:96`). The classifier accepts any offset type.
- The `print` before a failure is re-raised is not modelled.
- `src/lib.rs` only sets up values to inspect under a debugger and is not
  part of this model.
- `isdigit` is limited to ASCII digits. Python's Unicode digits are not
  modelled.
- Child indices are natural numbers. LLDB never asks for a negative one.
- The debugger's handling of a negative child count is not modelled. A
  string array without offsets reports -1.
- The child count that `LengthSummaryProvider` prints is an input. It is
  whatever the debugger reports for the value.
- Memory is immutable between calls. Updating a provider after the process
  runs is not modelled.

## Findings

| source | as written | input that shows it | evidently intended | confidence | as-written member | corrected member |
|---|---|---|---|---|---|---|
| src/lldb/lldb_providers.py:237 | the bit offset is read from a member `offset` of the inner `Buffer`; arrow-rs's `Buffer { data, ptr, length }` has none, so the debugger's fail value 0 is used | a `BooleanBuffer` with `offset` 3 and `len` 1 over the single byte 8: slot 0 is bit 3, which is set, but the parser reads bit 0 and shows `false` | the bit offset is the `offset` field of the `BooleanBuffer` itself, as the struct layout at `src/lldb/lldb_providers.py:313` lists it | medium, not executed | Buffers.AsWrittenIgnoresBitOffset | Buffers.BooleanParserDecodesBitmap |

The as-written parser is `Buffers.NewBooleanParserAsWritten`. The corrected
one is `Buffers.NewBooleanParser`, and it is the one the boolean provider
and the null parser use.
