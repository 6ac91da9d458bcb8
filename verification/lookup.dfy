/** The dispatch rule: which summary and which synthetic-children provider
    the debugger is given for a value, from the classification of the type
    it points to. */
module Lookup {
  import opened Wrappers
  import opened Buffers
  import opened Providers
  import ArrowTypes
  import ChildNames
  import Text

  /** The debugger's type classes that matter here. */
  datatype TypeClass = StructClass | UnionClass | PointerClass | OtherClass

  /** A debugger type: its name, class and fields. */
  datatype DebugType = DebugType(name: string, cls: TypeClass, fields: seq<string>)

  /** The type of a value that is not a pointer. */
  type ObjectType = t: DebugType | t.cls != PointerClass witness DebugType("", OtherClass, [])

  /** A value to display. A pointer of type `typeName` points to `pointee`;
      `through` is what the providers' lookups resolve to when they are given
      the pointer itself rather than its pointee (member lookups may see
      through it while type-argument lookups do not). */
  datatype Value =
    | Pointer(typeName: string, pointee: Value, through: Layout)
    | Object(ty: ObjectType, members: Layout)
  {
    function Type(): DebugType {
      if Pointer? then DebugType(typeName, PointerClass, []) else ty
    }

    /** What the providers see when they are built over this value. */
    function Lookups(): Layout {
      if Pointer? then through else members
    }
  }

  /** `classify_arrow_type`: structs are classified by name and fields,
      anything else is unknown. */
  function ClassifyArrowType(t: DebugType): (r: ArrowTypes.ArrowType)
    ensures t.cls != StructClass ==> r == ArrowTypes.Unknown
    ensures forall u :: u != ArrowTypes.Unknown ==>
      (r == u <==> t.cls == StructClass && |t.fields| > 0 && ArrowTypes.RegexMatch(u, t.name))
  {
    match t.cls
    case StructClass => ArrowTypes.Classify(t.name, t.fields)
    case UnionClass => ArrowTypes.ClassifyUnion(t.fields)
    case _ => ArrowTypes.Unknown
  }

  /** `unwrap_pointers`: follow pointers until a value that is not one. */
  function Unwrap(v: Value): (r: Value)
    ensures r.Object? && r.Type().cls != PointerClass
    ensures v.Object? ==> r == v
    ensures v.Pointer? ==> r == Unwrap(v.pointee)
  {
    if v.Pointer? then Unwrap(v.pointee) else v
  }

  /** Unwrapping twice is unwrapping once. */
  lemma UnwrapIdempotent(v: Value)
    ensures Unwrap(Unwrap(v)) == Unwrap(v)
  {
  }

  /** The classification the dispatch acts on: that of the unwrapped type. */
  function ArrowTypeOf(v: Value): ArrowTypes.ArrowType {
    ClassifyArrowType(Unwrap(v).Type())
  }

  const LengthPrefix: string := "length="

  /** `LengthSummaryProvider`: `length=` followed by the decimal child count. */
  function LengthSummary(childCount: nat): (s: string)
    ensures |s| > |LengthPrefix| && s[..|LengthPrefix|] == LengthPrefix
    ensures ChildNames.IsDigits(s[|LengthPrefix|..]) && ChildNames.ParseDigits(s[|LengthPrefix|..]) == childCount
  {
    var digits := ChildNames.NatToString(childCount);
    ChildNames.ParseNatToString(childCount);
    assert (LengthPrefix + digits)[|LengthPrefix|..] == digits;
    LengthPrefix + digits
  }

  /** `summary_lookup`: the length summary for each of the four Arrow types,
      nothing otherwise. `childCount` is the number of children the debugger
      reports for the value. */
  function SummaryLookup(v: Value, childCount: nat): (s: string)
    ensures s == "" <==> ArrowTypeOf(v) == ArrowTypes.Unknown
    ensures s != "" ==> s == LengthSummary(childCount)
  {
    var t := ArrowTypeOf(v);
    if t == ArrowTypes.PrimitiveArray then LengthSummary(childCount)
    else if t == ArrowTypes.BooleanBuffer then LengthSummary(childCount)
    else if t == ArrowTypes.StringArray then LengthSummary(childCount)
    else if t == ArrowTypes.OffsetBuffer then LengthSummary(childCount)
    else ""
  }

  /** What `synthetic_lookup` hands the debugger. */
  datatype Synthetic = Arrow(provider: Provider) | Default(value: Value)

  /** Building the provider for an Arrow type over what a value's lookups see. */
  function Construct(t: ArrowTypes.ArrowType, layout: Layout): (r: Result<Provider, Error>)
    requires t != ArrowTypes.Unknown
    ensures r.Success? ==> r.value.Type() == t
  {
    match t
    case PrimitiveArray => NewPrimitiveProvider(layout)
    case StringArray => NewStringProvider(layout)
    case BooleanBuffer => NewBooleanProvider(layout)
    case OffsetBuffer => NewOffsetProvider(layout)
  }

  /** `synthetic_lookup`: an unknown type gets the pass-through provider over
      the original value. Otherwise the provider of its type is built over the
      original value; if that raises and the value was a pointer, the lookup
      is repeated once on the unwrapped value, whose failure is raised. */
  function SyntheticLookup(v: Value): (r: Result<Synthetic, Error>)
    ensures ArrowTypeOf(v) == ArrowTypes.Unknown ==> r == Success(Default(v))
    ensures ArrowTypeOf(v) != ArrowTypes.Unknown ==>
      (r.Success? ==> r.value.Arrow? && r.value.provider.Type() == ArrowTypeOf(v))
    ensures ArrowTypeOf(v) != ArrowTypes.Unknown && Construct(ArrowTypeOf(v), v.Lookups()).Success? ==>
      r == Success(Arrow(Construct(ArrowTypeOf(v), v.Lookups()).value))
    ensures ArrowTypeOf(v) != ArrowTypes.Unknown && Construct(ArrowTypeOf(v), v.Lookups()).Failure? ==>
      if v.Pointer? then
        var retry := Construct(ArrowTypeOf(v), Unwrap(v).Lookups());
        r == (if retry.Success? then Success(Arrow(retry.value)) else Failure(retry.error))
      else
        r == Failure(Construct(ArrowTypeOf(v), v.Lookups()).error)
    decreases if v.Pointer? then 1 else 0
  {
    var u := Unwrap(v);
    var t := ClassifyArrowType(u.Type());
    if t == ArrowTypes.Unknown then Success(Default(v))
    else
      match Construct(t, v.Lookups())
      case Success(p) => Success(Arrow(p))
      case Failure(e) => if u != v then SyntheticLookup(u) else Failure(e)
  }

  /** The summary is empty exactly when the pass-through provider is chosen. */
  lemma SummaryMatchesSynthetic(v: Value, childCount: nat)
    ensures SummaryLookup(v, childCount) == "" <==> SyntheticLookup(v) == Success(Default(v))
  {
  }

  /** When building over a pointer fails, the lookup answers as it would for
      the value the pointer leads to. */
  lemma PointerFallsBackToPointee(v: Value)
    requires v.Pointer? && ArrowTypeOf(v) != ArrowTypes.Unknown
    requires Construct(ArrowTypeOf(v), v.Lookups()).Failure?
    ensures SyntheticLookup(v) == SyntheticLookup(Unwrap(v))
  {
  }

  /** A value that is not a pointer is never retried: a failure is raised as is. */
  lemma ObjectsAreNotRetried(v: Value)
    requires v.Object? && ArrowTypeOf(v) != ArrowTypes.Unknown
    ensures SyntheticLookup(v).Failure? <==> Construct(ArrowTypeOf(v), v.Lookups()).Failure?
  {
  }
}
