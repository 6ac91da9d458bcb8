/** The type-name classifier: which of the four Arrow layouts a struct type
    with a given name and field list has.

    Each of the four patterns is a Python regular expression. They are stated
    here twice: declaratively, as the ways a name can be cut into the pieces
    the expression names (`RegexMatch`), and as the left-to-right scan the
    classifier runs (`Matches`). `MatchesIsRegex` proves the two agree. */
module ArrowTypes {
  import Text
  import opened Wrappers

  /** The classification tags. */
  datatype ArrowType = Unknown | PrimitiveArray | StringArray | BooleanBuffer | OffsetBuffer {

    /** The tag's text value. */
    function Name(): string {
      match this
      case Unknown => "Unknown"
      case PrimitiveArray => "PrimitiveArray"
      case StringArray => "StringArray"
      case BooleanBuffer => "BooleanBuffer"
      case OffsetBuffer => "OffsetBuffer"
    }
  }

  /** Distinct tags have distinct text values. */
  lemma NamesDistinct(t: ArrowType, u: ArrowType)
    ensures t.Name() == u.Name() <==> t == u
  {
    if t != u {
      assert t.Name()[0] != u.Name()[0];
    }
  }

  const ArrayCrate: string := "arrow_array::"
  const BufferCrate: string := "arrow_buffer::"
  const PrimitiveHead: string := "PrimitiveArray<"
  const ByteArrayHead: string := "GenericByteArray<"
  const StringTypeHead: string := "::GenericStringType<"
  const BooleanName: string := "BooleanBuffer"
  const OffsetHead: string := "OffsetBuffer<"

  /** `[a-z_]` */
  predicate IsWordChar(c: char) {
    ('a' <= c <= 'z') || c == '_'
  }

  /** A character a module path `([a-z_]+::)+` can contain. */
  predicate IsPathChar(c: char) {
    IsWordChar(c) || c == ':'
  }

  /** Python's `.` (without DOTALL) matches any character but a newline. */
  predicate NoNewline(s: string) {
    forall i :: 0 <= i < |s| ==> s[i] != '\n'
  }

  // ---------------------------------------------------------------------------
  // Declarative reading of the four expressions

  /** `&*` */
  predicate Ampersands(a: string) {
    forall i :: 0 <= i < |a| ==> a[i] == '&'
  }

  /** `[a-z_]+` */
  predicate IsWord(w: string) {
    |w| >= 1 && forall i :: 0 <= i < |w| ==> IsWordChar(w[i])
  }

  /** The words `ws`, each followed by `::`. */
  function JoinPath(ws: seq<string>): string {
    if |ws| == 0 then [] else ws[0] + "::" + JoinPath(ws[1..])
  }

  /** `([a-z_]+::)+` */
  ghost predicate IsModulePath(p: string) {
    exists ws: seq<string> :: |ws| >= 1 && (forall i :: 0 <= i < |ws| ==> IsWord(ws[i])) && JoinPath(ws) == p
  }

  /** `.+` */
  predicate AnyText(x: string) {
    |x| >= 1 && NoNewline(x)
  }

  /** The expression of tag `t`, without its final `$`, matches all of `s`. */
  ghost predicate WholeMatch(t: ArrowType, s: string) {
    match t
    case Unknown => false
    case PrimitiveArray =>
      // ampersands, the array crate, a module path, `PrimitiveArray<`, text, `>`
      exists a, p, x :: Ampersands(a) && IsModulePath(p) && AnyText(x)
                        && s == a + ArrayCrate + p + PrimitiveHead + x + ">"
    case StringArray =>
      // ampersands, the array crate, a module path, `GenericByteArray<`, text,
      // `::GenericStringType<`, text, `>>`
      exists a, p, x, y :: Ampersands(a) && IsModulePath(p) && AnyText(x) && AnyText(y)
                           && s == a + ArrayCrate + p + ByteArrayHead + x + StringTypeHead + y + ">>"
    case BooleanBuffer =>
      // ampersands, the buffer crate, a module path, `BooleanBuffer`
      exists a, p :: Ampersands(a) && IsModulePath(p) && s == a + BufferCrate + p + BooleanName
    case OffsetBuffer =>
      // ampersands, the buffer crate, a module path, `OffsetBuffer<`, text, `>`
      exists a, p, x :: Ampersands(a) && IsModulePath(p) && AnyText(x)
                        && s == a + BufferCrate + p + OffsetHead + x + ">"
  }

  /** `regex.match(s)` succeeds: Python's `$` matches at the end of the string
      or just before a newline that ends it. */
  ghost predicate RegexMatch(t: ArrowType, s: string) {
    WholeMatch(t, s) || (|s| >= 1 && s[|s| - 1] == '\n' && WholeMatch(t, s[..|s| - 1]))
  }

  // ---------------------------------------------------------------------------
  // The scan

  /** Does `p` consist of one or more `[a-z_]+::` segments? */
  function ScanPath(p: string): bool
    decreases |p|
  {
    var w := Text.PrefixWhile(p, IsWordChar);
    w >= 1 && w + 2 <= |p| && p[w] == ':' && p[w + 1] == ':'
    && (w + 2 == |p| || ScanPath(p[w + 2..]))
  }

  function CrateOf(t: ArrowType): string {
    if t == PrimitiveArray || t == StringArray then ArrayCrate else BufferCrate
  }

  /** The rest of `s` after `&*crate([a-z_]+::)+`, when `s` starts that way.
      The module path ends at the first character that cannot be part of one,
      which is where every pattern's type name begins. */
  function QualifiedTail(s: string, crate: string): (r: Option<string>)
    ensures r.Some? ==> |r.value| <= |s| && r.value == s[|s| - |r.value|..]
  {
    var u := Text.StripLeading(s, '&');
    if !Text.StartsWith(u, crate) then None
    else
      var rest := u[|crate|..];
      var n := Text.PrefixWhile(rest, IsPathChar);
      if ScanPath(rest[..n]) then Some(rest[n..]) else None
  }

  /** `head` `.+` `>` */
  predicate Bracketed(tail: string, head: string) {
    |tail| >= |head| + 2 && Text.StartsWith(tail, head) && tail[|tail| - 1] == '>'
    && NoNewline(tail[|head|..|tail| - 1])
  }

  /** `w` occurs in `m` starting at position `k`. */
  predicate OccursAt(m: string, k: int, w: string) {
    0 <= k && k + |w| <= |m| && m[k..k + |w|] == w
  }

  /** Does the type-name part `tail` complete the pattern of `t`? */
  predicate TailMatches(t: ArrowType, tail: string) {
    match t
    case Unknown => false
    case PrimitiveArray => Bracketed(tail, PrimitiveHead)
    case StringArray =>
      |tail| >= |ByteArrayHead| + 2 && Text.StartsWith(tail, ByteArrayHead) && Text.EndsWith(tail, ">>")
      && var m := tail[|ByteArrayHead|..|tail| - 2];
      NoNewline(m)
      && exists k | 1 <= k <= |m| - |StringTypeHead| - 1 :: OccursAt(m, k, StringTypeHead)
    case BooleanBuffer => tail == BooleanName
    case OffsetBuffer => Bracketed(tail, OffsetHead)
  }

  predicate WholeMatchScan(t: ArrowType, s: string) {
    t != Unknown && var r := QualifiedTail(s, CrateOf(t)); r.Some? && TailMatches(t, r.value)
  }

  /** The classifier's test of name `s` against the pattern of `t`. */
  predicate Matches(t: ArrowType, s: string) {
    WholeMatchScan(t, s) || (|s| >= 1 && s[|s| - 1] == '\n' && WholeMatchScan(t, s[..|s| - 1]))
  }

  // ---------------------------------------------------------------------------
  // The classifier

  /** The order in which `classify_struct` tries the patterns. */
  const SourceOrder: seq<ArrowType> := [PrimitiveArray, StringArray, BooleanBuffer, OffsetBuffer]

  /** The first tag in `order` whose pattern matches `name`, or `Unknown`. */
  function FirstMatch(order: seq<ArrowType>, name: string): (r: ArrowType)
    ensures r != Unknown ==> r in order && Matches(r, name)
    ensures r == Unknown ==> forall t :: t in order ==> !Matches(t, name)
  {
    if |order| == 0 then Unknown
    else if Matches(order[0], name) then order[0]
    else FirstMatch(order[1..], name)
  }

  /** `classify_struct`: a type without fields is `Unknown`; otherwise the tag
      whose pattern matches the name, or `Unknown` when none does. */
  function Classify(name: string, fields: seq<string>): (r: ArrowType)
    ensures |fields| == 0 ==> r == Unknown
    ensures forall t :: t != Unknown ==> (r == t <==> |fields| > 0 && RegexMatch(t, name))
  {
    MatchesIsRegexAll(name);
    if |fields| == 0 then Unknown
    else
      var r := FirstMatch(SourceOrder, name);
      assert forall t :: t != Unknown ==> t in SourceOrder;
      PatternsDisjointAll(name);
      r
  }

  /** `classify_union`: a union is never an Arrow layout. */
  function ClassifyUnion(fields: seq<string>): (r: ArrowType)
    ensures r == Unknown
  {
    Unknown
  }

  // ---------------------------------------------------------------------------
  // Module paths

  lemma {:induction false} JoinPathChars(ws: seq<string>)
    requires forall i :: 0 <= i < |ws| ==> IsWord(ws[i])
    ensures forall i :: 0 <= i < |JoinPath(ws)| ==> IsPathChar(JoinPath(ws)[i])
  {
    if |ws| > 0 {
      JoinPathChars(ws[1..]);
      var j := JoinPath(ws);
      assert j == ws[0] + ("::" + JoinPath(ws[1..]));
      forall i | 0 <= i < |j|
        ensures IsPathChar(j[i])
      {
        if i < |ws[0]| {
          assert j[i] == ws[0][i];
        } else if i >= |ws[0]| + 2 {
          assert j[i] == JoinPath(ws[1..])[i - |ws[0]| - 2];
        }
      }
    }
  }

  lemma {:induction false} JoinPathScans(ws: seq<string>)
    requires |ws| >= 1 && forall i :: 0 <= i < |ws| ==> IsWord(ws[i])
    ensures ScanPath(JoinPath(ws))
  {
    var w := ws[0];
    var rest := JoinPath(ws[1..]);
    var p := JoinPath(ws);
    assert p == w + ("::" + rest);
    Text.PrefixWhileOfConcat(w, "::" + rest, IsWordChar);
    assert p[|w|] == ':' && p[|w| + 1] == ':';
    assert p[|w| + 2..] == rest;
    if |ws| > 1 {
      JoinPathScans(ws[1..]);
    }
  }

  /** The segments a scanned module path consists of. */
  function PathWords(p: string): (ws: seq<string>)
    requires ScanPath(p)
    ensures |ws| >= 1 && forall i :: 0 <= i < |ws| ==> IsWord(ws[i])
    ensures JoinPath(ws) == p
    decreases |p|
  {
    var w := Text.PrefixWhile(p, IsWordChar);
    assert p == p[..w] + "::" + p[w + 2..];
    if w + 2 == |p| then
      assert JoinPath([p[..w]]) == p[..w] + "::" + JoinPath([]);
      [p[..w]]
    else
      var ws := [p[..w]] + PathWords(p[w + 2..]);
      assert ws[1..] == PathWords(p[w + 2..]);
      ws
  }

  /** The scan accepts exactly the module paths. */
  lemma ScanPathIsModulePath(p: string)
    ensures ScanPath(p) <==> IsModulePath(p)
  {
    if ScanPath(p) {
      var ws := PathWords(p);
      assert |ws| >= 1 && (forall i :: 0 <= i < |ws| ==> IsWord(ws[i])) && JoinPath(ws) == p;
    }
    if IsModulePath(p) {
      var ws :| |ws| >= 1 && (forall i :: 0 <= i < |ws| ==> IsWord(ws[i])) && JoinPath(ws) == p;
      JoinPathScans(ws);
    }
  }

  // ---------------------------------------------------------------------------
  // The qualified prefix

  /** `&*` removes exactly the ampersands in front of a name that does not
      start with one. */
  lemma StripAmpersandsOf(a: string, u: string)
    requires Ampersands(a) && |u| >= 1 && u[0] != '&'
    ensures Text.StripLeading(a + u, '&') == u
  {
    Text.PrefixWhileOfConcat(a, u, Text.IsChar('&'));
  }

  /** The maximal `[a-z_:]` run of a module path followed by a type name is
      the module path. */
  lemma PathRunOf(p: string, r: string)
    requires IsModulePath(p) && |r| >= 1 && !IsPathChar(r[0])
    ensures Text.PrefixWhile(p + r, IsPathChar) == |p|
    ensures ScanPath(p)
  {
    var ws :| |ws| >= 1 && (forall i :: 0 <= i < |ws| ==> IsWord(ws[i])) && JoinPath(ws) == p;
    JoinPathChars(ws);
    Text.PrefixWhileOfConcat(p, r, IsPathChar);
    ScanPathIsModulePath(p);
  }

  /** A name built as `&*` `crate` `([a-z_]+::)+` followed by a type name that
      starts outside `[a-z_:]` is split back into exactly that type name. */
  lemma QualifiedTailOf(a: string, crate: string, p: string, r: string)
    requires Ampersands(a) && IsModulePath(p) && |r| >= 1 && !IsPathChar(r[0])
    requires |crate| >= 1 && crate[0] != '&'
    ensures QualifiedTail(a + crate + p + r, crate) == Some(r)
  {
    var u := crate + (p + r);
    assert a + crate + p + r == a + u;
    StripAmpersandsOf(a, u);
    assert u[..|crate|] == crate;
    assert u[|crate|..] == p + r;
    PathRunOf(p, r);
    assert (p + r)[..|p|] == p;
    assert (p + r)[|p|..] == r;
  }

  /** Conversely, a successful split comes from such a name. */
  lemma QualifiedTailParts(s: string, crate: string) returns (a: string, p: string)
    requires QualifiedTail(s, crate).Some?
    ensures Ampersands(a) && IsModulePath(p)
    ensures s == a + crate + p + QualifiedTail(s, crate).value
  {
    var u := Text.StripLeading(s, '&');
    var rest := if Text.StartsWith(u, crate) then u[|crate|..] else u;
    var n := Text.PrefixWhile(rest, IsPathChar);
    QualifiedTailFacts(s, crate, u, rest, n);
    var tail := rest[n..];
    a := s[..|s| - |u|];
    p := rest[..n];
    SplitAt(u, |crate|);
    SplitAt(rest, n);
    Regroup3(a, crate, p, tail);
    AmpersandPrefix(s, a, u);
    ScanPathIsModulePath(p);
  }

  /** `head` `.+` `>` cut into its pieces. */
  lemma BracketedParts(tail: string, head: string) returns (x: string)
    requires Bracketed(tail, head)
    ensures AnyText(x) && tail == head + x + ">"
  {
    x := tail[|head|..|tail| - 1];
    assert tail == tail[..|head|] + x + [tail[|tail| - 1]];
  }

  lemma BracketedOf(head: string, x: string)
    requires AnyText(x)
    ensures Bracketed(head + x + ">", head)
  {
    var tail := head + x + ">";
    assert tail[..|head|] == head;
    assert tail[|head|..|tail| - 1] == x;
  }

  /** The string-array type name cut into its pieces. */
  lemma StringTailParts(tail: string) returns (x: string, y: string)
    requires TailMatches(StringArray, tail)
    ensures AnyText(x) && AnyText(y) && tail == ByteArrayHead + (x + StringTypeHead + y) + ">>"
  {
    var m := tail[|ByteArrayHead|..|tail| - 2];
    var k :| 1 <= k <= |m| - |StringTypeHead| - 1 && OccursAt(m, k, StringTypeHead);
    x := m[..k];
    y := m[k + |StringTypeHead|..];
    assert m == x + StringTypeHead + y;
    assert tail == tail[..|ByteArrayHead|] + m + tail[|tail| - 2..];
  }

  lemma NoNewlineJoin(x: string, mid: string, y: string)
    requires NoNewline(x) && NoNewline(mid) && NoNewline(y)
    ensures NoNewline(x + mid + y)
  {
    var m := x + mid + y;
    forall i | 0 <= i < |m| ensures m[i] != '\n' {
      if i < |x| {
        assert m[i] == x[i];
      } else if i < |x| + |mid| {
        assert m[i] == mid[i - |x|];
      } else {
        assert m[i] == y[i - |x| - |mid|];
      }
    }
  }

  lemma StringTailOf(x: string, y: string)
    requires AnyText(x) && AnyText(y)
    ensures TailMatches(StringArray, ByteArrayHead + (x + StringTypeHead + y) + ">>")
  {
    var m := x + StringTypeHead + y;
    var tail := ByteArrayHead + m + ">>";
    assert tail[..|ByteArrayHead|] == ByteArrayHead;
    assert tail[|tail| - 2..] == ">>";
    assert tail[|ByteArrayHead|..|tail| - 2] == m;
    assert m[|x|..|x| + |StringTypeHead|] == StringTypeHead;
    assert OccursAt(m, |x|, StringTypeHead);
    NoNewlineJoin(x, StringTypeHead, y);
  }

  /** Every pattern's type name starts outside `[a-z_:]`, and neither crate
      name starts with `&`. */
  lemma TypeNamesStartOutsidePaths(tail: string)
    ensures Text.StartsWith(tail, PrimitiveHead) || Text.StartsWith(tail, ByteArrayHead)
            || Text.StartsWith(tail, OffsetHead) || tail == BooleanName
            ==> |tail| >= 1 && !IsPathChar(tail[0])
    ensures ArrayCrate[0] != '&' && BufferCrate[0] != '&'
  {
    if Text.StartsWith(tail, PrimitiveHead) { assert tail[..|PrimitiveHead|][0] == tail[0]; }
    if Text.StartsWith(tail, ByteArrayHead) { assert tail[..|ByteArrayHead|][0] == tail[0]; }
    if Text.StartsWith(tail, OffsetHead) { assert tail[..|OffsetHead|][0] == tail[0]; }
  }

  // ---------------------------------------------------------------------------
  // Scan and expression agree

  lemma WholeMatchScanSound(t: ArrowType, s: string)
    requires WholeMatchScan(t, s)
    ensures WholeMatch(t, s)
  {
    var crate := CrateOf(t);
    var tail := QualifiedTail(s, crate).value;
    var a, p := QualifiedTailParts(s, crate);
    match t
    case PrimitiveArray =>
      var x := BracketedParts(tail, PrimitiveHead);
      Regroup(a, crate, p, PrimitiveHead, x, ">");
    case OffsetBuffer =>
      var x := BracketedParts(tail, OffsetHead);
      Regroup(a, crate, p, OffsetHead, x, ">");
    case BooleanBuffer =>
    case StringArray =>
      var x, y := StringTailParts(tail);
      RegroupString(a, crate, p, ByteArrayHead, x, StringTypeHead, y, ">>");
  }

  lemma WholeMatchScanComplete(t: ArrowType, s: string)
    requires WholeMatch(t, s)
    ensures WholeMatchScan(t, s)
  {
    match t
    case PrimitiveArray => PrimitiveScanComplete(s);
    case OffsetBuffer => OffsetScanComplete(s);
    case BooleanBuffer => BooleanScanComplete(s);
    case StringArray => StringScanComplete(s);
  }

  lemma PrimitiveScanComplete(s: string)
    requires WholeMatch(PrimitiveArray, s)
    ensures WholeMatchScan(PrimitiveArray, s)
  {
    var a, p, x :| Ampersands(a) && IsModulePath(p) && AnyText(x)
                   && s == a + ArrayCrate + p + PrimitiveHead + x + ">";
    var tail := PrimitiveHead + x + ">";
    Regroup(a, ArrayCrate, p, PrimitiveHead, x, ">");
    TypeNamesStartOutsidePaths(tail);
    BracketedOf(PrimitiveHead, x);
    ScanFromParts(PrimitiveArray, s, a, p, tail);
  }

  lemma OffsetScanComplete(s: string)
    requires WholeMatch(OffsetBuffer, s)
    ensures WholeMatchScan(OffsetBuffer, s)
  {
    var a, p, x :| Ampersands(a) && IsModulePath(p) && AnyText(x)
                   && s == a + BufferCrate + p + OffsetHead + x + ">";
    var tail := OffsetHead + x + ">";
    Regroup(a, BufferCrate, p, OffsetHead, x, ">");
    TypeNamesStartOutsidePaths(tail);
    BracketedOf(OffsetHead, x);
    ScanFromParts(OffsetBuffer, s, a, p, tail);
  }

  lemma ScanFromParts(t: ArrowType, s: string, a: string, p: string, tail: string)
    requires t != Unknown && Ampersands(a) && IsModulePath(p) && s == a + CrateOf(t) + p + tail
    requires |tail| >= 1 && !IsPathChar(tail[0]) && TailMatches(t, tail)
    requires CrateOf(t)[0] != '&'
    ensures WholeMatchScan(t, s)
  {
    QualifiedTailOf(a, CrateOf(t), p, tail);
  }

  lemma BooleanScanComplete(s: string)
    requires WholeMatch(BooleanBuffer, s)
    ensures WholeMatchScan(BooleanBuffer, s)
  {
    var a, p :| Ampersands(a) && IsModulePath(p) && s == a + BufferCrate + p + BooleanName;
    TypeNamesStartOutsidePaths(BooleanName);
    ScanFromParts(BooleanBuffer, s, a, p, BooleanName);
  }

  lemma StringScanComplete(s: string)
    requires WholeMatch(StringArray, s)
    ensures WholeMatchScan(StringArray, s)
  {
    var a, p, x, y :| Ampersands(a) && IsModulePath(p) && AnyText(x) && AnyText(y)
                      && s == a + ArrayCrate + p + ByteArrayHead + x + StringTypeHead + y + ">>";
    var tail := ByteArrayHead + (x + StringTypeHead + y) + ">>";
    RegroupString(a, ArrayCrate, p, ByteArrayHead, x, StringTypeHead, y, ">>");
    TypeNamesStartOutsidePaths(tail);
    StringTailOf(x, y);
    ScanFromParts(StringArray, s, a, p, tail);
  }

  /** The classifier's scan is exactly Python's `regex.match` for each pattern. */
  lemma MatchesIsRegex(t: ArrowType, s: string)
    ensures Matches(t, s) <==> RegexMatch(t, s)
  {
    if WholeMatchScan(t, s) { WholeMatchScanSound(t, s); }
    if WholeMatch(t, s) { WholeMatchScanComplete(t, s); }
    if |s| >= 1 {
      var s' := s[..|s| - 1];
      if WholeMatchScan(t, s') { WholeMatchScanSound(t, s'); }
      if WholeMatch(t, s') { WholeMatchScanComplete(t, s'); }
    }
  }

  lemma MatchesIsRegexAll(s: string)
    ensures forall t :: Matches(t, s) <==> RegexMatch(t, s)
  {
    forall t ensures Matches(t, s) <==> RegexMatch(t, s) {
      MatchesIsRegex(t, s);
    }
  }

  // ---------------------------------------------------------------------------
  // Disjointness

  /** A name a pattern matches up to its end ends in `>` or `r`, never in a newline. */
  lemma ScanEndsInTypeName(t: ArrowType, s: string)
    requires WholeMatchScan(t, s)
    ensures |s| >= 1 && s[|s| - 1] != '\n'
  {
    var tail := QualifiedTail(s, CrateOf(t)).value;
    assert tail[|tail| - 1] == s[|s| - 1];
    if t == BooleanBuffer {
      assert tail[|tail| - 1] == BooleanName[12];
    }
  }

  lemma CrateStart(u: string, crate: string)
    requires |crate| > 6
    ensures Text.StartsWith(u, crate) ==> u[6] == crate[6]
  {
    if Text.StartsWith(u, crate) {
      assert u[..|crate|][6] == u[6];
    }
  }

  lemma CratesExclusive(u: string)
    ensures !(Text.StartsWith(u, ArrayCrate) && Text.StartsWith(u, BufferCrate))
  {
    CrateStart(u, ArrayCrate);
    CrateStart(u, BufferCrate);
    assert ArrayCrate[6] != BufferCrate[6];
  }

  /** The first character of the type name each pattern expects. */
  function Initial(t: ArrowType): char {
    match t
    case Unknown => '?'
    case PrimitiveArray => PrimitiveHead[0]
    case StringArray => ByteArrayHead[0]
    case BooleanBuffer => BooleanName[0]
    case OffsetBuffer => OffsetHead[0]
  }

  lemma TailStart(t: ArrowType, tail: string)
    ensures TailMatches(t, tail) ==> |tail| >= 1 && tail[0] == Initial(t)
  {
    if TailMatches(t, tail) {
      match t
      case PrimitiveArray => assert tail[..|PrimitiveHead|][0] == tail[0];
      case StringArray => assert tail[..|ByteArrayHead|][0] == tail[0];
      case BooleanBuffer =>
      case OffsetBuffer => assert tail[..|OffsetHead|][0] == tail[0];
    }
  }

  lemma TailsExclusive(t: ArrowType, u: ArrowType, tail: string)
    requires t != u
    ensures !(TailMatches(t, tail) && TailMatches(u, tail))
  {
    TailStart(t, tail);
    TailStart(u, tail);
    assert t == Unknown || u == Unknown || Initial(t) != Initial(u);
  }

  lemma ScansDisjoint(t: ArrowType, u: ArrowType, s: string)
    requires t != u
    ensures !(WholeMatchScan(t, s) && WholeMatchScan(u, s))
  {
    CratesExclusive(Text.StripLeading(s, '&'));
    ScanStartsWithCrate(t, s);
    ScanStartsWithCrate(u, s);
    var r := QualifiedTail(s, CrateOf(t));
    if CrateOf(t) == CrateOf(u) && r.Some? {
      TailsExclusive(t, u, r.value);
    }
  }

  lemma ScanStartsWithCrate(t: ArrowType, s: string)
    ensures WholeMatchScan(t, s) ==> Text.StartsWith(Text.StripLeading(s, '&'), CrateOf(t))
  {
  }

  /** No name matches two patterns, so the order in which they are tried does
      not matter. */
  lemma PatternsDisjoint(t: ArrowType, u: ArrowType, s: string)
    requires t != u
    ensures !(Matches(t, s) && Matches(u, s))
  {
    ScansDisjoint(t, u, s);
    if WholeMatchScan(t, s) { ScanEndsInTypeName(t, s); }
    if WholeMatchScan(u, s) { ScanEndsInTypeName(u, s); }
    if |s| >= 1 {
      ScansDisjoint(t, u, s[..|s| - 1]);
    }
  }

  lemma PatternsDisjointAll(s: string)
    ensures forall t, u :: t != u && Matches(t, s) ==> !Matches(u, s)
  {
    forall t, u | t != u && Matches(t, s) ensures !Matches(u, s) {
      PatternsDisjoint(t, u, s);
    }
  }

  /** Trying the four patterns in any order that includes each of them gives
      the same tag as the source's order. */
  lemma AnyOrderClassifiesAlike(order: seq<ArrowType>, name: string)
    requires forall t :: t != Unknown ==> t in order
    ensures FirstMatch(order, name) == FirstMatch(SourceOrder, name)
  {
    var r := FirstMatch(order, name);
    var q := FirstMatch(SourceOrder, name);
    assert forall t :: t != Unknown ==> t in SourceOrder;
    if r != Unknown && q != Unknown && r != q {
      PatternsDisjoint(r, q, name);
    }
  }

  /** A crate followed directly by a name that starts outside `[a-z_:]` has
      no module path, so it has no qualified tail. */
  lemma NoPathNoTail(crate: string, r: string)
    requires |crate| >= 1 && crate[0] != '&' && |r| >= 1 && !IsPathChar(r[0])
    ensures QualifiedTail(crate + r, crate).None?
  {
    var s := crate + r;
    StripAmpersandsOf("", s);
    assert "" + s == s;
    assert s[..|crate|] == crate;
    assert s[|crate|..] == r;
    assert Text.PrefixWhile(r, IsPathChar) == 0;
    assert !ScanPath(r[..0]);
  }

  /** A split exists only when the name, without its ampersands, starts
      with the crate. */
  lemma QualifiedTailNeedsCrate(s: string, crate: string)
    requires QualifiedTail(s, crate).Some?
    ensures Text.StartsWith(Text.StripLeading(s, '&'), crate)
  {
  }

  /** A name that starts with one crate has no qualified tail for a crate
      that differs from it at position `k`. */
  lemma OtherCrateNoTail(crate: string, other: string, r: string, k: nat)
    requires |crate| >= 1 && crate[0] != '&' && k < |crate| && k < |other| && crate[k] != other[k]
    ensures QualifiedTail(crate + r, other).None?
  {
    var s := crate + r;
    StripAmpersandsOf("", s);
    assert "" + s == s;
    assert s[k] == crate[k];
    assert !Text.StartsWith(s, other) by {
      if |s| >= |other| { assert s[..|other|][k] == s[k]; }
    }
    if QualifiedTail(s, other).Some? {
      QualifiedTailNeedsCrate(s, other);
      assert false;
    }
  }

  /** No pattern matches a name whose qualified tails are both missing and
      whose last character is not a newline. */
  lemma NoTailNoMatch(s: string)
    requires QualifiedTail(s, ArrayCrate).None? && QualifiedTail(s, BufferCrate).None?
    requires |s| >= 1 && s[|s| - 1] != '\n'
    ensures forall t :: !Matches(t, s)
  {
  }

  /** The crate followed directly by a type name, with no module path in
      between, matches no pattern: `arrow_array::PrimitiveArray<X>` is
      unknown whatever its fields. */
  lemma CrateWithoutPathIsUnknown(r: string, fields: seq<string>)
    requires |r| >= 1 && !IsPathChar(r[0]) && r[|r| - 1] != '\n'
    ensures Classify(ArrayCrate + r, fields) == Unknown
  {
    ArrayCrateWithoutPathHasNoTail(r);
    LastOfConcat(ArrayCrate, r);
    NoTailNoMatch(ArrayCrate + r);
    NoMatchIsUnknown(ArrayCrate + r, fields);
  }

  lemma ArrayCrateWithoutPathHasNoTail(r: string)
    requires |r| >= 1 && !IsPathChar(r[0])
    ensures QualifiedTail(ArrayCrate + r, ArrayCrate).None?
    ensures QualifiedTail(ArrayCrate + r, BufferCrate).None?
  {
    CrateFacts();
    NoPathNoTail(ArrayCrate, r);
    OtherCrateNoTail(ArrayCrate, BufferCrate, r, 6);
  }

  /** A name that no pattern matches is classified `Unknown`. */
  lemma NoMatchIsUnknown(s: string, fields: seq<string>)
    requires forall t :: !Matches(t, s)
    ensures Classify(s, fields) == Unknown
  {
    MatchesIsRegexAll(s);
  }

  // ---------------------------------------------------------------------------
  // Solver steps
  //
  // Facts Dafny can prove alone but that, left inside the larger proofs above,
  // drag in the definitions of the scan and the literal crate names and make
  // those proofs slow. Stating each once here keeps every proof small.

  /** What a successful split consists of: the stripped name starts with the
      crate, and the maximal `[a-z_:]` run after it is a module path whose
      remainder is the tail. */
  lemma QualifiedTailFacts(s: string, crate: string, u: string, rest: string, n: nat)
    requires QualifiedTail(s, crate).Some?
    requires u == Text.StripLeading(s, '&')
    requires Text.StartsWith(u, crate) ==> rest == u[|crate|..] && n == Text.PrefixWhile(rest, IsPathChar)
    ensures Text.StartsWith(u, crate) && n <= |rest|
    ensures ScanPath(rest[..n]) && QualifiedTail(s, crate).value == rest[n..]
  {
  }

  lemma SplitAt(x: string, n: nat)
    requires n <= |x|
    ensures x == x[..n] + x[n..]
  {
  }

  lemma Regroup3(a: string, crate: string, p: string, tail: string)
    ensures a + (crate + (p + tail)) == a + crate + p + tail
  {
  }

  lemma AmpersandPrefix(s: string, a: string, u: string)
    requires u == Text.StripLeading(s, '&') && a == s[..|s| - |u|]
    ensures Ampersands(a) && s == a + u
  {
  }

  lemma Regroup(a: string, crate: string, p: string, head: string, x: string, close: string)
    ensures a + crate + p + (head + x + close) == a + crate + p + head + x + close
  {
  }

  lemma RegroupString(a: string, crate: string, p: string, head: string, x: string, mid: string, y: string, close: string)
    ensures a + crate + p + (head + (x + mid + y) + close) == a + crate + p + head + x + mid + y + close
  {
  }

  /** The two crate names start outside `&` and differ at position 6. */
  lemma CrateFacts()
    ensures |ArrayCrate| > 6 && |BufferCrate| > 6
    ensures ArrayCrate[0] != '&' && ArrayCrate[6] != BufferCrate[6]
  {
  }

  lemma LastOfConcat(x: string, y: string)
    requires |y| >= 1
    ensures |x + y| >= 1 && (x + y)[|x + y| - 1] == y[|y| - 1]
  {
  }
}
