/**
 * The agentschema tag parser (toolschema/schema.go ParseAgentschema, parseEnumLiteral) and the printer its
 * grammar implies (toolschema/README.md), with the laws that connect the two. Regular expressions and
 * floating-point text are parameters; a number is a real.
 */
module AgentSchema {
  import opened Text
  import opened AgentSchemaSegments

  /** regexp.Compile succeeds; strconv.ParseFloat and a way to print what it reads. */
  datatype Library = Library(compiles: string -> bool, parseFloat: string -> Option<real>, formatFloat: real -> string)

  datatype Constraints = Constraints(
    minLength: Option<int>, maxLength: Option<int>, minimum: Option<real>, maximum: Option<real>,
    pattern: string, format: string, enumValues: seq<string>, defaultText: Option<string>)

  const UNCONSTRAINED := Constraints(None, None, None, None, "", "", [], None)

  datatype Failure =
    | InvalidSegment(segment: string)
    | MissingValue(key: string)
    | NotAnInteger(key: string, text: string)
    | NotANumber(key: string, text: string)
    | BadPattern(text: string)
    | NoEnumValues
    | UnsupportedKey(key: string)

  /** The struct is returned with an error too: as filled before the segment that failed. */
  datatype Parsed = Ok(constraints: Constraints) | Err(constraints: Constraints, failure: Failure)

  function EnumValues(val: string): seq<string> {
    NonBlank(Split(val, ','))
  }

  datatype Key = MinLengthKey | MaxLengthKey | MinimumKey | MaximumKey | PatternKey | FormatKey | EnumKey | DefaultKey

  function KeyOf(name: string): Option<Key> {
    match name
    case "minLength" => Some(MinLengthKey)
    case "maxLength" => Some(MaxLengthKey)
    case "minimum" => Some(MinimumKey)
    case "maximum" => Some(MaximumKey)
    case "pattern" => Some(PatternKey)
    case "format" => Some(FormatKey)
    case "enum" => Some(EnumKey)
    case "default" => Some(DefaultKey)
    case _ => None
  }

  function SetKey(lib: Library, c: Constraints, k: Key, name: string, val: string): Parsed {
    match k
    case MinLengthKey => if Atoi(val).Some? then Ok(c.(minLength := Atoi(val))) else Err(c, NotAnInteger(name, val))
    case MaxLengthKey => if Atoi(val).Some? then Ok(c.(maxLength := Atoi(val))) else Err(c, NotAnInteger(name, val))
    case MinimumKey =>
      if lib.parseFloat(val).Some? then Ok(c.(minimum := lib.parseFloat(val))) else Err(c, NotANumber(name, val))
    case MaximumKey =>
      if lib.parseFloat(val).Some? then Ok(c.(maximum := lib.parseFloat(val))) else Err(c, NotANumber(name, val))
    case PatternKey => if lib.compiles(val) then Ok(c.(pattern := val)) else Err(c, BadPattern(val))
    case FormatKey => Ok(c.(format := val))
    case EnumKey => if EnumValues(val) != [] then Ok(c.(enumValues := EnumValues(val))) else Err(c, NoEnumValues)
    case DefaultKey => Ok(c.(defaultText := Some(val)))
  }

  function SetValue(lib: Library, c: Constraints, name: string, val: string): Parsed {
    if KeyOf(name).None? then Err(c, UnsupportedKey(name)) else SetKey(lib, c, KeyOf(name).value, name, val)
  }

  function ParseSegment(lib: Library, c: Constraints, segment: string): Parsed {
    var (before, after, found) := Cut(segment, '=');
    if !found then Err(c, InvalidSegment(segment))
    else if TrimSpace(after) == "" then Err(c, MissingValue(TrimSpace(before)))
    else SetValue(lib, c, TrimSpace(before), TrimSpace(after))
  }

  /** One segment after the other; the first failure ends it. */
  function ParseAll(lib: Library, segments: seq<string>): Parsed {
    if segments == [] then Ok(UNCONSTRAINED)
    else
      var r := ParseAll(lib, segments[..|segments| - 1]);
      if r.Err? then r else ParseSegment(lib, r.constraints, segments[|segments| - 1])
  }

  function Parse(lib: Library, tag: string): Parsed {
    if TrimSpace(tag) == "" then Ok(UNCONSTRAINED) else ParseAll(lib, Merged(TrimSpace(tag)))
  }

  lemma {:induction false} FailureStays(lib: Library, segments: seq<string>, n: nat)
    requires n <= |segments| && ParseAll(lib, segments[..n]).Err?
    ensures ParseAll(lib, segments) == ParseAll(lib, segments[..n])
    decreases |segments| - n
  {
    if n == |segments| {
      assert segments[..n] == segments;
    } else {
      assert segments[..n + 1][..n] == segments[..n];
      FailureStays(lib, segments, n + 1);
    }
  }

  lemma ParseNext(lib: Library, segments: seq<string>, i: nat, c: Constraints)
    requires i < |segments| && ParseAll(lib, segments[..i]) == Ok(c)
    ensures ParseAll(lib, segments[..i + 1]) == ParseSegment(lib, c, segments[i])
    ensures ParseSegment(lib, c, segments[i]).Err? ==> ParseAll(lib, segments) == ParseSegment(lib, c, segments[i])
  {
    assert segments[..i + 1][..i] == segments[..i];
    if ParseSegment(lib, c, segments[i]).Err? { FailureStays(lib, segments, i + 1); }
  }

  /** The loop over the segments. */
  method ParseSegments(lib: Library, segments: seq<string>) returns (r: Parsed)
    ensures r == ParseAll(lib, segments)
  {
    r := Ok(UNCONSTRAINED);
    for i := 0 to |segments|
      invariant r.Ok? && ParseAll(lib, segments[..i]) == r
    {
      ParseNext(lib, segments, i, r.constraints);
      var (before, after, found) := Cut(segments[i], '=');
      var key, val := TrimSpace(before), TrimSpace(after);
      r := if !found then Err(r.constraints, InvalidSegment(segments[i]))
           else if val == "" then Err(r.constraints, MissingValue(key))
           else SetValue(lib, r.constraints, key, val);
      if r.Err? {
        return;
      }
    }
    assert segments[..|segments|] == segments;
  }

  method ParseAgentschema(lib: Library, tag: string) returns (r: Parsed)
    ensures r == Parse(lib, tag)
  {
    var trimmed := TrimSpace(tag);
    if trimmed == "" {
      return Ok(UNCONSTRAINED);
    }
    var merged := MergeSegments(trimmed);
    r := ParseSegments(lib, merged);
  }

  /******* The printer *******/

  datatype Field =
    | MinLength(n: int) | MaxLength(n: int) | Minimum(x: real) | Maximum(x: real)
    | Pattern(text: string) | Format(text: string) | Enum(values: seq<string>) | Default(text: string)

  function Name(f: Field): (name: string)
    ensures name != "" && Trimmed(name) && '=' !in name && ',' !in name
    ensures name == "enum" <==> f.Enum?
  {
    match f
    case MinLength(_) => "minLength"
    case MaxLength(_) => "maxLength"
    case Minimum(_) => "minimum"
    case Maximum(_) => "maximum"
    case Pattern(_) => "pattern"
    case Format(_) => "format"
    case Enum(_) => "enum"
    case Default(_) => "default"
  }

  function ValueText(lib: Library, f: Field): string {
    match f
    case MinLength(n) => Itoa(n)
    case MaxLength(n) => Itoa(n)
    case Minimum(x) => lib.formatFloat(x)
    case Maximum(x) => lib.formatFloat(x)
    case Pattern(t) => t
    case Format(t) => t
    case Enum(vs) => Join(vs, ',')
    case Default(t) => t
  }

  function PrintField(lib: Library, f: Field): string {
    Name(f) + "=" + ValueText(lib, f)
  }

  function Printed(lib: Library, fields: seq<Field>): (segments: seq<string>)
    ensures |segments| == |fields|
    ensures forall i :: 0 <= i < |fields| ==> segments[i] == PrintField(lib, fields[i])
  {
    seq(|fields|, i requires 0 <= i < |fields| => PrintField(lib, fields[i]))
  }

  function Print(lib: Library, fields: seq<Field>): string {
    Join(Printed(lib, fields), ',')
  }

  /** What can be written as a value: not blank, no space around it, no comma. */
  predicate Clean(v: string) {
    v != "" && Trimmed(v) && ',' !in v
  }

  ghost predicate CleanValues(vs: seq<string>) {
    vs != [] && forall i :: 0 <= i < |vs| ==> Clean(vs[i])
  }

  /** No enum value after the first holds a '='. */
  ghost predicate NoEquals(vs: seq<string>) {
    forall i :: 1 <= i < |vs| ==> '=' !in vs[i]
  }

  ghost predicate Valid(lib: Library, f: Field) {
    match f
    case MinLength(n) => MIN_INT64 <= n <= MAX_INT64
    case MaxLength(n) => MIN_INT64 <= n <= MAX_INT64
    case Minimum(x) => Clean(lib.formatFloat(x)) && lib.parseFloat(lib.formatFloat(x)) == Some(x)
    case Maximum(x) => Clean(lib.formatFloat(x)) && lib.parseFloat(lib.formatFloat(x)) == Some(x)
    case Pattern(t) => Clean(t) && lib.compiles(t)
    case Format(t) => Clean(t)
    case Enum(vs) => CleanValues(vs) && NoEquals(vs)
    case Default(t) => Clean(t)
  }

  ghost predicate AllValid(lib: Library, fields: seq<Field>) {
    forall i :: 0 <= i < |fields| ==> Valid(lib, fields[i])
  }

  function With(c: Constraints, f: Field): Constraints {
    match f
    case MinLength(n) => c.(minLength := Some(n))
    case MaxLength(n) => c.(maxLength := Some(n))
    case Minimum(x) => c.(minimum := Some(x))
    case Maximum(x) => c.(maximum := Some(x))
    case Pattern(t) => c.(pattern := t)
    case Format(t) => c.(format := t)
    case Enum(vs) => c.(enumValues := vs)
    case Default(t) => c.(defaultText := Some(t))
  }

  function Collect(fields: seq<Field>): Constraints {
    if fields == [] then UNCONSTRAINED else With(Collect(fields[..|fields| - 1]), fields[|fields| - 1])
  }

  lemma ItoaClean(n: int)
    ensures Clean(Itoa(n))
  {
    ItoaTrimmed(n);
  }

  lemma EnumValuesJoin(vs: seq<string>)
    requires CleanValues(vs)
    ensures EnumValues(Join(vs, ',')) == vs
    ensures Join(vs, ',') != "" && Trimmed(Join(vs, ','))
  {
    SplitJoin(vs, ',');
    NonBlankIdentity(vs);
    JoinTrimmed(vs, ',');
  }

  lemma ValueTextTrimmed(lib: Library, f: Field)
    requires Valid(lib, f)
    ensures ValueText(lib, f) != "" && Trimmed(ValueText(lib, f))
    ensures !f.Enum? ==> Clean(ValueText(lib, f))
  {
    match f
    case MinLength(n) => ItoaClean(n);
    case MaxLength(n) => ItoaClean(n);
    case Enum(vs) => EnumValuesJoin(vs);
    case _ =>
  }

  function KeyFor(f: Field): Key {
    match f
    case MinLength(_) => MinLengthKey
    case MaxLength(_) => MaxLengthKey
    case Minimum(_) => MinimumKey
    case Maximum(_) => MaximumKey
    case Pattern(_) => PatternKey
    case Format(_) => FormatKey
    case Enum(_) => EnumKey
    case Default(_) => DefaultKey
  }

  lemma KeyOfName(f: Field)
    ensures KeyOf(Name(f)) == Some(KeyFor(f))
  {}

  lemma SetInteger(lib: Library, c: Constraints, name: string, n: int)
    requires MIN_INT64 <= n <= MAX_INT64
    ensures SetKey(lib, c, MinLengthKey, name, Itoa(n)) == Ok(c.(minLength := Some(n)))
    ensures SetKey(lib, c, MaxLengthKey, name, Itoa(n)) == Ok(c.(maxLength := Some(n)))
  {
    AtoiItoa(n);
  }

  lemma SetEnum(lib: Library, c: Constraints, name: string, vs: seq<string>)
    requires CleanValues(vs)
    ensures SetKey(lib, c, EnumKey, name, Join(vs, ',')) == Ok(c.(enumValues := vs))
  {
    EnumValuesJoin(vs);
  }

  lemma SetPrinted(lib: Library, c: Constraints, f: Field, name: string)
    requires Valid(lib, f)
    ensures SetKey(lib, c, KeyFor(f), name, ValueText(lib, f)) == Ok(With(c, f))
  {
    match f
    case MinLength(n) => SetInteger(lib, c, name, n);
    case MaxLength(n) => SetInteger(lib, c, name, n);
    case Enum(vs) => SetEnum(lib, c, name, vs);
    case _ =>
  }

  lemma ParsePrintedField(lib: Library, c: Constraints, f: Field)
    requires Valid(lib, f)
    ensures ParseSegment(lib, c, PrintField(lib, f)) == Ok(With(c, f))
  {
    CutAt(Name(f), '=', ValueText(lib, f));
    ValueTextTrimmed(lib, f);
    SetPrinted(lib, c, f, Name(f));
    KeyOfName(f);
  }

  lemma {:induction false} ParsePrintedFields(lib: Library, fields: seq<Field>)
    requires AllValid(lib, fields)
    ensures ParseAll(lib, Printed(lib, fields)) == Ok(Collect(fields))
  {
    if fields != [] {
      var n := |fields| - 1;
      ParsePrintedFields(lib, fields[..n]);
      assert Printed(lib, fields)[..n] == Printed(lib, fields[..n]);
      ParsePrintedField(lib, Collect(fields[..n]), fields[n]);
    }
  }

  /******* Printed fields are cut into the same segments again *******/

  /** The pieces a printed field is cut into at its commas. */
  function Group(lib: Library, f: Field): seq<string> {
    if f.Enum? && f.values != [] then ["enum=" + f.values[0]] + f.values[1..] else [PrintField(lib, f)]
  }

  ghost predicate CleanPieces(pieces: seq<string>) {
    forall i :: 0 <= i < |pieces| ==> Clean(pieces[i])
  }

  lemma CleanPair(name: string, text: string)
    requires name != "" && Trimmed(name) && ',' !in name && Clean(text)
    ensures Clean(name + "=" + text)
  {
    PrefixKeepsTrimmed(name + "=", text);
  }

  lemma JoinFirst(prefix: string, vs: seq<string>, sep: char)
    requires vs != []
    ensures Join([prefix + vs[0]] + vs[1..], sep) == prefix + Join(vs, sep)
  {
    var ws := [prefix + vs[0]] + vs[1..];
    assert ws[1..] == vs[1..];
    if |vs| > 1 {
      assert Join(ws, sep) == (prefix + vs[0]) + [sep] + Join(vs[1..], sep);
      assert Join(vs, sep) == vs[0] + [sep] + Join(vs[1..], sep);
      assert (prefix + vs[0]) + [sep] + Join(vs[1..], sep) == prefix + (vs[0] + [sep] + Join(vs[1..], sep));
    }
  }

  lemma EnumGroup(vs: seq<string>)
    requires CleanValues(vs)
    ensures var g := ["enum=" + vs[0]] + vs[1..];
      CleanPieces(g) && Join(g, ',') == "enum=" + Join(vs, ',') && (NoEquals(vs) ==> IsGroup(g))
  {
    CleanPair("enum", vs[0]);
    JoinFirst("enum=", vs, ',');
    assert ("enum=" + vs[0])[4] == '=' && ("enum=" + vs[0])[..5] == "enum=";
  }

  lemma GroupOfField(lib: Library, f: Field)
    requires Valid(lib, f)
    ensures IsGroup(Group(lib, f)) && CleanPieces(Group(lib, f)) && Join(Group(lib, f), ',') == PrintField(lib, f)
  {
    if f.Enum? {
      EnumGroup(f.values);
      assert "enum" + "=" == "enum=";
    } else {
      ValueTextTrimmed(lib, f);
      CleanPair(Name(f), ValueText(lib, f));
      assert PrintField(lib, f)[|Name(f)|] == '=';
    }
  }

  function GroupsOf(lib: Library, fields: seq<Field>): (groups: seq<seq<string>>)
    ensures |groups| == |fields| && forall i :: 0 <= i < |fields| ==> groups[i] == Group(lib, fields[i])
  {
    seq(|fields|, i requires 0 <= i < |fields| => Group(lib, fields[i]))
  }

  lemma {:induction false} FlattenClean(groups: seq<seq<string>>)
    requires forall i :: 0 <= i < |groups| ==> CleanPieces(groups[i])
    ensures CleanPieces(Flatten(groups))
  {
    if groups != [] { FlattenClean(groups[..|groups| - 1]); }
  }

  /** Clean pieces joined are cut into themselves. */
  lemma PiecesOfJoin(pieces: seq<string>)
    requires pieces != [] && CleanPieces(pieces)
    ensures Pieces(Join(pieces, ',')) == pieces
    ensures Join(pieces, ',') != "" && TrimSpace(Join(pieces, ',')) == Join(pieces, ',')
  {
    SplitJoin(pieces, ',');
    NonBlankIdentity(pieces);
    JoinTrimmed(pieces, ',');
  }

  lemma MergePrinted(lib: Library, fields: seq<Field>)
    requires AllValid(lib, fields) && fields != []
    ensures var tag := Print(lib, fields); tag != "" && TrimSpace(tag) == tag && Merged(tag) == Printed(lib, fields)
  {
    var groups := GroupsOf(lib, fields);
    forall i | 0 <= i < |fields|
      ensures IsGroup(groups[i]) && CleanPieces(groups[i]) && Join(groups[i], ',') == PrintField(lib, fields[i])
    {
      GroupOfField(lib, fields[i]);
    }
    JoinSegments(groups);
    FlattenClean(groups);
    assert Segments(groups) == Printed(lib, fields);
    PiecesOfJoin(Flatten(groups));
    MergeFlatten(groups);
  }

  /** Parsing what was printed gives back the fields, later ones of a kind over earlier ones. */
  lemma ParsePrint(lib: Library, fields: seq<Field>)
    requires AllValid(lib, fields)
    ensures Parse(lib, Print(lib, fields)) == Ok(Collect(fields))
  {
    if fields == [] {
      assert Print(lib, fields) == "";
    } else {
      MergePrinted(lib, fields);
      ParsePrintedFields(lib, fields);
    }
  }
}
