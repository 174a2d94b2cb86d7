/** The laws of the agentschema grammar: round trips, order, and the normal form (toolschema/schema.go:35-140). */
module AgentSchemaLaws {
  import opened Text
  import opened AgentSchemaSegments
  import opened AgentSchema

  /******* Printing a constraint set in any order and parsing it gives it back *******/

  function IntField(v: Option<int>, make: int -> Field): seq<Field> {
    if v.Some? then [make(v.value)] else []
  }

  function RealField(v: Option<real>, make: real -> Field): seq<Field> {
    if v.Some? then [make(v.value)] else []
  }

  function FieldsOf(c: Constraints): seq<Field> {
    IntField(c.minLength, n => MinLength(n)) + IntField(c.maxLength, n => MaxLength(n))
    + RealField(c.minimum, x => Minimum(x)) + RealField(c.maximum, x => Maximum(x))
    + (if c.pattern != "" then [Pattern(c.pattern)] else [])
    + (if c.format != "" then [Format(c.format)] else [])
    + (if c.enumValues != [] then [Enum(c.enumValues)] else [])
    + (if c.defaultText.Some? then [Default(c.defaultText.value)] else [])
  }

  predicate Has(c: Constraints, f: Field) {
    match f
    case MinLength(n) => c.minLength == Some(n)
    case MaxLength(n) => c.maxLength == Some(n)
    case Minimum(x) => c.minimum == Some(x)
    case Maximum(x) => c.maximum == Some(x)
    case Pattern(t) => t != "" && c.pattern == t
    case Format(t) => t != "" && c.format == t
    case Enum(vs) => vs != [] && c.enumValues == vs
    case Default(t) => c.defaultText == Some(t)
  }

  lemma FieldsOfHas(c: Constraints, f: Field)
    ensures f in FieldsOf(c) <==> Has(c, f)
  {
    var a := IntField(c.minLength, n => MinLength(n));
    var b := IntField(c.maxLength, n => MaxLength(n));
    var d := RealField(c.minimum, x => Minimum(x));
    var e := RealField(c.maximum, x => Maximum(x));
    assert f in a <==> f.MinLength? && Has(c, f);
    assert f in b <==> f.MaxLength? && Has(c, f);
    assert f in d <==> f.Minimum? && Has(c, f);
    assert f in e <==> f.Maximum? && Has(c, f);
  }

  lemma {:induction false} CollectFrom(fields: seq<Field>, f: Field)
    requires Has(Collect(fields), f)
    ensures f in fields
  {
    if fields != [] && fields[|fields| - 1] != f {
      CollectFrom(fields[..|fields| - 1], f);
    }
  }

  lemma {:induction false} CollectKeeps(fields: seq<Field>, f: Field)
    requires f in fields && Has(With(UNCONSTRAINED, f), f)
    requires forall g :: g in fields && Name(g) == Name(f) ==> g == f
    ensures Has(Collect(fields), f)
  {
    var n := |fields| - 1;
    if fields[n] != f {
      assert f in fields[..n];
      CollectKeeps(fields[..n], f);
      assert fields[n] in fields;
    }
  }

  lemma SameConstraints(c: Constraints, d: Constraints)
    requires forall f :: Has(c, f) <==> Has(d, f)
    ensures c == d
  {
    assert c.minLength.Some? ==> Has(c, MinLength(c.minLength.value));
    assert d.minLength.Some? ==> Has(d, MinLength(d.minLength.value));
    assert c.maxLength.Some? ==> Has(c, MaxLength(c.maxLength.value));
    assert d.maxLength.Some? ==> Has(d, MaxLength(d.maxLength.value));
    assert c.minimum.Some? ==> Has(c, Minimum(c.minimum.value));
    assert d.minimum.Some? ==> Has(d, Minimum(d.minimum.value));
    assert c.maximum.Some? ==> Has(c, Maximum(c.maximum.value));
    assert d.maximum.Some? ==> Has(d, Maximum(d.maximum.value));
    assert c.pattern != "" ==> Has(c, Pattern(c.pattern));
    assert d.pattern != "" ==> Has(d, Pattern(d.pattern));
    assert c.format != "" ==> Has(c, Format(c.format));
    assert d.format != "" ==> Has(d, Format(d.format));
    assert c.enumValues != [] ==> Has(c, Enum(c.enumValues));
    assert d.enumValues != [] ==> Has(d, Enum(d.enumValues));
    assert c.defaultText.Some? ==> Has(c, Default(c.defaultText.value));
    assert d.defaultText.Some? ==> Has(d, Default(d.defaultText.value));
  }

  lemma HasOnePerName(c: Constraints, f: Field, g: Field)
    requires Has(c, f) && Has(c, g) && Name(f) == Name(g)
    ensures f == g
  {}

  lemma CollectArranged(c: Constraints, fields: seq<Field>)
    requires forall f :: f in fields <==> f in FieldsOf(c)
    ensures Collect(fields) == c
  {
    forall f ensures Has(Collect(fields), f) <==> Has(c, f) {
      FieldsOfHas(c, f);
      if Has(Collect(fields), f) { CollectFrom(fields, f); }
      if Has(c, f) {
        forall g | g in fields && Name(g) == Name(f) ensures g == f {
          FieldsOfHas(c, g);
          HasOnePerName(c, f, g);
        }
        CollectKeeps(fields, f);
      }
    }
    SameConstraints(Collect(fields), c);
  }

  ghost predicate ValidConstraints(lib: Library, c: Constraints) {
    AllValid(lib, FieldsOf(c))
  }

  /** Every arrangement of the fields of a constraint set, printed and parsed, gives the set back. */
  lemma PrintAnyOrderThenParse(lib: Library, c: Constraints, fields: seq<Field>)
    requires ValidConstraints(lib, c)
    requires forall f :: f in fields <==> f in FieldsOf(c)
    ensures Parse(lib, Print(lib, fields)) == Ok(c)
  {
    forall i | 0 <= i < |fields| ensures Valid(lib, fields[i]) {
      assert fields[i] in fields;
      var j :| 0 <= j < |FieldsOf(c)| && FieldsOf(c)[j] == fields[i];
    }
    ParsePrint(lib, fields);
    CollectArranged(c, fields);
  }

  /** So a tag determines its constraints and a constraint set its tag up to order: printing is injective. */
  lemma PrintInjective(lib: Library, c: Constraints, d: Constraints)
    requires ValidConstraints(lib, c) && ValidConstraints(lib, d)
    ensures Print(lib, FieldsOf(c)) == Print(lib, FieldsOf(d)) <==> c == d
  {
    PrintAnyOrderThenParse(lib, c, FieldsOf(c));
    PrintAnyOrderThenParse(lib, d, FieldsOf(d));
  }

  /******* The normal form *******/

  /** The tag with its segments merged and joined again. */
  function NormalForm(tag: string): string {
    Join(Merged(TrimSpace(tag)), ',')
  }

  /** Writing a tag in normal form changes neither its constraints nor its failure, and the normal form is its own. */
  lemma NormalFormParsesAlike(lib: Library, tag: string)
    ensures Parse(lib, NormalForm(tag)) == Parse(lib, tag)
    ensures NormalForm(NormalForm(tag)) == NormalForm(tag)
  {
    MergedNormalForm(TrimSpace(tag));
    ParseIsParseAll(lib, tag);
    ParseIsParseAll(lib, NormalForm(tag));
  }

  lemma ParseIsParseAll(lib: Library, tag: string)
    ensures Parse(lib, tag) == ParseAll(lib, Merged(TrimSpace(tag)))
  {
    NoPieces();
  }

  lemma NoPieces()
    ensures Pieces("") == [] && Merged("") == [] && TrimSpace("") == "" && Join([], ',') == ""
  {
    assert Split("", ',') == [""];
  }

  /** The normal form is trimmed and has the same segments. */
  lemma MergedNormalForm(t: string)
    ensures var n := Join(Merged(t), ','); TrimSpace(n) == n && Merged(n) == Merged(t)
  {
    var pieces := Pieces(t);
    if Merge(pieces).Stray? {
      MergeMakesGroups(pieces);
      PieceAlone(Merge(pieces).piece);
    } else if pieces == [] {
      NoPieces();
    } else {
      GroupsNormalForm(t);
    }
  }

  lemma GroupsNormalForm(t: string)
    requires Pieces(t) != [] && Merge(Pieces(t)).Groups?
    ensures var n := Join(Merged(t), ','); TrimSpace(n) == n && Merged(n) == Merged(t)
  {
    var pieces := Pieces(t);
    MergeLosesNothing(t);
    PiecesClean(t);
    PiecesOfJoin(pieces);
    assert Pieces(Join(Merged(t), ',')) == pieces;
  }

  lemma PiecesClean(tag: string)
    ensures CleanPieces(Pieces(tag))
  {
    forall i | 0 <= i < |Pieces(tag)| ensures Clean(Pieces(tag)[i]) { assert Pieces(tag)[i] in Pieces(tag); }
  }

  lemma PieceAlone(p: string)
    requires Clean(p) && '=' !in p
    ensures TrimSpace(p) == p && Pieces(p) == [p] && Merge([p]) == Stray(p)
  {
    PiecesOfJoin([p]);
    assert Join([p], ',') == p;
    MergePush([], p);
    assert [] + [p] == [p];
  }

  /******* What one more piece does, key by key *******/

  /** What the pieces of a tag come to. */
  function ParsePieces(lib: Library, pieces: seq<string>): Parsed {
    ParseAll(lib, SegmentsOf(Merge(pieces)))
  }

  /** Parsing a tag is parsing its pieces, cut at commas, trimmed, blank ones left out. */
  lemma ParseIsParsePieces(lib: Library, tag: string)
    ensures Parse(lib, tag) == ParsePieces(lib, NonBlank(Split(TrimSpace(tag), ',')))
  {
    ParseIsParseAll(lib, tag);
  }

  lemma NoPiecesParse(lib: Library)
    ensures ParsePieces(lib, []) == Ok(UNCONSTRAINED)
  {}

  lemma ParseAllPush(lib: Library, segments: seq<string>, segment: string)
    ensures var r := ParseAll(lib, segments);
      ParseAll(lib, segments + [segment]) == if r.Err? then r else ParseSegment(lib, r.constraints, segment)
  {
    assert (segments + [segment])[..|segments|] == segments;
  }

  lemma SegmentsPush(pieces: seq<string>, g: seq<string>)
    requires Merge(pieces).Groups? && IsGroup(g)
    ensures SegmentsOf(Merge(pieces + g)) == SegmentsOf(Merge(pieces)) + [Join(g, ',')]
  {
    MergeAppendGroup(pieces, g);
  }

  lemma StrayIsInvalid(lib: Library, p: string)
    requires '=' !in p
    ensures ParseAll(lib, [p]) == Err(UNCONSTRAINED, InvalidSegment(p))
  {
    assert [p][..0] == [];
    assert IndexOf(p, '=') == |p|;
  }

  /** After pieces that parse, the pieces of one more segment. */
  lemma OneMoreGroup(lib: Library, pieces: seq<string>, g: seq<string>)
    requires ParsePieces(lib, pieces).Ok? && IsGroup(g)
    ensures ParsePieces(lib, pieces + g) == ParseSegment(lib, ParsePieces(lib, pieces).constraints, Join(g, ','))
  {
    MergeMakesGroups(pieces);
    if Merge(pieces).Stray? { StrayIsInvalid(lib, Merge(pieces).piece); }
    SegmentsPush(pieces, g);
    ParseAllPush(lib, SegmentsOf(Merge(pieces)), Join(g, ','));
  }

  /** The eight keys; no other is supported. */
  lemma KeyOfIs(key: string)
    ensures KeyOf(key) ==
      if key == "minLength" then Some(MinLengthKey) else if key == "maxLength" then Some(MaxLengthKey)
      else if key == "minimum" then Some(MinimumKey) else if key == "maximum" then Some(MaximumKey)
      else if key == "pattern" then Some(PatternKey) else if key == "format" then Some(FormatKey)
      else if key == "enum" then Some(EnumKey) else if key == "default" then Some(DefaultKey) else None
  {}

  lemma SetValueIs(lib: Library, c: Constraints, key: string, val: string)
    ensures KeyOf(key).Some? ==> SetValue(lib, c, key, val) == SetKey(lib, c, KeyOf(key).value, key, val)
    ensures KeyOf(key).None? ==> SetValue(lib, c, key, val) == Err(c, UnsupportedKey(key))
  {}

  /** The constraint each key sets, what it accepts, and the failure it gives otherwise. */
  lemma SetLengthIs(lib: Library, c: Constraints, key: string, val: string)
    ensures SetKey(lib, c, MinLengthKey, key, val)
            == if Atoi(val).Some? then Ok(c.(minLength := Some(Atoi(val).value))) else Err(c, NotAnInteger(key, val))
    ensures SetKey(lib, c, MaxLengthKey, key, val)
            == if Atoi(val).Some? then Ok(c.(maxLength := Some(Atoi(val).value))) else Err(c, NotAnInteger(key, val))
  {}

  lemma SetBoundIs(lib: Library, c: Constraints, key: string, val: string)
    ensures SetKey(lib, c, MinimumKey, key, val)
            == if lib.parseFloat(val).Some? then Ok(c.(minimum := lib.parseFloat(val))) else Err(c, NotANumber(key, val))
    ensures SetKey(lib, c, MaximumKey, key, val)
            == if lib.parseFloat(val).Some? then Ok(c.(maximum := lib.parseFloat(val))) else Err(c, NotANumber(key, val))
  {}

  lemma SetTextIs(lib: Library, c: Constraints, key: string, val: string)
    ensures SetKey(lib, c, PatternKey, key, val) == if lib.compiles(val) then Ok(c.(pattern := val)) else Err(c, BadPattern(val))
    ensures SetKey(lib, c, FormatKey, key, val) == Ok(c.(format := val))
    ensures SetKey(lib, c, DefaultKey, key, val) == Ok(c.(defaultText := Some(val)))
  {}

  lemma SetEnumIs(lib: Library, c: Constraints, key: string, val: string)
    ensures SetKey(lib, c, EnumKey, key, val)
            == if EnumValues(val) != [] then Ok(c.(enumValues := EnumValues(val))) else Err(c, NoEnumValues)
  {}

  lemma EnumValuesAre(val: string)
    ensures EnumValues(val) == NonBlank(Split(val, ','))
  {}

  /** After pieces that parse, one more piece "key=val", with or without space around the '='. */
  lemma OneMorePiece(lib: Library, pieces: seq<string>, key: string, val: string)
    requires ParsePieces(lib, pieces).Ok? && '=' !in key
    ensures var c := ParsePieces(lib, pieces).constraints;
      ParsePieces(lib, pieces + [key + "=" + val])
      == if TrimSpace(val) == "" then Err(c, MissingValue(TrimSpace(key)))
         else SetValue(lib, c, TrimSpace(key), TrimSpace(val))
  {
    var seg := key + "=" + val;
    assert seg[|key|] == '=';
    OneMoreGroup(lib, pieces, [seg]);
    CutAt(key, '=', val);
  }

  /** What has failed has failed. */
  lemma FirstFailureStays(lib: Library, pieces: seq<string>, p: string)
    requires ParsePieces(lib, pieces).Err? && '=' in p
    ensures ParsePieces(lib, pieces + [p]) == ParsePieces(lib, pieces)
  {
    MergePush(pieces, p);
    if Merge(pieces).Groups? {
      assert [p][0] == p;
      SegmentsPush(pieces, [p]);
      ParseAllPush(lib, SegmentsOf(Merge(pieces)), Join([p], ','));
    }
  }

  /** An enum takes all values that follow it. */
  lemma OneMoreEnum(lib: Library, pieces: seq<string>, vs: seq<string>)
    requires ParsePieces(lib, pieces).Ok? && CleanValues(vs) && NoEquals(vs)
    ensures ParsePieces(lib, pieces + (["enum=" + vs[0]] + vs[1..]))
            == Ok(ParsePieces(lib, pieces).constraints.(enumValues := vs))
  {
    EnumGroup(vs);
    OneMoreGroup(lib, pieces, ["enum=" + vs[0]] + vs[1..]);
    ParseEnumSegment(lib, ParsePieces(lib, pieces).constraints, vs);
  }

  lemma ParseEnumSegment(lib: Library, c: Constraints, vs: seq<string>)
    requires CleanValues(vs) && NoEquals(vs)
    ensures ParseSegment(lib, c, "enum=" + Join(vs, ',')) == Ok(c.(enumValues := vs))
  {
    ParsePrintedField(lib, c, Enum(vs));
    assert "enum" + "=" == "enum=";
  }

  lemma TakesBareAfterEnum(pieces: seq<string>, gs: seq<seq<string>>)
    requires AllGroups(gs) && Flatten(gs) == pieces
    ensures TakesBare(gs) ==>
              exists i :: 0 <= i < |pieces| && HasPrefix(pieces[i], "enum=") && forall j :: i < j < |pieces| ==> '=' !in pieces[j]
  {
    if TakesBare(gs) {
      var n := |gs| - 1;
      var i := |Flatten(gs[..n])|;
      assert IsGroup(gs[n]);
      assert pieces == Flatten(gs[..n]) + gs[n] && pieces[i] == gs[n][0];
      forall j | i < j < |pieces| ensures '=' !in pieces[j] { assert pieces[j] == gs[n][j - i]; }
    }
  }

  /** A piece without '=' after anything but an enum's pieces makes the whole tag invalid. */
  lemma OneMoreBarePiece(lib: Library, pieces: seq<string>, bare: string)
    requires Merge(pieces).Groups? && '=' !in bare
    requires forall i :: 0 <= i < |pieces| && HasPrefix(pieces[i], "enum=") ==>
               exists j :: i < j < |pieces| && '=' in pieces[j]
    ensures ParsePieces(lib, pieces + [bare]) == Err(UNCONSTRAINED, InvalidSegment(bare))
  {
    MergePush(pieces, bare);
    MergeMakesGroups(pieces);
    MergeKeepsPieces(pieces);
    TakesBareAfterEnum(pieces, Merge(pieces).groups);
    StrayIsInvalid(lib, bare);
  }

  /******* Exactly which enums survive *******/

  lemma EnumFewerThanPieces(val: string)
    ensures |EnumValues(TrimSpace(val))| <= |Split(val, ',')|
  {
    var lo, hi := TrimSpaceIs(val);
    SliceSplitsNoFiner(val, lo, hi, ',');
    NonBlankShorter(Split(TrimSpace(val), ','));
  }

  lemma {:induction false} NonBlankShorter(parts: seq<string>)
    ensures |NonBlank(parts)| <= |parts|
  {
    if parts != [] { NonBlankShorter(parts[..|parts| - 1]); }
  }

  lemma AfterCut(segment: string)
    requires Cut(segment, '=').2
    ensures |Split(Cut(segment, '=').1, ',')| <= |Split(segment, ',')|
  {
    TailSplitsNoFiner(segment, IndexOf(segment, '=') + 1, ',');
  }

  lemma SetKeyEnum(lib: Library, c: Constraints, k: Key, name: string, val: string)
    requires SetKey(lib, c, k, name, val).Ok?
    ensures var d := SetKey(lib, c, k, name, val).constraints;
      d.enumValues == c.enumValues || d.enumValues == EnumValues(val)
  {
    match k
    case EnumKey => assert SetKey(lib, c, k, name, val) == Ok(c.(enumValues := EnumValues(val)));
    case _ => assert SetKey(lib, c, k, name, val).constraints.enumValues == c.enumValues;
  }

  /** A segment sets no more enum values than it has pieces. */
  lemma SegmentEnumBound(lib: Library, c: Constraints, g: seq<string>)
    requires g != [] && CleanPieces(g)
    requires ParseSegment(lib, c, Join(g, ',')).Ok?
    ensures var d := ParseSegment(lib, c, Join(g, ',')).constraints; d.enumValues == c.enumValues || |d.enumValues| <= |g|
  {
    var segment := Join(g, ',');
    var (before, after, found) := Cut(segment, '=');
    SplitJoin(g, ',');
    AfterCut(segment);
    EnumFewerThanPieces(after);
    SetKeyEnum(lib, c, KeyOf(TrimSpace(before)).value, TrimSpace(before), TrimSpace(after));
  }

  lemma ParseLastGroup(lib: Library, groups: seq<seq<string>>)
    requires groups != [] && ParseAll(lib, Segments(groups)).Ok?
    ensures var n := |groups| - 1; var r := ParseAll(lib, Segments(groups[..n]));
      r.Ok? && ParseAll(lib, Segments(groups)) == ParseSegment(lib, r.constraints, Join(groups[n], ','))
  {
    var n := |groups| - 1;
    assert Segments(groups)[..n] == Segments(groups[..n]);
  }

  lemma {:induction false} EnumBound(lib: Library, groups: seq<seq<string>>, bound: nat)
    requires forall i :: 0 <= i < |groups| ==> groups[i] != [] && CleanPieces(groups[i]) && |groups[i]| <= bound
    requires ParseAll(lib, Segments(groups)).Ok?
    ensures |ParseAll(lib, Segments(groups)).constraints.enumValues| <= bound
  {
    if groups != [] {
      var n := |groups| - 1;
      ParseLastGroup(lib, groups);
      EnumBound(lib, groups[..n], bound);
      SegmentEnumBound(lib, ParseAll(lib, Segments(groups[..n])).constraints, groups[n]);
    }
  }

  lemma {:induction false} GroupWithin(groups: seq<seq<string>>, i: nat)
    requires i < |groups| && AllGroups(groups)
    ensures |groups[i]| <= |Flatten(groups)|
    ensures |groups| > 1 ==> |groups[i]| < |Flatten(groups)|
    ensures forall x :: x in groups[i] ==> x in Flatten(groups)
  {
    var n := |groups| - 1;
    assert IsGroup(groups[n]);
    if i < n {
      GroupWithin(groups[..n], i);
    } else if n > 0 {
      assert IsGroup(groups[0]);
      GroupWithin(groups[..n], 0);
    }
  }

  lemma SecondSegment(groups: seq<seq<string>>, k: nat)
    requires AllGroups(groups) && 1 <= k < |Flatten(groups)| && '=' in Flatten(groups)[k]
    ensures |groups| > 1
  {}

  /** A '=' after the first value starts another segment, and too few values are left. */
  lemma EqualsLosesValues(lib: Library, vs: seq<string>, k: nat, text: string)
    requires CleanValues(vs) && 1 <= k < |vs| && '=' in vs[k] && text == "enum=" + Join(vs, ',')
    ensures Parse(lib, text).Ok? ==> |Parse(lib, text).constraints.enumValues| < |vs|
  {
    var pieces := ["enum=" + vs[0]] + vs[1..];
    EnumGroup(vs);
    PiecesOfJoin(pieces);
    var m := Merge(pieces);
    MergeMakesGroups(pieces);
    if m.Groups? {
      MergeKeepsPieces(pieces);
      assert pieces[k] == vs[k];
      SecondSegment(m.groups, k);
      forall i | 0 <= i < |m.groups|
        ensures m.groups[i] != [] && CleanPieces(m.groups[i]) && |m.groups[i]| <= |vs| - 1
      {
        assert IsGroup(m.groups[i]);
        GroupWithin(m.groups, i);
        forall j | 0 <= j < |m.groups[i]| ensures Clean(m.groups[i][j]) { assert m.groups[i][j] in pieces; }
      }
      assert Parse(lib, text) == ParseAll(lib, Segments(m.groups));
      if Parse(lib, text).Ok? { EnumBound(lib, m.groups, |vs| - 1); }
    } else {
      assert Cut(m.piece, '=') == (m.piece, "", false);
      assert ParseAll(lib, [m.piece]) == ParseSegment(lib, UNCONSTRAINED, m.piece);
    }
  }

  lemma ParsePrintOne(lib: Library, f: Field)
    requires Valid(lib, f)
    ensures Parse(lib, PrintField(lib, f)) == Ok(With(UNCONSTRAINED, f))
  {
    ParsePrint(lib, [f]);
    PrintOne(lib, f);
  }

  lemma PrintOne(lib: Library, f: Field)
    ensures Print(lib, [f]) == PrintField(lib, f) && Collect([f]) == With(UNCONSTRAINED, f)
  {
    assert Printed(lib, [f]) == [PrintField(lib, f)];
    assert [f][..0] == [];
  }

  lemma EnumText(lib: Library, vs: seq<string>)
    ensures PrintField(lib, Enum(vs)) == "enum=" + Join(vs, ',')
  {
    assert "enum" + "=" == "enum=";
  }

  lemma FewerValues(r: Parsed, vs: seq<string>)
    requires r.Ok? ==> |r.constraints.enumValues| < |vs|
    ensures r != Ok(With(UNCONSTRAINED, Enum(vs)))
  {}

  lemma EqualsSpoilsEnum(lib: Library, vs: seq<string>)
    requires CleanValues(vs) && !NoEquals(vs)
    ensures Parse(lib, PrintField(lib, Enum(vs))) != Ok(With(UNCONSTRAINED, Enum(vs)))
  {
    var k :| 1 <= k < |vs| && '=' in vs[k];
    var text := PrintField(lib, Enum(vs));
    EnumText(lib, vs);
    EqualsLosesValues(lib, vs, k, text);
    FewerValues(Parse(lib, text), vs);
  }

  /** An enum of clean values survives printing and parsing exactly when no value after the first has a '='. */
  lemma EnumRoundTripIff(lib: Library, vs: seq<string>)
    requires CleanValues(vs)
    ensures Parse(lib, PrintField(lib, Enum(vs))) == Ok(With(UNCONSTRAINED, Enum(vs))) <==> NoEquals(vs)
  {
    if NoEquals(vs) {
      ParsePrintOne(lib, Enum(vs));
    } else {
      EqualsSpoilsEnum(lib, vs);
    }
  }
}
