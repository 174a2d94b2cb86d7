/**
 * What the agentschema parser can produce (toolschema/schema.go:35-140): exactly the constraint sets that can be
 * printed, so that every tag it accepts has a printed form with the same meaning.
 */
module AgentSchemaImage {
  import opened Text
  import opened AgentSchemaSegments
  import opened AgentSchema
  import opened AgentSchemaLaws

  /** Every number that can be read can be printed cleanly, and is read back. */
  ghost predicate PrintsNumbers(lib: Library) {
    forall text :: lib.parseFloat(text).Some? ==>
      var x := lib.parseFloat(text).value;
      Clean(lib.formatFloat(x)) && lib.parseFloat(lib.formatFloat(x)) == Some(x)
  }

  ghost predicate HoldsValid(lib: Library, c: Constraints) {
    forall f :: Has(c, f) ==> Valid(lib, f)
  }

  lemma HoldsValidIff(lib: Library, c: Constraints)
    ensures ValidConstraints(lib, c) <==> HoldsValid(lib, c)
  {
    if ValidConstraints(lib, c) {
      forall f | Has(c, f) ensures Valid(lib, f) {
        FieldsOfHas(c, f);
        var i :| 0 <= i < |FieldsOf(c)| && FieldsOf(c)[i] == f;
      }
    }
    if HoldsValid(lib, c) {
      forall i | 0 <= i < |FieldsOf(c)| ensures Valid(lib, FieldsOf(c)[i]) {
        FieldsOfHas(c, FieldsOf(c)[i]);
      }
    }
  }

  /** A value of the right shape sets a valid field, and leaves the others. */
  lemma SetKeyHoldsValid(lib: Library, c: Constraints, k: Key, name: string, val: string)
    requires PrintsNumbers(lib) && HoldsValid(lib, c) && val != "" && Trimmed(val)
    requires if k == EnumKey then EnumValues(val) != [] ==> CleanValues(EnumValues(val)) && NoEquals(EnumValues(val)) else ',' !in val
    requires SetKey(lib, c, k, name, val).Ok?
    ensures HoldsValid(lib, SetKey(lib, c, k, name, val).constraints)
  {
    var d := SetKey(lib, c, k, name, val).constraints;
    forall f | Has(d, f) ensures Valid(lib, f) {
      if !Has(c, f) { assert f.MinLength? || f.MaxLength? ==> Atoi(val).Some?; }
    }
  }

  /******* The enum values of a segment *******/

  lemma {:induction false} SplitAddsNothing(s: string, sep: char, c: char)
    requires c !in s
    ensures forall i :: 0 <= i < |Split(s, sep)| ==> c !in Split(s, sep)[i]
    decreases |s|
  {
    if sep in s {
      var head, tail := SplitAtFirst(s, sep);
      SplitAddsNothing(tail, sep, c);
    } else {
      assert Split(s, sep) == [s];
    }
  }

  /** All occurrences of `c` are before the first comma. */
  predicate OnlyInFirst(s: string, c: char) {
    forall i, j :: 0 <= i < j < |s| && s[i] == ',' ==> s[j] != c
  }

  lemma SplitOnlyInFirst(s: string, c: char)
    requires OnlyInFirst(s, c)
    ensures forall i :: 1 <= i < |Split(s, ',')| ==> c !in Split(s, ',')[i]
  {
    if ',' in s {
      var head, tail := SplitAtFirst(s, ',');
      forall j | 0 <= j < |tail| ensures tail[j] != c {
        assert s[|head|] == ',' && s[|head| + 1 + j] == tail[j];
      }
      SplitAddsNothing(tail, ',', c);
    } else {
      assert Split(s, ',') == [s];
    }
  }

  lemma {:induction false} NonBlankOnlyInFirst(parts: seq<string>, c: char)
    requires forall i :: 1 <= i < |parts| ==> c !in parts[i]
    ensures forall i :: 1 <= i < |NonBlank(parts)| ==> c !in NonBlank(parts)[i]
  {
    if parts != [] {
      var n := |parts| - 1;
      NonBlankOnlyInFirst(parts[..n], c);
      NonBlankShorter(parts[..n]);
      if c in TrimSpace(parts[n]) { TrimSpaceAddsNothing(parts[n], c); }
    }
  }

  lemma EnumValuesClean(val: string)
    requires OnlyInFirst(val, '=')
    ensures EnumValues(val) != [] ==> CleanValues(EnumValues(val))
    ensures NoEquals(EnumValues(val))
  {
    var vs := EnumValues(val);
    SplitOnlyInFirst(val, '=');
    NonBlankOnlyInFirst(Split(val, ','), '=');
    NonBlankAddsNothing(Split(val, ','), ',');
    forall i | 0 <= i < |vs| ensures Clean(vs[i]) { assert vs[i] in vs; }
  }

  lemma TrimOnlyInFirst(s: string, c: char)
    requires OnlyInFirst(s, c)
    ensures OnlyInFirst(TrimSpace(s), c)
  {
    var lo, hi := TrimSpaceIs(s);
    SliceOnlyInFirst(s, lo, hi, c);
  }

  lemma SliceOnlyInFirst(s: string, lo: nat, hi: nat, c: char)
    requires lo <= hi <= |s| && OnlyInFirst(s, c)
    ensures OnlyInFirst(s[lo..hi], c)
  {
    var t := s[lo..hi];
    forall i, j | 0 <= i < j < |t| && t[i] == ',' ensures t[j] != c {
      assert t[i] == s[lo + i] && t[j] == s[lo + j];
    }
  }

  lemma {:induction false} JoinAddsNothing(parts: seq<string>, c: char)
    requires c != ',' && forall i :: 0 <= i < |parts| ==> c !in parts[i]
    ensures c !in Join(parts, ',')
  {
    if |parts| > 1 { JoinAddsNothing(parts[1..], c); }
  }

  /** In a segment every '=' is in the first piece. */
  lemma SegmentOnlyInFirst(g: seq<string>)
    requires IsGroup(g) && CleanPieces(g)
    ensures OnlyInFirst(Join(g, ','), '=')
    ensures |g| == 1 ==> ',' !in Join(g, ',')
  {
    var head := g[0];
    assert forall i :: 0 <= i < |head| ==> head[i] != ',';
    if |g| > 1 {
      var s, tail := Join(g, ','), Join(g[1..], ',');
      JoinAddsNothing(g[1..], '=');
      assert s == head + "," + tail;
      assert forall i :: 0 <= i < |head| ==> s[i] == head[i];
      forall j | |head| < j < |s| ensures s[j] != '=' { assert s[j] == tail[j - |head| - 1]; }
    }
  }

  lemma AfterOnlyInFirst(segment: string)
    requires OnlyInFirst(segment, '=') && Cut(segment, '=').2
    ensures OnlyInFirst(Cut(segment, '=').1, '=')
    ensures ',' !in segment ==> ',' !in Cut(segment, '=').1
  {
    var k := IndexOf(segment, '=');
    var after := segment[k + 1..];
    forall i, j | 0 <= i < j < |after| && after[i] == ',' ensures after[j] != '=' {
      assert after[i] == segment[k + 1 + i] && after[j] == segment[k + 1 + j];
    }
  }

  /** A segment of several pieces has the key "enum". */
  lemma ManyPiecesAreEnum(g: seq<string>)
    requires IsGroup(g) && |g| > 1
    ensures Cut(Join(g, ','), '=').0 == "enum"
  {
    var s := Join(g, ',');
    assert s == g[0] + [','] + Join(g[1..], ',');
    assert s[..5] == g[0][..5] == "enum=";
    assert s == "enum" + ['='] + s[5..];
    CutAt("enum", '=', s[5..]);
  }

  lemma SegmentHoldsValid(lib: Library, c: Constraints, g: seq<string>)
    requires PrintsNumbers(lib) && HoldsValid(lib, c) && IsGroup(g) && CleanPieces(g)
    requires ParseSegment(lib, c, Join(g, ',')).Ok?
    ensures HoldsValid(lib, ParseSegment(lib, c, Join(g, ',')).constraints)
  {
    var s := Join(g, ',');
    var (before, after, found) := Cut(s, '=');
    var name, val := TrimSpace(before), TrimSpace(after);
    SegmentOnlyInFirst(g);
    AfterOnlyInFirst(s);
    TrimOnlyInFirst(after, '=');
    EnumValuesClean(val);
    if |g| > 1 {
      ManyPiecesAreEnum(g);
      EnumKeyOf();
    } else if ',' in val {
      TrimSpaceAddsNothing(after, ',');
    }
    SetKeyHoldsValid(lib, c, KeyOf(name).value, name, val);
  }

  lemma EnumKeyOf()
    ensures KeyOf(TrimSpace("enum")) == Some(EnumKey)
  {
    assert Trimmed("enum");
  }

  lemma {:induction false} GroupsHoldValid(lib: Library, groups: seq<seq<string>>)
    requires PrintsNumbers(lib) && AllGroups(groups) && forall i :: 0 <= i < |groups| ==> CleanPieces(groups[i])
    requires ParseAll(lib, Segments(groups)).Ok?
    ensures HoldsValid(lib, ParseAll(lib, Segments(groups)).constraints)
  {
    if groups != [] {
      var n := |groups| - 1;
      ParseLastGroup(lib, groups);
      GroupsHoldValid(lib, groups[..n]);
      SegmentHoldsValid(lib, ParseAll(lib, Segments(groups[..n])).constraints, groups[n]);
    }
  }

  /** Whatever tag the parser accepts, the constraints are valid. */
  lemma ParsedIsValid(lib: Library, tag: string)
    requires PrintsNumbers(lib) && Parse(lib, tag).Ok?
    ensures ValidConstraints(lib, Parse(lib, tag).constraints)
  {
    var t := TrimSpace(tag);
    var pieces := Pieces(t);
    ParseIsParseAll(lib, tag);
    MergeMakesGroups(pieces);
    PiecesClean(t);
    var m := Merge(pieces);
    if m.Stray? {
      StrayIsInvalid(lib, m.piece);
    } else {
      MergeKeepsPieces(pieces);
      forall i | 0 <= i < |m.groups| ensures CleanPieces(m.groups[i]) {
        GroupWithin(m.groups, i);
        forall j | 0 <= j < |m.groups[i]| ensures Clean(m.groups[i][j]) { assert m.groups[i][j] in pieces; }
      }
      GroupsHoldValid(lib, m.groups);
      HoldsValidIff(lib, Parse(lib, tag).constraints);
    }
  }

  /** The parser's results are exactly the valid constraint sets. */
  lemma ParserImageIff(lib: Library, c: Constraints)
    requires PrintsNumbers(lib)
    ensures (exists tag :: Parse(lib, tag) == Ok(c)) <==> ValidConstraints(lib, c)
  {
    if tag :| Parse(lib, tag) == Ok(c) { ParsedIsValid(lib, tag); }
    if ValidConstraints(lib, c) { PrintAnyOrderThenParse(lib, c, FieldsOf(c)); }
  }

  /** Every accepted tag means the same as the printed form of its constraints. */
  lemma AcceptedTagHasPrintedForm(lib: Library, tag: string)
    requires PrintsNumbers(lib) && Parse(lib, tag).Ok?
    ensures Parse(lib, Print(lib, FieldsOf(Parse(lib, tag).constraints))) == Parse(lib, tag)
  {
    ParsedIsValid(lib, tag);
    PrintAnyOrderThenParse(lib, Parse(lib, tag).constraints, FieldsOf(Parse(lib, tag).constraints));
  }
}
