/**
 * The segments of an agentschema struct tag (toolschema/schema.go mergeAgentschemaSegments): key=value pieces
 * separated by commas, where the values of enum= are separated by commas too and are attached again.
 */
module AgentSchemaSegments {
  import opened Text

  function Pieces(tag: string): (pieces: seq<string>)
    ensures forall p :: p in pieces ==> p != "" && Trimmed(p) && ',' !in p
  {
    NonBlankAddsNothing(Split(tag, ','), ',');
    NonBlank(Split(tag, ','))
  }

  /** The pieces of each segment, or the piece that belongs to none. */
  datatype Merging = Groups(groups: seq<seq<string>>) | Stray(piece: string)

  predicate StartsEnum(piece: string) {
    HasPrefix(piece, "enum=")
  }

  /** One segment: a piece with '=', followed, only after "enum=", by pieces without. */
  predicate IsGroup(g: seq<string>) {
    && g != [] && '=' in g[0]
    && (|g| > 1 ==> StartsEnum(g[0]))
    && forall i :: 1 <= i < |g| ==> '=' !in g[i]
  }

  predicate TakesBare(groups: seq<seq<string>>) {
    groups != [] && groups[|groups| - 1] != [] && StartsEnum(groups[|groups| - 1][0])
  }

  /** The last group with one more piece. */
  function Attach(groups: seq<seq<string>>, p: string): (r: seq<seq<string>>)
    requires groups != []
    ensures r != [] && |r| == |groups| && r[..|r| - 1] == groups[..|r| - 1] && r[|r| - 1] == groups[|r| - 1] + [p]
  {
    groups[..|groups| - 1] + [groups[|groups| - 1] + [p]]
  }

  function MergeNext(m: Merging, p: string): Merging {
    if m.Stray? then m
    else if '=' in p then Groups(m.groups + [[p]])
    else if TakesBare(m.groups) then Groups(Attach(m.groups, p))
    else Stray(p)
  }

  function Merge(pieces: seq<string>): Merging {
    if pieces == [] then Groups([]) else MergeNext(Merge(pieces[..|pieces| - 1]), pieces[|pieces| - 1])
  }

  lemma MergePush(pieces: seq<string>, p: string)
    ensures Merge(pieces + [p]) == MergeNext(Merge(pieces), p)
  {
    assert (pieces + [p])[..|pieces|] == pieces;
  }

  ghost predicate AllGroups(groups: seq<seq<string>>) {
    forall i :: 0 <= i < |groups| ==> IsGroup(groups[i])
  }

  lemma AttachMakesGroups(groups: seq<seq<string>>, p: string)
    requires AllGroups(groups) && TakesBare(groups) && '=' !in p
    ensures AllGroups(Attach(groups, p))
  {
    var k := |groups| - 1;
    assert IsGroup(groups[k]);
    assert IsGroup(groups[k] + [p]);
    forall i | 0 <= i < k ensures IsGroup(Attach(groups, p)[i]) {
      assert Attach(groups, p)[i] == Attach(groups, p)[..k][i] == groups[..k][i] == groups[i];
    }
  }

  lemma {:induction false} MergeMakesGroups(pieces: seq<string>)
    ensures Merge(pieces).Groups? ==> AllGroups(Merge(pieces).groups)
    ensures Merge(pieces).Stray? ==> Merge(pieces).piece in pieces && '=' !in Merge(pieces).piece
  {
    if pieces != [] {
      var n := |pieces| - 1;
      MergeMakesGroups(pieces[..n]);
      var m, p := Merge(pieces[..n]), pieces[n];
      if m.Groups? && '=' in p {
        assert IsGroup([p]);
      } else if m.Groups? && TakesBare(m.groups) {
        AttachMakesGroups(m.groups, p);
      }
    }
  }

  function Flatten(groups: seq<seq<string>>): seq<string> {
    if groups == [] then [] else Flatten(groups[..|groups| - 1]) + groups[|groups| - 1]
  }

  function Segments(groups: seq<seq<string>>): (segments: seq<string>)
    ensures |segments| == |groups|
    ensures forall i :: 0 <= i < |groups| ==> segments[i] == Join(groups[i], ',')
  {
    seq(|groups|, i requires 0 <= i < |groups| => Join(groups[i], ','))
  }

  lemma FlattenAppend(groups: seq<seq<string>>, g: seq<string>)
    ensures Flatten(groups + [g]) == Flatten(groups) + g
  {
    assert (groups + [g])[..|groups|] == groups;
  }

  /** Nothing is lost, invented or reordered. */
  lemma {:induction false} MergeKeepsPieces(pieces: seq<string>)
    requires Merge(pieces).Groups?
    ensures Flatten(Merge(pieces).groups) == pieces
  {
    if pieces != [] {
      var n := |pieces| - 1;
      MergeKeepsPieces(pieces[..n]);
      var gs, p := Merge(pieces[..n]).groups, pieces[n];
      assert pieces == pieces[..n] + [p];
      if '=' in p {
        FlattenAppend(gs, [p]);
      } else {
        var k := |gs| - 1;
        assert Attach(gs, p) == gs[..k] + [gs[k] + [p]];
        FlattenAppend(gs[..k], gs[k] + [p]);
        assert Flatten(gs[..k]) + (gs[k] + [p]) == Flatten(gs[..k]) + gs[k] + [p];
      }
    }
  }

  lemma {:induction false} MergeAppendGroup(pieces: seq<string>, g: seq<string>)
    requires Merge(pieces).Groups? && IsGroup(g)
    ensures Merge(pieces + g) == Groups(Merge(pieces).groups + [g])
    decreases |g|
  {
    var n := |g| - 1;
    var gs := Merge(pieces).groups;
    assert g == g[..n] + [g[n]];
    if n == 0 {
      MergePush(pieces, g[0]);
      assert [g[0]] == g;
    } else {
      MergeAppendGroup(pieces, g[..n]);
      assert pieces + g == (pieces + g[..n]) + [g[n]];
      MergePush(pieces + g[..n], g[n]);
      AttachLast(gs, g[..n], g[n]);
    }
  }

  lemma AttachLast(gs: seq<seq<string>>, g: seq<string>, p: string)
    ensures Attach(gs + [g], p) == gs + [g + [p]]
  {
    assert (gs + [g])[..|gs|] == gs;
  }

  lemma {:induction false} MergeFlatten(groups: seq<seq<string>>)
    requires AllGroups(groups)
    ensures Merge(Flatten(groups)) == Groups(groups)
  {
    if groups != [] {
      var n := |groups| - 1;
      MergeFlatten(groups[..n]);
      MergeAppendGroup(Flatten(groups[..n]), groups[n]);
      assert groups[..n] + [groups[n]] == groups;
    }
  }

  /** Merging finds the one way there is to cut the pieces into segments, and fails only when there is none. */
  lemma MergeIff(pieces: seq<string>, groups: seq<seq<string>>)
    ensures Merge(pieces) == Groups(groups) <==> AllGroups(groups) && Flatten(groups) == pieces
  {
    if Merge(pieces) == Groups(groups) {
      MergeKeepsPieces(pieces);
      MergeMakesGroups(pieces);
    }
    if AllGroups(groups) && Flatten(groups) == pieces { MergeFlatten(groups); }
  }

  lemma {:induction false} JoinSegments(groups: seq<seq<string>>)
    requires AllGroups(groups)
    ensures Join(Segments(groups), ',') == Join(Flatten(groups), ',')
    ensures groups != [] ==> Flatten(groups) != []
  {
    if groups != [] {
      var n := |groups| - 1;
      JoinSegments(groups[..n]);
      assert IsGroup(groups[n]);
      assert Segments(groups) == Segments(groups[..n]) + [Join(groups[n], ',')];
      if n == 0 {
        assert Segments(groups[..n]) + [Join(groups[n], ',')] == [Join(groups[n], ',')];
        assert Flatten(groups[..n]) + groups[n] == groups[n];
      } else {
        JoinConcat(Segments(groups[..n]), [Join(groups[n], ',')], ',');
        JoinConcat(Flatten(groups[..n]), groups[n], ',');
      }
    }
  }

  function SegmentsOf(m: Merging): seq<string> {
    match m
    case Groups(gs) => Segments(gs)
    case Stray(p) => [p]
  }

  /** mergeAgentschemaSegments; a bare piece after anything but an enum is returned alone. */
  function Merged(tag: string): seq<string> {
    SegmentsOf(Merge(Pieces(tag)))
  }

  /** Joined again, the segments are the tag's non-blank pieces. */
  lemma MergeLosesNothing(tag: string)
    requires Merge(Pieces(tag)).Groups?
    ensures Join(Merged(tag), ',') == Join(Pieces(tag), ',')
  {
    MergeKeepsPieces(Pieces(tag));
    MergeMakesGroups(Pieces(tag));
    JoinSegments(Merge(Pieces(tag)).groups);
  }

  lemma NextSegments(gs: seq<seq<string>>, p: string)
    requires AllGroups(gs)
    ensures Segments(gs + [[p]]) == Segments(gs) + [p]
    ensures gs != [] ==> Segments(Attach(gs, p)) == Segments(gs)[..|gs| - 1] + [Segments(gs)[|gs| - 1] + "," + p]
    ensures gs != [] ==> (StartsEnum(Segments(gs)[|gs| - 1]) <==> TakesBare(gs))
  {
    if gs != [] {
      var g := gs[|gs| - 1];
      assert IsGroup(g);
      JoinConcat(g, [p], ',');
      assert Join([p], ',') == p;
      if |g| > 1 { assert Join(g, ',')[..5] == g[0][..5]; }
    }
  }

  /** The merging of the first i pieces of the split tag, blank ones left out. */
  ghost function Upto(raw: seq<string>, i: nat): Merging
    requires i <= |raw|
  {
    Merge(NonBlank(raw[..i]))
  }

  lemma UptoNext(raw: seq<string>, i: nat)
    requires i < |raw|
    ensures Upto(raw, i + 1) == if TrimSpace(raw[i]) == "" then Upto(raw, i) else MergeNext(Upto(raw, i), TrimSpace(raw[i]))
    ensures Upto(raw, i + 1).Groups? ==> AllGroups(Upto(raw, i + 1).groups)
  {
    var before, x := NonBlank(raw[..i]), TrimSpace(raw[i]);
    assert raw[..i + 1] == raw[..i] + [raw[i]];
    NonBlankAppend(raw[..i], raw[i]);
    MergeMakesGroups(NonBlank(raw[..i + 1]));
    if x == "" {
      assert before + [] == before;
    } else {
      MergePush(before, x);
    }
  }

  lemma {:induction false} UptoStray(raw: seq<string>, i: nat)
    requires i <= |raw| && Upto(raw, i).Stray?
    ensures Upto(raw, |raw|) == Upto(raw, i)
    decreases |raw| - i
  {
    if i < |raw| {
      UptoNext(raw, i);
      UptoStray(raw, i + 1);
    }
  }

  lemma MergedUpto(tag: string)
    ensures Merged(tag) == SegmentsOf(Upto(Split(tag, ','), |Split(tag, ',')|))
    ensures Upto(Split(tag, ','), 0) == Groups([])
  {
    assert Split(tag, ',')[..|Split(tag, ',')|] == Split(tag, ',');
  }

  /** What one more piece does to the segments so far. */
  lemma NextSegment(gs: seq<seq<string>>, p: string)
    requires AllGroups(gs)
    ensures var m := MergeNext(Groups(gs), p); var last := |gs| - 1;
      if '=' in p then m.Groups? && SegmentsOf(m) == Segments(gs) + [p]
      else if gs != [] && StartsEnum(Segments(gs)[last]) then
        m.Groups? && SegmentsOf(m) == Segments(gs)[..last] + [Segments(gs)[last] + "," + p]
      else m == Stray(p)
  {
    NextSegments(gs, p);
  }

  method MergeSegments(tag: string) returns (merged: seq<string>)
    ensures merged == Merged(tag)
  {
    var raw := Split(tag, ',');
    MergedUpto(tag);
    merged := [];
    var i := 0;
    while i < |raw|
      invariant i <= |raw|
      invariant Upto(raw, i).Groups? && AllGroups(Upto(raw, i).groups) && merged == SegmentsOf(Upto(raw, i))
    {
      var part := TrimSpace(raw[i]);
      UptoNext(raw, i);
      NextSegment(Upto(raw, i).groups, part);
      if part != "" {
        if '=' in part {
          merged := merged + [part];
        } else {
          var last := |merged| - 1;
          if merged == [] || !HasPrefix(merged[last], "enum=") {
            UptoStray(raw, i + 1);
            return [part];
          }
          merged := merged[..last] + [merged[last] + "," + part];
        }
      }
      i := i + 1;
    }
  }
}
