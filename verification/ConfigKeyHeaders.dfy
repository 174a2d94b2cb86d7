/**
 * The key for the contexts that the middleware really makes (control.go buildRuntimeContext), whose ids come from one
 * header and so are trimmed, not blank and without commas: exactly when the '|' of the join lets two of them meet.
 */
module ConfigKeyHeaders {
  import opened Text
  import opened ConfigKey

  /******* The contexts *******/

  function Given(s: string): Option<string> {
    if TrimSpace(s) == "" then None else Some(TrimSpace(s))
  }

  /** The context for the two headers and for the server id, which comes from a header or the environment. */
  function RuntimeContext(instance: string, ids: string, server: string): Context {
    var kept := HeaderIds(TrimSpace(ids));
    Context(Given(instance), Given(server), if kept == [] then Missing else Strings(kept))
  }

  lemma ContextKeys(instance: string, ids: string, server: string)
    ensures IdsOf(RuntimeContext(instance, ids, server)) == HeaderIds(TrimSpace(ids))
    ensures TrimSpace(instance) != "" ==> InstanceKey(RuntimeContext(instance, ids, server)) == TrimSpace(instance)
    ensures TrimSpace(instance) == "" && TrimSpace(server) != "" ==>
              InstanceKey(RuntimeContext(instance, ids, server)) == "server:" + TrimSpace(server)
    ensures TrimSpace(instance) == "" && TrimSpace(server) == "" ==> InstanceKey(RuntimeContext(instance, ids, server)) == ""
  {}

  ghost predicate AreIds(xs: seq<string>) {
    forall i :: 0 <= i < |xs| ==> xs[i] != "" && Trimmed(xs[i]) && ',' !in xs[i]
  }

  lemma HeaderIdsAreIds(raw: string)
    ensures AreIds(HeaderIds(raw)) && AreIds(Sort(HeaderIds(raw)))
  {
    var xs := HeaderIds(raw);
    HeaderIdsCommaFree(raw);
    forall i | 0 <= i < |xs| ensures xs[i] != "" && Trimmed(xs[i]) { assert xs[i] in xs; }
    forall i | 0 <= i < |xs| ensures Sort(xs)[i] != "" && Trimmed(Sort(xs)[i]) && ',' !in Sort(xs)[i] {
      assert Sort(xs)[i] in multiset(xs);
    }
  }

  /** Sorted ids, joined, are a header with those ids, and they are joined the same way in the key. */
  lemma IdsMakeHeader(xs: seq<string>)
    requires xs != [] && AreIds(xs) && Sorted(xs)
    ensures HeaderIds(TrimSpace(Join(xs, ','))) == xs
    ensures ConnectionsKey(xs) == "conn:" + Join(xs, ',')
  {
    JoinTrimmed(xs, ',');
    SplitJoin(xs, ',');
    NonBlankIdentity(xs);
    SortSorted(xs);
    SortedUnique(Sort(xs), xs);
  }

  /******* The order of strings and prefixes *******/

  lemma {:induction false} LeBelowExtension(y: string, w: string, z: string)
    requires StringLe(y, w)
    ensures StringLe(y, w + z)
  {
    if y != "" && y[0] == w[0] {
      assert (w + z)[1..] == w[1..] + z;
      LeBelowExtension(y[1..], w[1..], z);
    }
  }

  lemma {:induction false} LeExtension(y: string, w: string, z: string)
    requires StringLe(y, w + z)
    ensures StringLe(y, w) || HasPrefix(y, w)
  {
    if y != "" && w != "" && y[0] == w[0] {
      assert (w + z)[1..] == w[1..] + z;
      LeExtension(y[1..], w[1..], z);
      assert y == [y[0]] + y[1..] && w == [w[0]] + w[1..];
    }
  }

  lemma {:induction false} LeUnderPrefix(w: string, r: string, z: string)
    requires StringLe(r, z)
    ensures StringLe(w + r, w + z)
  {
    if w == "" {
      assert w + r == r && w + z == z;
    } else {
      assert (w + r)[1..] == w[1..] + r && (w + z)[1..] == w[1..] + z;
      LeUnderPrefix(w[1..], r, z);
    }
  }

  /******* Splitting what is put together *******/

  lemma {:induction false} JoinExtendLast(init: seq<string>, x: string, e: string, sep: char)
    ensures Join(init + [x + e], sep) == Join(init + [x], sep) + e
  {
    if init == [] {
      assert init + [x + e] == [x + e] && init + [x] == [x];
    } else {
      JoinConcat(init, [x + e], sep);
      JoinConcat(init, [x], sep);
      assert Join(init, sep) + [sep] + (x + e) == Join(init, sep) + [sep] + x + e;
    }
  }

  lemma JoinSplice(init: seq<string>, x: string, y: string, rest: seq<string>, sep: char)
    ensures Join(init + [x + y] + rest, sep) == Join(init + [x], sep) + Join([y] + rest, sep)
  {
    JoinExtendLast(init, x, y, sep);
    if rest == [] {
      assert init + [x + y] + rest == init + [x + y] && [y] + rest == [y];
    } else {
      JoinConcat(init + [x + y], rest, sep);
      JoinCons(y, rest, sep);
    }
  }

  /** The last piece of the one and the first of the other become one. */
  function Splice(p: seq<string>, q: seq<string>): (r: seq<string>)
    requires p != [] && q != []
  {
    p[..|p| - 1] + [p[|p| - 1] + q[0]] + q[1..]
  }

  lemma JoinSpliced(p: seq<string>, q: seq<string>, sep: char)
    requires p != [] && q != []
    ensures Join(Splice(p, q), sep) == Join(p, sep) + Join(q, sep)
  {
    var n := |p| - 1;
    JoinSplice(p[..n], p[n], q[0], q[1..], sep);
    assert p[..n] + [p[n]] == p && [q[0]] + q[1..] == q;
  }

  lemma SplitSpliced(p: seq<string>, q: seq<string>, sep: char)
    requires p != [] && q != []
    requires (forall i :: 0 <= i < |p| ==> sep !in p[i]) && (forall i :: 0 <= i < |q| ==> sep !in q[i])
    ensures Split(Join(Splice(p, q), sep), sep) == Splice(p, q)
  {
    SplitJoin(Splice(p, q), sep);
  }

  lemma SplitAppend(a: string, b: string, sep: char)
    ensures Split(a + b, sep) == Splice(Split(a, sep), Split(b, sep))
  {
    JoinSplit(a, sep);
    JoinSplit(b, sep);
    JoinSpliced(Split(a, sep), Split(b, sep), sep);
    SplitSpliced(Split(a, sep), Split(b, sep), sep);
  }

  lemma SplitOne(s: string, sep: char)
    requires sep !in s
    ensures Split(s, sep) == [s]
  {}

  /******* The condition *******/

  /**
   * What follows "|conn:" in an instance id can be the start of a list of ids as the key has it: cut at the commas, all
   * but the last are ids in order, and the last, with "|conn:" and more after it, can be the next.
   */
  ghost predicate StartsIds(tail: string) {
    PiecesStart(Split(tail, ','))
  }

  ghost predicate PiecesStart(parts: seq<string>)
    requires parts != []
  {
    var n := |parts| - 1;
    && AreIds(parts[..n]) && Sorted(parts[..n])
    && (parts[n] != "" ==> !IsSpace(parts[n][0]))
    && (n > 0 ==> StringLe(parts[n - 1], parts[n] + "|conn:") || HasPrefix(parts[n - 1], parts[n] + "|conn:"))
  }

  ghost predicate AmbiguousInHeaders(instance: string) {
    exists p: nat :: AmbiguousAt(instance, p) && StartsIds(instance[p + 6..])
  }

  /** The instance id of one request's context can be read as that of another and the start of its ids. */
  ghost predicate MetByHeaders(instance: string) {
    exists i1, ids1, s1, i2, ids2, s2 :: Confused(instance, RuntimeContext(i1, ids1, s1), RuntimeContext(i2, ids2, s2))
  }

  /******* It is necessary *******/

  /** The first piece of what follows the instance id. */
  lemma FirstPiece(ids: seq<string>) returns (q: string)
    requires AreIds(ids)
    ensures q == Split("|" + if ids == [] then "" else "conn:" + Join(ids, ','), ',')[0]
    ensures q == "|" || HasPrefix(q, "|conn:")
  {
    if ids == [] {
      q := "|";
      SplitOne("|", ',');
      assert "|" + "" == "|";
    } else {
      q := "|conn:" + ids[0];
      SplitJoin(ids, ',');
      SplitOne("|conn:", ',');
      SplitAppend("|conn:", Join(ids, ','), ',');
      assert "|" + ("conn:" + Join(ids, ',')) == "|conn:" + Join(ids, ',');
    }
  }

  lemma LeFirstPiece(y: string, last: string, q: string)
    requires StringLe(y, last + q) && (q == "|" || HasPrefix(q, "|conn:"))
    ensures StringLe(y, last + "|conn:") || HasPrefix(y, last + "|conn:")
  {
    if q == "|" {
      LeBelowExtension(y, last + "|", "conn:");
      assert last + "|" + "conn:" == last + "|conn:";
    } else {
      assert last + q == last + "|conn:" + q[6..];
      LeExtension(y, last + "|conn:", q[6..]);
    }
  }

  lemma PiecesOfIds(parts: seq<string>, xs: seq<string>, q: string, rest: seq<string>)
    requires AreIds(xs) && Sorted(xs) && parts != [] && xs == parts[..|parts| - 1] + [parts[|parts| - 1] + q] + rest
    requires q == "|" || HasPrefix(q, "|conn:")
    ensures PiecesStart(parts)
  {
    var n := |parts| - 1;
    assert xs[n] == parts[n] + q;
    forall i | 0 <= i < n ensures parts[..n][i] == xs[i] {}
    if n > 0 {
      assert StringLe(xs[n - 1], xs[n]);
      LeFirstPiece(parts[n - 1], parts[n], q);
    }
    if parts[n] != "" { assert xs[n][0] == parts[n][0]; }
  }

  lemma JoinedStartsIds(xs: seq<string>, tail: string, ids: seq<string>)
    requires xs != [] && AreIds(xs) && Sorted(xs) && AreIds(ids)
    requires Join(xs, ',') == tail + ("|" + if ids == [] then "" else "conn:" + Join(ids, ','))
    ensures StartsIds(tail)
  {
    var rest := "|" + if ids == [] then "" else "conn:" + Join(ids, ',');
    var q := FirstPiece(ids);
    SplitJoin(xs, ',');
    SplitAppend(tail, rest, ',');
    PiecesOfIds(Split(tail, ','), xs, q, Split(rest, ',')[1..]);
  }

  /** What is left of the longer id is the start of the other's ids. */
  lemma AfterPrefix(i1: string, k1: string, i2: string, k2: string)
    requires i1 + "|" + k1 == i2 + "|" + k2 && |i1| < |i2| && (k1 != "" ==> HasPrefix(k1, "conn:"))
    ensures i2[..|i1|] == i1 && HasPrefix(i2[|i1|..], "|conn:")
    ensures |k1| >= 5 && k1[5..] == i2[|i1| + 6..] + ("|" + k2)
  {
    ShorterPrefix(i1, k1, i2, k2);
    var m := i2 + "|" + k2;
    assert k1 == m[|i1| + 1..];
    assert m[|i1| + 6..] == i2[|i1| + 6..] + ("|" + k2);
  }

  lemma MetIsAmbiguous(instance: string, c1: Context, c2: Context, ids1: string, ids2: string)
    requires Confused(instance, c1, c2)
    requires IdsOf(c1) == HeaderIds(TrimSpace(ids1)) && IdsOf(c2) == HeaderIds(TrimSpace(ids2))
    ensures AmbiguousInHeaders(instance)
  {
    var head, k1, k2 := InstanceKey(c1), ConnectionsKey(IdsOf(c1)), ConnectionsKey(IdsOf(c2));
    HeaderIdsAreIds(TrimSpace(ids1));
    HeaderIdsAreIds(TrimSpace(ids2));
    AfterPrefix(head, k1, instance, k2);
    SortSorted(IdsOf(c1));
    JoinedStartsIds(Sort(IdsOf(c1)), instance[|head| + 6..], Sort(IdsOf(c2)));
    assert AmbiguousAt(instance, |head|);
  }

  /******* It is sufficient *******/

  /** An id that, put after `last` and "|conn:", comes after y. */
  lemma NextId(y: string, last: string) returns (z: string)
    requires y != "" && Trimmed(y) && ',' !in y
    requires StringLe(y, last + "|conn:") || HasPrefix(y, last + "|conn:")
    ensures AreIds([z]) && StringLe(y, last + ("|conn:" + z))
  {
    var w := last + "|conn:";
    if StringLe(y, w) {
      z := "x";
      LeBelowExtension(y, w, z);
    } else {
      var r := y[|w|..];
      assert y == w + r;
      StringLeSelf(w);
      assert r == "" ==> y == w;
      assert r[|r| - 1] == y[|y| - 1];
      z := if IsSpace(r[0]) then "\U{3001}" else r;
      if z == r { StringLeSelf(r); }
      LeUnderPrefix(w, r, z);
    }
    assert w + z == last + ("|conn:" + z);
  }

  lemma AppendSorted(xs: seq<string>, x: string)
    requires Sorted(xs) && (xs != [] ==> StringLe(xs[|xs| - 1], x))
    ensures Sorted(xs + [x])
  {
    forall i, j | 0 <= i < j < |xs + [x]| ensures StringLe((xs + [x])[i], (xs + [x])[j]) {
      if j == |xs| && i < |xs| - 1 { StringLeTransitive(xs[i], xs[|xs| - 1], x); }
    }
  }

  lemma SplicedId(last: string, z: string)
    requires ',' !in last && (last != "" ==> !IsSpace(last[0])) && AreIds([z])
    ensures AreIds([last + ("|conn:" + z)])
  {
    var x := last + ("|conn:" + z);
    assert z == [z][0];
    assert x[|x| - 1] == z[|z| - 1] && x[0] == if last == "" then '|' else last[0];
  }

  lemma CompletePieces(parts: seq<string>) returns (xs: seq<string>, z: string)
    requires parts != [] && ',' !in parts[|parts| - 1] && PiecesStart(parts)
    ensures AreIds(xs) && Sorted(xs) && AreIds([z])
    ensures xs == parts[..|parts| - 1] + [parts[|parts| - 1] + ("|conn:" + z)]
  {
    var n := |parts| - 1;
    z := "x";
    if n > 0 {
      assert parts[n - 1] == parts[..n][n - 1];
      z := NextId(parts[n - 1], parts[n]);
    }
    var next := parts[n] + ("|conn:" + z);
    xs := parts[..n] + [next];
    SplicedId(parts[n], z);
    assert next == [next][0];
    AppendSorted(parts[..n], next);
  }

  /** A list of ids that starts as the tail does. */
  lemma CompleteIds(tail: string) returns (xs: seq<string>, z: string)
    requires StartsIds(tail)
    ensures xs != [] && AreIds(xs) && Sorted(xs) && AreIds([z])
    ensures Join(xs, ',') == tail + ("|conn:" + z)
  {
    var parts := Split(tail, ',');
    xs, z := CompletePieces(parts);
    JoinExtendLast(parts[..|parts| - 1], parts[|parts| - 1], "|conn:" + z, ',');
    assert parts[..|parts| - 1] + [parts[|parts| - 1]] == parts;
    JoinSplit(tail, ',');
  }

  lemma MiddleOf(instance: string, xs: seq<string>)
    requires Trimmed(instance) && xs != [] && AreIds(xs) && Sorted(xs)
    ensures var c := RuntimeContext(instance, Join(xs, ','), "");
            InstanceKey(c) == instance && Middle(c) == instance + "|" + ("conn:" + Join(xs, ','))
  {
    IdsMakeHeader(xs);
    ContextKeys(instance, Join(xs, ','), "");
  }

  lemma SameMiddle(instance: string, p: nat, ids: string, z: string)
    requires p <= |instance| && HasPrefix(instance[p..], "|conn:") && ids == instance[p + 6..] + ("|conn:" + z)
    ensures instance[..p] + "|" + ("conn:" + ids) == instance + "|" + ("conn:" + z)
  {
    assert instance[p..] == "|conn:" + instance[p + 6..];
    assert instance == instance[..p] + instance[p..];
  }

  lemma AmbiguousIsMet(instance: string)
    requires Trimmed(instance) && AmbiguousInHeaders(instance)
    ensures MetByHeaders(instance)
  {
    var p: nat :| AmbiguousAt(instance, p) && StartsIds(instance[p + 6..]);
    var head, tail := instance[..p], instance[p + 6..];
    var xs, z := CompleteIds(tail);
    MiddleOf(head, xs);
    MiddleOf(instance, [z]);
    SameMiddle(instance, p, Join(xs, ','), z);
    assert Join([z], ',') == z;
    assert Confused(instance, RuntimeContext(head, Join(xs, ','), ""), RuntimeContext(instance, Join([z], ','), ""));
  }

  /**
   * Exactly when the key confuses an instance id: two requests, of which one has this id and the other a shorter one,
   * have the same joined parts, for some headers, if and only if the id is a trimmed string, "|conn:", and the start of
   * a list of ids.
   */
  lemma MetByHeadersIff(instance: string)
    requires Trimmed(instance)
    ensures MetByHeaders(instance) <==> AmbiguousInHeaders(instance)
  {
    if MetByHeaders(instance) {
      var i1, ids1, s1, i2, ids2, s2 :|
        Confused(instance, RuntimeContext(i1, ids1, s1), RuntimeContext(i2, ids2, s2));
      ContextKeys(i1, ids1, s1);
      ContextKeys(i2, ids2, s2);
      MetIsAmbiguous(instance, RuntimeContext(i1, ids1, s1), RuntimeContext(i2, ids2, s2), ids1, ids2);
    }
    if AmbiguousInHeaders(instance) { AmbiguousIsMet(instance); }
  }

  lemma SameLengthSameParts(k1: string, x1: string, k2: string, x2: string)
    requires k1 + "|" + x1 == k2 + "|" + x2 && |k1| == |k2|
    ensures k1 == k2 && x1 == x2
  {
    var m := k1 + "|" + x1;
    assert k1 == m[..|k1|] == k2 && x1 == m[|k1| + 1..] == x2;
  }

  lemma MiddleFromHeaders(c1: Context, ids1: string, c2: Context, ids2: string)
    requires IdsOf(c1) == HeaderIds(TrimSpace(ids1)) && IdsOf(c2) == HeaderIds(TrimSpace(ids2))
    requires !AmbiguousInHeaders(InstanceKey(c1)) && !AmbiguousInHeaders(InstanceKey(c2))
    ensures Middle(c1) == Middle(c2)
            <==> InstanceKey(c1) == InstanceKey(c2) && ConnectionsKey(IdsOf(c1)) == ConnectionsKey(IdsOf(c2))
  {
    if Middle(c1) == Middle(c2) {
      var k1, k2 := InstanceKey(c1), InstanceKey(c2);
      if |k1| < |k2| { MetIsAmbiguous(k2, c1, c2, ids1, ids2); }
      if |k2| < |k1| { MetIsAmbiguous(k1, c2, c1, ids2, ids1); }
      SameLengthSameParts(k1, ConnectionsKey(IdsOf(c1)), k2, ConnectionsKey(IdsOf(c2)));
    }
  }

  /**
   * For requests as they are made, the key identifies the trimmed token, the schema, the instance key and the ids up to
   * their order, with hashes that separate, and no instance id of the kind that can be confused.
   */
  lemma KeyIdentifiesHeaders(sha: Digest, t1: string, schema1: Schema, i1: string, ids1: string, s1: string,
                             t2: string, schema2: Schema, i2: string, ids2: string, s2: string)
    requires Separates(sha, TrimSpace(t1), TrimSpace(t2))
    requires schema1.Json? ==> IsDigest(sha, schema1.text)
    requires schema2.Json? ==> IsDigest(sha, schema2.text)
    requires schema1.Json? && schema2.Json? ==> Separates(sha, schema1.text, schema2.text)
    requires var c1, c2 := RuntimeContext(i1, ids1, s1), RuntimeContext(i2, ids2, s2);
             !AmbiguousInHeaders(InstanceKey(c1)) && !AmbiguousInHeaders(InstanceKey(c2))
    ensures var c1, c2 := RuntimeContext(i1, ids1, s1), RuntimeContext(i2, ids2, s2);
            CacheKey(sha, t1, schema1, c1) == CacheKey(sha, t2, schema2, c2) <==>
              && TrimSpace(t1) == TrimSpace(t2) && schema1 == schema2
              && InstanceKey(c1) == InstanceKey(c2) && multiset(IdsOf(c1)) == multiset(IdsOf(c2))
  {
    var c1, c2 := RuntimeContext(i1, ids1, s1), RuntimeContext(i2, ids2, s2);
    KeysEqualIff(sha, t1, schema1, c1, t2, schema2, c2);
    FingerprintInjective(sha, TrimSpace(t1), TrimSpace(t2));
    SchemaHashInjective(sha, schema1, schema2);
    MiddleFromHeaders(c1, ids1, c2, ids2);
    HeaderKeysEqualIff(TrimSpace(ids1), TrimSpace(ids2));
  }
}
