/**
 * The key of the Control config cache (config_cache.go configCacheKey and its parts; control.go
 * buildRuntimeContext): which requests share a key, and exactly when the '|' of the join lets two
 * different ones meet. SHA-256 is a parameter.
 */
module ConfigKey {
  import opened Text

  /******* Sorting strings *******/

  predicate StringLe(a: string, b: string) {
    a == "" || (b != "" && (a[0] < b[0] || (a[0] == b[0] && StringLe(a[1..], b[1..]))))
  }

  lemma {:induction false} StringLeTotal(a: string, b: string)
    ensures StringLe(a, b) || StringLe(b, a)
  {
    if a != "" && b != "" { StringLeTotal(a[1..], b[1..]); }
  }

  lemma {:induction false} StringLeAntisymmetric(a: string, b: string)
    requires StringLe(a, b) && StringLe(b, a)
    ensures a == b
  {
    if a != "" && b != "" {
      StringLeAntisymmetric(a[1..], b[1..]);
      assert a == [a[0]] + a[1..] && b == [b[0]] + b[1..];
    }
  }

  lemma {:induction false} StringLeTransitive(a: string, b: string, c: string)
    requires StringLe(a, b) && StringLe(b, c)
    ensures StringLe(a, c)
  {
    if a != "" && b != "" && c != "" && a[0] == b[0] == c[0] { StringLeTransitive(a[1..], b[1..], c[1..]); }
  }

  ghost predicate Sorted(xs: seq<string>) {
    forall i, j :: 0 <= i < j < |xs| ==> StringLe(xs[i], xs[j])
  }

  function Insert(x: string, xs: seq<string>): (r: seq<string>)
    ensures multiset(r) == multiset(xs) + multiset{x}
  {
    if xs == [] then [x]
    else if StringLe(x, xs[0]) then [x] + xs
    else
      assert xs == [xs[0]] + xs[1..];
      [xs[0]] + Insert(x, xs[1..])
  }

  lemma {:induction false} InsertSorted(x: string, xs: seq<string>)
    requires Sorted(xs)
    ensures Sorted(Insert(x, xs))
  {
    if xs != [] {
      var r := Insert(x, xs);
      if StringLe(x, xs[0]) {
        forall j | 0 < j < |r| ensures StringLe(r[0], r[j]) {
          if j > 1 { StringLeTransitive(x, xs[0], xs[j - 1]); }
        }
      } else {
        InsertSorted(x, xs[1..]);
        StringLeTotal(x, xs[0]);
        forall j | 0 < j < |r| ensures StringLe(r[0], r[j]) {
          assert r[j] in multiset(Insert(x, xs[1..]));
          assert r[j] == x || r[j] in xs[1..];
        }
      }
    }
  }

  /** sort.Strings */
  function Sort(xs: seq<string>): (r: seq<string>)
    ensures multiset(r) == multiset(xs)
    ensures |r| == |xs|
  {
    if xs == [] then []
    else
      assert xs == [xs[0]] + xs[1..];
      var r := Insert(xs[0], Sort(xs[1..]));
      assert |multiset(r)| == |r|;
      r
  }

  lemma {:induction false} SortSorted(xs: seq<string>)
    ensures Sorted(Sort(xs))
  {
    if xs != [] {
      SortSorted(xs[1..]);
      InsertSorted(xs[0], Sort(xs[1..]));
    }
  }

  lemma FirstIsLeast(a: seq<string>, x: string)
    requires Sorted(a) && x in multiset(a)
    ensures StringLe(a[0], x)
  {
    var i :| 0 <= i < |a| && a[i] == x;
    if i == 0 { StringLeSelf(x); }
  }

  lemma TailMultiset(a: seq<string>)
    requires a != []
    ensures multiset(a[1..]) == multiset(a) - multiset{a[0]}
  {
    assert a == [a[0]] + a[1..];
  }

  lemma {:induction false} SortedUnique(a: seq<string>, b: seq<string>)
    requires Sorted(a) && Sorted(b) && multiset(a) == multiset(b)
    ensures a == b
  {
    assert |a| == |multiset(a)| == |multiset(b)| == |b|;
    if a != [] {
      assert a[0] in multiset(b) && b[0] in multiset(a);
      FirstIsLeast(a, b[0]);
      FirstIsLeast(b, a[0]);
      StringLeAntisymmetric(a[0], b[0]);
      TailMultiset(a);
      TailMultiset(b);
      SortedUnique(a[1..], b[1..]);
      assert a == [a[0]] + a[1..] && b == [b[0]] + b[1..];
    }
  }

  lemma StringLeSelf(a: string)
    ensures StringLe(a, a)
  {
    StringLeTotal(a, a);
  }

  lemma SortCanonical(a: seq<string>, b: seq<string>)
    ensures Sort(a) == Sort(b) <==> multiset(a) == multiset(b)
  {
    SortSorted(a);
    SortSorted(b);
    if multiset(a) == multiset(b) { SortedUnique(Sort(a), Sort(b)); }
  }

  /******* The parts of the key *******/

  /** `connection_ids` as a []string, or as a []any whose elements are given by their printed form. */
  datatype Ids = Missing | Strings(ids: seq<string>) | Printed(ids: seq<string>)

  /** Absent context, or its entries; a value of another type counts as absent. */
  datatype Context = NoContext | Context(instanceID: Option<string>, serverID: Option<string>, connectionIDs: Ids)

  function InstanceKey(ctx: Context): (key: string)
    ensures Trimmed(key)
  {
    if ctx.NoContext? then ""
    else if ctx.instanceID.Some? && TrimSpace(ctx.instanceID.value) != "" then TrimSpace(ctx.instanceID.value)
    else if ctx.serverID.Some? && TrimSpace(ctx.serverID.value) != "" then
      PrefixKeepsTrimmed("server:", TrimSpace(ctx.serverID.value));
      "server:" + TrimSpace(ctx.serverID.value)
    else ""
  }

  /** The trimmed instance id comes first, then "server:" and the trimmed server id; blank ones count as absent. */
  lemma InstanceKeyIs(instance: Option<string>, server: Option<string>, ids: Ids)
    ensures var i := if instance.Some? then TrimSpace(instance.value) else "";
            var v := if server.Some? then TrimSpace(server.value) else "";
            InstanceKey(Context(instance, server, ids)) == if i != "" then i else if v != "" then "server:" + v else ""
    ensures InstanceKey(NoContext) == ""
  {}

  /** The ids the key is made of. */
  function KeptIds(ids: Ids): seq<string> {
    match ids
    case Missing => []
    case Strings(v) => v
    case Printed(v) => Filter(NonBlank(v))
  }

  function Filter(xs: seq<string>): seq<string> {
    if xs == [] then [] else (if xs[0] == "<nil>" then [] else [xs[0]]) + Filter(xs[1..])
  }

  /** Printed ids are trimmed, and blank ones and "<nil>" left out; strings are taken as they are. */
  lemma KeptIdsAre(v: seq<string>, x: string)
    ensures KeptIds(Strings(v)) == v && KeptIds(Missing) == [] && KeptIds(Printed([])) == []
    ensures KeptIds(Printed(v + [x])) ==
              KeptIds(Printed(v)) + if TrimSpace(x) == "" || TrimSpace(x) == "<nil>" then [] else [TrimSpace(x)]
  {
    NonBlankAppend(v, x);
    if TrimSpace(x) != "" { FilterAppend(NonBlank(v), TrimSpace(x)); }
  }

  lemma {:induction false} FilterAppend(xs: seq<string>, x: string)
    ensures Filter(xs + [x]) == Filter(xs) + if x == "<nil>" then [] else [x]
  {
    if xs == [] {
      assert [x][1..] == [];
    } else {
      assert (xs + [x])[1..] == xs[1..] + [x];
      FilterAppend(xs[1..], x);
    }
  }

  function ConnectionsKey(ids: seq<string>): (key: string)
    ensures key != "" ==> HasPrefix(key, "conn:")
  {
    if ids == [] then "" else "conn:" + Join(Sort(ids), ',')
  }

  datatype Schema = EmptySchema | Unmarshalled | Json(text: string)

  /** SHA-256 of a string, 32 bytes (sha256.Sum256). */
  type Digest = string -> seq<Byte>

  predicate IsDigest(sha: Digest, s: string) {
    |sha(s)| == 32
  }

  function Fingerprint(sha: Digest, s: string): (r: string)
    requires IsDigest(sha, s)
    ensures |r| == 16 && '|' !in r
  {
    var r := EncodeHex(sha(s)[..8]);
    assert HexValue('|') == None;
    r
  }

  function SchemaHash(sha: Digest, schema: Schema): (r: string)
    requires schema.Json? ==> IsDigest(sha, schema.text)
    ensures '|' !in r
  {
    match schema
    case EmptySchema => "empty"
    case Unmarshalled => "marshal-error"
    case Json(text) => Fingerprint(sha, text)
  }

  function CacheKey(sha: Digest, token: string, schema: Schema, ctx: Context): string
    requires IsDigest(sha, TrimSpace(token)) && (schema.Json? ==> IsDigest(sha, schema.text))
  {
    var ids := if ctx.NoContext? then [] else KeptIds(ctx.connectionIDs);
    Join([Fingerprint(sha, TrimSpace(token)), InstanceKey(ctx), ConnectionsKey(ids), SchemaHash(sha, schema)], '|')
  }

  function IdsOf(ctx: Context): seq<string> {
    if ctx.NoContext? then [] else KeptIds(ctx.connectionIDs)
  }

  /** The two middle parts as they are joined. */
  function Middle(ctx: Context): string {
    InstanceKey(ctx) + "|" + ConnectionsKey(IdsOf(ctx))
  }

  lemma KeyShape(sha: Digest, token: string, schema: Schema, ctx: Context)
    requires IsDigest(sha, TrimSpace(token)) && (schema.Json? ==> IsDigest(sha, schema.text))
    ensures CacheKey(sha, token, schema, ctx)
              == Fingerprint(sha, TrimSpace(token)) + "|" + Middle(ctx) + "|" + SchemaHash(sha, schema)
  {
    JoinFour(Fingerprint(sha, TrimSpace(token)), InstanceKey(ctx), ConnectionsKey(IdsOf(ctx)), SchemaHash(sha, schema));
  }

  lemma JoinFour(f: string, i: string, c: string, h: string)
    ensures Join([f, i, c, h], '|') == f + "|" + (i + "|" + c) + "|" + h
  {
    assert [f, i, c, h] == [f] + [i, c, h] && [i, c, h] == [i] + [c, h] && [c, h] == [c] + [h];
    JoinConcat([c], [h], '|');
    JoinConcat([i], [c, h], '|');
    JoinConcat([f], [i, c, h], '|');
  }

  /** A separator that does not occur after it splits a string in one way. */
  lemma LastSplit(a: string, h: string, b: string, g: string)
    requires a + "|" + h == b + "|" + g && '|' !in h && '|' !in g
    ensures a == b && h == g
  {
    var s, t := a + "|" + h, b + "|" + g;
    assert s[|a|] == '|' && t[|b|] == '|';
    assert forall k :: |a| < k < |s| ==> s[k] == h[k - |a| - 1] != '|';
    assert forall k :: |b| < k < |t| ==> t[k] == g[k - |b| - 1] != '|';
    assert |a| == |b|;
    assert a == s[..|a|] && b == t[..|b|] && h == s[|a| + 1..] && g == t[|b| + 1..];
  }

  lemma JoinedEqualIff(f1: string, m1: string, h1: string, f2: string, m2: string, h2: string)
    requires |f1| == |f2| && '|' !in h1 && '|' !in h2
    ensures f1 + "|" + m1 + "|" + h1 == f2 + "|" + m2 + "|" + h2 <==> f1 == f2 && m1 == m2 && h1 == h2
  {
    if f1 + "|" + m1 + "|" + h1 == f2 + "|" + m2 + "|" + h2 {
      LastSplit(f1 + "|" + m1, h1, f2 + "|" + m2, h2);
      var n := |f1|;
      assert f1 == (f1 + "|" + m1)[..n] && f2 == (f2 + "|" + m2)[..n];
      assert m1 == (f1 + "|" + m1)[n + 1..] && m2 == (f2 + "|" + m2)[n + 1..];
    }
  }

  /** Two keys are equal exactly when the fingerprints, the joined middle parts and the schema hashes are. */
  lemma KeysEqualIff(sha: Digest, t1: string, s1: Schema, c1: Context, t2: string, s2: Schema, c2: Context)
    requires IsDigest(sha, TrimSpace(t1)) && (s1.Json? ==> IsDigest(sha, s1.text))
    requires IsDigest(sha, TrimSpace(t2)) && (s2.Json? ==> IsDigest(sha, s2.text))
    ensures CacheKey(sha, t1, s1, c1) == CacheKey(sha, t2, s2, c2) <==>
              && Fingerprint(sha, TrimSpace(t1)) == Fingerprint(sha, TrimSpace(t2))
              && Middle(c1) == Middle(c2)
              && SchemaHash(sha, s1) == SchemaHash(sha, s2)
  {
    KeyShape(sha, t1, s1, c1);
    KeyShape(sha, t2, s2, c2);
    JoinedEqualIff(Fingerprint(sha, TrimSpace(t1)), Middle(c1), SchemaHash(sha, s1),
                   Fingerprint(sha, TrimSpace(t2)), Middle(c2), SchemaHash(sha, s2));
  }

  /******* When the join is ambiguous *******/

  /** "|conn:" occurs in the instance key, after a prefix that could be an instance key itself. */
  predicate AmbiguousAt(instance: string, p: nat) {
    p <= |instance| && HasPrefix(instance[p..], "|conn:") && Trimmed(instance[..p])
  }

  ghost predicate Ambiguous(instance: string) {
    exists p: nat :: AmbiguousAt(instance, p)
  }

  lemma ShorterPrefix(i1: string, k1: string, i2: string, k2: string)
    requires i1 + "|" + k1 == i2 + "|" + k2 && |i1| < |i2| && (k1 != "" ==> HasPrefix(k1, "conn:"))
    ensures i2[..|i1|] == i1 && HasPrefix(i2[|i1|..], "|conn:")
  {
    var x := i2[|i1| + 1..];
    var m := i2 + "|" + k2;
    assert i1 == m[..|i1|] == i2[..|i1|] && k1 == m[|i1| + 1..];
    assert i2 == i1 + "|" + x by { assert m[|i1|] == '|' == i2[|i1|]; }
    assert k1 == x + "|" + k2;
    assert k1[|x|] == '|' && k1[..5] == "conn:";
    assert |x| >= 5 by { assert forall j :: 0 <= j < 5 ==> k1[j] == "conn:"[j] != '|'; }
    assert x[..5] == "conn:";
    assert i2[|i1|..] == "|" + x;
    assert i2[|i1|..][..6] == "|conn:";
  }

  lemma ShorterInstance(c1: Context, c2: Context)
    requires Middle(c1) == Middle(c2) && |InstanceKey(c1)| < |InstanceKey(c2)|
    ensures Ambiguous(InstanceKey(c2))
  {
    ShorterPrefix(InstanceKey(c1), ConnectionsKey(IdsOf(c1)), InstanceKey(c2), ConnectionsKey(IdsOf(c2)));
    assert AmbiguousAt(InstanceKey(c2), |InstanceKey(c1)|);
  }

  /** Without "|conn:" in the instance keys, the middle parts are equal only if each part is. */
  lemma MiddleInjective(c1: Context, c2: Context)
    requires !Ambiguous(InstanceKey(c1)) && !Ambiguous(InstanceKey(c2))
    ensures Middle(c1) == Middle(c2) <==>
              InstanceKey(c1) == InstanceKey(c2) && ConnectionsKey(IdsOf(c1)) == ConnectionsKey(IdsOf(c2))
  {
    if Middle(c1) == Middle(c2) {
      var i1, i2 := InstanceKey(c1), InstanceKey(c2);
      if |i1| < |i2| { ShorterInstance(c1, c2); }
      if |i2| < |i1| { ShorterInstance(c2, c1); }
      assert i1 == Middle(c1)[..|i1|] && i2 == Middle(c2)[..|i2|];
      assert ConnectionsKey(IdsOf(c1)) == Middle(c1)[|i1| + 1..];
      assert ConnectionsKey(IdsOf(c2)) == Middle(c2)[|i2| + 1..];
    }
  }

  ghost predicate Confused(instance: string, c1: Context, c2: Context) {
    InstanceKey(c2) == instance && |InstanceKey(c1)| < |instance| && Middle(c1) == Middle(c2)
  }

  function WithId(head: string, tail: string): Context {
    Context(Some(head), None, Strings([tail + "|"]))
  }

  function WithoutIds(head: string, tail: string): Context {
    Context(Some(head + "|conn:" + tail), None, Missing)
  }

  lemma ConfusingContexts(head: string, tail: string)
    requires Trimmed(head) && Trimmed(head + "|conn:" + tail)
    ensures Confused(head + "|conn:" + tail, WithId(head, tail), WithoutIds(head, tail))
  {
    MiddleWithId(head, tail);
    MiddleWithoutIds(head + "|conn:" + tail);
    SameText(head, tail);
  }

  lemma SameText(head: string, tail: string)
    ensures head + "|" + ("conn:" + (tail + "|")) == (head + "|conn:" + tail) + "|" + ""
    ensures |head| < |head + "|conn:" + tail|
  {
    assert "|conn:" == "|" + "conn:";
    Regroup(head, "|", "conn:", tail);
  }

  lemma MiddleWithId(head: string, tail: string)
    requires Trimmed(head)
    ensures InstanceKey(WithId(head, tail)) == head
    ensures Middle(WithId(head, tail)) == head + "|" + ("conn:" + (tail + "|"))
  {
    InstanceOf(head, Strings([tail + "|"]));
    SingletonKey(tail + "|");
  }

  lemma MiddleWithoutIds(instance: string)
    requires Trimmed(instance)
    ensures var c := Context(Some(instance), None, Missing); InstanceKey(c) == instance && Middle(c) == instance + "|" + ""
  {
    InstanceOf(instance, Missing);
  }

  lemma Regroup(a: string, b: string, c: string, d: string)
    ensures a + b + (c + (d + b)) == (a + (b + c) + d) + b + ""
  {
    assert c + (d + b) == (c + d) + b;
    assert a + (b + c) + d == a + b + (c + d);
  }

  lemma InstanceOf(id: string, ids: Ids)
    requires Trimmed(id)
    ensures InstanceKey(Context(Some(id), None, ids)) == id
  {}

  ghost predicate CanBeConfused(instance: string) {
    exists c1, c2 :: Confused(instance, c1, c2)
  }

  lemma ConfusedIsAmbiguous(instance: string)
    requires CanBeConfused(instance)
    ensures Ambiguous(instance)
  {
    var c1, c2 :| Confused(instance, c1, c2);
    ShorterInstance(c1, c2);
  }

  lemma SplitAmbiguous(instance: string) returns (head: string, tail: string)
    requires Ambiguous(instance)
    ensures Trimmed(head) && instance == head + "|conn:" + tail
  {
    var p: nat :| AmbiguousAt(instance, p);
    head, tail := instance[..p], instance[p + 6..];
    assert instance[p..][..6] == "|conn:";
  }

  lemma AmbiguousIsConfused(instance: string)
    requires Trimmed(instance) && Ambiguous(instance)
    ensures CanBeConfused(instance)
  {
    var head, tail := SplitAmbiguous(instance);
    ConfusingContexts(head, tail);
  }

  /**
   * Exactly when an instance key can be confused, among all contexts that configCacheKey accepts, whatever their ids: a
   * context with a shorter instance key and the same joined parts exists if and only if "|conn:" occurs in it after a
   * trimmed prefix. ConfigKeyHeaders.MetByHeadersIff is about the contexts that the middleware makes.
   */
  lemma ConfusedIffAmbiguous(instance: string)
    requires Trimmed(instance)
    ensures CanBeConfused(instance) <==> Ambiguous(instance)
  {
    if CanBeConfused(instance) { ConfusedIsAmbiguous(instance); }
    if Ambiguous(instance) { AmbiguousIsConfused(instance); }
  }

  lemma SingletonKey(id: string)
    ensures ConnectionsKey([id]) == "conn:" + id
  {
    assert [id][1..] == [];
    assert Sort([]) == [];
    assert Sort([id]) == [id];
  }

  lemma OneHeaderId(id: string)
    requires id != "" && Trimmed(id) && ',' !in id
    ensures HeaderIds(id) == [id]
  {
    assert Join([id], ',') == id;
    SplitJoin([id], ',');
    NonBlankIdentity([id]);
  }

  /** Pairs of requests whose headers are all accepted and differ, with one key: for any such head and tail. */
  lemma HeadersCanCollide(head: string, tail: string)
    requires Trimmed(head) && tail != "" && Trimmed(tail) && ',' !in tail
    ensures HeaderIds(tail + "|") == [tail + "|"]
    ensures Confused(head + "|conn:" + tail, WithId(head, tail), WithoutIds(head, tail))
  {
    OneHeaderId(tail + "|");
    SpliceTrimmed(head, tail);
    ConfusingContexts(head, tail);
  }

  lemma SpliceTrimmed(head: string, tail: string)
    requires Trimmed(head) && tail != "" && Trimmed(tail)
    ensures Trimmed(head + "|conn:" + tail)
  {
    var s := head + "|conn:" + tail;
    assert s[|s| - 1] == tail[|tail| - 1];
    assert head != "" ==> s[0] == head[0];
  }

  /******* Connection ids *******/

  /** The header's ids: split on commas, trimmed, blank ones dropped. */
  function HeaderIds(raw: string): seq<string> {
    NonBlank(Split(raw, ','))
  }

  method BuildConnectionIds(raw: string) returns (ids: seq<string>)
    ensures ids == HeaderIds(raw)
    ensures forall x :: x in ids ==> x != "" && Trimmed(x) && ',' !in x
  {
    ids := [];
    var parts := Split(raw, ',');
    for i := 0 to |parts|
      invariant ids == NonBlank(parts[..i])
    {
      assert parts[..i + 1] == parts[..i] + [parts[i]];
      NonBlankAppend(parts[..i], parts[i]);
      var s := TrimSpace(parts[i]);
      if s != "" {
        ids := ids + [s];
      }
    }
    NonBlankAddsNothing(parts, ',');
    assert parts[..|parts|] == parts;
  }

  ghost predicate CommaFree(ids: seq<string>) {
    forall i :: 0 <= i < |ids| ==> ',' !in ids[i]
  }

  lemma SortCommaFree(ids: seq<string>)
    requires CommaFree(ids)
    ensures CommaFree(Sort(ids))
  {
    forall i | 0 <= i < |ids| ensures ',' !in Sort(ids)[i] {
      assert Sort(ids)[i] in multiset(ids);
    }
  }

  /** For comma-free ids the key part is the same exactly when the ids are, in whatever order. */
  lemma ConnectionsKeyIff(a: seq<string>, b: seq<string>)
    requires CommaFree(a) && CommaFree(b)
    ensures ConnectionsKey(a) == ConnectionsKey(b) <==> multiset(a) == multiset(b)
  {
    assert |multiset(a)| == |a| && |multiset(b)| == |b|;
    SortCanonical(a, b);
    if a != [] && b != [] {
      SortCommaFree(a);
      SortCommaFree(b);
      SplitJoin(Sort(a), ',');
      SplitJoin(Sort(b), ',');
      assert ConnectionsKey(a)[5..] == Join(Sort(a), ',') && ConnectionsKey(b)[5..] == Join(Sort(b), ',');
    }
  }

  /** Ids read from two headers give the same part exactly when they are the same ids, in any order. */
  lemma HeaderKeysEqualIff(raw1: string, raw2: string)
    ensures ConnectionsKey(HeaderIds(raw1)) == ConnectionsKey(HeaderIds(raw2)) <==>
              multiset(HeaderIds(raw1)) == multiset(HeaderIds(raw2))
  {
    HeaderIdsCommaFree(raw1);
    HeaderIdsCommaFree(raw2);
    ConnectionsKeyIff(HeaderIds(raw1), HeaderIds(raw2));
  }

  lemma HeaderIdsCommaFree(raw: string)
    ensures CommaFree(HeaderIds(raw))
  {
    NonBlankAddsNothing(Split(raw, ','), ',');
    forall i | 0 <= i < |HeaderIds(raw)| ensures ',' !in HeaderIds(raw)[i] { assert HeaderIds(raw)[i] in HeaderIds(raw); }
  }

  /** The hashes separate the tokens and schemas in use. */
  ghost predicate Separates(sha: Digest, a: string, b: string) {
    IsDigest(sha, a) && IsDigest(sha, b) && (sha(a)[..8] == sha(b)[..8] ==> a == b)
  }

  lemma FingerprintInjective(sha: Digest, a: string, b: string)
    requires Separates(sha, a, b)
    ensures Fingerprint(sha, a) == Fingerprint(sha, b) <==> a == b
  {
    HexRoundTrip(sha(a)[..8]);
    HexRoundTrip(sha(b)[..8]);
  }

  lemma SchemaHashInjective(sha: Digest, a: Schema, b: Schema)
    requires a.Json? ==> IsDigest(sha, a.text)
    requires b.Json? ==> IsDigest(sha, b.text)
    requires a.Json? && b.Json? ==> Separates(sha, a.text, b.text)
    ensures SchemaHash(sha, a) == SchemaHash(sha, b) <==> a == b
  {
    if a.Json? && b.Json? { FingerprintInjective(sha, a.text, b.text); }
    assert |"empty"| == 5 && |"marshal-error"| == 13;
  }

  /**
   * The key identifies a request up to the order of its connection ids: two keys are equal exactly when the
   * trimmed tokens, the schemas, the instance keys and the multisets of connection ids are. It needs hashes
   * that separate, no "|conn:" in instance keys, and ids without commas, which header ids are.
   */
  lemma KeyIdentifiesRequest(sha: Digest, t1: string, s1: Schema, c1: Context, t2: string, s2: Schema, c2: Context)
    requires Separates(sha, TrimSpace(t1), TrimSpace(t2))
    requires s1.Json? ==> IsDigest(sha, s1.text)
    requires s2.Json? ==> IsDigest(sha, s2.text)
    requires s1.Json? && s2.Json? ==> Separates(sha, s1.text, s2.text)
    requires !Ambiguous(InstanceKey(c1)) && !Ambiguous(InstanceKey(c2))
    requires CommaFree(IdsOf(c1)) && CommaFree(IdsOf(c2))
    ensures CacheKey(sha, t1, s1, c1) == CacheKey(sha, t2, s2, c2) <==>
              && TrimSpace(t1) == TrimSpace(t2) && s1 == s2
              && InstanceKey(c1) == InstanceKey(c2) && multiset(IdsOf(c1)) == multiset(IdsOf(c2))
  {
    KeysEqualIff(sha, t1, s1, c1, t2, s2, c2);
    FingerprintInjective(sha, TrimSpace(t1), TrimSpace(t2));
    SchemaHashInjective(sha, s1, s2);
    MiddleInjective(c1, c2);
    ConnectionsKeyIff(IdsOf(c1), IdsOf(c2));
  }
}
