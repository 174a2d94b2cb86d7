/** What the Control config cache guarantees over whole runs. */
module ConfigCacheSafety {
  import opened Text
  import opened Counting
  import opened ConfigCache
  import opened ConfigCacheWrites

  lemma Reachable(run: seq<Action>)
    ensures Inv(Exec(INIT, run)) && Memory(Exec(INIT, run))
  {
    ExecKeepsMemory(INIT, run);
  }

  /******* How often Control is asked *******/

  predicate Busy(g: Flight) {
    !g.phase.Landed?
  }

  /**
   * At most one fetch per key is under way, whatever the interleaving. This is the contract of singleflight, which
   * JoinStep takes over; what the cache adds is FetchesInWindow.
   */
  lemma OneFlightPerKey(run: seq<Action>, f: nat, g: nat)
    requires f < |Exec(INIT, run).flights| && g < |Exec(INIT, run).flights|
    requires Busy(Exec(INIT, run).flights[f]) && Busy(Exec(INIT, run).flights[g])
    requires Exec(INIT, run).flights[f].key == Exec(INIT, run).flights[g].key
    ensures f == g
  {
    Reachable(run);
  }

  /** The flight's fetch succeeded and started in [from, from + span]. */
  predicate StartedIn(g: Flight, key: string, from: int, span: nat) {
    g.key == key && g.stored.Some? && g.started.Some? && from <= g.started.value <= from + span
  }

  function InWindow(key: string, from: int, span: nat): Flight -> bool {
    g => StartedIn(g, key, from, span)
  }

  ghost predicate Timed(flights: seq<Flight>) {
    forall f :: 0 <= f < |flights| && flights[f].stored.Some? ==>
      flights[f].started.Some? && flights[f].started.value <= flights[f].stored.value.at
  }

  /** The last of n spaced fetches of a window starts at least (n - 1) * 30 s into it. */
  lemma {:induction false} LastOfWindow(flights: seq<Flight>, key: string, from: int, span: nat) returns (last: nat)
    requires Spaced(flights) && Timed(flights)
    requires Count(flights, InWindow(key, from, span)) > 0
    ensures last < |flights| && StartedIn(flights[last], key, from, span)
    ensures flights[last].started.value >= from + (Count(flights, InWindow(key, from, span)) - 1) * MIN_TTL
  {
    var n := |flights| - 1;
    var p := InWindow(key, from, span);
    if Count(flights[..n], p) > 0 {
      last := LastOfWindow(flights[..n], key, from, span);
      if p(flights[n]) {
        assert flights[last].stored.value.at + MIN_TTL <= flights[n].started.value;
        last := n;
      }
    } else {
      last := n;
    }
  }

  lemma SpacedWindow(flights: seq<Flight>, key: string, from: int, span: nat)
    requires Spaced(flights) && Timed(flights)
    ensures Count(flights, InWindow(key, from, span)) <= span / MIN_TTL + 1
  {
    var n := Count(flights, InWindow(key, from, span));
    if n > 0 {
      var last := LastOfWindow(flights, key, from, span);
      assert (n - 1) * MIN_TTL <= span;
    }
  }

  /** A window of T seconds starts at most T / 30 + 1 successful fetches for a key. */
  lemma FetchesInWindow(run: seq<Action>, key: string, from: int, span: nat)
    ensures Count(Exec(INIT, run).flights, InWindow(key, from, span)) <= span / 30_000_000_000 + 1
  {
    var s := Exec(INIT, run);
    Reachable(run);
    forall f: nat | f < |s.flights| && s.flights[f].stored.Some?
      ensures s.flights[f].started.Some? && s.flights[f].started.value <= s.flights[f].stored.value.at
    {
      assert FlightOk(s, f, s.flights[f]);
    }
    SpacedWindow(s.flights, key, from, span);
  }

  /** Once any flight's answer is stored, a lookup of its key in the next 30 s hits, and asks nobody. */
  lemma StoredAnswerHits(run: seq<Action>, f: nat, now: int)
    requires f < |Exec(INIT, run).flights| && Exec(INIT, run).flights[f].stored.Some?
    requires now < Exec(INIT, run).flights[f].stored.value.at + 30_000_000_000
    ensures Hit(Exec(INIT, run), Exec(INIT, run).flights[f].key, now)
  {
    var s := Exec(INIT, run);
    Reachable(run);
    assert FlightOk(s, f, s.flights[f]);
    assert EntryOk(s, s.flights[f].key, s.cache[s.flights[f].key]);
  }

  /******* Which maps are shared *******/

  lemma WriteTouchesOneMap(s: State, c: nat, config: Config)
    requires c < |s.callers| && s.callers[c].Returned? && s.callers[c].out.ref < |s.heap| && Grounded(s.nested, config)
    ensures var t := Apply(s, Write(c, config)); var ref := s.callers[c].out.ref;
      && t.cache == s.cache && t.nested == s.nested && |t.heap| == |s.heap| && t.heap[ref].config == config
      && forall r :: 0 <= r < |s.heap| && r != ref ==> t.heap[r] == s.heap[r]
  {
  }

  /** No map handed out is the map of a cache entry, so no caller can add, replace or remove what the entry holds under a key. */
  lemma ReturnedMapsAreNotCached(run: seq<Action>, c: nat, config: Config)
    requires c < |Exec(INIT, run).callers| && Exec(INIT, run).callers[c].Returned?
    requires Grounded(Exec(INIT, run).nested, config)
    ensures var s := Exec(INIT, run); var t := Apply(s, Write(c, config));
      && t.cache == s.cache && s.callers[c].out.ref < |t.heap| && t.heap[s.callers[c].out.ref].config == config
      && forall k :: k in s.cache ==>
           && s.cache[k].ref != s.callers[c].out.ref
           && s.cache[k].ref < |s.heap| && s.cache[k].ref < |t.heap|
           && t.heap[s.cache[k].ref] == s.heap[s.cache[k].ref]
           && Full(t.nested, t.heap[s.cache[k].ref].config) == Full(s.nested, s.heap[s.cache[k].ref].config)
  {
    var s := Exec(INIT, run);
    Reachable(run);
    ReturnedIsHanded(s, c);
    forall k | k in s.cache ensures s.cache[k].ref < |s.heap| && s.cache[k].ref != s.callers[c].out.ref {
      assert EntryOk(s, k, s.cache[k]);
    }
    WriteTouchesOneMap(s, c, config);
  }

  /** Both waited for one flight. */
  predicate SameFlight(a: Via, b: Via) {
    !a.Lookup? && !b.Lookup? && a.flight == b.flight
  }

  lemma SharedIff(s: State, c: nat, d: nat)
    requires Inv(s) && c < |s.callers| && d < |s.callers| && c != d && s.callers[c].Returned? && s.callers[d].Returned?
    ensures s.callers[c].out.ref == s.callers[d].out.ref <==> SameFlight(s.callers[c].via, s.callers[d].via)
  {
    assert CallerOk(s, c, s.callers[c]) && CallerOk(s, d, s.callers[d]);
  }

  /**
   * singleflight gives one value to all waiters. In every reachable state two callers hold the same map if and only
   * if they waited for the same flight; a map found by the first lookup is the caller's own.
   */
  lemma MapsAreSharedIff(run: seq<Action>, c: nat, d: nat)
    requires c < |Exec(INIT, run).callers| && d < |Exec(INIT, run).callers| && c != d
    requires Exec(INIT, run).callers[c].Returned? && Exec(INIT, run).callers[d].Returned?
    ensures var s := Exec(INIT, run);
      s.callers[c].out.ref == s.callers[d].out.ref <==> SameFlight(s.callers[c].via, s.callers[d].via)
  {
    Reachable(run);
    SharedIff(Exec(INIT, run), c, d);
  }

  /******* What writes can reach *******/

  /**
   * Nobody wrote to a nested value of the answer, or what was last written there is what Control sent. Every map made
   * from the answer refers to these same values.
   */
  ghost predicate Intact(log: seq<Wrote>, f: nat, content: Content) {
    forall k :: k in content && content[k].Tree? ==>
      LastNested(log, Node(f, k)).None? || LastNested(log, Node(f, k)).value == content[k].fields
  }

  lemma DecodeIntactIff(flights: seq<Flight>, log: seq<Wrote>, f: nat, content: Content)
    requires Sent(flights, f) == content
    ensures FullAt(flights, log, Decode(f, content)) == content <==> Intact(log, f, content)
  {
    var full := FullAt(flights, log, Decode(f, content));
    assert full.Keys == content.Keys;
    if Intact(log, f, content) {
      forall k | k in content ensures full[k] == content[k] {}
    } else {
      var k :| k in content && content[k].Tree? && LastNested(log, Node(f, k)).Some?
               && LastNested(log, Node(f, k)).value != content[k].fields;
      assert full[k] != content[k];
    }
  }

  /**
   * The map of an entry stays as it was stored, whatever callers write; but it shares its nested values with every map
   * handed out. So an entry amounts to its flight's answer if and only if those are intact.
   */
  lemma EntryContentIff(run: seq<Action>, k: string)
    requires k in Exec(INIT, run).cache
    ensures var s := Exec(INIT, run); var e := s.cache[k];
      && e.ref < |s.heap| && e.flight < |s.flights| && s.flights[e.flight].key == k && s.flights[e.flight].answer.Some?
      && var content := s.flights[e.flight].answer.value.content;
      && s.heap[e.ref].config == Decode(e.flight, content)
      && (Full(s.nested, s.heap[e.ref].config) == content <==> Intact(s.log, e.flight, content))
  {
    var s := Exec(INIT, run);
    Reachable(run);
    var e := s.cache[k];
    assert EntryOk(s, k, e);
    assert CellOk(s, e.ref);
    WrittenIsHanded(s, e.ref);
    FullNow(s, s.heap[e.ref].config);
    DecodeIntactIff(s.flights, s.log, e.flight, s.flights[e.flight].answer.value.content);
  }

  lemma FullAfterWrite(nested: map<Node, Content>, f: nat, content: Content, n: Node, written: Content)
    requires n in nested && (n.flight == f ==> n.field in content && content[n.field].Tree?)
    ensures Full(nested[n := written], Decode(f, content)) != Full(nested, Decode(f, content))
            <==> n.flight == f && nested[n] != written
  {
    var before, after := Full(nested, Decode(f, content)), Full(nested[n := written], Decode(f, content));
    if n.flight == f && nested[n] != written {
      assert before[n.field] != after[n.field];
    } else {
      assert after == before;
    }
  }

  lemma WriteNestedApplies(s: State, c: nat, n: Node, written: Content)
    requires c < |s.callers| && s.callers[c].Returned? && n in s.nested
    ensures Apply(s, WriteNested(c, n, written))
            == s.(nested := s.nested[n := written], log := s.log + [WroteNested(c, n, written)])
  {}

  /** A write to a nested value changes an entry if and only if the value is of the entry's answer and was different. */
  lemma NestedWriteReachesEntryIff(run: seq<Action>, c: nat, n: Node, written: Content, k: string)
    requires c < |Exec(INIT, run).callers| && Exec(INIT, run).callers[c].Returned?
    requires n in Exec(INIT, run).nested && k in Exec(INIT, run).cache
    ensures var s := Exec(INIT, run); var t := Apply(s, WriteNested(c, n, written)); var ref := s.cache[k].ref;
      && t.cache == s.cache && t.heap == s.heap && ref < |s.heap|
      && (Full(t.nested, t.heap[ref].config) != Full(s.nested, s.heap[ref].config)
          <==> n.flight == s.cache[k].flight && s.nested[n] != written)
  {
    var s := Exec(INIT, run);
    EntryContentIff(run, k);
    assert NodeOk(s, n) by { Reachable(run); }
    WriteNestedApplies(s, c, n, written);
    FullAfterWrite(s.nested, s.cache[k].flight, Sent(s.flights, s.cache[k].flight), n, written);
  }

  /** Key by key, the scalar Control sent, or a reference to a nested value that is now what Control sent. */
  ghost predicate AsSent(flights: seq<Flight>, log: seq<Wrote>, config: Config, content: Content) {
    config.Keys == content.Keys && forall k :: k in content ==> ReadAt(flights, log, config[k]) == content[k]
  }

  /**
   * At the time the call returned, the nested values of the answer were intact; or, if a caller that holds the same map
   * had written to it, what it last put there was the answer again.
   */
  ghost predicate Kept(s: State, r: Caller)
    requires r.Returned?
  {
    && r.seen <= |s.log|
    && var log, content := s.log[..r.seen], Sent(s.flights, r.out.source);
    match LastMap(log, r.out.ref)
    case None => Intact(log, r.out.source, content)
    case Some(config) => AsSent(s.flights, log, config, content)
  }

  lemma GivenIff(s: State, c: nat)
    requires Inv(s) && Memory(s) && c < |s.callers| && s.callers[c].Returned?
    ensures var r := s.callers[c];
      && r.out.source < |s.flights| && s.flights[r.out.source].answer.Some?
      && (r.content == s.flights[r.out.source].answer.value.content <==> Kept(s, r))
  {
    var r := s.callers[c];
    assert CallerOk(s, c, r);
    assert GivenOk(s, r);
    var log := s.log[..r.seen];
    DecodeIntactIff(s.flights, log, r.out.source, Sent(s.flights, r.out.source));
  }

  /**
   * Where a returned configuration comes from, and how old it can be. It is Control's own answer to a fetch under the
   * same key, and it stands for an instant after that answer and before the entry it was stored in expires, at most
   * 120 s later. A caller served by the first lookup or by the flight it opened gets an instant of its own call; a
   * caller that joined a flight gets an instant of that flight, which was under way during the call.
   */
  lemma ReturnedIsControlsAnswer(run: seq<Action>, c: nat)
    requires c < |Exec(INIT, run).callers| && Exec(INIT, run).callers[c].Returned?
    ensures var s := Exec(INIT, run); var r := s.callers[c];
      && r.out.source < |s.flights|
      && var g := s.flights[r.out.source];
      && g.key == r.key && g.answer.Some? && g.stored.Some?
      && g.answer.value.at <= Instant(g, r.out) < g.stored.value.until <= g.stored.value.at + 120_000_000_000
      && (!r.via.Joined? ==> r.called <= Instant(g, r.out) <= r.returned)
      && (r.via.Joined? ==>
            && r.via.flight < |s.flights| && s.flights[r.via.flight].phase.Landed?
            && var f := s.flights[r.via.flight];
            && f.key == r.key && f.begun <= Instant(g, r.out) <= f.phase.at
            && r.called <= f.phase.at <= r.returned)
      && (r.content == g.answer.value.content <==> Kept(s, r))
  {
    var s := Exec(INIT, run);
    Reachable(run);
    var r := s.callers[c];
    assert CallerOk(s, c, r);
    assert FlightOk(s, r.out.source, s.flights[r.out.source]);
    GivenIff(s, c);
  }

  /** A write to a nested value of the answer given to c, or to the map given to c by another that waited for its flight. */
  predicate Reaches(s: State, w: Wrote, c: nat)
    requires c < |s.callers| && s.callers[c].Returned?
  {
    match w
    case WroteMap(d, ref, _) =>
      && ref == s.callers[c].out.ref && d < |s.callers| && d != c
      && s.callers[d].Returned? && SameFlight(s.callers[c].via, s.callers[d].via)
    case WroteNested(_, n, _) => n.flight == s.callers[c].out.source && Original(s.flights, n).Some?
  }

  /**
   * What a caller is given can differ from Control's answer only through a write before it returned: one to a nested
   * value of that answer, by anybody, or one to the map itself by a fellow waiter of its flight.
   */
  lemma SpoiledOnlyByWrites(run: seq<Action>, c: nat)
    requires c < |Exec(INIT, run).callers| && Exec(INIT, run).callers[c].Returned?
    ensures var s := Exec(INIT, run); var r := s.callers[c];
      && r.seen <= |s.log| && r.out.source < |s.flights| && s.flights[r.out.source].answer.Some?
      && ((forall i :: 0 <= i < r.seen ==> !Reaches(s, s.log[i], c))
          ==> r.content == s.flights[r.out.source].answer.value.content)
  {
    var s := Exec(INIT, run);
    Reachable(run);
    GivenIff(s, c);
    var r := s.callers[c];
    var log, content := s.log[..r.seen], Sent(s.flights, r.out.source);
    if LastMap(log, r.out.ref).Some? {
      LastMapFound(log, r.out.ref);
      var i :| 0 <= i < |log| && log[i].WroteMap? && log[i].ref == r.out.ref;
      assert WroteOk(s, i);
      SharedIff(s, c, s.log[i].caller);
      assert Reaches(s, s.log[i], c);
    } else if !Intact(log, r.out.source, content) {
      var k :| k in content && content[k].Tree? && LastNested(log, Node(r.out.source, k)).Some?;
      LastNestedFound(log, Node(r.out.source, k));
      var i :| 0 <= i < |log| && log[i].WroteNested? && log[i].node == Node(r.out.source, k);
      assert Reaches(s, s.log[i], c);
    }
  }

  /******* When a call fails *******/

  /**
   * A caller that waited for a flight and is done failed if and only if the flight made a fetch of its own to which
   * Control gave no answer. A caller served by a lookup, its own or the flight's, never fails.
   */
  lemma FailsIff(run: seq<Action>, c: nat)
    requires c < |Exec(INIT, run).callers|
    requires Exec(INIT, run).callers[c].Returned? || Exec(INIT, run).callers[c].Failed?
    ensures var s := Exec(INIT, run); var r := s.callers[c];
      r.Failed? <==> && !r.via.Lookup? && r.via.flight < |s.flights|
                     && s.flights[r.via.flight].started.Some? && s.flights[r.via.flight].answer.None?
  {
    var s := Exec(INIT, run);
    Reachable(run);
    var r := s.callers[c];
    assert CallerOk(s, c, r);
    if !r.via.Lookup? { assert FlightOk(s, r.via.flight, s.flights[r.via.flight]); }
  }

  /** When Control gives no answer, the flight ends, its waiters are told, nothing is stored, and the key is free again. */
  lemma FailureIsReported(s: State, f: nat, c: nat, env: string)
    requires f < |s.flights| && s.flights[f].phase.Fetching?
    requires c < |s.callers| && s.callers[c].Waiting? && !s.callers[c].via.Lookup? && s.callers[c].via.flight == f
    ensures var t := Apply(Apply(s, Fly(f, Error, env)), Collect(c));
      && t.callers == s.callers[c := Failed(s.callers[c].key, s.callers[c].via)]
      && t.cache == s.cache && t.heap == s.heap && t.active == s.active - {s.flights[f].key}
  {}

  /** When the second lookup hits, Control is not asked, and a waiter is given what the entry holds. */
  lemma RecheckHitIsReturned(s: State, f: nat, c: nat, reply: Reply, env: string)
    requires f < |s.flights| && s.flights[f].phase.Checking? && Hit(s, s.flights[f].key, s.flights[f].phase.now)
    requires c < |s.callers| && s.callers[c].Waiting? && !s.callers[c].via.Lookup? && s.callers[c].via.flight == f
    ensures var e := s.cache[s.flights[f].key]; var t := Apply(Apply(s, Fly(f, reply, env)), Collect(c));
      && |t.callers| == |s.callers| && t.callers[c].Returned?
      && t.callers[c].content == Full(s.nested, s.heap[e.ref].config) && t.callers[c].out.source == e.flight
      && |t.flights| == |s.flights| && t.flights[f].started == s.flights[f].started && t.cache == s.cache
  {
    RecheckLands(s, f, reply, TTL(env));
  }

  lemma RecheckLands(s: State, f: nat, reply: Reply, ttl: int)
    requires f < |s.flights| && s.flights[f].phase.Checking? && Hit(s, s.flights[f].key, s.flights[f].phase.now)
    ensures var e := s.cache[s.flights[f].key];
      FlyStep(s, f, reply, ttl)
      == Land(s, f, s.heap + [Clone(s, e.ref, HandedBy(f))], Some(Handout(|s.heap|, e.flight, s.flights[f].phase.now)))
  {}

  /******* Transparency *******/

  /** What Control would answer for a key at an instant. */
  type Control = (string, int) -> Content

  /** Every answer of the run is the one Control has for the key at that instant. */
  ghost predicate Truthful(s: State, run: seq<Action>, control: Control)
    decreases |run|
  {
    run != [] ==>
      && (run[0].Fly? && run[0].flight < |s.flights| && s.flights[run[0].flight].phase.Fetching? && run[0].reply.Answer?
          ==> run[0].reply.content == control(s.flights[run[0].flight].key, s.now))
      && Truthful(Apply(s, run[0]), run[1..], control)
  }

  ghost predicate AnswersTrue(s: State, control: Control) {
    forall f :: 0 <= f < |s.flights| && s.flights[f].answer.Some? ==>
      s.flights[f].answer.value.content == control(s.flights[f].key, s.flights[f].answer.value.at)
  }

  lemma FlyKeepsAnswersTrue(s: State, f: nat, reply: Reply, ttl: int, control: Control)
    requires AnswersTrue(s, control) && f < |s.flights|
    requires s.flights[f].phase.Fetching? && reply.Answer? ==> reply.content == control(s.flights[f].key, s.now)
    ensures AnswersTrue(FlyStep(s, f, reply, ttl), control)
  {
    var t := FlyStep(s, f, reply, ttl);
    assert t.flights == s.flights[f := t.flights[f]] && t.flights[f].key == s.flights[f].key;
    assert t.flights[f].answer == s.flights[f].answer
           || t.flights[f].answer == Some(Answered(control(s.flights[f].key, s.now), s.now));
  }

  lemma ApplyKeepsAnswersTrue(s: State, a: Action, control: Control)
    requires AnswersTrue(s, control)
    requires a.Fly? && a.flight < |s.flights| && s.flights[a.flight].phase.Fetching? && a.reply.Answer?
             ==> a.reply.content == control(s.flights[a.flight].key, s.now)
    ensures AnswersTrue(Apply(s, a), control)
  {
    if a.Fly? {
      if a.flight < |s.flights| { FlyKeepsAnswersTrue(s, a.flight, a.reply, TTL(a.ttlEnv), control); }
    } else {
      var t := Apply(s, a);
      var n := |s.flights|;
      assert t.flights == s.flights || (|t.flights| == n + 1 && t.flights[..n] == s.flights && t.flights[n].answer == None);
      forall f | 0 <= f < |s.flights| ensures t.flights[f] == s.flights[f] { assert t.flights[f] == t.flights[..|s.flights|][f]; }
    }
  }

  lemma {:induction false} ExecKeepsAnswersTrue(s: State, run: seq<Action>, control: Control)
    requires AnswersTrue(s, control) && Truthful(s, run, control)
    ensures AnswersTrue(Exec(s, run), control)
    decreases |run|
  {
    if run != [] {
      ApplyKeepsAnswersTrue(s, run[0], control);
      ExecKeepsAnswersTrue(Apply(s, run[0]), run[1..], control);
    }
  }

  ghost predicate Stable(control: Control, key: string, from: int, until: int) {
    forall t, u :: from <= t < until && from <= u < until ==> control(key, t) == control(key, u)
  }

  /** From when Control gave the answer until its entry expires, Control keeps it. */
  ghost predicate Steady(control: Control, g: Flight) {
    g.answer.Some? && g.stored.Some? ==> Stable(control, g.key, g.answer.value.at, g.stored.value.until)
  }

  /** Control's answer to the key at some instant of [from, to] is `value`. */
  ghost predicate AnsweredDuring(control: Control, key: string, value: Content, from: int, to: int) {
    exists t :: from <= t <= to && value == control(key, t)
  }

  /**
   * The cache agrees with the uncached fetch. If Control keeps each answer until its entry expires, then a caller gets
   * what Control itself answers at an instant of its own call, or, if it joined a flight, at an instant of that flight,
   * which was under way during the call; provided the answer was kept from the writes of callers until it returned.
   */
  lemma CacheIsTransparent(run: seq<Action>, control: Control, c: nat)
    requires Truthful(INIT, run, control)
    requires c < |Exec(INIT, run).callers| && Exec(INIT, run).callers[c].Returned?
    requires Kept(Exec(INIT, run), Exec(INIT, run).callers[c])
    requires forall g :: g in Exec(INIT, run).flights ==> Steady(control, g)
    ensures var s := Exec(INIT, run); var r := s.callers[c];
      if r.via.Joined? then
        && r.via.flight < |s.flights| && s.flights[r.via.flight].phase.Landed?
        && var f := s.flights[r.via.flight];
        && f.begun <= f.phase.at && r.called <= f.phase.at <= r.returned
        && AnsweredDuring(control, r.key, r.content, f.begun, f.phase.at)
      else AnsweredDuring(control, r.key, r.content, r.called, r.returned)
  {
    var s := Exec(INIT, run);
    ReturnedIsControlsAnswer(run, c);
    ExecKeepsAnswersTrue(INIT, run, control);
    var r := s.callers[c];
    var g := s.flights[r.out.source];
    assert g in s.flights;
    assert Steady(control, g);
    assert r.content == control(r.key, Instant(g, r.out));
  }

  /******* What writes can do *******/

  lemma CollectWriteCollect(s: State, c: nat, d: nat, config: Config)
    requires c < |s.callers| && d < |s.callers| && c != d && s.callers[c].Waiting? && s.callers[d].Waiting?
    requires SameFlight(s.callers[c].via, s.callers[d].via) && Grounded(s.nested, config)
    requires s.callers[c].via.flight < |s.flights| && s.flights[s.callers[c].via.flight].phase.Landed?
    requires var r := s.flights[s.callers[c].via.flight].phase.result; r.Some? && r.value.ref < |s.heap|
    ensures var t := Apply(Apply(Apply(s, Collect(c)), Write(c, config)), Collect(d));
      && |t.callers| == |s.callers| && t.callers[c].Returned? && t.callers[d].Returned?
      && t.callers[d].out == t.callers[c].out && t.callers[d].content == Full(s.nested, config)
  {
    var s1 := Apply(s, Collect(c));
    var s2 := Apply(s1, Write(c, config));
    assert s2.callers == s1.callers && s2.flights == s.flights && s2.nested == s.nested;
  }

  /** What one waiter writes into the shared map before another collects is what the other is given. */
  lemma FellowWaiterSpoilsMap(run: seq<Action>, c: nat, d: nat, config: Config)
    requires c < |Exec(INIT, run).callers| && d < |Exec(INIT, run).callers| && c != d
    requires Exec(INIT, run).callers[c].Waiting? && Exec(INIT, run).callers[d].Waiting?
    requires SameFlight(Exec(INIT, run).callers[c].via, Exec(INIT, run).callers[d].via)
    requires Grounded(Exec(INIT, run).nested, config)
    requires var s := Exec(INIT, run); var f := s.callers[c].via.flight;
             f < |s.flights| && s.flights[f].phase.Landed? && s.flights[f].phase.result.Some?
    ensures var s := Exec(INIT, run); var t := Apply(Apply(Apply(s, Collect(c)), Write(c, config)), Collect(d));
      && |t.callers| == |s.callers| && t.callers[c].Returned? && t.callers[d].Returned?
      && t.callers[d].out == t.callers[c].out && t.callers[d].content == Full(s.nested, config)
  {
    var s := Exec(INIT, run);
    Reachable(run);
    assert FlightOk(s, s.callers[c].via.flight, s.flights[s.callers[c].via.flight]);
    CollectWriteCollect(s, c, d, config);
  }

  lemma WriteNestedThenLookup(s: State, c: nat, n: Node, written: Content, key: string)
    requires c < |s.callers| && s.callers[c].Returned? && n in s.nested && Hit(s, key, s.now)
    ensures var d := |s.callers|;
      var t := Apply(Apply(Apply(s, WriteNested(c, n, written)), Call(key)), Check(d));
      && |t.callers| == d + 1 && t.callers[d].Returned? && t.callers[d].via == Lookup
      && t.callers[d].content == Full(s.nested[n := written], s.heap[s.cache[key].ref].config)
  {
    var s1 := Apply(s, WriteNested(c, n, written));
    WriteNestedApplies(s, c, n, written);
    var s2 := Apply(s1, Call(key));
    assert s2 == s1.(callers := s.callers + [FirstCheck(key, s.now)]);
  }

  /**
   * In any reachable state: a caller that holds a map made from the answer in a live entry writes to one of the nested
   * values its map refers to. That changes the entry, and the next lookup is given what it wrote.
   */
  lemma NestedWriteIsServed(run: seq<Action>, c: nat, key: string, field: string, written: Content)
    requires c < |Exec(INIT, run).callers| && Exec(INIT, run).callers[c].Returned?
    requires Hit(Exec(INIT, run), key, Exec(INIT, run).now)
    requires var s := Exec(INIT, run);
      && s.callers[c].out.source == s.cache[key].flight && LastMap(s.log, s.callers[c].out.ref) == None
      && field in Sent(s.flights, s.cache[key].flight) && Sent(s.flights, s.cache[key].flight)[field].Tree?
    ensures var s := Exec(INIT, run); var d := |s.callers|; var n := Node(s.cache[key].flight, field);
      var t := Apply(Apply(Apply(s, WriteNested(c, n, written)), Call(key)), Check(d));
      && s.callers[c].out.ref < |s.heap| && s.heap[s.callers[c].out.ref].config == s.heap[s.cache[key].ref].config
      && field in s.heap[s.callers[c].out.ref].config && s.heap[s.callers[c].out.ref].config[field] == Ref(n)
      && |t.callers| == d + 1 && t.callers[d].Returned? && t.callers[d].via == Lookup
      && field in t.callers[d].content && t.callers[d].content[field] == Tree(written)
  {
    var s := Exec(INIT, run);
    Reachable(run);
    EntryContentIff(run, key);
    ReturnedIsHanded(s, c);
    var n := Node(s.cache[key].flight, field);
    assert CallerOk(s, c, s.callers[c]) && CellOk(s, s.callers[c].out.ref) && NodeOk(s, n);
    WriteNestedThenLookup(s, c, n, written, key);
  }

  /******* A call that is not interleaved *******/

  lemma MissOpensFlight(s: State, key: string)
    requires key !in s.active && !Hit(s, key, s.now)
    ensures var c, f := |s.callers|, |s.flights|;
      Apply(Apply(Apply(s, Call(key)), Check(c)), Join(c))
      == s.(callers := s.callers + [Waiting(key, s.now, Opened(f))], active := s.active[key := f],
            flights := s.flights + [NewFlight(key, s.now)])
  {
    var s1 := Apply(Apply(s, Call(key)), Check(|s.callers|));
    assert s1 == s.(callers := s.callers + [Joining(key, s.now)]);
  }

  /** The steps up to Control's answer: both lookups miss, and a flight is opened. */
  lemma MissAsksControl(s: State, key: string, content: Content, env: string)
    requires key !in s.active && !Hit(s, key, s.now)
    ensures var c, f := |s.callers|, |s.flights|;
      var s1 := Apply(Apply(Apply(s, Call(key)), Check(c)), Join(c));
      var t := Apply(Apply(Apply(s1, Fly(f, Error, env)), Fly(f, Error, env)), Fly(f, Answer(content), env));
      && t.now == s.now && t.cache == s.cache && t.log == s.log
      && t.heap == s.heap + [Cell(Decode(f, content), Fetched, f)] && t.nested == s.nested + Trees(f, content)
      && t.active == s.active[key := f] && t.callers == s.callers + [Waiting(key, s.now, Opened(f))]
      && t.flights == s.flights
                      + [Flight(key, Storing(|s.heap|), s.now, Some(s.now), Some(Answered(content, s.now)), None)]
  {
    var c, f := |s.callers|, |s.flights|;
    MissOpensFlight(s, key);
    OpenedAsks(Apply(Apply(Apply(s, Call(key)), Check(c)), Join(c)), f, key, content, env);
  }

  lemma OpenedAsks(u: State, f: nat, key: string, content: Content, env: string)
    requires f < |u.flights| && u.flights[f] == NewFlight(key, u.now) && !Hit(u, key, u.now)
    ensures Apply(Apply(Apply(u, Fly(f, Error, env)), Fly(f, Error, env)), Fly(f, Answer(content), env))
            == u.(heap := u.heap + [Cell(Decode(f, content), Fetched, f)], nested := u.nested + Trees(f, content),
                  flights := u.flights[f := Flight(key, Storing(|u.heap|), u.now, Some(u.now),
                                                   Some(Answered(content, u.now)), None)])
  {
    OpenedFetches(u, f, Error, TTL(env));
    var v := u.(flights := u.flights[f := Flight(key, Fetching, u.now, Some(u.now), None, None)]);
    assert FlyStep(v, f, Answer(content), TTL(env)).flights
           == u.flights[f := Flight(key, Storing(|u.heap|), u.now, Some(u.now), Some(Answered(content, u.now)), None)];
  }

  lemma OpenedFetches(u: State, f: nat, reply: Reply, ttl: int)
    requires f < |u.flights| && u.flights[f] == NewFlight(u.flights[f].key, u.now) && !Hit(u, u.flights[f].key, u.now)
    ensures var v := FlyStep(u, f, reply, ttl);
            |v.flights| == |u.flights| && FlyStep(v, f, reply, ttl)
            == u.(flights := u.flights[f := Flight(u.flights[f].key, Fetching, u.now, Some(u.now), None, None)])
  {
    var v := FlyStep(u, f, reply, ttl);
    assert v == u.(flights := u.flights[f := u.flights[f].(phase := Checking(u.now))]);
  }

  /** The last caller waits for the last flight, which has just been answered. */
  predicate JustAnswered(t: State, key: string, content: Content) {
    && t.callers != [] && t.flights != [] && t.heap != []
    && var f := |t.flights| - 1;
    && t.callers[|t.callers| - 1] == Waiting(key, t.now, Opened(f))
    && t.flights[f] == Flight(key, Storing(|t.heap| - 1), t.now, Some(t.now), Some(Answered(content, t.now)), None)
    && t.heap[|t.heap| - 1] == Cell(Decode(f, content), Fetched, f)
    && forall n :: n in Trees(f, content) ==> n in t.nested && t.nested[n] == Trees(f, content)[n]
  }

  /** What was decoded reads as what was sent. */
  lemma DecodedReadsAlike(nested: map<Node, Content>, f: nat, content: Content)
    requires forall n :: n in Trees(f, content) ==> n in nested && nested[n] == Trees(f, content)[n]
    ensures Full(nested, Decode(f, content)) == content
  {
    forall k | k in content ensures Read(nested, Decode(f, content)[k]) == content[k] {
      if content[k].Tree? { assert Node(f, k) in Trees(f, content); }
    }
  }

  /** The answer is stored for the configured time. */
  lemma AnswerIsStored(t: State, f: nat, ref: nat, key: string, config: Config, env: string)
    requires f < |t.flights| && t.flights[f].key == key && t.flights[f].phase == Storing(ref)
    requires ref < |t.heap| && t.heap[ref].config == config && t.heap[ref].source == f
    ensures Apply(t, Fly(f, Error, env))
            == t.(heap := t.heap + [Cell(config, Cached, f)],
                  cache := t.cache[key := Entry(|t.heap|, t.now + TTL(env), f)],
                  flights := t.flights[f := t.flights[f].(phase := Cloning(ref), stored := Some(Lease(t.now, t.now + TTL(env))))])
  {
    StoreStep(t, f, ref, Error, TTL(env));
  }

  lemma StoreStep(u: State, f: nat, ref: nat, reply: Reply, ttl: int)
    requires f < |u.flights| && u.flights[f].phase == Storing(ref) && ref < |u.heap|
    ensures var g := u.flights[f];
      FlyStep(u, f, reply, ttl)
      == u.(heap := u.heap + [Clone(u, ref, Cached)], cache := u.cache[g.key := Entry(|u.heap|, u.now + ttl, f)],
            flights := u.flights[f := g.(phase := Cloning(ref), stored := Some(Lease(u.now, u.now + ttl)))])
  {}

  /** Then the flight lands with a clone, and the key is free again. */
  lemma CloneLands(u: State, f: nat, ref: nat, key: string, env: string)
    requires f < |u.flights| && u.flights[f].phase == Cloning(ref) && u.flights[f].key == key
    requires u.flights[f].answer.Some? && u.flights[f].answer.value.at == u.now && ref < |u.heap| && u.heap[ref].source == f
    ensures var v := Apply(u, Fly(f, Error, env)); var g := u.flights[f];
      && v == u.(heap := u.heap + [Cell(u.heap[ref].config, HandedBy(f), f)], active := u.active - {key},
                 flights := u.flights[f := g.(phase := Landed(Some(Handout(|u.heap|, f, u.now)), u.now))])
  {
    CloneStep(u, f, ref, Error, TTL(env));
    assert Clone(u, ref, HandedBy(f)) == Cell(u.heap[ref].config, HandedBy(f), f);
  }

  lemma CloneStep(u: State, f: nat, ref: nat, reply: Reply, ttl: int)
    requires f < |u.flights| && u.flights[f].phase == Cloning(ref) && ref < |u.heap| && u.flights[f].answer.Some?
    ensures FlyStep(u, f, reply, ttl)
            == Land(u, f, u.heap + [Clone(u, ref, HandedBy(f))], Some(Handout(|u.heap|, f, u.flights[f].answer.value.at)))
  {}

  /** And the caller collects it. */
  lemma CollectReturns(v: State, c: nat, f: nat, out: Handout, key: string)
    requires c < |v.callers| && v.callers[c] == Waiting(key, v.now, Opened(f))
    requires f < |v.flights| && v.flights[f].phase == Landed(Some(out), v.now) && out.ref < |v.heap|
    ensures Apply(v, Collect(c)) == v.(callers := v.callers[c :=
      Returned(key, v.now, v.now, Opened(f), out, Full(v.nested, v.heap[out.ref].config), |v.log|)])
  {}

  /** The steps from the answer on: it is stored for 30 to 120 s, and a clone of it returned. */
  lemma AnswerIsStoredAndReturned(t: State, key: string, content: Content, env: string)
    requires JustAnswered(t, key, content)
    ensures var c, f := |t.callers| - 1, |t.flights| - 1;
      var u := Apply(Apply(Apply(t, Fly(f, Error, env)), Fly(f, Error, env)), Collect(c));
      && u.callers == t.callers[c := Returned(key, t.now, t.now, Opened(f), Handout(|t.heap| + 1, f, t.now), content, |t.log|)]
      && u.cache == t.cache[key := Entry(|t.heap|, t.now + TTL(env), f)] && u.nested == t.nested
      && u.heap == t.heap + [Cell(Decode(f, content), Cached, f)] + [Cell(Decode(f, content), HandedBy(f), f)]
      && u.active == t.active - {key}
  {
    var c, f := |t.callers| - 1, |t.flights| - 1;
    AnswerIsStored(t, f, |t.heap| - 1, key, Decode(f, content), env);
    var u := Apply(t, Fly(f, Error, env));
    CloneLands(u, f, |t.heap| - 1, key, env);
    DecodedReadsAlike(t.nested, f, content);
    CollectReturns(Apply(u, Fly(f, Error, env)), c, f, Handout(|t.heap| + 1, f, t.now), key);
  }
}
