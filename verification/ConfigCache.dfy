/**
 * The Control config cache (config_cache.go fetchControlConfigCached, putConfigCacheEntry) as a step
 * machine: any number of callers, a clock, one flight per key at a time (the contract of
 * singleflight.Group), and a heap of configuration maps and of the objects and arrays nested in them, since Go
 * shares both by reference and cloneConfigView copies one level.
 */
module ConfigCache {
  import opened Text

  /** A JSON value; an array is a tree with its indices for fields, a leaf is anything else as its text. */
  datatype Json = Leaf(text: string) | Tree(fields: map<string, Json>)

  /** All of a configuration, as Control sends it. */
  type Content = map<string, Json>

  /** Where the object or array lives that was decoded under `field` of the answer to `flight`. */
  datatype Node = Node(flight: nat, field: string)

  datatype Value = Scalar(text: string) | Ref(node: Node)

  /** A ConfigView: scalars by value, objects and arrays by reference. */
  type Config = map<string, Value>

  const SECOND: int := 1_000_000_000
  const MIN_TTL: int := 30 * SECOND
  const MAX_TTL: int := 120 * SECOND

  /** configCacheTTL for the text of MCP_CONFIG_CACHE_TTL_SEC. */
  function TTL(env: string): (ttl: int)
    ensures MIN_TTL <= ttl <= MAX_TTL
  {
    var s := TrimSpace(env);
    var sec := if s != "" && Atoi(s).Some? then Atoi(s).value else 60;
    (if sec < 30 then 30 else if sec > 120 then 120 else sec) * SECOND
  }

  /** A number of seconds between 30 and 120 is the time to live; others are moved to the nearer bound. */
  lemma TTLReads(n: int)
    requires MIN_INT64 <= n <= MAX_INT64
    ensures 30 <= n <= 120 ==> TTL(Itoa(n)) == n * 1_000_000_000
    ensures n < 30 ==> TTL(Itoa(n)) == 30_000_000_000
    ensures n > 120 ==> TTL(Itoa(n)) == 120_000_000_000
    ensures TTL("") == 60_000_000_000
  {
    AtoiItoa(n);
    ItoaTrimmed(n);
  }

  /** Space around the number does not matter, and what is no number counts as 60. */
  lemma TTLOfText(env: string)
    ensures var n := Atoi(TrimSpace(env));
      TTL(env) == if n.None? then 60_000_000_000
                  else if n.value < 30 then 30_000_000_000
                  else if n.value > 120 then 120_000_000_000 else n.value * 1_000_000_000
  {}

  /** `flight` is history: which flight's answer the entry holds. */
  datatype Entry = Entry(ref: nat, expiresAt: int, flight: nat)

  /**
   * A map on the heap. `kind` and `source` are history: Fetched is the map Control's answer was decoded into,
   * Cached the clone an entry owns, the others the clones given to callers; `source` is the flight that was answered.
   */
  datatype Kind = Fetched | Cached | HandedTo(caller: nat) | HandedBy(flight: nat)
  datatype Cell = Cell(config: Config, kind: Kind, source: nat)

  predicate Handed(k: Kind) {
    k.HandedTo? || k.HandedBy?
  }

  /** `source` and `asOf` are history: the flight whose answer the map is a clone of, and the clock reading it was judged by. */
  datatype Handout = Handout(ref: nat, source: nat, asOf: int)

  datatype Phase =
    | Opening
    | Checking(now: int)                        // clock read, about to look the key up again
    | Fetching
    | Storing(ref: nat)                         // Control answered, about to put the entry
    | Cloning(ref: nat)                         // stored, about to return a clone
    | Landed(result: Option<Handout>, at: int)  // no result: the fetch failed

  datatype Answered = Answered(content: Content, at: int)

  /** When an answer was stored, and when its entry expires. */
  datatype Lease = Lease(at: int, until: int)

  /** `begun`, `started`, `answer`, `stored`: history of the flight, and of the fetch it made, if it made one. */
  datatype Flight = Flight(
    key: string, phase: Phase, begun: int,
    started: Option<int>, answer: Option<Answered>, stored: Option<Lease>)

  /** How a caller comes by its result. */
  datatype Via = Lookup | Opened(flight: nat) | Joined(flight: nat)

  /**
   * `called`, `returned`, `via`, `content` and `seen` are history: `called` is also the clock reading of the first lookup,
   * `content` is what the map held when the call returned, after `seen` writes.
   */
  datatype Caller =
    | FirstCheck(key: string, called: int)
    | Joining(key: string, called: int)
    | Waiting(key: string, called: int, via: Via)
    | Returned(key: string, called: int, returned: int, via: Via, out: Handout, content: Content, seen: nat)
    | Failed(key: string, via: Via)

  /** A write of a caller to the map it was given, or to a nested value. */
  datatype Wrote = WroteMap(caller: nat, ref: nat, config: Config) | WroteNested(caller: nat, node: Node, content: Content)

  /** `log` is history: all writes so far. */
  datatype State = State(
    now: int,
    heap: seq<Cell>,
    nested: map<Node, Content>,
    log: seq<Wrote>,
    cache: map<string, Entry>,
    active: map<string, nat>,
    flights: seq<Flight>,
    callers: seq<Caller>)

  const INIT := State(0, [], map[], [], map[], map[], [], [])

  datatype Reply = Answer(content: Content) | Error

  /**
   * Write: a caller changes the map it was given. WriteNested: a caller changes a nested value; references can be kept
   * and passed on, so it may be any. The handlers behind Middleware hold a copy of the map (middleware.go:124), so of the
   * two they can make only the second.
   */
  datatype Action =
    | Advance(d: nat)
    | Call(key: string)
    | Check(caller: nat)
    | Join(caller: nat)
    | Fly(flight: nat, reply: Reply, ttlEnv: string)
    | Collect(caller: nat)
    | Write(caller: nat, config: Config)
    | WriteNested(caller: nat, node: Node, content: Content)

  function Read(nested: map<Node, Content>, v: Value): Json {
    match v
    case Scalar(text) => Leaf(text)
    case Ref(n) => Tree(if n in nested then nested[n] else map[])
  }

  /** All that is found in a map, nested values included. */
  function Full(nested: map<Node, Content>, config: Config): Content {
    map k | k in config :: Read(nested, config[k])
  }

  /** The map that the answer to flight f is decoded into, and the nested values it refers to. */
  function Decode(f: nat, content: Content): Config {
    map k | k in content :: if content[k].Leaf? then Scalar(content[k].text) else Ref(Node(f, k))
  }

  function Trees(f: nat, content: Content): map<Node, Content> {
    map k | k in content && content[k].Tree? :: Node(f, k) := content[k].fields
  }

  /** Every reference leads somewhere. */
  predicate Grounded(nested: map<Node, Content>, config: Config) {
    forall k :: k in config && config[k].Ref? ==> config[k].node in nested
  }

  predicate Hit(s: State, key: string, now: int) {
    key in s.cache && now < s.cache[key].expiresAt && s.cache[key].ref < |s.heap|
  }

  /** cloneConfigView: a new map with the values of `ref`, so with the same nested objects. */
  function Clone(s: State, ref: nat, kind: Kind): Cell
    requires ref < |s.heap|
  {
    Cell(s.heap[ref].config, kind, s.heap[ref].source)
  }

  function CheckStep(s: State, c: nat): State
    requires c < |s.callers| && s.callers[c].FirstCheck?
  {
    var FirstCheck(key, now) := s.callers[c];
    if Hit(s, key, now) then
      var e := s.cache[key];
      var out := Handout(|s.heap|, e.flight, now);
      s.(heap := s.heap + [Clone(s, e.ref, HandedTo(c))],
         callers := s.callers[c := Returned(key, now, s.now, Lookup, out, Full(s.nested, s.heap[e.ref].config), |s.log|)])
    else s.(callers := s.callers[c := Joining(key, now)])
  }

  function NewFlight(key: string, now: int): Flight {
    Flight(key, Opening, now, None, None, None)
  }

  function JoinStep(s: State, c: nat): State
    requires c < |s.callers| && s.callers[c].Joining?
  {
    var Joining(key, called) := s.callers[c];
    if key in s.active then s.(callers := s.callers[c := Waiting(key, called, Joined(s.active[key]))])
    else
      s.(flights := s.flights + [NewFlight(key, s.now)],
         active := s.active[key := |s.flights|],
         callers := s.callers[c := Waiting(key, called, Opened(|s.flights|))])
  }

  /** The flight's function returns: singleflight forgets the key and hands the result to all waiters. */
  function Land(s: State, f: nat, heap: seq<Cell>, result: Option<Handout>): State
    requires f < |s.flights|
  {
    s.(heap := heap, flights := s.flights[f := s.flights[f].(phase := Landed(result, s.now))],
       active := s.active - {s.flights[f].key})
  }

  function FlyStep(s: State, f: nat, reply: Reply, ttl: int): State
    requires f < |s.flights|
  {
    var g := s.flights[f];
    match g.phase
    case Opening => s.(flights := s.flights[f := g.(phase := Checking(s.now))])
    case Checking(now) =>
      if Hit(s, g.key, now) then
        var e := s.cache[g.key];
        Land(s, f, s.heap + [Clone(s, e.ref, HandedBy(f))], Some(Handout(|s.heap|, e.flight, now)))
      else s.(flights := s.flights[f := g.(phase := Fetching, started := Some(s.now))])
    case Fetching =>
      (match reply
       case Error => Land(s, f, s.heap, None)
       case Answer(content) =>
         s.(heap := s.heap + [Cell(Decode(f, content), Fetched, f)], nested := s.nested + Trees(f, content),
            flights := s.flights[f := g.(phase := Storing(|s.heap|), answer := Some(Answered(content, s.now)))]))
    case Storing(ref) =>
      if ref < |s.heap| then
        s.(heap := s.heap + [Clone(s, ref, Cached)],
           cache := s.cache[g.key := Entry(|s.heap|, s.now + ttl, f)],
           flights := s.flights[f := g.(phase := Cloning(ref), stored := Some(Lease(s.now, s.now + ttl)))])
      else s
    case Cloning(ref) =>
      if ref < |s.heap| && g.answer.Some?
      then Land(s, f, s.heap + [Clone(s, ref, HandedBy(f))], Some(Handout(|s.heap|, f, g.answer.value.at)))
      else s
    case Landed(_, _) => s
  }

  function CollectStep(s: State, c: nat): State
    requires c < |s.callers| && s.callers[c].Waiting?
  {
    var Waiting(key, called, via) := s.callers[c];
    if !via.Lookup? && via.flight < |s.flights| && s.flights[via.flight].phase.Landed? then
      match s.flights[via.flight].phase.result
      case None => s.(callers := s.callers[c := Failed(key, via)])
      case Some(out) =>
        if out.ref < |s.heap| then
          var content := Full(s.nested, s.heap[out.ref].config);
          s.(callers := s.callers[c := Returned(key, called, s.now, via, out, content, |s.log|)])
        else s
    else s
  }

  function WriteStep(s: State, c: nat, config: Config): State
    requires c < |s.callers| && s.callers[c].Returned?
  {
    var ref := s.callers[c].out.ref;
    if ref < |s.heap| && Grounded(s.nested, config) then
      s.(heap := s.heap[ref := s.heap[ref].(config := config)], log := s.log + [WroteMap(c, ref, config)])
    else s
  }

  function WriteNestedStep(s: State, c: nat, n: Node, content: Content): State {
    if n in s.nested then s.(nested := s.nested[n := content], log := s.log + [WroteNested(c, n, content)]) else s
  }

  /** A step that is not enabled changes nothing. */
  function Apply(s: State, a: Action): State {
    match a
    case Advance(d) => s.(now := s.now + d)
    case Call(key) => s.(callers := s.callers + [FirstCheck(key, s.now)])
    case Check(c) => if c < |s.callers| && s.callers[c].FirstCheck? then CheckStep(s, c) else s
    case Join(c) => if c < |s.callers| && s.callers[c].Joining? then JoinStep(s, c) else s
    case Fly(f, reply, env) => if f < |s.flights| then FlyStep(s, f, reply, TTL(env)) else s
    case Collect(c) => if c < |s.callers| && s.callers[c].Waiting? then CollectStep(s, c) else s
    case Write(c, config) => if c < |s.callers| && s.callers[c].Returned? then WriteStep(s, c, config) else s
    case WriteNested(c, n, content) =>
      if c < |s.callers| && s.callers[c].Returned? then WriteNestedStep(s, c, n, content) else s
  }

  function Exec(s: State, run: seq<Action>): State
    decreases |run|
  {
    if run == [] then s else Exec(Apply(s, run[0]), run[1..])
  }

  /******* The invariant *******/

  /** At most one flight per key has not landed: the active one, and it is the last of its key. */
  ghost predicate ActiveInv(s: State) {
    && (forall k :: k in s.active ==>
          s.active[k] < |s.flights| && s.flights[s.active[k]].key == k && !s.flights[s.active[k]].phase.Landed?)
    && (forall f :: 0 <= f < |s.flights| && !s.flights[f].phase.Landed? ==>
          s.flights[f].key in s.active && s.active[s.flights[f].key] == f)
    && (forall f, g :: 0 <= f < g < |s.flights| && s.flights[f].key == s.flights[g].key ==> s.flights[f].phase.Landed?)
  }

  /** The map was made from the answer to flight f. */
  ghost predicate Holds(s: State, ref: nat, kind: Kind, f: nat) {
    && ref < |s.heap| && s.heap[ref].kind == kind && s.heap[ref].source == f
    && f < |s.flights| && s.flights[f].answer.Some?
  }

  /** An entry owns a clone of the answer of the flight that stored it, until the time that flight set, 30 to 120 s later. */
  ghost predicate EntryOk(s: State, k: string, e: Entry) {
    && e.flight < |s.flights|
    && var g := s.flights[e.flight];
    && g.key == k && Holds(s, e.ref, Cached, e.flight) && g.stored.Some?
    && g.stored.value.until == e.expiresAt
  }

  /** The instant a handout stands for: when it was judged valid, but not before Control gave the answer. */
  function Instant(g: Flight, out: Handout): int
    requires g.answer.Some?
  {
    if out.asOf < g.answer.value.at then g.answer.value.at else out.asOf
  }

  /**
   * The map is a clone of the answer to flight `source`, whose entry had not expired at the instant the handout
   * stands for, and that instant is between the two times.
   */
  ghost predicate HandedOut(s: State, key: string, out: Handout, kind: Kind, from: int, to: int) {
    && out.source < |s.flights|
    && var g := s.flights[out.source];
    && g.key == key && Holds(s, out.ref, kind, out.source)
    && g.stored.Some? && g.answer.value.at <= Instant(g, out) < g.stored.value.until
    && from <= Instant(g, out) <= to
  }

  ghost predicate Times(g: Flight, now: int) {
    && g.begun <= now
    && (g.started.Some? ==> g.begun <= g.started.value <= now)
    && (g.answer.Some? ==> g.started.Some? && g.started.value <= g.answer.value.at <= now)
    && (g.stored.Some? ==>
          && g.answer.Some? && g.answer.value.at <= g.stored.value.at <= now
          && g.stored.value.at + MIN_TTL <= g.stored.value.until <= g.stored.value.at + MAX_TTL)
    && (g.phase.Landed? ==> g.begun <= g.phase.at <= now)
  }

  /** Nothing for the key is in the cache that was not expired when the flight's fetch started. */
  predicate Expired(s: State, g: Flight) {
    g.started.Some? && (g.key in s.cache ==> s.cache[g.key].expiresAt <= g.started.value)
  }

  ghost predicate FlightOk(s: State, f: nat, g: Flight) {
    && Times(g, s.now)
    && (g.stored.Some? ==> g.key in s.cache && g.stored.value.at + MIN_TTL <= s.cache[g.key].expiresAt)
    && match g.phase
       case Opening => g.started == None
       case Checking(now) => g.begun <= now <= s.now && g.started == None
       case Fetching => g.answer == None && Expired(s, g)
       case Storing(ref) => Holds(s, ref, Fetched, f) && g.answer.Some? && g.stored == None && Expired(s, g)
       case Cloning(ref) => Holds(s, ref, Fetched, f) && g.answer.Some? && g.stored.Some?
       case Landed(None, _) => g.started.Some? && g.answer == None
       case Landed(Some(out), at) => 
         && HandedOut(s, g.key, out, HandedBy(f), g.begun, at)
         && (g.started.Some? ==> g.answer.Some?) && (g.answer.Some? ==> g.stored.Some?)
  }

  /** The flight a caller waits for began with its call, or was under way during it. */
  ghost predicate Waits(s: State, key: string, called: int, via: Via) {
    && !via.Lookup? && via.flight < |s.flights|
    && var g := s.flights[via.flight];
    && g.key == key
    && (via.Opened? ==> called <= g.begun)
    && (g.phase.Landed? ==> called <= g.phase.at)
  }

  ghost predicate CallerOk(s: State, i: nat, c: Caller) {
    match c
    case FirstCheck(_, called) => called <= s.now
    case Joining(_, called) => called <= s.now
    case Waiting(key, called, via) => called <= s.now && Waits(s, key, called, via)
    case Returned(key, called, returned, via, out, _, _) =>
      && called <= returned <= s.now
      && (if via.Lookup? then HandedOut(s, key, out, HandedTo(i), called, returned)
          else
            && Waits(s, key, called, via)
            && var g := s.flights[via.flight];
            && g.phase.Landed? && g.phase.result == Some(out) && g.phase.at <= returned
            && HandedOut(s, key, out, HandedBy(via.flight), g.begun, g.phase.at))
    case Failed(key, via) =>
      && !via.Lookup? && via.flight < |s.flights|
      && s.flights[via.flight].key == key && s.flights[via.flight].phase.Landed? && s.flights[via.flight].phase.result == None
  }

  /** A fetch starts at least 30 s after the answer of any earlier flight for its key was stored. */
  ghost predicate Spaced(flights: seq<Flight>) {
    forall f, g :: 0 <= f < g < |flights| && flights[f].key == flights[g].key
                   && flights[f].stored.Some? && flights[g].started.Some?
                   ==> flights[f].stored.value.at + MIN_TTL <= flights[g].started.value
  }

  ghost predicate Inv(s: State) {
    && ActiveInv(s) && Spaced(s.flights)
    && (forall k :: k in s.cache ==> EntryOk(s, k, s.cache[k]))
    && (forall f: nat :: f < |s.flights| ==> FlightOk(s, f, s.flights[f]))
    && (forall c: nat :: c < |s.callers| ==> CallerOk(s, c, s.callers[c]))
  }

  /******* What no step undoes *******/

  predicate CellLater(a: Cell, b: Cell) {
    a.kind == b.kind && a.source == b.source
  }

  predicate FlightLater(a: Flight, b: Flight) {
    && a.key == b.key && a.begun == b.begun
    && (a.phase.Landed? ==> b == a)
    && (a.answer.Some? ==> b.answer == a.answer)
    && (a.stored.Some? ==> b.stored == a.stored)
  }

  ghost predicate Later(s: State, t: State) {
    && s.now <= t.now
    && |s.heap| <= |t.heap| && (forall r :: 0 <= r < |s.heap| ==> CellLater(s.heap[r], t.heap[r]))
    && |s.flights| <= |t.flights| && (forall f :: 0 <= f < |s.flights| ==> FlightLater(s.flights[f], t.flights[f]))
  }

  lemma EntryStays(s: State, t: State, k: string, e: Entry)
    requires Later(s, t) && EntryOk(s, k, e)
    ensures EntryOk(t, k, e)
  {
    assert FlightLater(s.flights[e.flight], t.flights[e.flight]);
  }

  lemma HandoutStays(s: State, t: State, key: string, out: Handout, kind: Kind, from: int, to: int)
    requires Later(s, t) && HandedOut(s, key, out, kind, from, to)
    ensures HandedOut(t, key, out, kind, from, to)
  {
    assert FlightLater(s.flights[out.source], t.flights[out.source]);
    assert CellLater(s.heap[out.ref], t.heap[out.ref]);
  }

  /** A flight under way lands after the call that waits for it began. */
  lemma WaitsStays(s: State, t: State, key: string, called: int, via: Via)
    requires Later(s, t) && Waits(s, key, called, via) && called <= s.now
    requires t.flights[via.flight].phase.Landed? && !s.flights[via.flight].phase.Landed? ==> s.now <= t.flights[via.flight].phase.at
    ensures Waits(t, key, called, via)
  {
    assert FlightLater(s.flights[via.flight], t.flights[via.flight]);
  }

  /** A flight that lands in the step does so no earlier than the state before. */
  ghost predicate LandsLater(s: State, t: State) {
    forall f :: 0 <= f < |s.flights| && f < |t.flights| && t.flights[f].phase.Landed? && !s.flights[f].phase.Landed?
      ==> s.now <= t.flights[f].phase.at
  }

  lemma CallerStays(s: State, t: State, i: nat, c: Caller)
    requires Later(s, t) && LandsLater(s, t) && CallerOk(s, i, c)
    ensures CallerOk(t, i, c)
  {
    if c.Returned? {
      if c.via.Lookup? {
        HandoutStays(s, t, c.key, c.out, HandedTo(i), c.called, c.returned);
      } else {
        var g := s.flights[c.via.flight];
        assert FlightLater(g, t.flights[c.via.flight]);
        WaitsStays(s, t, c.key, c.called, c.via);
        HandoutStays(s, t, c.key, c.out, HandedBy(c.via.flight), g.begun, g.phase.at);
      }
      assert FlightLater(s.flights[c.out.source], t.flights[c.out.source]);
      assert CellLater(s.heap[c.out.ref], t.heap[c.out.ref]);
    } else if c.Waiting? {
      WaitsStays(s, t, c.key, c.called, c.via);
    } else if c.Failed? {
      assert FlightLater(s.flights[c.via.flight], t.flights[c.via.flight]);
    }
  }

  /** What a flight asks of the cache: its own key's entry stays, or is replaced by a later one once the flight has landed. */
  predicate CacheLater(s: State, t: State, g: Flight) {
    && (g.key in s.cache ==> g.key in t.cache && s.cache[g.key].expiresAt <= t.cache[g.key].expiresAt)
    && (g.key in t.cache && !g.phase.Landed? ==> g.key in s.cache && s.cache[g.key] == t.cache[g.key])
  }

  lemma FlightStays(s: State, t: State, f: nat, g: Flight)
    requires Later(s, t) && FlightOk(s, f, g) && CacheLater(s, t, g)
    ensures FlightOk(t, f, g)
  {
    match g.phase
    case Landed(Some(out), at) => HandoutStays(s, t, g.key, out, HandedBy(f), g.begun, at);
    case _ =>
  }

  /** Everything a step leaves alone stays in order. */
  lemma Bystanders(s: State, t: State)
    requires Inv(s) && Later(s, t) && LandsLater(s, t)
    ensures forall k :: k in s.cache ==> EntryOk(t, k, s.cache[k])
    ensures forall c: nat :: c < |s.callers| ==> CallerOk(t, c, s.callers[c])
    ensures forall f: nat :: f < |s.flights| && CacheLater(s, t, s.flights[f]) ==> FlightOk(t, f, s.flights[f])
  {
    forall k | k in s.cache ensures EntryOk(t, k, s.cache[k]) { EntryStays(s, t, k, s.cache[k]); }
    forall c: nat | c < |s.callers| ensures CallerOk(t, c, s.callers[c]) { CallerStays(s, t, c, s.callers[c]); }
    forall f: nat | f < |s.flights| && CacheLater(s, t, s.flights[f]) ensures FlightOk(t, f, s.flights[f]) {
      FlightStays(s, t, f, s.flights[f]);
    }
  }

  /** A step keeps the invariant if all it changes is in order. */
  lemma Assemble(s: State, t: State)
    requires Inv(s) && Later(s, t) && LandsLater(s, t) && ActiveInv(t) && Spaced(t.flights)
    requires forall k :: k in t.cache ==> (k in s.cache && t.cache[k] == s.cache[k]) || EntryOk(t, k, t.cache[k])
    requires forall c: nat :: c < |t.callers| ==> (c < |s.callers| && t.callers[c] == s.callers[c]) || CallerOk(t, c, t.callers[c])
    requires forall f: nat :: f < |t.flights| ==>
               (f < |s.flights| && t.flights[f] == s.flights[f] && CacheLater(s, t, s.flights[f])) || FlightOk(t, f, t.flights[f])
    ensures Inv(t)
  {
    Bystanders(s, t);
  }

  /** A step of one caller: it leaves flights, cache and active alone. */
  lemma CallerStep(s: State, t: State)
    requires Inv(s) && Later(s, t)
    requires t.cache == s.cache && t.active == s.active && t.flights == s.flights
    requires forall c: nat :: c < |t.callers| ==> (c < |s.callers| && t.callers[c] == s.callers[c]) || CallerOk(t, c, t.callers[c])
    ensures Inv(t)
  {
    assert forall f: nat :: f < |s.flights| ==> CacheLater(s, t, s.flights[f]);
    Assemble(s, t);
  }

  /** A step of one flight that leaves the cache alone. */
  lemma FlightStep(s: State, t: State, f: nat, g: Flight)
    requires Inv(s) && Later(s, t) && f < |s.flights| && g.key == s.flights[f].key
    requires t.cache == s.cache && t.callers == s.callers && t.flights == s.flights[f := g]
    requires FlightOk(t, f, g) && ActiveInv(t) && Spaced(t.flights)
    requires g.phase.Landed? && !s.flights[f].phase.Landed? ==> s.now <= g.phase.at
    ensures Inv(t)
  {
    assert forall h: nat :: h < |s.flights| ==> CacheLater(s, t, s.flights[h]);
    Assemble(s, t);
  }

  /** How the heap may grow. */
  lemma HeapLater(s: State, t: State)
    requires s.now <= t.now && t.flights == s.flights
    requires t.heap == s.heap || (|t.heap| == |s.heap| + 1 && t.heap[..|s.heap|] == s.heap)
    ensures Later(s, t)
  {
    forall r | 0 <= r < |s.heap| ensures CellLater(s.heap[r], t.heap[r]) {
      assert t.heap[r] == t.heap[..|s.heap|][r];
    }
  }

  lemma FlightStepLater(s: State, t: State, f: nat, g: Flight)
    requires f < |s.flights| && FlightLater(s.flights[f], g)
    requires t.now == s.now && t.flights == s.flights[f := g]
    requires t.heap == s.heap || (|t.heap| == |s.heap| + 1 && t.heap[..|s.heap|] == s.heap)
    ensures Later(s, t)
  {
    HeapLater(s, t.(flights := s.flights));
  }

  /******* Every step keeps the invariant *******/

  lemma CheckKeepsInv(s: State, c: nat)
    requires Inv(s) && c < |s.callers| && s.callers[c].FirstCheck?
    ensures Inv(CheckStep(s, c))
  {
    var t := CheckStep(s, c);
    var FirstCheck(key, now) := s.callers[c];
    HeapLater(s, t);
    if Hit(s, key, now) {
      assert EntryOk(s, key, s.cache[key]);
    }
    CallerStep(s, t);
  }

  lemma OneCallerMoves(s: State, t: State, c: nat)
    requires Inv(s) && Later(s, t) && c < |s.callers| == |t.callers|
    requires t == s.(callers := s.callers[c := t.callers[c]]) && CallerOk(t, c, t.callers[c])
    ensures Inv(t)
  {
    CallerStep(s, t);
  }

  lemma CollectedOk(s: State, c: nat)
    requires Inv(s) && c < |s.callers| && s.callers[c].Waiting?
    ensures CallerOk(s, c, CollectStep(s, c).callers[c])
  {
    var f := s.callers[c].via.flight;
    assert CallerOk(s, c, s.callers[c]);
    assert FlightOk(s, f, s.flights[f]);
  }

  lemma CollectLater(s: State, c: nat)
    requires c < |s.callers| && s.callers[c].Waiting? && CallerOk(s, c, CollectStep(s, c).callers[c])
    ensures var t := CollectStep(s, c); Later(s, t) && CallerOk(t, c, t.callers[c])
  {
    var t := CollectStep(s, c);
    HeapLater(s, t);
    CallerStays(s, t, c, t.callers[c]);
  }

  lemma CollectKeepsInv(s: State, c: nat)
    requires Inv(s) && c < |s.callers| && s.callers[c].Waiting?
    ensures Inv(CollectStep(s, c))
  {
    CollectedOk(s, c);
    CollectLater(s, c);
    OneCallerMoves(s, CollectStep(s, c), c);
  }

  /** A returned caller's map is one of the maps handed out. */
  lemma ReturnedIsHanded(s: State, c: nat)
    requires Inv(s) && c < |s.callers| && s.callers[c].Returned?
    ensures s.callers[c].out.ref < |s.heap| && Handed(s.heap[s.callers[c].out.ref].kind)
  {
    assert CallerOk(s, c, s.callers[c]);
  }

  lemma WriteLater(s: State, c: nat, config: Config)
    requires c < |s.callers| && s.callers[c].Returned?
    ensures Later(s, WriteStep(s, c, config))
  {}

  lemma WriteKeepsInv(s: State, c: nat, config: Config)
    requires Inv(s) && c < |s.callers| && s.callers[c].Returned?
    ensures Inv(WriteStep(s, c, config))
  {
    WriteLater(s, c, config);
    CallerStep(s, WriteStep(s, c, config));
  }

  lemma WriteNestedKeepsInv(s: State, c: nat, n: Node, content: Content)
    requires Inv(s) && c < |s.callers| && s.callers[c].Returned?
    ensures Inv(WriteNestedStep(s, c, n, content))
  {
    CallerStep(s, WriteNestedStep(s, c, n, content));
  }

  lemma NewFlightKeepsActive(s: State, t: State, key: string)
    requires Inv(s) && key !in s.active
    requires t.flights == s.flights + [NewFlight(key, s.now)] && t.active == s.active[key := |s.flights|]
    ensures ActiveInv(t) && Spaced(t.flights)
  {
    assert ActiveInv(t);
    assert Spaced(t.flights);
  }

  lemma JoinOpensFlight(s: State, c: nat)
    requires Inv(s) && c < |s.callers| && s.callers[c].Joining? && s.callers[c].key !in s.active
    ensures Inv(JoinStep(s, c))
  {
    var t := JoinStep(s, c);
    NewFlightKeepsActive(s, t, s.callers[c].key);
    assert Later(s, t) by {
      assert forall f :: 0 <= f < |s.flights| ==> FlightLater(s.flights[f], t.flights[f]);
    }
    assert FlightOk(t, |s.flights|, t.flights[|s.flights|]) && CallerOk(t, c, t.callers[c]);
    forall f: nat | f < |s.flights| ensures t.flights[f] == s.flights[f] && CacheLater(s, t, s.flights[f]) {}
    Assemble(s, t);
  }

  lemma JoinKeepsInv(s: State, c: nat)
    requires Inv(s) && c < |s.callers| && s.callers[c].Joining?
    ensures Inv(JoinStep(s, c))
  {
    if s.callers[c].key in s.active {
      HeapLater(s, JoinStep(s, c));
      CallerStep(s, JoinStep(s, c));
    } else {
      JoinOpensFlight(s, c);
    }
  }

  lemma LandKeepsActive(s: State, f: nat, heap: seq<Cell>, result: Option<Handout>)
    requires Inv(s) && f < |s.flights| && !s.flights[f].phase.Landed?
    ensures ActiveInv(Land(s, f, heap, result)) && Spaced(Land(s, f, heap, result).flights)
  {
  }

  /** The flight goes on, without a new fetch or a new entry. */
  lemma FlyingKeepsActive(s: State, t: State, f: nat)
    requires Inv(s) && f < |s.flights| == |t.flights|
    requires t.active == s.active && t.flights == s.flights[f := t.flights[f]]
    requires var g, h := s.flights[f], t.flights[f];
      h.key == g.key && h.started == g.started && h.stored == g.stored && !g.phase.Landed? && !h.phase.Landed?
    ensures ActiveInv(t) && Spaced(t.flights)
  {
  }

  lemma OpenKeepsInv(s: State, f: nat, reply: Reply, ttl: int)
    requires Inv(s) && f < |s.flights| && s.flights[f].phase.Opening?
    ensures Inv(FlyStep(s, f, reply, ttl))
  {
    var t := FlyStep(s, f, reply, ttl);
    assert FlightOk(s, f, s.flights[f]);
    FlightStepLater(s, t, f, t.flights[f]);
    FlyingKeepsActive(s, t, f);
    FlightStep(s, t, f, t.flights[f]);
  }

  /** The double check: an expired entry is at least 30 s old, so the new fetch is spaced from all earlier ones. */
  lemma RecheckSpaced(s: State, f: nat, reply: Reply, ttl: int)
    requires Inv(s) && f < |s.flights| && s.flights[f].phase.Checking? && !Hit(s, s.flights[f].key, s.flights[f].phase.now)
    ensures Spaced(FlyStep(s, f, reply, ttl).flights)
    ensures Expired(s, FlyStep(s, f, reply, ttl).flights[f])
  {
    var t := FlyStep(s, f, reply, ttl);
    var g := s.flights[f];
    assert FlightOk(s, f, g);
    if g.key in s.cache {
      assert EntryOk(s, g.key, s.cache[g.key]);
    }
    forall e: nat | e < f && s.flights[e].key == g.key && s.flights[e].stored.Some?
      ensures s.flights[e].stored.value.at + MIN_TTL <= s.now
    {
      assert FlightOk(s, e, s.flights[e]);
    }
  }

  lemma RecheckMissKeepsInv(s: State, f: nat, reply: Reply, ttl: int)
    requires Inv(s) && f < |s.flights| && s.flights[f].phase.Checking? && !Hit(s, s.flights[f].key, s.flights[f].phase.now)
    ensures Inv(FlyStep(s, f, reply, ttl))
  {
    var t := FlyStep(s, f, reply, ttl);
    assert FlightOk(s, f, s.flights[f]);
    FlightStepLater(s, t, f, t.flights[f]);
    RecheckSpaced(s, f, reply, ttl);
    FlightStep(s, t, f, t.flights[f]);
  }

  lemma RecheckHitOwn(s: State, f: nat, reply: Reply, ttl: int)
    requires f < |s.flights| && FlightOk(s, f, s.flights[f]) && s.flights[f].phase.Checking?
    requires var key := s.flights[f].key;
      && Hit(s, key, s.flights[f].phase.now) && EntryOk(s, key, s.cache[key])
      && Times(s.flights[s.cache[key].flight], s.now)
    ensures Later(s, FlyStep(s, f, reply, ttl))
    ensures FlightOk(FlyStep(s, f, reply, ttl), f, FlyStep(s, f, reply, ttl).flights[f])
  {
    var t := FlyStep(s, f, reply, ttl);
    FlightStepLater(s, t, f, t.flights[f]);
  }

  lemma RecheckHitKeepsInv(s: State, f: nat, reply: Reply, ttl: int)
    requires Inv(s) && f < |s.flights| && s.flights[f].phase.Checking? && Hit(s, s.flights[f].key, s.flights[f].phase.now)
    ensures Inv(FlyStep(s, f, reply, ttl))
  {
    var t := FlyStep(s, f, reply, ttl);
    RecheckHitOwn(s, f, reply, ttl);
    LandKeepsActive(s, f, t.heap, t.flights[f].phase.result);
    FlightStep(s, t, f, t.flights[f]);
  }

  lemma FetchOwn(s: State, f: nat, reply: Reply, ttl: int)
    requires f < |s.flights| && FlightOk(s, f, s.flights[f]) && s.flights[f].phase.Fetching?
    ensures Later(s, FlyStep(s, f, reply, ttl))
    ensures FlightOk(FlyStep(s, f, reply, ttl), f, FlyStep(s, f, reply, ttl).flights[f])
  {
    var t := FlyStep(s, f, reply, ttl);
    FlightStepLater(s, t, f, t.flights[f]);
  }

  lemma FetchKeepsInv(s: State, f: nat, reply: Reply, ttl: int)
    requires Inv(s) && f < |s.flights| && s.flights[f].phase.Fetching?
    ensures Inv(FlyStep(s, f, reply, ttl))
  {
    var t := FlyStep(s, f, reply, ttl);
    FetchOwn(s, f, reply, ttl);
    if reply.Error? {
      LandKeepsActive(s, f, t.heap, None);
    } else {
      FlyingKeepsActive(s, t, f);
    }
    FlightStep(s, t, f, t.flights[f]);
  }

  /** No later flight of the key exists while one is storing, so storing spoils no spacing. */
  lemma StoreSpaced(s: State, f: nat, reply: Reply, ttl: int)
    requires Inv(s) && f < |s.flights| && s.flights[f].phase.Storing?
    ensures ActiveInv(FlyStep(s, f, reply, ttl)) && Spaced(FlyStep(s, f, reply, ttl).flights)
  {
    assert FlightOk(s, f, s.flights[f]);
  }

  lemma StoreOwn(s: State, f: nat, reply: Reply, ttl: int)
    requires f < |s.flights| && FlightOk(s, f, s.flights[f]) && s.flights[f].phase.Storing? && MIN_TTL <= ttl <= MAX_TTL
    ensures Later(s, FlyStep(s, f, reply, ttl))
    ensures FlightOk(FlyStep(s, f, reply, ttl), f, FlyStep(s, f, reply, ttl).flights[f])
    ensures EntryOk(FlyStep(s, f, reply, ttl), s.flights[f].key, FlyStep(s, f, reply, ttl).cache[s.flights[f].key])
  {
    var t := FlyStep(s, f, reply, ttl);
    FlightStepLater(s, t, f, t.flights[f]);
  }

  /** The entry replaced had expired, and no other flight of the key is under way. */
  lemma StoreOthers(s: State, f: nat, reply: Reply, ttl: int, h: nat)
    requires Inv(s) && f < |s.flights| && s.flights[f].phase.Storing? && MIN_TTL <= ttl <= MAX_TTL
    requires h < |s.flights| && h != f
    ensures CacheLater(s, FlyStep(s, f, reply, ttl), s.flights[h])
  {
    assert FlightOk(s, f, s.flights[f]);
  }

  lemma StoreKeepsInv(s: State, f: nat, reply: Reply, ttl: int)
    requires Inv(s) && f < |s.flights| && s.flights[f].phase.Storing? && MIN_TTL <= ttl <= MAX_TTL
    ensures Inv(FlyStep(s, f, reply, ttl))
  {
    var t := FlyStep(s, f, reply, ttl);
    StoreOwn(s, f, reply, ttl);
    StoreSpaced(s, f, reply, ttl);
    forall h: nat | h < |s.flights| && h != f ensures CacheLater(s, t, s.flights[h]) {
      StoreOthers(s, f, reply, ttl, h);
    }
    Assemble(s, t);
  }

  lemma CloneOwn(s: State, f: nat, reply: Reply, ttl: int)
    requires f < |s.flights| && FlightOk(s, f, s.flights[f]) && s.flights[f].phase.Cloning?
    ensures Later(s, FlyStep(s, f, reply, ttl))
    ensures FlightOk(FlyStep(s, f, reply, ttl), f, FlyStep(s, f, reply, ttl).flights[f])
  {
    var t := FlyStep(s, f, reply, ttl);
    FlightStepLater(s, t, f, t.flights[f]);
  }

  lemma CloneKeepsInv(s: State, f: nat, reply: Reply, ttl: int)
    requires Inv(s) && f < |s.flights| && s.flights[f].phase.Cloning?
    ensures Inv(FlyStep(s, f, reply, ttl))
  {
    var t := FlyStep(s, f, reply, ttl);
    CloneOwn(s, f, reply, ttl);
    LandKeepsActive(s, f, t.heap, t.flights[f].phase.result);
    FlightStep(s, t, f, t.flights[f]);
  }

  lemma FlyKeepsInv(s: State, f: nat, reply: Reply, ttl: int)
    requires Inv(s) && f < |s.flights| && MIN_TTL <= ttl <= MAX_TTL
    ensures Inv(FlyStep(s, f, reply, ttl))
  {
    match s.flights[f].phase
    case Opening => OpenKeepsInv(s, f, reply, ttl);
    case Checking(now) =>
      if Hit(s, s.flights[f].key, now) {
        RecheckHitKeepsInv(s, f, reply, ttl);
      } else {
        RecheckMissKeepsInv(s, f, reply, ttl);
      }
    case Fetching => FetchKeepsInv(s, f, reply, ttl);
    case Storing(_) => StoreKeepsInv(s, f, reply, ttl);
    case Cloning(_) => CloneKeepsInv(s, f, reply, ttl);
    case Landed(_, _) =>
  }

  lemma AdvanceKeepsInv(s: State, d: nat)
    requires Inv(s)
    ensures Inv(Apply(s, Advance(d)))
  {
    CallerStep(s, Apply(s, Advance(d)));
  }

  lemma CallKeepsInv(s: State, key: string)
    requires Inv(s)
    ensures Inv(Apply(s, Call(key)))
  {
    CallerStep(s, Apply(s, Call(key)));
  }

  lemma WriteActionKeepsInv(s: State, c: nat, config: Config)
    requires Inv(s)
    ensures Inv(Apply(s, Write(c, config)))
  {
    WriteIsStep(s, c, config);
    if c < |s.callers| && s.callers[c].Returned? { WriteKeepsInv(s, c, config); }
  }

  lemma WriteIsStep(s: State, c: nat, config: Config)
    ensures Apply(s, Write(c, config)) == if c < |s.callers| && s.callers[c].Returned? then WriteStep(s, c, config) else s
  {}

  lemma WriteNestedActionKeepsInv(s: State, c: nat, n: Node, content: Content)
    requires Inv(s)
    ensures Inv(Apply(s, WriteNested(c, n, content)))
  {
    WriteNestedIsStep(s, c, n, content);
    if c < |s.callers| && s.callers[c].Returned? { WriteNestedKeepsInv(s, c, n, content); }
  }

  lemma WriteNestedIsStep(s: State, c: nat, n: Node, content: Content)
    ensures Apply(s, WriteNested(c, n, content))
            == if c < |s.callers| && s.callers[c].Returned? then WriteNestedStep(s, c, n, content) else s
  {}

  lemma ApplyKeepsInv(s: State, a: Action)
    requires Inv(s)
    ensures Inv(Apply(s, a))
  {
    match a
    case Advance(d) => AdvanceKeepsInv(s, d);
    case Call(key) => CallKeepsInv(s, key);
    case Check(c) => if c < |s.callers| && s.callers[c].FirstCheck? { CheckKeepsInv(s, c); }
    case Join(c) => if c < |s.callers| && s.callers[c].Joining? { JoinKeepsInv(s, c); }
    case Fly(f, reply, env) => if f < |s.flights| { FlyKeepsInv(s, f, reply, TTL(env)); }
    case Collect(c) => if c < |s.callers| && s.callers[c].Waiting? { CollectKeepsInv(s, c); }
    case Write(c, config) => WriteActionKeepsInv(s, c, config);
    case WriteNested(c, n, content) => WriteNestedActionKeepsInv(s, c, n, content);
  }

  lemma {:induction false} ExecKeepsInv(s: State, run: seq<Action>)
    requires Inv(s)
    ensures Inv(Exec(s, run))
    decreases |run|
  {
    if run != [] {
      ApplyKeepsInv(s, run[0]);
      ExecKeepsInv(Apply(s, run[0]), run[1..]);
    }
  }
}
