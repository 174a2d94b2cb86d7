/**
 * What is in the maps and nested values of the config cache: in every reachable state, the last thing a caller wrote
 * there, or what Control sent.
 */
module ConfigCacheWrites {
  import opened Text
  import opened ConfigCache

  /******* Reading the log *******/

  /** The last configuration a caller put in the map `ref`. */
  function LastMap(log: seq<Wrote>, ref: nat): Option<Config> {
    if log == [] then None
    else
      var w := log[|log| - 1];
      if w.WroteMap? && w.ref == ref then Some(w.config) else LastMap(log[..|log| - 1], ref)
  }

  /** The last content a caller put in a nested value. */
  function LastNested(log: seq<Wrote>, n: Node): Option<Content> {
    if log == [] then None
    else
      var w := log[|log| - 1];
      if w.WroteNested? && w.node == n then Some(w.content) else LastNested(log[..|log| - 1], n)
  }

  lemma LastAfter(log: seq<Wrote>, w: Wrote, ref: nat, n: Node)
    ensures LastMap(log + [w], ref) == if w.WroteMap? && w.ref == ref then Some(w.config) else LastMap(log, ref)
    ensures LastNested(log + [w], n) == if w.WroteNested? && w.node == n then Some(w.content) else LastNested(log, n)
  {
    assert (log + [w])[..|log|] == log;
  }

  lemma {:induction false} LastMapFound(log: seq<Wrote>, ref: nat)
    requires LastMap(log, ref).Some?
    ensures exists i :: 0 <= i < |log| && log[i].WroteMap? && log[i].ref == ref && log[i].config == LastMap(log, ref).value
  {
    var w := log[|log| - 1];
    if !(w.WroteMap? && w.ref == ref) {
      LastMapFound(log[..|log| - 1], ref);
    }
  }

  lemma {:induction false} LastNestedFound(log: seq<Wrote>, n: Node)
    requires LastNested(log, n).Some?
    ensures exists i :: 0 <= i < |log| && log[i].WroteNested? && log[i].node == n && log[i].content == LastNested(log, n).value
  {
    var w := log[|log| - 1];
    if !(w.WroteNested? && w.node == n) {
      LastNestedFound(log[..|log| - 1], n);
    }
  }

  /******* The heap according to the log *******/

  /** Control's answer to a flight. */
  function Sent(flights: seq<Flight>, f: nat): Content {
    if f < |flights| && flights[f].answer.Some? then flights[f].answer.value.content else map[]
  }

  /** What Control sent as the nested value. */
  function Original(flights: seq<Flight>, n: Node): Option<Content> {
    var content := Sent(flights, n.flight);
    if n.field in content && content[n.field].Tree? then Some(content[n.field].fields) else None
  }

  function NodeAt(flights: seq<Flight>, log: seq<Wrote>, n: Node): Content {
    match LastNested(log, n)
    case Some(content) => content
    case None => if Original(flights, n).Some? then Original(flights, n).value else map[]
  }

  function MapAt(flights: seq<Flight>, log: seq<Wrote>, ref: nat, source: nat): Config {
    match LastMap(log, ref)
    case Some(config) => config
    case None => Decode(source, Sent(flights, source))
  }

  function ReadAt(flights: seq<Flight>, log: seq<Wrote>, v: Value): Json {
    match v
    case Scalar(text) => Leaf(text)
    case Ref(n) => Tree(NodeAt(flights, log, n))
  }

  function FullAt(flights: seq<Flight>, log: seq<Wrote>, config: Config): Content {
    map k | k in config :: ReadAt(flights, log, config[k])
  }

  /** Every reference is to a nested value of some answer. */
  ghost predicate Rooted(flights: seq<Flight>, config: Config) {
    forall k :: k in config && config[k].Ref? ==> Original(flights, config[k].node).Some?
  }

  ghost predicate NodeOk(s: State, n: Node) {
    if n in s.nested then Original(s.flights, n).Some? && s.nested[n] == NodeAt(s.flights, s.log, n)
    else Original(s.flights, n).None?
  }

  ghost predicate CellOk(s: State, r: nat)
    requires r < |s.heap|
  {
    var x := s.heap[r];
    && x.source < |s.flights| && s.flights[x.source].answer.Some?
    && x.config == MapAt(s.flights, s.log, r, x.source) && Rooted(s.flights, x.config)
  }

  /** Maps are written to by callers that have been given them before. */
  ghost predicate WroteOk(s: State, i: nat)
    requires i < |s.log|
  {
    match s.log[i]
    case WroteMap(c, ref, config) =>
      && c < |s.callers| && s.callers[c].Returned? && s.callers[c].out.ref == ref && s.callers[c].seen <= i
      && Rooted(s.flights, config)
    case WroteNested(_, n, _) => Original(s.flights, n).Some?
  }

  /** What a caller was given, according to the writes before. */
  ghost predicate GivenOk(s: State, r: Caller)
    requires r.Returned?
  {
    && r.seen <= |s.log|
    && var config := MapAt(s.flights, s.log[..r.seen], r.out.ref, r.out.source);
    && Rooted(s.flights, config) && r.content == FullAt(s.flights, s.log[..r.seen], config)
  }

  ghost predicate Memory(s: State) {
    && (forall n: Node :: NodeOk(s, n))
    && (forall r: nat :: r < |s.heap| ==> CellOk(s, r))
    && (forall i: nat :: i < |s.log| ==> WroteOk(s, i))
    && (forall c: nat :: c < |s.callers| && s.callers[c].Returned? ==> GivenOk(s, s.callers[c]))
  }

  /******* Every step keeps it *******/

  /** Answers stay, and so does what is known from them. */
  lemma AnswersStay(s: State, t: State)
    requires Later(s, t)
    ensures forall f: nat :: f < |s.flights| && s.flights[f].answer.Some? ==>
              f < |t.flights| && t.flights[f].answer == s.flights[f].answer && Sent(t.flights, f) == Sent(s.flights, f)
    ensures forall n :: Original(s.flights, n).Some? ==> Original(t.flights, n) == Original(s.flights, n)
  {
    forall f: nat | f < |s.flights| && s.flights[f].answer.Some?
      ensures f < |t.flights| && t.flights[f].answer == s.flights[f].answer
    {
      assert FlightLater(s.flights[f], t.flights[f]);
    }
  }

  lemma RootedStays(s: State, t: State, log: seq<Wrote>, config: Config)
    requires Later(s, t) && Rooted(s.flights, config)
    ensures Rooted(t.flights, config) && FullAt(t.flights, log, config) == FullAt(s.flights, log, config)
  {
    AnswersStay(s, t);
  }

  lemma GivenStays(s: State, t: State, r: Caller)
    requires Later(s, t) && s.log <= t.log && r.Returned? && GivenOk(s, r)
    requires r.out.source < |s.flights| && s.flights[r.out.source].answer.Some?
    ensures GivenOk(t, r)
  {
    var log := s.log[..r.seen];
    assert t.log[..r.seen] == log;
    AnswersStay(s, t);
    RootedStays(s, t, log, MapAt(s.flights, log, r.out.ref, r.out.source));
  }

  lemma CellStays(s: State, t: State, r: nat)
    requires Later(s, t) && r < |s.heap| && r < |t.heap| && t.heap[r] == s.heap[r] && CellOk(s, r)
    requires LastMap(t.log, r) == LastMap(s.log, r)
    ensures CellOk(t, r)
  {
    AnswersStay(s, t);
    RootedStays(s, t, [], s.heap[r].config);
  }

  /** Only maps that were handed out are written to. */
  lemma WrittenIsHanded(s: State, r: nat)
    requires Inv(s) && Memory(s)
    ensures LastMap(s.log, r).Some? ==> r < |s.heap| && Handed(s.heap[r].kind)
  {
    if LastMap(s.log, r).Some? {
      LastMapFound(s.log, r);
      var i :| 0 <= i < |s.log| && s.log[i].WroteMap? && s.log[i].ref == r;
      assert WroteOk(s, i);
      ReturnedIsHanded(s, s.log[i].caller);
    }
  }

  /** Only what Control sent is written to. */
  lemma WrittenIsOriginal(s: State, n: Node)
    requires Memory(s)
    ensures LastNested(s.log, n).Some? ==> Original(s.flights, n).Some?
  {
    if LastNested(s.log, n).Some? {
      LastNestedFound(s.log, n);
      var i :| 0 <= i < |s.log| && s.log[i].WroteNested? && s.log[i].node == n;
      assert WroteOk(s, i);
    }
  }

  /** Reading through the heap is reading the log. */
  lemma FullNow(s: State, config: Config)
    requires (forall n: Node :: NodeOk(s, n)) && Rooted(s.flights, config)
    ensures Full(s.nested, config) == FullAt(s.flights, s.log, config)
  {
    forall k | k in config ensures Read(s.nested, config[k]) == ReadAt(s.flights, s.log, config[k]) {
      if config[k].Ref? { assert NodeOk(s, config[k].node); }
    }
  }

  lemma JustGiven(s: State, r: Caller)
    requires (forall n: Node :: NodeOk(s, n)) && r.Returned? && r.seen == |s.log|
    requires r.out.ref < |s.heap| && CellOk(s, r.out.ref) && s.heap[r.out.ref].source == r.out.source
    requires r.content == Full(s.nested, s.heap[r.out.ref].config)
    ensures GivenOk(s, r)
  {
    assert s.log[..r.seen] == s.log;
    FullNow(s, s.heap[r.out.ref].config);
  }

  /** Callers that have returned stay as they are. */
  ghost predicate ReturnedStay(s: State, t: State) {
    && |s.callers| <= |t.callers|
    && forall c :: 0 <= c < |s.callers| && s.callers[c].Returned? ==> t.callers[c] == s.callers[c]
  }

  lemma WroteStays(s: State, t: State, i: nat)
    requires Later(s, t) && ReturnedStay(s, t) && i < |s.log| <= |t.log| && t.log[i] == s.log[i] && WroteOk(s, i)
    ensures WroteOk(t, i)
  {
    AnswersStay(s, t);
    if s.log[i].WroteMap? { RootedStays(s, t, [], s.log[i].config); }
  }

  lemma AllGivenStay(s: State, t: State)
    requires Inv(s) && Memory(s) && Later(s, t) && ReturnedStay(s, t) && s.log <= t.log
    ensures forall c: nat :: c < |s.callers| && s.callers[c].Returned? ==> GivenOk(t, t.callers[c])
  {
    forall c: nat | c < |s.callers| && s.callers[c].Returned? ensures GivenOk(t, t.callers[c]) {
      assert CallerOk(s, c, s.callers[c]);
      GivenStays(s, t, s.callers[c]);
    }
  }

  /** A step that writes nothing: cells may be added, and callers return with what their map holds. */
  lemma QuietStep(s: State, t: State)
    requires Inv(s) && Memory(s) && Inv(t) && Later(s, t) && ReturnedStay(s, t) && t.log == s.log
    requires forall n: Node :: NodeOk(t, n)
    requires forall r: nat :: r < |s.heap| ==> t.heap[r] == s.heap[r]
    requires forall r: nat :: |s.heap| <= r < |t.heap| ==> CellOk(t, r)
    requires forall c: nat :: c < |t.callers| && t.callers[c].Returned? && (c >= |s.callers| || !s.callers[c].Returned?) ==>
               t.callers[c].seen == |t.log|
               && t.callers[c].out.ref < |t.heap| && t.callers[c].content == Full(t.nested, t.heap[t.callers[c].out.ref].config)
    ensures Memory(t)
  {
    forall r: nat | r < |t.heap| ensures CellOk(t, r) {
      if r < |s.heap| { CellStays(s, t, r); }
    }
    forall i: nat | i < |t.log| ensures WroteOk(t, i) { WroteStays(s, t, i); }
    AllGivenStay(s, t);
    forall c: nat | c < |t.callers| && t.callers[c].Returned? && (c >= |s.callers| || !s.callers[c].Returned?)
      ensures GivenOk(t, t.callers[c])
    {
      assert CallerOk(t, c, t.callers[c]);
      JustGiven(t, t.callers[c]);
    }
  }

  lemma NodesStay(s: State, t: State)
    requires Memory(s) && t.nested == s.nested && t.log == s.log
    requires forall n :: Original(t.flights, n) == Original(s.flights, n)
    ensures forall n: Node :: NodeOk(t, n)
  {
    forall n: Node ensures NodeOk(t, n) { assert NodeOk(s, n); }
  }

  /** No flight is answered in the step. */
  lemma SameAnswers(s: State, t: State)
    requires |s.flights| <= |t.flights|
    requires forall f :: 0 <= f < |s.flights| ==> t.flights[f].answer == s.flights[f].answer
    requires forall f :: |s.flights| <= f < |t.flights| ==> t.flights[f].answer == None
    ensures forall n :: Original(t.flights, n) == Original(s.flights, n)
  {
    forall f: nat ensures Sent(t.flights, f) == Sent(s.flights, f) {}
  }

  /** A new clone of a map that was not handed out. */
  lemma CloneOk(s: State, t: State, ref: nat, kind: Kind)
    requires Inv(s) && Memory(s) && Later(s, t) && t.log == s.log
    requires ref < |s.heap| && !Handed(s.heap[ref].kind) && t.heap == s.heap + [Clone(s, ref, kind)]
    ensures CellOk(t, |s.heap|)
  {
    WrittenIsHanded(s, ref);
    WrittenIsHanded(s, |s.heap|);
    assert CellOk(s, ref);
    AnswersStay(s, t);
    RootedStays(s, t, [], s.heap[ref].config);
  }

  /** One caller moves, and may return with what a map on the heap holds. */
  lemma OneCaller(s: State, t: State, c: nat)
    requires Inv(s) && Memory(s) && Inv(t) && c < |s.callers| == |t.callers| && !s.callers[c].Returned?
    requires t == s.(callers := s.callers[c := t.callers[c]])
    requires t.callers[c].Returned? ==>
               && t.callers[c].seen == |s.log| && t.callers[c].out.ref < |s.heap|
               && t.callers[c].content == Full(s.nested, s.heap[t.callers[c].out.ref].config)
    ensures Memory(t)
  {
    HeapLater(s, t);
    NodesStay(s, t);
    QuietStep(s, t);
  }

  /** One caller returns with a new clone of a map that was not handed out. */
  lemma GivenClone(s: State, t: State, c: nat, ref: nat)
    requires Inv(s) && Memory(s) && Inv(t) && c < |s.callers| == |t.callers| && !s.callers[c].Returned?
    requires ref < |s.heap| && !Handed(s.heap[ref].kind) && t.heap == s.heap + [Clone(s, ref, HandedTo(c))]
    requires t == s.(heap := t.heap, callers := s.callers[c := t.callers[c]])
    requires var r := t.callers[c];
             r.Returned? && r.seen == |s.log| && r.out.ref == |s.heap| && r.content == Full(s.nested, s.heap[ref].config)
    ensures Memory(t)
  {
    HeapLater(s, t);
    NodesStay(s, t);
    CloneOk(s, t, ref, HandedTo(c));
    QuietStep(s, t);
  }

  lemma CheckKeepsMemory(s: State, c: nat)
    requires Inv(s) && Memory(s) && c < |s.callers| && s.callers[c].FirstCheck?
    requires Inv(CheckStep(s, c))
    ensures Memory(CheckStep(s, c))
  {
    var t := CheckStep(s, c);
    var FirstCheck(key, now) := s.callers[c];
    if Hit(s, key, now) {
      assert EntryOk(s, key, s.cache[key]);
      GivenClone(s, t, c, s.cache[key].ref);
    } else {
      OneCaller(s, t, c);
    }
  }

  lemma CollectKeepsMemory(s: State, c: nat)
    requires Inv(s) && Memory(s) && c < |s.callers| && s.callers[c].Waiting?
    requires Inv(CollectStep(s, c))
    ensures Memory(CollectStep(s, c))
  {
    var t := CollectStep(s, c);
    assert CallerOk(s, c, s.callers[c]);
    assert FlightOk(s, s.callers[c].via.flight, s.flights[s.callers[c].via.flight]);
    OneCaller(s, t, c);
  }

  /** A step that may add a map, and changes no caller. */
  lemma OneCell(s: State, t: State)
    requires Inv(s) && Memory(s) && Inv(t) && Later(s, t) && t.callers == s.callers && t.log == s.log
    requires forall n: Node :: NodeOk(t, n)
    requires t.heap == s.heap || (|t.heap| == |s.heap| + 1 && t.heap[..|s.heap|] == s.heap && CellOk(t, |s.heap|))
    ensures Memory(t)
  {
    forall r: nat | r < |s.heap| ensures t.heap[r] == s.heap[r] { assert t.heap[r] == t.heap[..|s.heap|][r]; }
    QuietStep(s, t);
  }

  /** A step of a flight other than its being answered: at most, a clone of a map that was not handed out is added. */
  lemma QuietFlight(s: State, t: State, f: nat, ref: nat, kind: Kind)
    requires Inv(s) && Memory(s) && Inv(t) && f < |s.flights| == |t.flights|
    requires t.now == s.now && t.flights == s.flights[f := t.flights[f]] && FlightLater(s.flights[f], t.flights[f])
    requires t.flights[f].answer == s.flights[f].answer
    requires t.callers == s.callers && t.log == s.log && t.nested == s.nested
    requires t.heap == s.heap
             || (ref < |s.heap| && !Handed(s.heap[ref].kind) && t.heap == s.heap + [Clone(s, ref, kind)])
    ensures Memory(t)
  {
    FlightStepLater(s, t, f, t.flights[f]);
    SameAnswers(s, t);
    NodesStay(s, t);
    if t.heap != s.heap { CloneOk(s, t, ref, kind); }
    OneCell(s, t);
  }

  /** The nested values of a new answer are new. */
  lemma NewNodesOk(s: State, t: State, f: nat, content: Content)
    requires Memory(s) && f < |s.flights| == |t.flights| && s.flights[f].answer == None && t.log == s.log
    requires t.nested == s.nested + Trees(f, content) && t.flights == s.flights[f := t.flights[f]]
    requires t.flights[f].answer.Some? && t.flights[f].answer.value.content == content
    ensures forall n: Node :: NodeOk(t, n)
  {
    forall n: Node ensures NodeOk(t, n) {
      assert NodeOk(s, n);
      WrittenIsOriginal(s, n);
      if n.flight != f { assert Sent(t.flights, n.flight) == Sent(s.flights, n.flight); }
    }
  }

  lemma DecodedOk(t: State, f: nat, r: nat)
    requires f < |t.flights| && t.flights[f].answer.Some? && r < |t.heap| && LastMap(t.log, r) == None
    requires t.heap[r] == Cell(Decode(f, t.flights[f].answer.value.content), Fetched, f)
    ensures CellOk(t, r)
  {}

  lemma Answering(s: State, t: State, f: nat, content: Content)
    requires Inv(s) && Memory(s) && Inv(t) && f < |s.flights| == |t.flights| && s.flights[f].answer == None
    requires t.now == s.now && t.callers == s.callers && t.log == s.log && FlightLater(s.flights[f], t.flights[f])
    requires t.nested == s.nested + Trees(f, content) && t.flights == s.flights[f := t.flights[f]]
    requires t.flights[f].answer.Some? && t.flights[f].answer.value.content == content
    requires t.heap == s.heap + [Cell(Decode(f, content), Fetched, f)]
    ensures Memory(t)
  {
    FlightStepLater(s, t, f, t.flights[f]);
    NewNodesOk(s, t, f, content);
    assert CellOk(t, |s.heap|) by {
      WrittenIsHanded(s, |s.heap|);
      DecodedOk(t, f, |s.heap|);
    }
    OneCell(s, t);
  }

  lemma AnswerKeepsMemory(s: State, f: nat, content: Content, ttl: int)
    requires Inv(s) && Memory(s) && f < |s.flights| && s.flights[f].phase.Fetching?
    requires Inv(FlyStep(s, f, Answer(content), ttl))
    ensures Memory(FlyStep(s, f, Answer(content), ttl))
  {
    assert FlightOk(s, f, s.flights[f]);
    var t := FlyStep(s, f, Answer(content), ttl);
    Answering(s, t, f, content);
  }

  lemma RecheckKeepsMemory(s: State, f: nat, reply: Reply, ttl: int)
    requires Inv(s) && Memory(s) && f < |s.flights| && s.flights[f].phase.Checking? && Inv(FlyStep(s, f, reply, ttl))
    ensures Memory(FlyStep(s, f, reply, ttl))
  {
    var t := FlyStep(s, f, reply, ttl);
    var g := s.flights[f];
    if Hit(s, g.key, g.phase.now) {
      assert EntryOk(s, g.key, s.cache[g.key]);
      QuietFlight(s, t, f, s.cache[g.key].ref, HandedBy(f));
    } else {
      QuietFlight(s, t, f, 0, Cached);
    }
  }

  lemma StoreKeepsMemory(s: State, f: nat, reply: Reply, ttl: int)
    requires Inv(s) && Memory(s) && f < |s.flights| && s.flights[f].phase.Storing? && Inv(FlyStep(s, f, reply, ttl))
    ensures Memory(FlyStep(s, f, reply, ttl))
  {
    assert FlightOk(s, f, s.flights[f]);
    QuietFlight(s, FlyStep(s, f, reply, ttl), f, s.flights[f].phase.ref, Cached);
  }

  lemma CloneKeepsMemory(s: State, f: nat, reply: Reply, ttl: int)
    requires Inv(s) && Memory(s) && f < |s.flights| && s.flights[f].phase.Cloning? && Inv(FlyStep(s, f, reply, ttl))
    ensures Memory(FlyStep(s, f, reply, ttl))
  {
    assert FlightOk(s, f, s.flights[f]);
    QuietFlight(s, FlyStep(s, f, reply, ttl), f, s.flights[f].phase.ref, HandedBy(f));
  }

  lemma FlyKeepsMemory(s: State, f: nat, reply: Reply, ttl: int)
    requires Inv(s) && Memory(s) && f < |s.flights| && Inv(FlyStep(s, f, reply, ttl))
    ensures Memory(FlyStep(s, f, reply, ttl))
  {
    match s.flights[f].phase
    case Opening => QuietFlight(s, FlyStep(s, f, reply, ttl), f, 0, Cached);
    case Checking(_) => RecheckKeepsMemory(s, f, reply, ttl);
    case Fetching =>
      if reply.Answer? {
        AnswerKeepsMemory(s, f, reply.content, ttl);
      } else {
        QuietFlight(s, FlyStep(s, f, reply, ttl), f, 0, Cached);
      }
    case Storing(_) => StoreKeepsMemory(s, f, reply, ttl);
    case Cloning(_) => CloneKeepsMemory(s, f, reply, ttl);
    case Landed(_, _) =>
  }

  /** A write changes what it is a write to, and is logged. */
  lemma LoudStep(s: State, t: State, w: Wrote)
    requires Inv(s) && Memory(s) && Later(s, t) && t.callers == s.callers && t.flights == s.flights && |t.heap| == |s.heap|
    requires t.log == s.log + [w] && WroteOk(t, |s.log|)
    requires t.nested == if w.WroteNested? && w.node in s.nested then s.nested[w.node := w.content] else s.nested
    requires forall r: nat :: r < |s.heap| ==>
               t.heap[r] == if w.WroteMap? && w.ref == r then s.heap[r].(config := w.config) else s.heap[r]
    ensures Memory(t)
  {
    forall n: Node ensures NodeOk(t, n) {
      assert NodeOk(s, n);
      LastAfter(s.log, w, 0, n);
    }
    forall r: nat | r < |t.heap| ensures CellOk(t, r) {
      assert CellOk(s, r);
      LastAfter(s.log, w, r, Node(0, ""));
    }
    forall i: nat | i < |t.log| ensures WroteOk(t, i) {
      if i < |s.log| { WroteStays(s, t, i); }
    }
    AllGivenStay(s, t);
  }

  lemma WriteKeepsMemory(s: State, c: nat, config: Config)
    requires Inv(s) && Memory(s) && c < |s.callers| && s.callers[c].Returned? && Grounded(s.nested, config)
    ensures Memory(WriteStep(s, c, config))
  {
    var r := s.callers[c];
    ReturnedIsHanded(s, c);
    assert GivenOk(s, r);
    forall k | k in config && config[k].Ref? ensures Original(s.flights, config[k].node).Some? {
      assert NodeOk(s, config[k].node);
    }
    LoudStep(s, WriteStep(s, c, config), WroteMap(c, r.out.ref, config));
  }

  lemma WriteNestedKeepsMemory(s: State, c: nat, n: Node, content: Content)
    requires Inv(s) && Memory(s) && n in s.nested
    ensures Memory(WriteNestedStep(s, c, n, content))
  {
    assert NodeOk(s, n);
    LoudStep(s, WriteNestedStep(s, c, n, content), WroteNested(c, n, content));
  }

  /** A step that neither writes nor answers nor returns. */
  lemma PlainStep(s: State, t: State)
    requires Inv(s) && Memory(s) && Inv(t) && Later(s, t) && ReturnedStay(s, t)
    requires t.heap == s.heap && t.nested == s.nested && t.log == s.log
    requires forall f :: 0 <= f < |s.flights| ==> t.flights[f].answer == s.flights[f].answer
    requires forall f :: |s.flights| <= f < |t.flights| ==> t.flights[f].answer == None
    requires forall c :: 0 <= c < |t.callers| && t.callers[c].Returned? ==> c < |s.callers| && s.callers[c].Returned?
    ensures Memory(t)
  {
    SameAnswers(s, t);
    NodesStay(s, t);
    QuietStep(s, t);
  }

  lemma JoinLater(s: State, c: nat)
    requires c < |s.callers| && s.callers[c].Joining?
    ensures var t := JoinStep(s, c);
      && Later(s, t) && ReturnedStay(s, t) && t.heap == s.heap && t.nested == s.nested && t.log == s.log
      && |s.callers| == |t.callers| && !t.callers[c].Returned?
      && (forall d :: 0 <= d < |s.callers| && d != c ==> t.callers[d] == s.callers[d])
      && (forall f :: 0 <= f < |s.flights| ==> t.flights[f] == s.flights[f])
      && (forall f :: |s.flights| <= f < |t.flights| ==> t.flights[f].answer == None)
  {}

  lemma JoinKeepsMemory(s: State, c: nat)
    requires Inv(s) && Memory(s) && c < |s.callers| && s.callers[c].Joining? && Inv(JoinStep(s, c))
    ensures Memory(JoinStep(s, c))
  {
    JoinLater(s, c);
    PlainStep(s, JoinStep(s, c));
  }

  lemma TickKeepsMemory(s: State, a: Action)
    requires Inv(s) && Memory(s) && (a.Advance? || a.Call?) && Inv(Apply(s, a))
    ensures Memory(Apply(s, a))
  {
    HeapLater(s, Apply(s, a));
    PlainStep(s, Apply(s, a));
  }

  lemma ApplyKeepsMemory(s: State, a: Action)
    requires Inv(s) && Memory(s) && Inv(Apply(s, a))
    ensures Memory(Apply(s, a))
  {
    match a
    case Advance(_) => TickKeepsMemory(s, a);
    case Call(_) => TickKeepsMemory(s, a);
    case Check(c) => if c < |s.callers| && s.callers[c].FirstCheck? { CheckKeepsMemory(s, c); }
    case Join(c) => if c < |s.callers| && s.callers[c].Joining? { JoinKeepsMemory(s, c); }
    case Fly(f, reply, env) => if f < |s.flights| { FlyKeepsMemory(s, f, reply, TTL(env)); }
    case Collect(c) => if c < |s.callers| && s.callers[c].Waiting? { CollectKeepsMemory(s, c); }
    case Write(c, config) =>
      if c < |s.callers| && s.callers[c].Returned? && Grounded(s.nested, config) { WriteKeepsMemory(s, c, config); }
    case WriteNested(c, n, content) =>
      if c < |s.callers| && s.callers[c].Returned? && n in s.nested { WriteNestedKeepsMemory(s, c, n, content); }
  }

  lemma {:induction false} ExecKeepsMemory(s: State, run: seq<Action>)
    requires Inv(s) && Memory(s)
    ensures Inv(Exec(s, run)) && Memory(Exec(s, run))
    decreases |run|
  {
    if run != [] {
      ApplyKeepsInv(s, run[0]);
      ApplyKeepsMemory(s, run[0]);
      ExecKeepsMemory(Apply(s, run[0]), run[1..]);
    }
  }
}
