/**
 * Key and cache together (config_cache.go fetchControlConfigCached): callers with different requests share
 * the cache through its keys, and still each is given Control's own answer to its own request.
 */
module ConfigTransparency {
  import opened Text
  import opened ConfigKey
  import opened ConfigCache
  import opened ConfigCacheSafety

  datatype Request = Request(token: string, schema: Schema, ctx: Context)

  /** Whom a request is about: an instance, a server, or neither. */
  datatype Target = Instance(id: string) | Server(id: string) | Nobody

  function TargetOf(ctx: Context): Target {
    if ctx.NoContext? then Nobody
    else if ctx.instanceID.Some? && TrimSpace(ctx.instanceID.value) != "" then Instance(TrimSpace(ctx.instanceID.value))
    else if ctx.serverID.Some? && TrimSpace(ctx.serverID.value) != "" then Server(TrimSpace(ctx.serverID.value))
    else Nobody
  }

  /** No instance is named like a server's key. */
  predicate PlainInstance(ctx: Context) {
    TargetOf(ctx).Instance? ==> !HasPrefix(TargetOf(ctx).id, "server:")
  }

  lemma KeyOfTarget(ctx: Context)
    ensures InstanceKey(ctx) == TargetKey(TargetOf(ctx))
    ensures !TargetOf(ctx).Nobody? ==> TargetOf(ctx).id != ""
  {}

  /** The one is an instance named like the other, a server, in the key. */
  predicate Namesake(a: Target, b: Target) {
    a.Instance? && b.Server? && a.id == "server:" + b.id
  }

  /** The instance part of the key tells any two targets apart, if and only if neither is the other's namesake. */
  lemma TargetsMeetIff(c1: Context, c2: Context)
    ensures InstanceKey(c1) == InstanceKey(c2) <==>
              var a, b := TargetOf(c1), TargetOf(c2); a == b || Namesake(a, b) || Namesake(b, a)
  {
    KeyOfTarget(c1);
    KeyOfTarget(c2);
    TargetKeysMeet(TargetOf(c1), TargetOf(c2));
  }

  /** So without instances named like servers it tells all targets apart. */
  lemma TargetsEqualIff(c1: Context, c2: Context)
    requires PlainInstance(c1) && PlainInstance(c2)
    ensures InstanceKey(c1) == InstanceKey(c2) <==> TargetOf(c1) == TargetOf(c2)
  {
    TargetsMeetIff(c1, c2);
  }

  function TargetKey(t: Target): string {
    match t
    case Instance(id) => id
    case Server(id) => "server:" + id
    case Nobody => ""
  }

  lemma TargetKeysMeet(a: Target, b: Target)
    requires !a.Nobody? ==> a.id != ""
    requires !b.Nobody? ==> b.id != ""
    ensures TargetKey(a) == TargetKey(b) <==> a == b || Namesake(a, b) || Namesake(b, a)
  {
    if a.Server? { Prefixed("server:", a.id); }
    if b.Server? { Prefixed("server:", b.id); }
  }

  ghost predicate Usable(sha: Digest, q: Request) {
    && IsDigest(sha, TrimSpace(q.token)) && (q.schema.Json? ==> IsDigest(sha, q.schema.text))
    && !Ambiguous(InstanceKey(q.ctx)) && PlainInstance(q.ctx) && CommaFree(IdsOf(q.ctx))
  }

  function Key(sha: Digest, q: Request): string
    requires Usable(sha, q)
  {
    CacheKey(sha, q.token, q.schema, q.ctx)
  }

  /** The hashes do not collide on the tokens and schemas in use. */
  ghost predicate Distinguished(sha: Digest, q: Request, r: Request) {
    && Separates(sha, TrimSpace(q.token), TrimSpace(r.token))
    && (q.schema.Json? && r.schema.Json? ==> Separates(sha, q.schema.text, r.schema.text))
  }

  ghost predicate WellFormed(sha: Digest, requests: seq<Request>) {
    && (forall q :: q in requests ==> Usable(sha, q))
    && (forall q, r :: q in requests && r in requests ==> Distinguished(sha, q, r))
  }

  /** Control's answer to a request at an instant. */
  type Answers = (Request, int) -> Content

  predicate Alike(q: Request, r: Request) {
    && TrimSpace(q.token) == TrimSpace(r.token) && q.schema == r.schema
    && TargetOf(q.ctx) == TargetOf(r.ctx) && multiset(IdsOf(q.ctx)) == multiset(IdsOf(r.ctx))
  }

  /** Control looks at no more of a request than the trimmed token, the schema, the instance or server and the set of connections. */
  ghost predicate LooksOnlyAtKeyParts(answers: Answers) {
    forall q, r, t :: Alike(q, r) ==> answers(q, t) == answers(r, t)
  }

  lemma SameKeySameAnswer(sha: Digest, requests: seq<Request>, answers: Answers, q: Request, r: Request, t: int)
    requires WellFormed(sha, requests) && LooksOnlyAtKeyParts(answers) && q in requests && r in requests
    requires Key(sha, q) == Key(sha, r)
    ensures answers(q, t) == answers(r, t)
  {
    assert Distinguished(sha, q, r);
    TargetsEqualIff(q.ctx, r.ctx);
    KeyIdentifiesRequest(sha, q.token, q.schema, q.ctx, r.token, r.schema, r.ctx);
    assert Alike(q, r);
  }

  /** Every fetch of the run is made with some request under the flight's key, and Control answers that request. */
  ghost predicate Asked(s: State, run: seq<Action>, sha: Digest, requests: seq<Request>, answers: Answers)
    requires WellFormed(sha, requests)
    decreases |run|
  {
    run != [] ==>
      && (run[0].Fly? && run[0].flight < |s.flights| && s.flights[run[0].flight].phase.Fetching? && run[0].reply.Answer?
          ==> exists q :: q in requests && Key(sha, q) == s.flights[run[0].flight].key && run[0].reply.content == answers(q, s.now))
      && Asked(Apply(s, run[0]), run[1..], sha, requests, answers)
  }

  /** Some request under the key. */
  ghost function UnderKey(sha: Digest, requests: seq<Request>, key: string): (r: Option<Request>)
    requires forall q :: q in requests ==> Usable(sha, q)
    ensures r.Some? ==> r.value in requests && Key(sha, r.value) == key
    ensures r.None? ==> forall q :: q in requests ==> Key(sha, q) != key
  {
    if requests == [] then None
    else if Key(sha, requests[0]) == key then Some(requests[0])
    else UnderKey(sha, requests[1..], key)
  }

  /** Control seen through the keys: the answer to a request under the key. */
  ghost function ByKey(sha: Digest, requests: seq<Request>, answers: Answers): Control
    requires WellFormed(sha, requests)
  {
    (key: string, t: int) =>
      match UnderKey(sha, requests, key)
      case Some(q) => answers(q, t)
      case None => map[]
  }

  lemma ByKeyAnswers(sha: Digest, requests: seq<Request>, answers: Answers, q: Request, t: int)
    requires WellFormed(sha, requests) && LooksOnlyAtKeyParts(answers) && q in requests
    ensures ByKey(sha, requests, answers)(Key(sha, q), t) == answers(q, t)
  {
    var r := UnderKey(sha, requests, Key(sha, q)).value;
    SameKeySameAnswer(sha, requests, answers, q, r, t);
  }

  lemma {:induction false} AskedIsTruthful(s: State, run: seq<Action>, sha: Digest, requests: seq<Request>, answers: Answers)
    requires WellFormed(sha, requests) && LooksOnlyAtKeyParts(answers) && Asked(s, run, sha, requests, answers)
    ensures Truthful(s, run, ByKey(sha, requests, answers))
    decreases |run|
  {
    if run != [] {
      if run[0].Fly? && run[0].flight < |s.flights| && s.flights[run[0].flight].phase.Fetching? && run[0].reply.Answer? {
        var q :| q in requests && Key(sha, q) == s.flights[run[0].flight].key && run[0].reply.content == answers(q, s.now);
        ByKeyAnswers(sha, requests, answers, q, s.now);
      }
      AskedIsTruthful(Apply(s, run[0]), run[1..], sha, requests, answers);
    }
  }

  /** From when Control answers a fetch until its entry expires, it keeps its answer to every request under the key. */
  ghost predicate SteadyFor(g: Flight, sha: Digest, requests: seq<Request>, answers: Answers)
    requires WellFormed(sha, requests)
  {
    forall q, t, u :: q in requests && Key(sha, q) == g.key && g.answer.Some? && g.stored.Some?
      && g.answer.value.at <= t < g.stored.value.until && g.answer.value.at <= u < g.stored.value.until
      ==> answers(q, t) == answers(q, u)
  }

  /** Control's answer to the request at some instant of [from, to] is `value`. */
  ghost predicate RequestAnsweredDuring(answers: Answers, q: Request, value: Content, from: int, to: int) {
    exists t :: from <= t <= to && value == answers(q, t)
  }

  lemma SteadyByKey(g: Flight, sha: Digest, requests: seq<Request>, answers: Answers, q: Request)
    requires WellFormed(sha, requests) && LooksOnlyAtKeyParts(answers) && q in requests && Key(sha, q) == g.key
    requires SteadyFor(g, sha, requests, answers)
    ensures Steady(ByKey(sha, requests, answers), g)
  {
    forall t {:trigger ByKey(sha, requests, answers)(g.key, t)} ensures ByKey(sha, requests, answers)(g.key, t) == answers(q, t) {
      ByKeyAnswers(sha, requests, answers, q, t);
    }
  }

  /**
   * A cached call returns what the uncached call would: whatever mix of requests and interleaving, a caller whose
   * request is q is given Control's answer to q itself, although the fetch may have been made for another caller. The
   * answer is of an instant of the call, or of the flight the caller joined, which was under way during the call. As
   * callers share what they are given, this takes that the answer was kept from their writes until the call returned.
   */
  lemma CachedEqualsUncached(run: seq<Action>, sha: Digest, requests: seq<Request>, answers: Answers, c: nat, q: Request)
    requires WellFormed(sha, requests) && LooksOnlyAtKeyParts(answers) && q in requests
    requires Asked(INIT, run, sha, requests, answers)
    requires forall g :: g in Exec(INIT, run).flights ==> SteadyFor(g, sha, requests, answers)
    requires c < |Exec(INIT, run).callers| && Exec(INIT, run).callers[c].Returned?
    requires Kept(Exec(INIT, run), Exec(INIT, run).callers[c])
    requires Exec(INIT, run).callers[c].key == Key(sha, q)
    ensures var s := Exec(INIT, run); var r := s.callers[c];
      if r.via.Joined? then
        && r.via.flight < |s.flights| && s.flights[r.via.flight].phase.Landed?
        && var f := s.flights[r.via.flight];
        && f.begun <= f.phase.at && r.called <= f.phase.at <= r.returned
        && RequestAnsweredDuring(answers, q, r.content, f.begun, f.phase.at)
      else RequestAnsweredDuring(answers, q, r.content, r.called, r.returned)
  {
    var s, control := Exec(INIT, run), ByKey(sha, requests, answers);
    var r := s.callers[c];
    AskedIsTruthful(INIT, run, sha, requests, answers);
    ReturnedIsControlsAnswer(run, c);
    ExecKeepsAnswersTrue(INIT, run, control);
    var g := s.flights[r.out.source];
    assert g in s.flights;
    SteadyByKey(g, sha, requests, answers, q);
    ByKeyAnswers(sha, requests, answers, q, Instant(g, r.out));
    assert r.content == answers(q, Instant(g, r.out));
  }
}
