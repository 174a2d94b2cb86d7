/**
 * The harness side of relay/hub.go on values: the worker table, the index by user derived from it, and each
 * operation as a function from state to state. HubObject proves the methods of the object against these.
 */
module HubState {
  import opened Text

  /** Go durations and times are in nanoseconds. */
  const SECOND: int := 1_000_000_000
  const STALE_THRESHOLD: int := 90 * SECOND

  datatype Worker = Worker(
    tenant: string, user: string, tier: string,
    provider: string, providers: seq<string>,
    maxConcurrent: int, activeJobs: int, lastSeen: int)

  datatype State = State(harness: map<string, Worker>, byUser: map<string, string>)

  const EMPTY := State(map[], map[])

  function Key(tenant: string, user: string): string {
    tenant + "#" + user
  }

  function KeyOf(w: Worker): string {
    Key(w.tenant, w.user)
  }

  predicate Named(w: Worker) {
    w.tenant != "" && w.user != ""
  }

  predicate Heavy(w: Worker) {
    EqualFold(w.tier, "heavy")
  }

  /** Registering such a worker, or updating it into one, writes its user's index entry. */
  predicate Indexable(w: Worker) {
    Named(w) && Heavy(w)
  }

  function Indexed(s: State, id: string, w: Worker): State {
    State(s.harness[id := w], if Indexable(w) then s.byUser[KeyOf(w) := id] else s.byUser)
  }

  function Register(s: State, id: string, w: Worker): State {
    if id == "" then s else Indexed(s, id, w)
  }

  function WithCapabilities(w: Worker, tier: string, providers: seq<string>, maxConcurrent: int): Worker {
    w.(tier := ToLower(TrimSpace(tier)), providers := providers,
       maxConcurrent := if maxConcurrent > 0 then maxConcurrent else if w.maxConcurrent <= 0 then 1 else w.maxConcurrent)
  }

  function UpdateCapabilities(s: State, id: string, tier: string, providers: seq<string>, maxConcurrent: int): State {
    if id in s.harness then Indexed(s, id, WithCapabilities(s.harness[id], tier, providers, maxConcurrent)) else s
  }

  function Clamp(jobs: int): int {
    if jobs < 0 then 0 else jobs
  }

  function IncActiveJobs(s: State, id: string, delta: int): State {
    if id in s.harness
    then s.(harness := s.harness[id := s.harness[id].(activeJobs := Clamp(s.harness[id].activeJobs + delta))])
    else s
  }

  function Unregister(s: State, id: string): State {
    State(s.harness - {id},
          if id in s.harness && Named(s.harness[id]) then s.byUser - {KeyOf(s.harness[id])} else s.byUser)
  }

  function Touch(s: State, id: string, now: int): State {
    if id in s.harness then s.(harness := s.harness[id := s.harness[id].(lastSeen := now)]) else s
  }

  predicate Stale(w: Worker, now: int) {
    now - w.lastSeen > STALE_THRESHOLD
  }

  function StaleIds(s: State, now: int): set<string> {
    set id <- s.harness | Stale(s.harness[id], now)
  }

  /** The given workers go, and with each named one its user's index entry. */
  function Remove(s: State, ids: set<string>): State {
    State(s.harness - ids, s.byUser - (set id <- ids | id in s.harness && Named(s.harness[id]) :: KeyOf(s.harness[id])))
  }

  function Sweep(s: State, now: int): State {
    Remove(s, StaleIds(s, now))
  }

  lemma UnregisterRemoves(s: State, id: string)
    ensures Unregister(s, id) == Remove(s, {id})
  {
    var s' := Remove(s, {id});
    assert s'.byUser.Keys == Unregister(s, id).byUser.Keys;
  }

  lemma RemoveNone(s: State)
    ensures Remove(s, {}) == s
  {}

  /** Removing a set is unregistering its elements one by one, in any order. */
  lemma RemoveOneMore(s: State, ids: set<string>, id: string)
    requires id in s.harness && id !in ids
    ensures Unregister(Remove(s, ids), id) == Remove(s, ids + {id})
  {
    assert Unregister(Remove(s, ids), id).byUser.Keys == Remove(s, ids + {id}).byUser.Keys;
  }

  function HarnessForUser(s: State, tenant: string, user: string): Option<Worker> {
    if Key(tenant, user) in s.byUser && s.byUser[Key(tenant, user)] in s.harness
    then Some(s.harness[s.byUser[Key(tenant, user)]]) else None
  }

  /******* Runs *******/

  datatype Action =
    | RegisterA(id: string, worker: Worker)
    | UpdateA(id: string, tier: string, providers: seq<string>, maxConcurrent: int)
    | IncA(id: string, delta: int)
    | UnregisterA(id: string)
    | TouchA(id: string, now: int)
    | SweepA(now: int)

  function Apply(s: State, a: Action): State {
    match a
    case RegisterA(id, w) => Register(s, id, w)
    case UpdateA(id, tier, providers, m) => UpdateCapabilities(s, id, tier, providers, m)
    case IncA(id, delta) => IncActiveJobs(s, id, delta)
    case UnregisterA(id) => Unregister(s, id)
    case TouchA(id, now) => Touch(s, id, now)
    case SweepA(now) => Sweep(s, now)
  }

  function Exec(s: State, run: seq<Action>): State
    decreases |run|
  {
    if run == [] then s else Exec(Apply(s, run[0]), run[1..])
  }
}
