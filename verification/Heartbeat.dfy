/**
 * The heartbeat of relay/heartbeat.go on a clock: a tick every 30 s sweeps the connections silent for over
 * 90 s and then pings the rest. Instance and worker connections are swept and pinged alike, so one table
 * stands for both.
 */
module Heartbeat {
  import opened Text
  import opened HubState

  const INTERVAL: int := 30 * SECOND

  /** `owed` is the number of the first tick whose ping the peer has not answered since. */
  datatype Peer = Peer(lastSeen: int, owed: Option<int>)

  /** Tick k happens at k * INTERVAL; `ticks` of them have happened. */
  datatype Clock = Clock(now: int, ticks: nat, peers: map<string, Peer>)

  /** Frame is any inbound message of a registered connection: the read loop touches it. */
  datatype Event = Elapse(d: nat) | Tick | Connect(id: string) | Frame(id: string) | Disconnect(id: string)

  const INIT := Clock(0, 0, map[])

  predicate Silent(c: Clock, id: string)
    requires id in c.peers
  {
    c.now - c.peers[id].lastSeen > STALE_THRESHOLD
  }

  function Pinged(p: Peer, tick: int): Peer {
    if p.owed == None then p.(owed := Some(tick)) else p
  }

  predicate TickDue(c: Clock) {
    c.now == (c.ticks + 1) * INTERVAL
  }

  /** Time stops at a due tick until the tick has happened. */
  function Apply(c: Clock, e: Event): Clock {
    match e
    case Elapse(d) => if c.now + d <= (c.ticks + 1) * INTERVAL then c.(now := c.now + d) else c
    case Tick =>
      if TickDue(c)
      then Clock(c.now, c.ticks + 1, map id | id in c.peers && !Silent(c, id) :: Pinged(c.peers[id], c.ticks + 1))
      else c
    case Connect(id) => if id == "" then c else c.(peers := c.peers[id := Peer(c.now, None)])
    case Frame(id) => if id in c.peers then c.(peers := c.peers[id := Peer(c.now, None)]) else c
    case Disconnect(id) => c.(peers := c.peers - {id})
  }

  function Exec(c: Clock, run: seq<Event>): Clock
    decreases |run|
  {
    if run == [] then c else Exec(Apply(c, run[0]), run[1..])
  }

  /** The first unanswered ping went out at the first tick since the last frame. */
  ghost predicate Inv(c: Clock) {
    && c.ticks * INTERVAL <= c.now <= (c.ticks + 1) * INTERVAL
    && forall id :: id in c.peers ==>
         var p := c.peers[id];
         && p.lastSeen <= c.now
         && c.ticks * INTERVAL - p.lastSeen <= STALE_THRESHOLD
         && (p.owed == None ==> p.lastSeen >= c.ticks * INTERVAL)
         && (p.owed.Some? ==> p.owed.value <= c.ticks && p.lastSeen <= p.owed.value * INTERVAL <= p.lastSeen + INTERVAL)
  }

  lemma ApplyKeepsInv(c: Clock, e: Event)
    requires Inv(c)
    ensures Inv(Apply(c, e))
  {}

  lemma {:induction false} ExecKeepsInv(c: Clock, run: seq<Event>)
    requires Inv(c)
    ensures Inv(Exec(c, run))
    decreases |run|
  {
    if run != [] {
      ApplyKeepsInv(c, run[0]);
      ExecKeepsInv(Apply(c, run[0]), run[1..]);
    }
  }

  /** In every run: no registered connection is ever silent for over 120 s, nor over 90 s after a tick. */
  lemma SilenceIsBounded(run: seq<Event>)
    ensures var c := Exec(INIT, run);
            forall id :: id in c.peers ==>
              && c.now - c.peers[id].lastSeen <= 120_000_000_000
              && (c.now == c.ticks * INTERVAL ==> c.now - c.peers[id].lastSeen <= 90_000_000_000)
  {
    ExecKeepsInv(INIT, run);
  }

  /******* These are the sweeps of the hub *******/

  /** What the event does to the worker table of the hub; a worker connects with whatever it says of itself. */
  function HubAction(c: Clock, e: Event, w: string -> Worker): Option<Action> {
    match e
    case Elapse(_) => None
    case Tick => if TickDue(c) then Some(SweepA(c.now)) else None
    case Connect(id) => Some(RegisterA(id, w(id).(lastSeen := c.now)))
    case Frame(id) => Some(TouchA(id, c.now))
    case Disconnect(id) => Some(UnregisterA(id))
  }

  function HubStep(s: State, a: Option<Action>): State {
    if a.None? then s else HubState.Apply(s, a.value)
  }

  function HubExec(c: Clock, s: State, run: seq<Event>, w: string -> Worker): State
    decreases |run|
  {
    if run == [] then s else HubExec(Apply(c, run[0]), HubStep(s, HubAction(c, run[0], w)), run[1..], w)
  }

  /** The peers are the registered workers, each last heard at the same time. */
  ghost predicate Mirrors(c: Clock, s: State) {
    && c.peers.Keys == s.harness.Keys
    && forall id :: id in c.peers ==> c.peers[id].lastSeen == s.harness[id].lastSeen
  }

  lemma StepMirrors(c: Clock, s: State, e: Event, w: string -> Worker)
    requires Mirrors(c, s)
    ensures Mirrors(Apply(c, e), HubStep(s, HubAction(c, e, w)))
  {}

  /** Over every run, the peers are what the hub's own registrations, touches, removals and sweeps make of its workers. */
  lemma {:induction false} ExecMirrors(c: Clock, s: State, run: seq<Event>, w: string -> Worker)
    requires Mirrors(c, s)
    ensures Mirrors(Exec(c, run), HubExec(c, s, run, w))
    decreases |run|
  {
    if run != [] {
      StepMirrors(c, s, run[0], w);
      ExecMirrors(Apply(c, run[0]), HubStep(s, HubAction(c, run[0], w)), run[1..], w);
    }
  }

  /** So in every run of the hub no registered worker is ever silent for over 120 s. */
  lemma WorkerSilenceIsBounded(run: seq<Event>, w: string -> Worker)
    ensures var s := HubExec(INIT, EMPTY, run, w);
            forall id :: id in s.harness ==> Exec(INIT, run).now - s.harness[id].lastSeen <= 120_000_000_000
  {
    ExecMirrors(INIT, EMPTY, run, w);
    SilenceIsBounded(run);
  }

  /**
   * The timeline of one connection, without the table: at each tick that happens, its last frame, at `heard`, is at
   * most 90 s old.
   */
  predicate HeardInTime(now: int, ticks: nat, heard: int, id: string, run: seq<Event>)
    decreases |run|
  {
    if run == [] then true
    else
      var rest := run[1..];
      match run[0]
      case Elapse(d) => HeardInTime(if now + d <= (ticks + 1) * INTERVAL then now + d else now, ticks, heard, id, rest)
      case Tick =>
        if now == (ticks + 1) * INTERVAL
        then now - heard <= 90 * SECOND && HeardInTime(now, ticks + 1, heard, id, rest)
        else HeardInTime(now, ticks, heard, id, rest)
      case Frame(other) => HeardInTime(now, ticks, if other == id then now else heard, id, rest)
      case _ => HeardInTime(now, ticks, heard, id, rest)
  }

  lemma {:induction false} GoneStaysGone(c: Clock, id: string, run: seq<Event>)
    requires id !in c.peers && Connect(id) !in run
    ensures id !in Exec(c, run).peers
    decreases |run|
  {
    if run != [] {
      assert run[0] in run;
      GoneStaysGone(Apply(c, run[0]), id, run[1..]);
    }
  }

  /**
   * Over every run in which the connection neither ends nor is made anew: it is registered at the end if and only if at
   * no tick on the way its last frame was over 90 s old. What other connections do never matters.
   */
  lemma {:induction false} RegisteredIffHeardInTime(c: Clock, id: string, run: seq<Event>)
    requires id in c.peers && Connect(id) !in run && Disconnect(id) !in run
    ensures id in Exec(c, run).peers <==> HeardInTime(c.now, c.ticks, c.peers[id].lastSeen, id, run)
    decreases |run|
  {
    if run != [] {
      var e := run[0];
      assert e in run;
      var c' := Apply(c, e);
      if id in c'.peers {
        RegisteredIffHeardInTime(c', id, run[1..]);
      } else {
        assert e == Tick && TickDue(c) && Silent(c, id);
        GoneStaysGone(c', id, run[1..]);
      }
    }
  }

  /** So far the peer has answered every ping within `limit`: none is unanswered for longer. */
  predicate Prompt(c: Clock, id: string, limit: int) {
    id in c.peers && c.peers[id].owed.Some? ==> c.now <= c.peers[id].owed.value * INTERVAL + limit
  }

  ghost predicate PromptThroughout(c: Clock, id: string, limit: int, run: seq<Event>)
    decreases |run|
  {
    Prompt(c, id, limit) && (run != [] ==> PromptThroughout(Apply(c, run[0]), id, limit, run[1..]))
  }

  lemma PromptSurvivesTick(c: Clock, id: string, limit: int)
    requires Inv(c) && TickDue(c) && id in c.peers && limit < 90 * SECOND && Prompt(c, id, limit)
    ensures id in Apply(c, Tick).peers
  {
    var p := c.peers[id];
    if p.owed.Some? {
      var missed := c.ticks + 1 - p.owed.value;
      assert missed * INTERVAL == c.now - p.owed.value * INTERVAL < 3 * INTERVAL;
      assert missed <= 2;
    }
  }

  /**
   * A peer that answers every ping in less than 90 s is never evicted: over every run it stays registered
   * until it disconnects.
   */
  lemma {:induction false} PromptPeerIsNeverEvicted(c: Clock, id: string, limit: int, run: seq<Event>)
    requires Inv(c) && id in c.peers && limit < 90 * SECOND
    requires PromptThroughout(c, id, limit, run) && Disconnect(id) !in run
    ensures id in Exec(c, run).peers
    decreases |run|
  {
    if run != [] {
      ApplyKeepsInv(c, run[0]);
      assert run[0] in run;
      if run[0].Tick? && TickDue(c) { PromptSurvivesTick(c, id, limit); }
      PromptPeerIsNeverEvicted(Apply(c, run[0]), id, limit, run[1..]);
    }
  }

  /** n intervals in which the peer sends nothing. */
  function Quiet(n: nat): seq<Event> {
    if n == 0 then [] else [Elapse(30_000_000_000), Tick] + Quiet(n - 1)
  }

  lemma QuietRound(c: Clock, id: string, n: nat)
    requires Inv(c) && c.now == c.ticks * INTERVAL && n > 0
    ensures var c1 := c.(now := c.now + INTERVAL);
            && Exec(c, Quiet(n)) == Exec(Apply(c1, Tick), Quiet(n - 1))
            && (PromptThroughout(c, id, 90 * SECOND, Quiet(n)) <==>
                  && Prompt(c, id, 90 * SECOND) && Prompt(c1, id, 90 * SECOND)
                  && PromptThroughout(Apply(c1, Tick), id, 90 * SECOND, Quiet(n - 1)))
  {
    var run, rest := Quiet(n), Quiet(n - 1);
    assert run[1..] == [Tick] + rest && run[1..][1..] == rest;
    assert Apply(c, run[0]) == c.(now := c.now + INTERVAL);
  }

  /** Connected at time 0, pinged first at tick 1, and silent ever since. */
  function QuietSince(id: string, k: nat): Clock {
    Clock(k * INTERVAL, k, map[id := Peer(0, if k == 0 then None else Some(1))])
  }

  lemma {:induction false} QuietPeerIsEvicted(id: string, k: nat)
    requires k <= 3
    ensures PromptThroughout(QuietSince(id, k), id, 90 * SECOND, Quiet(4 - k))
    ensures id !in Exec(QuietSince(id, k), Quiet(4 - k)).peers
    decreases 4 - k
  {
    QuietRound(QuietSince(id, k), id, 4 - k);
    QuietTick(id, k);
    if k < 3 { QuietPeerIsEvicted(id, k + 1); }
  }

  /** One quiet interval: the fourth tick evicts the peer. */
  lemma QuietTick(id: string, k: nat)
    requires k <= 3
    ensures var c := QuietSince(id, k); var c1 := c.(now := c.now + INTERVAL);
      && Inv(c) && Prompt(c, id, 90 * SECOND) && Prompt(c1, id, 90 * SECOND)
      && if k < 3 then Apply(c1, Tick) == QuietSince(id, k + 1) else Apply(c1, Tick).peers == map[]
  {}

  /** The bound is sharp: a peer that takes exactly 90 s to answer is evicted. */
  lemma NinetySecondsIsTooSlow(id: string)
    requires id != ""
    ensures var c := Apply(INIT, Connect(id));
            && PromptThroughout(c, id, 90 * SECOND, Quiet(4)) && Disconnect(id) !in Quiet(4)
            && id in c.peers && id !in Exec(c, Quiet(4)).peers
  {
    assert Apply(INIT, Connect(id)) == QuietSince(id, 0);
    QuietPeerIsEvicted(id, 0);
    QuietHasNoDisconnect(id, 4);
  }

  lemma {:induction false} QuietHasNoDisconnect(id: string, n: nat)
    ensures Disconnect(id) !in Quiet(n)
  {
    if n > 0 { QuietHasNoDisconnect(id, n - 1); }
  }

  lemma {:induction false} LaterIsPromptToo(c: Clock, id: string, limit: int, later: int, run: seq<Event>)
    requires limit <= later && PromptThroughout(c, id, limit, run)
    ensures PromptThroughout(c, id, later, run)
    decreases |run|
  {
    if run != [] { LaterIsPromptToo(Apply(c, run[0]), id, limit, later, run[1..]); }
  }

  /** A peer that answers every ping within `limit` is kept, in this run, until it disconnects. */
  ghost predicate Kept(c: Clock, id: string, limit: int, run: seq<Event>) {
    Inv(c) && id in c.peers && PromptThroughout(c, id, limit, run) && Disconnect(id) !in run ==> id in Exec(c, run).peers
  }

  /** Answering every ping within a limit is enough, in every run, if and only if the limit is below 90 s. */
  lemma PromptnessSufficesIff(limit: int)
    ensures (forall c, id, run :: Kept(c, id, limit, run)) <==> limit < 90 * SECOND
  {
    if limit < 90 * SECOND {
      forall c, id, run ensures Kept(c, id, limit, run) {
        if Inv(c) && id in c.peers && PromptThroughout(c, id, limit, run) && Disconnect(id) !in run {
          PromptPeerIsNeverEvicted(c, id, limit, run);
        }
      }
    } else {
      var c := Apply(INIT, Connect("w"));
      NinetySecondsIsTooSlow("w");
      LaterIsPromptToo(c, "w", 90 * SECOND, limit, Quiet(4));
      assert !Kept(c, "w", limit, Quiet(4));
    }
  }
}
