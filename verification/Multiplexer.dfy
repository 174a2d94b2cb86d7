/**
 * The request multiplexer of relay/multiplexer.go and the forward handler that drives it, as a step
 * machine. Every lock section, send, close and receive of a goroutine is one step; a run is any sequence
 * of steps of any goroutines. The send on, and the close of, a channel are checked: a Go panic, or the
 * `default` branch of the send, is recorded in `faults`.
 */
module Multiplexer {
  import opened Text

  type Body = string

  /** What became of one registration. `thread` is the goroutine that removed the entry, `at` the step. */
  datatype Settlement =
    | Pending
    | Replaced
    | Completed(thread: nat, body: Body, at: nat)
    | Cancelled(thread: nat, at: nat)

  /** A one-slot channel: `id`, `registrant` and `born` say which call registered it, and when. */
  datatype Channel = Channel(
    id: string, registrant: nat, born: nat,
    buffer: Option<Body>, closed: bool,
    settlement: Settlement)

  /** The calls a goroutine can make; Forwarder is one handleMCPForward request. */
  datatype Role =
    | Registrar(id: string)
    | Completer(id: string, body: Body)
    | Canceller(id: string)
    | Waiter(ch: nat)
    | Forwarder(id: string, async: bool)

  datatype Answer =
    | Registered(ch: nat)
    | Settled(ch: nat)
    | NotFound
    | Received(ch: nat, body: Body)
    | NoBody(ch: nat)
    | Http(ch: nat, status: int, payload: Option<Body>)

  /** Program counter: the next step a goroutine takes. */
  datatype Pc =
    | Start
    | Forwarding(ch: nat)              // registered, about to write the request frame
    | Receiving(ch: nat)               // in Wait
    | Removing(ch: nat, status: int)   // the handler is about to call Cancel
    | Sending(ch: nat)                 // entry removed, about to send the body
    | Closing(ch: nat, answer: Answer) // about to close the removed channel
    | Returned(answer: Answer)

  datatype Thread = Thread(role: Role, pc: Pc)

  datatype Fault = SendOnClosed | CloseOfClosed | BodyDropped

  datatype State = State(
    pending: map<string, nat>,
    channels: seq<Channel>,
    threads: seq<Thread>,
    clock: nat,
    faults: set<Fault>)

  /** `alt` resolves the choices of a step: the frame write fails; Wait takes the timeout. */
  datatype Action = Spawn(role: Role) | Run(thread: nat, alt: bool)

  const INIT := State(map[], [], [], 0, {})

  /******* Effects on the shared state *******/

  function Goto(s: State, t: nat, pc: Pc): State
    requires t < |s.threads|
  {
    s.(threads := s.threads[t := s.threads[t].(pc := pc)])
  }

  /** Register's lock section: a new channel; an entry already under `id` is overwritten and orphaned. */
  function AddEntry(s: State, t: nat, id: string): (r: State)
    ensures r.threads == s.threads
  {
    var ch := Channel(id, t, s.clock, None, false, Pending);
    var before := if id in s.pending && s.pending[id] < |s.channels|
               then s.channels[s.pending[id] := s.channels[s.pending[id]].(settlement := Replaced)]
               else s.channels;
    s.(pending := s.pending[id := |s.channels|], channels := before + [ch])
  }

  /** The lock section of Complete and Cancel when the entry exists. */
  function RemoveEntry(s: State, id: string, why: Settlement): (r: State)
    requires id in s.pending && s.pending[id] < |s.channels|
    ensures r.threads == s.threads
  {
    var c := s.pending[id];
    s.(pending := s.pending - {id}, channels := s.channels[c := s.channels[c].(settlement := why)])
  }

  /** `select { case ch <- body: default: }` */
  function SendBody(s: State, c: nat, body: Body): (r: State)
    requires c < |s.channels|
    ensures r.threads == s.threads
  {
    var ch := s.channels[c];
    if ch.closed then s.(faults := s.faults + {SendOnClosed})
    else if ch.buffer.Some? then s.(faults := s.faults + {BodyDropped})
    else s.(channels := s.channels[c := ch.(buffer := Some(body))])
  }

  function CloseChannel(s: State, c: nat): (r: State)
    requires c < |s.channels|
    ensures r.threads == s.threads
  {
    if s.channels[c].closed then s.(faults := s.faults + {CloseOfClosed})
    else s.(channels := s.channels[c := s.channels[c].(closed := true)])
  }

  function TakeBody(s: State, c: nat): (r: State)
    requires c < |s.channels|
    ensures r.threads == s.threads
  {
    s.(channels := s.channels[c := s.channels[c].(buffer := None)])
  }

  /******* One step of one goroutine *******/

  /** Of all goroutines only `t` moves, and it keeps its role. */
  predicate OnlyMoves(s: State, r: State, t: nat)
    requires t < |s.threads|
  {
    |r.threads| == |s.threads| && r.threads == s.threads[t := Thread(s.threads[t].role, r.threads[t].pc)]
  }

  function StartStep(s: State, t: nat): (r: State)
    requires t < |s.threads|
    ensures OnlyMoves(s, r, t)
  {
    match s.threads[t].role
    case Registrar(id) => Goto(AddEntry(s, t, id), t, Returned(Registered(|s.channels|)))
    case Forwarder(id, _) => Goto(AddEntry(s, t, id), t, Forwarding(|s.channels|))
    case Completer(id, body) =>
      if id in s.pending && s.pending[id] < |s.channels| then
        Goto(RemoveEntry(s, id, Completed(t, body, s.clock)), t, Sending(s.pending[id]))
      else Goto(s, t, Returned(NotFound))
    case Canceller(id) => CancelStep(s, t, id, None)
    case Waiter(ch) => Goto(s, t, Receiving(ch))
  }

  /** Cancel's lock section; `reply` is the HTTP answer when a handler made the call. */
  function CancelStep(s: State, t: nat, id: string, reply: Option<Answer>): (r: State)
    requires t < |s.threads|
    ensures OnlyMoves(s, r, t)
  {
    if id in s.pending && s.pending[id] < |s.channels| then
      var c := s.pending[id];
      Goto(RemoveEntry(s, id, Cancelled(t, s.clock)), t, Closing(c, if reply.Some? then reply.value else Settled(c)))
    else Goto(s, t, Returned(if reply.Some? then reply.value else NotFound))
  }

  /** Wait: a buffered body, else the close, else block; the timer may win whatever is ready. */
  function ReceiveStep(s: State, t: nat, c: nat, timeout: bool): (r: State)
    requires t < |s.threads| && c < |s.channels|
    ensures OnlyMoves(s, r, t)
  {
    var ch := s.channels[c];
    var forward := s.threads[t].role.Forwarder?;
    if !timeout && ch.buffer.Some? then
      Goto(TakeBody(s, c), t, Returned(if forward then Http(c, 200, ch.buffer) else Received(c, ch.buffer.value)))
    else if timeout || ch.closed then
      Goto(s, t, if forward then Removing(c, 504) else Returned(NoBody(c)))
    else s
  }

  function ThreadStep(s: State, t: nat, alt: bool): (r: State)
    requires t < |s.threads|
    ensures OnlyMoves(s, r, t)
  {
    var th := s.threads[t];
    match th.pc
    case Start => StartStep(s, t)
    case Forwarding(c) =>
      if alt then Goto(s, t, Removing(c, 502))
      else if th.role.Forwarder? && th.role.async then Goto(s, t, Returned(Http(c, 202, None)))
      else Goto(s, t, Receiving(c))
    case Receiving(c) => if c < |s.channels| then ReceiveStep(s, t, c, alt) else s
    case Removing(c, status) =>
      if th.role.Forwarder?
      then CancelStep(s, t, th.role.id, Some(Http(c, status, None)))
      else s
    case Sending(c) =>
      if c < |s.channels| && th.role.Completer?
      then Goto(SendBody(s, c, th.role.body), t, Closing(c, Settled(c)))
      else s
    case Closing(c, answer) =>
      if c < |s.channels| then Goto(CloseChannel(s, c), t, Returned(answer)) else s
    case Returned(_) => s
  }

  /** A goroutine may be spawned at any time; Wait is only ever called on a channel Register returned. */
  function Apply(s: State, a: Action): State {
    var next :=
      match a
      case Spawn(role) =>
        if role.Waiter? && role.ch >= |s.channels| then s
        else s.(threads := s.threads + [Thread(role, Start)])
      case Run(t, alt) => if t < |s.threads| then ThreadStep(s, t, alt) else s;
    next.(clock := s.clock + 1)
  }

  function Exec(s: State, run: seq<Action>): State
    decreases |run|
  {
    if run == [] then s else Exec(Apply(s, run[0]), run[1..])
  }

  /******* The ownership invariant *******/

  /** The channel a goroutine has removed from `pending` and not closed yet. */
  function Owned(th: Thread): Option<nat> {
    match th.pc
    case Sending(c) => Some(c)
    case Closing(c, _) => Some(c)
    case _ => None
  }

  /** The channel a goroutine registered. */
  function Own(th: Thread): Option<nat> {
    match th.pc
    case Forwarding(c) => Some(c)
    case Receiving(c) => if th.role.Forwarder? then Some(c) else None
    case Removing(c, _) => Some(c)
    case Closing(_, Http(c, _, _)) => Some(c)
    case Returned(Registered(c)) => Some(c)
    case Returned(Http(c, _, _)) => Some(c)
    case _ => None
  }

  predicate SettledBy(ch: Channel, t: nat) {
    (ch.settlement.Completed? || ch.settlement.Cancelled?) && ch.settlement.thread == t
  }

  /** An open registration is in `pending` under its own id, untouched; nothing else is in `pending`. */
  ghost predicate PendingInv(s: State) {
    && (forall id :: id in s.pending ==>
          && s.pending[id] < |s.channels|
          && s.channels[s.pending[id]].id == id
          && s.channels[s.pending[id]].settlement == Pending)
    && (forall c :: 0 <= c < |s.channels| && s.channels[c].settlement == Pending ==>
          s.channels[c].id in s.pending && s.pending[s.channels[c].id] == c)
  }

  /** A removed channel that is not closed is owned by exactly the goroutine that removed it. */
  ghost predicate ChannelInv(s: State, c: nat)
    requires c < |s.channels|
  {
    var ch := s.channels[c];
    && ch.born < s.clock
    && ch.registrant < |s.threads| && Own(s.threads[ch.registrant]) == Some(c)
    && (ch.settlement.Pending? || ch.settlement.Replaced? ==> !ch.closed && ch.buffer == None)
    && (ch.settlement.Completed? || ch.settlement.Cancelled? ==>
          && ch.born < ch.settlement.at < s.clock
          && ch.settlement.thread < |s.threads|
          && (!ch.closed ==> Owned(s.threads[ch.settlement.thread]) == Some(c)))
    && (ch.settlement.Completed? ==>
          var th := s.threads[ch.settlement.thread];
          && th.role == Completer(ch.id, ch.settlement.body)
          && (th.pc == Sending(c) || th.pc == Closing(c, Settled(c)) || th.pc == Returned(Settled(c))))
    && (ch.settlement.Cancelled? ==> ch.buffer == None)
    && (ch.buffer.Some? ==> ch.settlement.Completed? && ch.buffer.value == ch.settlement.body)
  }

  ghost predicate ThreadInv(s: State, t: nat)
    requires t < |s.threads|
  {
    var th := s.threads[t];
    && (Owned(th).Some? ==>
          var c := Owned(th).value;
          && c < |s.channels| && !s.channels[c].closed && SettledBy(s.channels[c], t)
          && (th.pc.Sending? ==> s.channels[c].buffer == None && s.channels[c].settlement.Completed?))
    && (Own(th).Some? ==>
          var c := Own(th).value;
          && c < |s.channels| && s.channels[c].registrant == t
          && (th.role.Forwarder? || th.role.Registrar?) && s.channels[c].id == th.role.id)
    && PcInv(s, t)
  }

  /** What a goroutine knows at each program counter. */
  ghost predicate PcInv(s: State, t: nat)
    requires t < |s.threads|
  {
    var th := s.threads[t];
    match th.pc
    case Start => th.role.Waiter? ==> th.role.ch < |s.channels|
    case Forwarding(_) => th.role.Forwarder?
    case Receiving(c) => c < |s.channels| && (th.role.Forwarder? || th.role == Waiter(c)) && (th.role.Forwarder? ==> !th.role.async)
    case Removing(_, status) => th.role.Forwarder? && (status == 502 || status == 504) && (status == 504 ==> !th.role.async)
    case Sending(c) => th.role.Completer?
    case Closing(c, answer) => c < |s.channels| && AnswerInv(s, t, answer) && (answer.Settled? ==> answer.ch == c)
      && (answer.Http? ==> th.role.Forwarder? && (answer.status == 502 || answer.status == 504) && (answer.status == 504 ==> !th.role.async))
      && (answer.Settled? || answer.Http?)
    case Returned(answer) => AnswerInv(s, t, answer)
  }

  /** What a return value means. */
  ghost predicate AnswerInv(s: State, t: nat, answer: Answer)
    requires t < |s.threads|
  {
    var role := s.threads[t].role;
    match answer
    case Registered(c) => role.Registrar?
    case Settled(c) => c < |s.channels| && (role.Completer? || role.Canceller?)
      && SettledBy(s.channels[c], t) && s.channels[c].id == role.id
      && (role.Completer? <==> s.channels[c].settlement.Completed?)
    case NotFound => role.Completer? || role.Canceller?
    case Received(c, body) => role == Waiter(c) && Delivered(s, c, body)
    case NoBody(c) => role == Waiter(c)
    case Http(c, status, body) =>
      && role.Forwarder? && c < |s.channels|
      && (status == 200 <==> body.Some?)
      && (status == 200 ==> Delivered(s, c, body.value))
      && (status == 202 ==> role.async)
      && (status != 202 ==> s.channels[c].settlement != Pending)
      && (status == 200 || status == 202 || status == 502 || status == 504)
      && (status == 200 || status == 504 ==> !role.async)
  }

  /** `body` is what a Complete call passed for the registration `c`, removing it after it was made. */
  ghost predicate Delivered(s: State, c: nat, body: Body) {
    && c < |s.channels|
    && s.channels[c].settlement.Completed?
    && s.channels[c].settlement.body == body
  }

  ghost predicate Inv(s: State) {
    && s.faults == {}
    && PendingInv(s)
    && (forall c: nat :: c < |s.channels| ==> ChannelInv(s, c))
    && (forall t: nat :: t < |s.threads| ==> ThreadInv(s, t))
  }

  /******* Every step keeps the invariant *******/

  lemma SpawnKeepsInv(s: State, role: Role)
    requires Inv(s)
    ensures Inv(Apply(s, Spawn(role)))
  {
    var s' := Apply(s, Spawn(role));
    forall c: nat | c < |s'.channels| ensures ChannelInv(s', c) { assert ChannelInv(s, c); }
    forall t: nat | t < |s'.threads| ensures ThreadInv(s', t) {
      if t < |s.threads| { assert ThreadInv(s, t); }
    }
  }

  /** How a channel may change in one step or many: a settled registration is settled for good. */
  ghost predicate Evolves(before: Channel, after: Channel) {
    && after.id == before.id && after.registrant == before.registrant && after.born == before.born
    && (after.settlement == before.settlement || (before.settlement.Pending? && !after.settlement.Pending?))
  }

  /** The part of `s'` that one step of goroutine `t` leaves alone. */
  ghost predicate Frame(s: State, s': State, t: nat) {
    && t < |s.threads| == |s'.threads|
    && (forall u :: 0 <= u < |s.threads| && u != t ==> s'.threads[u] == s.threads[u])
    && s'.threads[t].role == s.threads[t].role
    && !s.threads[t].pc.Returned?
    && (Own(s.threads[t]).Some? ==> Own(s'.threads[t]) == Own(s.threads[t]))
    && s.clock <= s'.clock && |s.channels| <= |s'.channels|
    && (forall c :: 0 <= c < |s.channels| ==>
          && Evolves(s.channels[c], s'.channels[c])
          && (Owned(s.threads[t]) == Some(c) ||
              (s'.channels[c].closed == s.channels[c].closed &&
               (s.channels[c].buffer == None ==> s'.channels[c].buffer == None))))
  }

  /** A goroutine that did not move keeps what it knows: the channel it owns is not the one touched. */
  lemma BystanderKeepsInv(s: State, s': State, t: nat, u: nat)
    requires Inv(s) && Frame(s, s', t) && u < |s.threads| && u != t
    ensures ThreadInv(s', u)
  {
    assert ThreadInv(s, t) && ThreadInv(s, u);
  }

  /** A channel that was left alone keeps its invariant. */
  lemma IdleChannelKeepsInv(s: State, s': State, t: nat, c: nat)
    requires Inv(s) && Frame(s, s', t)
    requires c < |s.channels| && s'.channels[c] == s.channels[c] && Owned(s.threads[t]) != Some(c)
    ensures ChannelInv(s', c)
  {
    assert ThreadInv(s, t) && ChannelInv(s, c);
  }

  /** A step keeps the invariant if it does so for the goroutine that moved and the channels it touched. */
  lemma StepKeepsInv(s: State, s': State, t: nat)
    requires Inv(s) && Frame(s, s', t)
    requires s'.faults == {} && PendingInv(s') && ThreadInv(s', t)
    requires forall c: nat :: c < |s'.channels| ==>
               (c < |s.channels| && s'.channels[c] == s.channels[c] && Owned(s.threads[t]) != Some(c)) || ChannelInv(s', c)
    ensures Inv(s')
  {
    forall c: nat | c < |s'.channels| ensures ChannelInv(s', c) {
      if c < |s.channels| && s'.channels[c] == s.channels[c] && Owned(s.threads[t]) != Some(c) {
        IdleChannelKeepsInv(s, s', t, c);
      }
    }
    forall u: nat | u < |s'.threads| ensures ThreadInv(s', u) {
      if u != t { BystanderKeepsInv(s, s', t, u); }
    }
  }

  /** Time passes: a goroutine that has returned, or is blocked in Wait. */
  lemma IdleKeepsInv(s: State)
    requires Inv(s)
    ensures Inv(s.(clock := s.clock + 1))
  {
    var s' := s.(clock := s.clock + 1);
    forall c: nat | c < |s'.channels| ensures ChannelInv(s', c) { assert ChannelInv(s, c); }
    forall t: nat | t < |s'.threads| ensures ThreadInv(s', t) { assert ThreadInv(s, t); }
  }

  lemma AddEntryKeepsPendingInv(s: State, t: nat, id: string)
    requires PendingInv(s)
    ensures PendingInv(AddEntry(s, t, id))
  {}

  lemma RemoveEntryKeepsPendingInv(s: State, id: string, why: Settlement)
    requires PendingInv(s) && id in s.pending && !why.Pending?
    ensures PendingInv(RemoveEntry(s, id, why))
  {}

  lemma RegisterTouches(s: State, t: nat, alt: bool)
    requires Inv(s) && t < |s.threads| && s.threads[t].pc.Start?
    requires s.threads[t].role.Registrar? || s.threads[t].role.Forwarder?
    ensures var s' := Apply(s, Run(t, alt)); ThreadInv(s', t) && ChannelInv(s', |s.channels|)
    ensures var s' := Apply(s, Run(t, alt)); s.threads[t].role.id in s.pending ==> ChannelInv(s', s.pending[s.threads[t].role.id])
  {
    assert ThreadInv(s, t);
    var id := s.threads[t].role.id;
    if id in s.pending { assert ChannelInv(s, s.pending[id]); }
  }

  lemma RegisterFrame(s: State, t: nat, alt: bool)
    requires PendingInv(s) && t < |s.threads| && s.threads[t].pc.Start?
    requires s.threads[t].role.Registrar? || s.threads[t].role.Forwarder?
    ensures Frame(s, Apply(s, Run(t, alt)), t)
    ensures Apply(s, Run(t, alt)).faults == s.faults
  {}

  lemma RegisterKeepsInv(s: State, t: nat, alt: bool)
    requires Inv(s) && t < |s.threads| && s.threads[t].pc.Start?
    requires s.threads[t].role.Registrar? || s.threads[t].role.Forwarder?
    ensures Inv(Apply(s, Run(t, alt)))
  {
    RegisterTouches(s, t, alt);
    RegisterFrame(s, t, alt);
    AddEntryKeepsPendingInv(s, t, s.threads[t].role.id);
    StepKeepsInv(s, Apply(s, Run(t, alt)), t);
  }

  lemma CompleteKeepsInv(s: State, t: nat, alt: bool)
    requires Inv(s) && t < |s.threads| && s.threads[t].pc.Start? && s.threads[t].role.Completer?
    ensures Inv(Apply(s, Run(t, alt)))
  {
    var s' := Apply(s, Run(t, alt));
    assert ThreadInv(s, t);
    var id := s.threads[t].role.id;
    if id in s.pending { assert ChannelInv(s, s.pending[id]); }
    StepKeepsInv(s, s', t);
  }

  lemma CancelKeepsInv(s: State, t: nat, alt: bool)
    requires Inv(s) && t < |s.threads| && s.threads[t].pc.Start? && s.threads[t].role.Canceller?
    ensures Inv(Apply(s, Run(t, alt)))
  {
    var s' := Apply(s, Run(t, alt));
    assert ThreadInv(s, t);
    var id := s.threads[t].role.id;
    if id in s.pending { assert ChannelInv(s, s.pending[id]); }
    StepKeepsInv(s, s', t);
  }

  lemma HandlerCancelFoundKeepsInv(s: State, t: nat, alt: bool)
    requires Inv(s) && t < |s.threads| && s.threads[t].pc.Removing? && s.threads[t].role.Forwarder?
    requires s.threads[t].role.id in s.pending
    ensures Inv(Apply(s, Run(t, alt)))
  {
    var s' := Apply(s, Run(t, alt));
    assert ThreadInv(s, t) && PcInv(s, t);
    var id := s.threads[t].role.id;
    assert ChannelInv(s, s.threads[t].pc.ch) && ChannelInv(s, s.pending[id]);
    RemoveEntryKeepsPendingInv(s, id, Cancelled(t, s.clock));
    assert Frame(s, s', t);
    assert ThreadInv(s', t);
    StepKeepsInv(s, s', t);
  }

  lemma HandlerCancelAbsentKeepsInv(s: State, t: nat, alt: bool)
    requires Inv(s) && t < |s.threads| && s.threads[t].pc.Removing? && s.threads[t].role.Forwarder?
    requires s.threads[t].role.id !in s.pending
    ensures Inv(Apply(s, Run(t, alt)))
  {
    var s' := Apply(s, Run(t, alt));
    assert ThreadInv(s, t) && PcInv(s, t);
    assert ChannelInv(s, s.threads[t].pc.ch);
    StepKeepsInv(s, s', t);
  }

  lemma ForwardKeepsInv(s: State, t: nat, alt: bool)
    requires Inv(s) && t < |s.threads|
    requires s.threads[t].pc.Forwarding? || (s.threads[t].pc.Start? && s.threads[t].role.Waiter?)
    ensures Inv(Apply(s, Run(t, alt)))
  {
    var s' := Apply(s, Run(t, alt));
    assert ThreadInv(s, t);
    StepKeepsInv(s, s', t);
  }

  lemma ReceiveBodyKeepsInv(s: State, t: nat)
    requires Inv(s) && t < |s.threads| && s.threads[t].pc.Receiving?
    requires s.threads[t].pc.ch < |s.channels| && s.channels[s.threads[t].pc.ch].buffer.Some?
    ensures Inv(Apply(s, Run(t, false)))
  {
    var s' := Apply(s, Run(t, false));
    assert ThreadInv(s, t);
    assert PcInv(s, t) && ChannelInv(s, s.threads[t].pc.ch);
    StepKeepsInv(s, s', t);
  }

  lemma ReceiveNothingKeepsInv(s: State, t: nat, alt: bool)
    requires Inv(s) && t < |s.threads| && s.threads[t].pc.Receiving?
    requires s.threads[t].pc.ch < |s.channels| && (alt || s.channels[s.threads[t].pc.ch].buffer.None?)
    ensures Inv(Apply(s, Run(t, alt)))
  {
    var s' := Apply(s, Run(t, alt));
    assert ThreadInv(s, t) && PcInv(s, t);
    if s'.threads[t] == s.threads[t] { IdleKeepsInv(s); } else { StepKeepsInv(s, s', t); }
  }

  lemma SendKeepsInv(s: State, t: nat, alt: bool)
    requires Inv(s) && t < |s.threads| && s.threads[t].pc.Sending?
    ensures Inv(Apply(s, Run(t, alt)))
  {
    var s' := Apply(s, Run(t, alt));
    assert ThreadInv(s, t);
    assert PcInv(s, t) && ChannelInv(s, s.threads[t].pc.ch);
    StepKeepsInv(s, s', t);
  }

  lemma CloseKeepsInv(s: State, t: nat, alt: bool)
    requires Inv(s) && t < |s.threads| && s.threads[t].pc.Closing?
    ensures Inv(Apply(s, Run(t, alt)))
  {
    var s' := Apply(s, Run(t, alt));
    assert ThreadInv(s, t);
    assert PcInv(s, t) && ChannelInv(s, s.threads[t].pc.ch);
    StepKeepsInv(s, s', t);
  }

  lemma ApplyKeepsInv(s: State, a: Action)
    requires Inv(s)
    ensures Inv(Apply(s, a))
  {
    match a
    case Spawn(role) => SpawnKeepsInv(s, role);
    case Run(t, alt) =>
      if t >= |s.threads| {
        IdleKeepsInv(s);
      } else {
        assert ThreadInv(s, t) && PcInv(s, t);
        match s.threads[t].pc
        case Start =>
          match s.threads[t].role {
            case Registrar(_) => RegisterKeepsInv(s, t, alt);
            case Forwarder(_, _) => RegisterKeepsInv(s, t, alt);
            case Completer(_, _) => CompleteKeepsInv(s, t, alt);
            case Canceller(_) => CancelKeepsInv(s, t, alt);
            case Waiter(_) => ForwardKeepsInv(s, t, alt);
          }
        case Forwarding(_) => ForwardKeepsInv(s, t, alt);
        case Receiving(c) =>
          if !alt && s.channels[c].buffer.Some? { ReceiveBodyKeepsInv(s, t); } else { ReceiveNothingKeepsInv(s, t, alt); }
        case Removing(_, _) =>
          if s.threads[t].role.id in s.pending { HandlerCancelFoundKeepsInv(s, t, alt); }
          else { HandlerCancelAbsentKeepsInv(s, t, alt); }
        case Sending(_) => SendKeepsInv(s, t, alt);
        case Closing(_, _) => CloseKeepsInv(s, t, alt);
        case Returned(_) => IdleKeepsInv(s);
      }
  }

  lemma {:induction false} ExecKeepsInv(s: State, run: seq<Action>)
    requires Inv(s)
    ensures Inv(Exec(s, run))
    decreases |run|
  {
    if run != [] {
      ApplyKeepsInv(s, run[0]);
      ExecKeepsInv(Apply(s, run[0]), run[1..]);
    }
  }
}
