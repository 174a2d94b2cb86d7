/** Exactly when a forwarded request is answered with the response that came for it. */
module MultiplexerOutcome {
  import opened Text
  import opened Multiplexer
  import opened MultiplexerSafety

  /** The registration a handler still expects a response for. */
  function Expects(th: Thread): Option<nat> {
    match th.pc
    case Forwarding(c) => Some(c)
    case Receiving(c) => if th.role.Forwarder? then Some(c) else None
    case _ => None
  }

  /** Nobody else cancels it or takes its body: if it was completed, the body is there or about to be sent. */
  ghost predicate Expecting(s: State, c: nat) {
    && c < |s.channels| && !s.channels[c].settlement.Cancelled?
    && (s.channels[c].settlement.Completed? ==>
          || s.channels[c].buffer.Some?
          || (s.channels[c].settlement.thread < |s.threads| && s.threads[s.channels[c].settlement.thread].pc == Sending(c)))
  }

  ghost predicate ExpectingInv(s: State) {
    forall t: nat :: t < |s.threads| && Expects(s.threads[t]).Some? ==> Expecting(s, Expects(s.threads[t]).value)
  }

  /** A handler that expects a response owns the registration it expects it for. */
  lemma ExpectsOwn(s: State, t: nat)
    requires Inv(s) && t < |s.threads| && Expects(s.threads[t]).Some?
    ensures s.threads[t].role.Forwarder?
    ensures var c := Expects(s.threads[t]).value;
      && Own(s.threads[t]) == Some(c) && c < |s.channels|
      && s.channels[c].registrant == t && s.channels[c].id == s.threads[t].role.id
  {
    assert ThreadInv(s, t) && PcInv(s, t);
  }

  /** With fresh ids a handler cancels only its own registration. */
  lemma CancelsOwn(s: State, u: nat, t: nat)
    requires Inv(s) && FreshInv(s) && u < |s.threads| && t < |s.threads| && u != t
    requires s.threads[u].role.Forwarder? && Expects(s.threads[t]).Some?
    ensures s.threads[u].role.id in s.pending ==> s.pending[s.threads[u].role.id] != Expects(s.threads[t]).value
  {
    ExpectsOwn(s, t);
    if s.threads[u].role.id in s.pending { EntryHandler(s, s.threads[u].role.id); }
  }

  lemma BystanderSend(s: State, u: nat, alt: bool, c: nat)
    requires Inv(s) && u < |s.threads| && s.threads[u].pc.Sending? && Expecting(s, c)
    ensures Expecting(Apply(s, Run(u, alt)), c)
  {
    assert ThreadInv(s, u) && PcInv(s, u);
  }

  lemma BystanderReceive(s: State, u: nat, alt: bool, t: nat)
    requires Inv(s) && FreshInv(s) && u < |s.threads| && t < |s.threads| && u != t
    requires s.threads[u].pc.Receiving? && Expects(s.threads[t]).Some? && Expecting(s, Expects(s.threads[t]).value)
    ensures Expecting(Apply(s, Run(u, alt)), Expects(s.threads[t]).value)
  {
    assert ThreadInv(s, u) && PcInv(s, u);
    ExpectsOwn(s, t);
    ExpectsOwn(s, u);
  }

  lemma BystanderCancel(s: State, u: nat, alt: bool, t: nat)
    requires Inv(s) && FreshInv(s) && u < |s.threads| && t < |s.threads| && u != t
    requires s.threads[u].pc.Removing? && Expects(s.threads[t]).Some? && Expecting(s, Expects(s.threads[t]).value)
    ensures Expecting(Apply(s, Run(u, alt)), Expects(s.threads[t]).value)
  {
    assert ThreadInv(s, u) && PcInv(s, u);
    CancelsOwn(s, u, t);
  }

  lemma BystanderStart(s: State, u: nat, alt: bool, t: nat)
    requires Inv(s) && FreshInv(s) && u < |s.threads| && t < |s.threads| && u != t
    requires s.threads[u].pc.Start? && Expects(s.threads[t]).Some? && Expecting(s, Expects(s.threads[t]).value)
    ensures Expecting(Apply(s, Run(u, alt)), Expects(s.threads[t]).value)
  {
    ExpectsOwn(s, t);
    var c := Expects(s.threads[t]).value;
    assert ChannelInv(s, c);
  }

  lemma BystanderKeepsExpecting(s: State, u: nat, alt: bool, t: nat)
    requires Inv(s) && FreshInv(s) && ExpectingInv(s) && u < |s.threads| && t < |s.threads| && u != t
    requires Expects(s.threads[t]).Some?
    ensures Expecting(Apply(s, Run(u, alt)), Expects(s.threads[t]).value)
  {
    var c := Expects(s.threads[t]).value;
    match s.threads[u].pc
    case Start => BystanderStart(s, u, alt, t);
    case Receiving(_) => BystanderReceive(s, u, alt, t);
    case Removing(_, _) => BystanderCancel(s, u, alt, t);
    case Sending(_) => BystanderSend(s, u, alt, c);
    case _ =>
  }

  lemma MoverKeepsExpecting(s: State, t: nat, alt: bool)
    requires Inv(s) && FreshInv(s) && ExpectingInv(s) && t < |s.threads|
    ensures var s' := Apply(s, Run(t, alt)); Expects(s'.threads[t]).Some? ==> Expecting(s', Expects(s'.threads[t]).value)
  {
    assert ThreadInv(s, t) && PcInv(s, t);
  }

  lemma ApplyKeepsExpecting(s: State, a: Action)
    requires Inv(s) && FreshInv(s) && ExpectingInv(s)
    ensures ExpectingInv(Apply(s, a))
  {
    var s' := Apply(s, a);
    if a.Run? && a.thread < |s.threads| {
      MoverKeepsExpecting(s, a.thread, a.alt);
      forall t: nat | t < |s'.threads| && t != a.thread && Expects(s'.threads[t]).Some?
        ensures Expecting(s', Expects(s'.threads[t]).value)
      {
        assert s'.threads[t] == s.threads[t];
        BystanderKeepsExpecting(s, a.thread, a.alt, t);
      }
    } else {
      forall t: nat | t < |s'.threads| && Expects(s'.threads[t]).Some? ensures Expecting(s', Expects(s'.threads[t]).value) {
        assert t < |s.threads| && s'.threads[t] == s.threads[t];
      }
    }
  }

  /******* What decides the answer *******/

  /** What can befall a handler: its frame cannot be written, or is; its Wait takes the timer. */
  datatype Event = FrameFails | FrameSent | TimerWins

  /** The step is handler t's own, and has this outcome. */
  predicate Takes(s: State, a: Action, t: nat, e: Event) {
    t < |s.threads| &&
    match e
    case FrameFails => s.threads[t].pc.Forwarding? && a == Run(t, true)
    case FrameSent => s.threads[t].pc.Forwarding? && a == Run(t, false)
    case TimerWins => s.threads[t].pc.Receiving? && a == Run(t, true)
  }

  ghost predicate Happens(s: State, run: seq<Action>, t: nat, e: Event)
    decreases |run|
  {
    run != [] && (Takes(s, run[0], t, e) || Happens(Apply(s, run[0]), run[1..], t, e))
  }

  /** The status a handler has settled on, if it has. */
  function StatusOf(th: Thread): Option<int> {
    match th.pc
    case Removing(_, status) => Some(status)
    case Closing(_, Http(_, status, _)) => Some(status)
    case Returned(Http(_, status, _)) => Some(status)
    case _ => None
  }

  /** The handler is on its way to Wait, or in it. */
  predicate OnItsWay(th: Thread) {
    th.role.Forwarder? && (th.pc.Start? || th.pc.Forwarding? || th.pc.Receiving?)
  }

  predicate AnsweredWith(th: Thread, status: int) {
    th.pc.Returned? && th.pc.answer.Http? && th.pc.answer.status == status
  }

  predicate Synchronous(th: Thread) {
    th.role.Forwarder? && !th.role.async
  }

  /** A handler on its way stays so, or is answered with a body, unless one of the three befalls it. */
  lemma StepOnItsWay(s: State, a: Action, t: nat)
    requires Inv(s) && FreshInv(s) && ExpectingInv(s) && t < |s.threads| && OnItsWay(s.threads[t])
    ensures var th, th' := s.threads[t], Apply(s, a).threads[t];
      if Takes(s, a, t, FrameFails) then StatusOf(th') == Some(502)
      else if Takes(s, a, t, TimerWins) then StatusOf(th') == Some(504) && !th.role.async
      else if Takes(s, a, t, FrameSent) && th.role.async then StatusOf(th') == Some(202)
      else OnItsWay(th') || (StatusOf(th') == Some(200) && !th.role.async)
  {
    assert ThreadInv(s, t) && PcInv(s, t);
    if a == Run(t, false) && s.threads[t].pc.Receiving? {
      var c := s.threads[t].pc.ch;
      assert Expecting(s, c) && ChannelInv(s, c);
      if s.channels[c].settlement.Completed? { assert ThreadInv(s, s.channels[c].settlement.thread); }
    }
  }

  lemma StepSettled(s: State, a: Action, t: nat)
    requires Inv(s) && t < |s.threads| && StatusOf(s.threads[t]).Some?
    ensures StatusOf(Apply(s, a).threads[t]) == StatusOf(s.threads[t])
    ensures forall e :: !Takes(s, a, t, e)
  {
    assert ThreadInv(s, t) && PcInv(s, t);
  }

  lemma StepKeepsRole(s: State, a: Action, t: nat)
    requires t < |s.threads|
    ensures t < |Apply(s, a).threads| && Apply(s, a).threads[t].role == s.threads[t].role
  {}

  lemma {:induction false} ExecSettled(s: State, run: seq<Action>, t: nat)
    requires Inv(s) && t < |s.threads| && StatusOf(s.threads[t]).Some?
    ensures t < |Exec(s, run).threads| && StatusOf(Exec(s, run).threads[t]) == StatusOf(s.threads[t])
    ensures forall e :: !Happens(s, run, t, e)
    decreases |run|
  {
    if run != [] {
      StepKeepsRole(s, run[0], t);
      StepSettled(s, run[0], t);
      ApplyKeepsInv(s, run[0]);
      ExecSettled(Apply(s, run[0]), run[1..], t);
    }
  }

  /** After the run the handler is still on its way, or what befell it tells its status. */
  ghost predicate Tells(s: State, run: seq<Action>, t: nat, th: Thread)
    requires th.role.Forwarder?
  {
    && (Happens(s, run, t, FrameFails) <==> StatusOf(th) == Some(502))
    && (Happens(s, run, t, TimerWins) <==> StatusOf(th) == Some(504))
    && (th.role.async && Happens(s, run, t, FrameSent) <==> StatusOf(th) == Some(202))
    && (StatusOf(th) == Some(200) || StatusOf(th) == Some(504) ==> !th.role.async)
    && (OnItsWay(th) || StatusOf(th) in {Some(200), Some(202), Some(502), Some(504)})
  }

  lemma StepsOn(s: State, run: seq<Action>, t: nat, e: Event)
    requires run != []
    ensures Happens(s, run, t, e) <==> Takes(s, run[0], t, e) || Happens(Apply(s, run[0]), run[1..], t, e)
  {}

  lemma KeepsAll(s: State, a: Action)
    requires Inv(s) && FreshInv(s) && ExpectingInv(s) && (a.Spawn? ==> FreshSpawn(s, a.role))
    ensures var s' := Apply(s, a); Inv(s') && FreshInv(s') && ExpectingInv(s')
  {
    ApplyKeepsInv(s, a);
    ApplyKeepsFreshInv(s, a);
    ApplyKeepsExpecting(s, a);
  }

  lemma {:induction false} ExecTells(s: State, run: seq<Action>, t: nat)
    requires Inv(s) && FreshInv(s) && ExpectingInv(s) && FreshRun(s, run)
    requires t < |s.threads| && OnItsWay(s.threads[t])
    ensures t < |Exec(s, run).threads| && Exec(s, run).threads[t].role == s.threads[t].role
    ensures Tells(s, run, t, Exec(s, run).threads[t])
    decreases |run|
  {
    if run != [] {
      var a, s' := run[0], Apply(s, run[0]);
      StepKeepsRole(s, a, t);
      StepOnItsWay(s, a, t);
      KeepsAll(s, a);
      ExecKeepsRole(s', run[1..], t);
      forall e { StepsOn(s, run, t, e); }
      if OnItsWay(s'.threads[t]) {
        ExecTells(s', run[1..], t);
      } else {
        ExecSettled(s', run[1..], t);
      }
    }
  }

  /** Before the handler is spawned nothing befalls it. */
  lemma {:induction false} ExecBeforeSpawn(s: State, run: seq<Action>, t: nat)
    requires Inv(s) && FreshInv(s) && ExpectingInv(s) && FreshRun(s, run) && t >= |s.threads|
    requires t < |Exec(s, run).threads| && Exec(s, run).threads[t].role.Forwarder?
    ensures Tells(s, run, t, Exec(s, run).threads[t])
    decreases |run|
  {
    var a, s' := run[0], Apply(s, run[0]);
    KeepsAll(s, a);
    forall e { StepsOn(s, run, t, e); }
    if t < |s'.threads| {
      assert s'.threads[t].pc == Start;
      ExecKeepsRole(s', run[1..], t);
      ExecTells(s', run[1..], t);
    } else {
      ExecBeforeSpawn(s', run[1..], t);
    }
  }

  lemma {:induction false} ExecKeepsRole(s: State, run: seq<Action>, t: nat)
    requires t < |s.threads|
    ensures t < |Exec(s, run).threads| && Exec(s, run).threads[t].role == s.threads[t].role
    decreases |run|
  {
    if run != [] {
      StepKeepsRole(s, run[0], t);
      ExecKeepsRole(Apply(s, run[0]), run[1..], t);
    }
  }

  /**
   * Over every run with fresh ids, for every handler that has returned: it answered 502 if and only if its own frame
   * could not be written, 504 if and only if its own Wait took the timer, 202 if and only if it is asynchronous and its
   * frame was written, and 200 if and only if it is synchronous and neither failed. Nothing another goroutine does
   * changes its status.
   */
  lemma StatusIff(run: seq<Action>, t: nat)
    requires FreshRun(INIT, run)
    requires t < |Exec(INIT, run).threads|
    requires Exec(INIT, run).threads[t].role.Forwarder? && Exec(INIT, run).threads[t].pc.Returned?
    ensures var th := Exec(INIT, run).threads[t];
      && (AnsweredWith(th, 502) <==> Happens(INIT, run, t, FrameFails))
      && (AnsweredWith(th, 504) <==> !th.role.async && Happens(INIT, run, t, TimerWins))
      && (AnsweredWith(th, 202) <==> th.role.async && Happens(INIT, run, t, FrameSent))
      && (AnsweredWith(th, 200) <==> !th.role.async && !Happens(INIT, run, t, FrameFails) && !Happens(INIT, run, t, TimerWins))
  {
    InitInv();
    ExecBeforeSpawn(INIT, run, t);
  }

  /**
   * For the registration of a synchronous handler that some Complete call answered true for: the accepted body is what
   * the client gets if and only if the handler's own frame was written and its own Wait did not take the timer.
   */
  lemma AcceptedResponseReachesClientIff(run: seq<Action>, t: nat, u: nat, c: nat)
    requires FreshRun(INIT, run)
    requires t < |Exec(INIT, run).threads| && Synchronous(Exec(INIT, run).threads[t]) && Exec(INIT, run).threads[t].pc.Returned?
    requires Own(Exec(INIT, run).threads[t]) == Some(c)
    requires u < |Exec(INIT, run).threads| && Exec(INIT, run).threads[u].role.Completer?
    requires Exec(INIT, run).threads[u].pc == Returned(Settled(c))
    ensures Exec(INIT, run).threads[t].pc == Returned(Http(c, 200, Some(Exec(INIT, run).threads[u].role.body)))
            <==> !Happens(INIT, run, t, FrameFails) && !Happens(INIT, run, t, TimerWins)
  {
    var s := Exec(INIT, run);
    ReachableInv(run);
    StatusIff(run, t);
    assert ThreadInv(s, t) && PcInv(s, t) && ThreadInv(s, u) && PcInv(s, u) && ChannelInv(s, c);
  }
}
