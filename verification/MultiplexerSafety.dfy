/** What the ownership invariant gives over every run of the multiplexer and of the forward handler. */
module MultiplexerSafety {
  import opened Counting
  import opened Text
  import opened Multiplexer

  lemma InitInv()
    ensures Inv(INIT)
  {}

  lemma ReachableInv(run: seq<Action>)
    ensures Inv(Exec(INIT, run))
  {
    InitInv();
    ExecKeepsInv(INIT, run);
  }

  predicate Removed(ch: Channel) {
    ch.settlement.Completed? || ch.settlement.Cancelled?
  }

  ghost predicate Owns(s: State, t: nat, c: nat) {
    t < |s.threads| && Owned(s.threads[t]) == Some(c)
  }

  /**
   * In every interleaving no channel is closed twice, nothing is sent on a closed channel and the send
   * never finds the buffer full. A channel removed from `pending` has exactly one owner until it is closed,
   * and only such channels have owners.
   */
  lemma NoPanicInAnyInterleaving(run: seq<Action>)
    ensures Exec(INIT, run).faults == {}
    ensures var s := Exec(INIT, run);
            forall c: nat :: c < |s.channels| ==>
              ((exists t: nat :: Owns(s, t, c)) <==> (Removed(s.channels[c]) && !s.channels[c].closed))
    ensures var s := Exec(INIT, run);
            forall t: nat, u: nat, c: nat :: Owns(s, t, c) && Owns(s, u, c) ==> t == u
    ensures var s := Exec(INIT, run);
            forall id, t: nat :: id in s.pending ==> !Owns(s, t, s.pending[id])
  {
    var s := Exec(INIT, run);
    ReachableInv(run);
    forall c: nat | c < |s.channels|
      ensures (exists t: nat :: Owns(s, t, c)) <==> (Removed(s.channels[c]) && !s.channels[c].closed)
    {
      assert ChannelInv(s, c);
      if Removed(s.channels[c]) && !s.channels[c].closed { assert Owns(s, s.channels[c].settlement.thread, c); }
      forall t: nat | Owns(s, t, c) ensures Removed(s.channels[c]) && !s.channels[c].closed { assert ThreadInv(s, t); }
    }
    forall t: nat, u: nat, c: nat | Owns(s, t, c) && Owns(s, u, c) ensures t == u {
      assert ThreadInv(s, t) && ThreadInv(s, u);
    }
    forall id, t: nat | id in s.pending ensures !Owns(s, t, s.pending[id]) {
      if t < |s.threads| { assert ThreadInv(s, t); }
    }
  }

  /** The body a goroutine got for channel `c`: from Wait, or as the 200 answer of a forwarded request. */
  function BodyOf(th: Thread): Option<(nat, Body)> {
    match th.pc
    case Returned(Received(c, body)) => Some((c, body))
    case Returned(Http(c, 200, Some(body))) => Some((c, body))
    case _ => None
  }

  /**
   * A received body was passed to a Complete call under the id the channel was registered with, and that
   * call removed the entry in a later step than the registration; the call has answered or will answer true.
   */
  lemma ReceivedBodyWasCompleted(run: seq<Action>, t: nat)
    requires t < |Exec(INIT, run).threads| && BodyOf(Exec(INIT, run).threads[t]).Some?
    ensures var s := Exec(INIT, run);
            var (c, body) := BodyOf(s.threads[t]).value;
            && c < |s.channels| && s.channels[c].settlement.Completed?
            && s.channels[c].born < s.channels[c].settlement.at
            && s.channels[c].settlement.thread < |s.threads|
            && var caller := s.threads[s.channels[c].settlement.thread];
            && caller.role == Completer(s.channels[c].id, body)
            && (caller.pc == Returned(Settled(c)) || Owned(caller) == Some(c))
            && (s.threads[t].role.Forwarder? ==> s.channels[c].id == s.threads[t].role.id)
  {
    var s := Exec(INIT, run);
    ReachableInv(run);
    var (c, body) := BodyOf(s.threads[t]).value;
    assert ThreadInv(s, t);
    assert ChannelInv(s, c);
  }

  /******* Each registration is settled at most once *******/

  lemma ApplyEvolves(s: State, a: Action)
    requires Inv(s)
    ensures var s' := Apply(s, a); |s.channels| <= |s'.channels|
    ensures var s' := Apply(s, a); forall c :: 0 <= c < |s.channels| ==> Evolves(s.channels[c], s'.channels[c])
  {
    if a.Run? && a.thread < |s.threads| { assert ThreadInv(s, a.thread) && PcInv(s, a.thread); }
  }

  lemma {:induction false} ExecEvolves(s: State, run: seq<Action>)
    requires Inv(s)
    ensures |s.channels| <= |Exec(s, run).channels|
    ensures forall c :: 0 <= c < |s.channels| ==> Evolves(s.channels[c], Exec(s, run).channels[c])
    decreases |run|
  {
    if run != [] {
      var s' := Apply(s, run[0]);
      ApplyEvolves(s, run[0]);
      ApplyKeepsInv(s, run[0]);
      ExecEvolves(s', run[1..]);
      forall c | 0 <= c < |s.channels| ensures Evolves(s.channels[c], Exec(s, run).channels[c]) {
        assert Evolves(s.channels[c], s'.channels[c]);
      }
    }
  }

  lemma {:induction false} ExecConcat(s: State, run: seq<Action>, more: seq<Action>)
    ensures Exec(s, run + more) == Exec(Exec(s, run), more)
    decreases |run|
  {
    if run == [] {
      assert run + more == more;
    } else {
      assert (run + more)[1..] == run[1..] + more;
      ExecConcat(Apply(s, run[0]), run[1..], more);
    }
  }

  /** A goroutine whose Complete or Cancel call removed registration `c`. */
  predicate HasSettled(s: State, t: nat, c: nat) {
    t < |s.threads| && (Owned(s.threads[t]) == Some(c) || s.threads[t].pc == Returned(Settled(c)))
  }

  /**
   * However a run goes on, the settlement of a registration never changes, and the only goroutine that
   * can ever claim it is the one recorded: one Complete that answers true, or one Cancel, never both.
   */
  lemma SettledAtMostOnce(run: seq<Action>, more: seq<Action>, c: nat, t: nat)
    requires c < |Exec(INIT, run).channels| && Removed(Exec(INIT, run).channels[c])
    ensures c < |Exec(INIT, run + more).channels|
    ensures Exec(INIT, run + more).channels[c].settlement == Exec(INIT, run).channels[c].settlement
    ensures HasSettled(Exec(INIT, run + more), t, c) ==>
              && t == Exec(INIT, run).channels[c].settlement.thread
              && (Exec(INIT, run + more).threads[t].role.Completer? <==>
                    Exec(INIT, run).channels[c].settlement.Completed?)
  {
    var s, s' := Exec(INIT, run), Exec(INIT, run + more);
    ExecConcat(INIT, run, more);
    ReachableInv(run);
    ReachableInv(run + more);
    ExecEvolves(s, more);
    assert Evolves(s.channels[c], s'.channels[c]);
    assert ChannelInv(s', c);
    if HasSettled(s', t, c) { assert ThreadInv(s', t) && PcInv(s', t); }
  }

  /******* Conservation of registrations *******/

  const IS_PENDING := (ch: Channel) => ch.settlement.Pending?
  const IS_REPLACED := (ch: Channel) => ch.settlement.Replaced?
  const IS_COMPLETED := (ch: Channel) => ch.settlement.Completed?
  const IS_CANCELLED := (ch: Channel) => ch.settlement.Cancelled?

  lemma {:induction false} FatesPartition(channels: seq<Channel>)
    ensures |channels| == Count(channels, IS_PENDING) + Count(channels, IS_REPLACED)
                          + Count(channels, IS_COMPLETED) + Count(channels, IS_CANCELLED)
  {
    if channels != [] { FatesPartition(channels[..|channels| - 1]); }
  }

  ghost function PendingIds(channels: seq<Channel>): set<string> {
    set ch <- channels | ch.settlement.Pending? :: ch.id
  }

  lemma PendingIdsAppend(channels: seq<Channel>, ch: Channel)
    ensures PendingIds(channels + [ch]) == PendingIds(channels) + if ch.settlement.Pending? then {ch.id} else {}
  {
    assert forall x :: x in channels + [ch] <==> x in channels || x == ch;
  }

  lemma {:induction false} PendingIdsCount(channels: seq<Channel>)
    requires forall c, d :: 0 <= c < d < |channels| && channels[c].settlement.Pending? && channels[d].settlement.Pending?
                            ==> channels[c].id != channels[d].id
    ensures |PendingIds(channels)| == Count(channels, IS_PENDING)
  {
    if channels != [] {
      var n := |channels| - 1;
      PendingIdsCount(channels[..n]);
      PendingIdsAppend(channels[..n], channels[n]);
      assert channels == channels[..n] + [channels[n]];
      if channels[n].settlement.Pending? { assert channels[n].id !in PendingIds(channels[..n]); }
    }
  }

  /** Whatever ids are used: registrations = pending + completed + cancelled + overwritten by a duplicate. */
  lemma RegistrationsAreConserved(run: seq<Action>)
    ensures var s := Exec(INIT, run);
            |s.channels| == |s.pending| + Count(s.channels, IS_COMPLETED) + Count(s.channels, IS_CANCELLED)
                            + Count(s.channels, IS_REPLACED)
  {
    var s := Exec(INIT, run);
    ReachableInv(run);
    FatesPartition(s.channels);
    PendingIdsCount(s.channels);
    assert s.pending.Keys == PendingIds(s.channels) by {
      forall id | id in s.pending ensures id in PendingIds(s.channels) { assert s.channels[s.pending[id]] in s.channels; }
    }
  }

  /******* The forward handler with fresh request ids *******/

  /** uuid.NewString never repeats: a forwarded request brings an id no earlier one had. */
  ghost predicate FreshSpawn(s: State, role: Role) {
    role.Completer? ||
    (role.Forwarder? && forall t :: 0 <= t < |s.threads| && s.threads[t].role.Forwarder? ==> s.threads[t].role.id != role.id)
  }

  /** Only handlers and inbound responses run, and request ids are fresh. Responses may carry any id. */
  ghost predicate FreshRun(s: State, run: seq<Action>)
    decreases |run|
  {
    run != [] ==>
      && (run[0].Spawn? ==> FreshSpawn(s, run[0].role))
      && FreshRun(Apply(s, run[0]), run[1..])
  }

  ghost predicate FreshInv(s: State) {
    && (forall t :: 0 <= t < |s.threads| ==> s.threads[t].role.Completer? || s.threads[t].role.Forwarder?)
    && (forall t, u :: 0 <= t < u < |s.threads| && s.threads[t].role.Forwarder? && s.threads[u].role.Forwarder?
                       ==> s.threads[t].role.id != s.threads[u].role.id)
    && (forall c :: 0 <= c < |s.channels| ==> !s.channels[c].settlement.Replaced?)
  }

  /** With fresh ids, an entry under a handler's id is the one that handler made. */
  lemma EntryHandler(s: State, id: string)
    requires Inv(s) && FreshInv(s) && id in s.pending
    ensures var t := s.channels[s.pending[id]].registrant;
            && t < |s.threads| && s.threads[t].role.Forwarder? && s.threads[t].role.id == id
            && Own(s.threads[t]) == Some(s.pending[id])
  {
    assert ChannelInv(s, s.pending[id]);
    assert ThreadInv(s, s.channels[s.pending[id]].registrant);
  }

  lemma RunKeepsRoles(s: State, t: nat, alt: bool)
    requires t < |s.threads|
    ensures var s' := Apply(s, Run(t, alt)); |s'.threads| == |s.threads|
    ensures var s' := Apply(s, Run(t, alt)); forall u :: 0 <= u < |s.threads| ==> s'.threads[u].role == s.threads[u].role
  {}

  /** A step replaces an entry only by registering an id that is pending. */
  lemma RunReplacesNothing(s: State, t: nat, alt: bool)
    requires t < |s.threads|
    requires var th := s.threads[t]; th.pc.Start? && (th.role.Registrar? || th.role.Forwarder?) ==> th.role.id !in s.pending
    requires forall c :: 0 <= c < |s.channels| ==> !s.channels[c].settlement.Replaced?
    ensures var s' := Apply(s, Run(t, alt)); forall c :: 0 <= c < |s'.channels| ==> !s'.channels[c].settlement.Replaced?
  {}

  lemma ApplyKeepsFreshInv(s: State, a: Action)
    requires Inv(s) && FreshInv(s) && (a.Spawn? ==> FreshSpawn(s, a.role))
    ensures FreshInv(Apply(s, a))
  {
    if a.Run? && a.thread < |s.threads| {
      var th := s.threads[a.thread];
      RunKeepsRoles(s, a.thread, a.alt);
      if th.pc.Start? && th.role.Forwarder? && th.role.id in s.pending { EntryHandler(s, th.role.id); }
      RunReplacesNothing(s, a.thread, a.alt);
    }
  }

  lemma {:induction false} ExecKeepsFreshInv(s: State, run: seq<Action>)
    requires Inv(s) && FreshInv(s) && FreshRun(s, run)
    ensures Inv(Exec(s, run)) && FreshInv(Exec(s, run))
    decreases |run|
  {
    if run != [] {
      ApplyKeepsInv(s, run[0]);
      assert run[0].Spawn? ==> FreshSpawn(s, run[0].role);
      ApplyKeepsFreshInv(s, run[0]);
      ExecKeepsFreshInv(Apply(s, run[0]), run[1..]);
    }
  }

  /** A handler that may still have an entry: it has not returned, or it answered 202 to an async request. */
  predicate MayBePending(th: Thread) {
    th.role.Forwarder? && (!th.pc.Returned? || (th.role.async && th.pc.answer.Http? && th.pc.answer.status == 202))
  }

  predicate Answered(th: Thread) {
    && th.role.Forwarder? && th.pc.Returned? && th.pc.answer.Http?
    && th.pc.answer.status in (if th.role.async then {202, 502} else {200, 502, 504})
  }

  lemma ReturnedHandler(s: State, t: nat)
    requires Inv(s) && FreshInv(s)
    requires t < |s.threads| && s.threads[t].role.Forwarder? && s.threads[t].pc.Returned?
    ensures Answered(s.threads[t])
    ensures s.threads[t].pc.answer.status != 202 ==> s.threads[t].role.id !in s.pending
  {
    assert ThreadInv(s, t) && PcInv(s, t);
    if s.threads[t].role.id in s.pending { EntryHandler(s, s.threads[t].role.id); }
  }

  lemma EntryMayBePending(s: State, id: string)
    requires Inv(s) && FreshInv(s) && id in s.pending
    ensures var t := s.channels[s.pending[id]].registrant;
            t < |s.threads| && MayBePending(s.threads[t]) && s.threads[t].role.id == id
  {
    EntryHandler(s, id);
    var t := s.channels[s.pending[id]].registrant;
    if s.threads[t].pc.Returned? { ReturnedHandler(s, t); }
  }

  /**
   * Over every run of handleMCPForward against inbound responses: an entry belongs to a handler that has
   * not returned or to an unanswered async request; a handler that answered 200, 502 or 504 has left no
   * entry behind; registered = pending + completed + cancelled.
   */
  lemma ForwardLeavesNothingBehind(run: seq<Action>)
    requires FreshRun(INIT, run)
    ensures var s := Exec(INIT, run);
            forall id :: id in s.pending ==>
              exists t :: 0 <= t < |s.threads| && MayBePending(s.threads[t]) && s.threads[t].role.id == id
    ensures var s := Exec(INIT, run);
            forall t :: 0 <= t < |s.threads| && s.threads[t].role.Forwarder? && s.threads[t].pc.Returned? ==>
              && Answered(s.threads[t])
              && (s.threads[t].pc.answer.status != 202 ==> s.threads[t].role.id !in s.pending)
    ensures var s := Exec(INIT, run);
            |s.channels| == |s.pending| + Count(s.channels, IS_COMPLETED) + Count(s.channels, IS_CANCELLED)
  {
    var s := Exec(INIT, run);
    InitInv();
    ExecKeepsFreshInv(INIT, run);
    RegistrationsAreConserved(run);
    CountZero(s.channels, IS_REPLACED);
    forall id | id in s.pending
      ensures exists t :: 0 <= t < |s.threads| && MayBePending(s.threads[t]) && s.threads[t].role.id == id
    {
      EntryMayBePending(s, id);
    }
    forall t | 0 <= t < |s.threads| && s.threads[t].role.Forwarder? && s.threads[t].pc.Returned?
      ensures && Answered(s.threads[t])
              && (s.threads[t].pc.answer.status != 202 ==> s.threads[t].role.id !in s.pending)
    {
      ReturnedHandler(s, t);
    }
  }

  /******* What does not hold *******/

  lemma ExecAt(s: State, run: seq<Action>, k: nat)
    requires k < |run|
    ensures Exec(s, run[k..]) == Exec(Apply(s, run[k]), run[k + 1..])
    ensures FreshRun(s, run[k..]) <==>
              (run[k].Spawn? ==> FreshSpawn(s, run[k].role)) && FreshRun(Apply(s, run[k]), run[k + 1..])
  {
    assert run[k..][1..] == run[k + 1..];
  }

  const LOST_RUN: seq<Action> :=
    [Spawn(Forwarder("r", false)), Run(0, false), Run(0, false),
     Spawn(Completer("r", "body")), Run(1, false), Run(1, false), Run(1, false),
     Run(0, true), Run(0, false)]

  const LOST_WAITING := State(map["r" := 0], [Channel("r", 0, 1, None, false, Pending)],
                             [Thread(Forwarder("r", false), Receiving(0))], 3, {})

  const LOST_BUFFERED := State(map[], [Channel("r", 0, 1, Some("body"), true, Completed(1, "body", 4))],
                              [Thread(Forwarder("r", false), Receiving(0)),
                               Thread(Completer("r", "body"), Returned(Settled(0)))], 7, {})

  const LOST_REGISTERED := State(map["r" := 0], [Channel("r", 0, 1, None, false, Pending)],
                                [Thread(Forwarder("r", false), Forwarding(0))], 2, {})

  lemma LostBegins()
    ensures Exec(INIT, LOST_RUN) == Exec(LOST_REGISTERED, LOST_RUN[2..])
    ensures FreshRun(INIT, LOST_RUN) <==> FreshRun(LOST_REGISTERED, LOST_RUN[2..])
  {
    assert LOST_RUN[0..] == LOST_RUN;
    ExecAt(INIT, LOST_RUN, 0);
    var s1 := Apply(INIT, LOST_RUN[0]);
    ExecAt(s1, LOST_RUN, 1);
    assert Apply(s1, LOST_RUN[1]) == LOST_REGISTERED;
  }

  lemma LostWaits()
    ensures Exec(LOST_REGISTERED, LOST_RUN[2..]) == Exec(LOST_WAITING, LOST_RUN[3..])
    ensures FreshRun(LOST_REGISTERED, LOST_RUN[2..]) <==> FreshRun(LOST_WAITING, LOST_RUN[3..])
  {
    ExecAt(LOST_REGISTERED, LOST_RUN, 2);
    assert Apply(LOST_REGISTERED, LOST_RUN[2]) == LOST_WAITING;
  }

  lemma LostContinues()
    ensures Exec(LOST_WAITING, LOST_RUN[3..]) == Exec(LOST_BUFFERED, LOST_RUN[7..])
    ensures FreshRun(LOST_WAITING, LOST_RUN[3..]) <==> FreshRun(LOST_BUFFERED, LOST_RUN[7..])
  {
    ExecAt(LOST_WAITING, LOST_RUN, 3);
    var s4 := Apply(LOST_WAITING, LOST_RUN[3]);
    ExecAt(s4, LOST_RUN, 4);
    var s5 := Apply(s4, LOST_RUN[4]);
    assert s5.pending == map[];
    ExecAt(s5, LOST_RUN, 5);
    var s6 := Apply(s5, LOST_RUN[5]);
    ExecAt(s6, LOST_RUN, 6);
    assert Apply(s6, LOST_RUN[6]) == LOST_BUFFERED;
  }

  const LOST_ANSWERED := State(map[], [Channel("r", 0, 1, Some("body"), true, Completed(1, "body", 4))],
                              [Thread(Forwarder("r", false), Returned(Http(0, 504, None))),
                               Thread(Completer("r", "body"), Returned(Settled(0)))], 9, {})

  lemma LostEnds()
    ensures Exec(LOST_BUFFERED, LOST_RUN[7..]) == LOST_ANSWERED
    ensures FreshRun(LOST_BUFFERED, LOST_RUN[7..])
  {
    ExecAt(LOST_BUFFERED, LOST_RUN, 7);
    var s8 := Apply(LOST_BUFFERED, LOST_RUN[7]);
    ExecAt(s8, LOST_RUN, 8);
    assert LOST_RUN[9..] == [];
  }

  /**
   * Complete answering true does not mean that the handler answers 200: Wait may take the timeout although
   * the body is buffered. In this run the response is accepted, and the request still ends with 504.
   */
  lemma AcceptedResponseCanBeLost()
    ensures FreshRun(INIT, LOST_RUN)
    ensures var s := Exec(INIT, LOST_RUN);
            && |s.threads| == 2
            && s.threads[1] == Thread(Completer("r", "body"), Returned(Settled(0)))
            && s.threads[0] == Thread(Forwarder("r", false), Returned(Http(0, 504, None)))
  {
    LostBegins();
    LostWaits();
    LostContinues();
    LostEnds();
  }
}
