/**
 * RequestMultiplexer as the object it is: a map of channels, updated in place. Each method runs its steps
 * in the order of relay/multiplexer.go; interleavings are the subject of the step machine in Multiplexer,
 * and the lemmas at the end show that a call which is not interleaved does there what the method does here.
 */
module RequestMultiplexerObject {
  import opened Text
  import M = Multiplexer

  type Body = M.Body

  /** A channel of capacity one. */
  class Channel {
    var buffer: Option<Body>
    var closed: bool

    constructor ()
      ensures buffer == None && !closed
    {
      buffer, closed := None, false;
    }
  }

  class RequestMultiplexer {
    var pending: map<string, Channel>

    /** Pending channels are open, empty and used for one id each. */
    ghost predicate Valid()
      reads this, pending.Values
    {
      && (forall id :: id in pending ==> !pending[id].closed && pending[id].buffer == None)
      && (forall a, b :: a in pending && b in pending && a != b ==> pending[a] != pending[b])
    }

    constructor ()
      ensures Valid() && pending == map[]
    {
      pending := map[];
    }

    method Register(id: string) returns (ch: Channel)
      requires Valid()
      modifies this
      ensures Valid() && fresh(ch)
      ensures pending == old(pending)[id := ch]
    {
      ch := new Channel();
      pending := pending[id := ch];
    }

    method Complete(id: string, body: Body) returns (ok: bool)
      requires Valid()
      modifies this, if id in pending then {pending[id]} else {}
      ensures Valid()
      ensures pending == old(pending) - {id}
      ensures ok <==> id in old(pending)
      ensures ok ==> old(pending[id]).buffer == Some(body) && old(pending[id]).closed
    {
      if id !in pending {
        assert pending == pending - {id};
        return false;
      }
      var ch := pending[id];
      pending := pending - {id};
      assert !ch.closed;  // a send on a closed channel panics
      if ch.buffer == None {
        ch.buffer := Some(body);
      }
      assert !ch.closed;  // so does a second close
      ch.closed := true;
      ok := true;
    }

    /**
     * `timeout`: the timer wins although the channel may be ready. On an open empty channel nothing else can: a call
     * that is not interleaved blocks until the timer fires.
     */
    method Wait(ch: Channel, timeout: bool) returns (body: Option<Body>)
      modifies ch
      ensures body == if timeout then None else old(ch.buffer)
      ensures ch.buffer == (if timeout then old(ch.buffer) else None) && ch.closed == old(ch.closed)
    {
      if timeout || (ch.buffer.None? && !ch.closed) {
        return None;
      }
      body := ch.buffer;
      ch.buffer := None;
    }

    method Cancel(id: string)
      requires Valid()
      modifies this, if id in pending then {pending[id]} else {}
      ensures Valid()
      ensures pending == old(pending) - {id}
      ensures id in old(pending) ==> old(pending[id]).buffer == None && old(pending[id]).closed
    {
      if id in pending {
        var ch := pending[id];
        pending := pending - {id};
        assert !ch.closed;
        ch.closed := true;
      } else {
        assert pending == pending - {id};
      }
    }
  }

  /** Complete without interleaving: entry gone, body buffered, channel closed, answer true iff it was there. */
  lemma UninterruptedComplete(s: M.State, id: string, body: Body)
    requires M.Inv(s)
    ensures var t := |s.threads|;
            var s' := M.Apply(M.Apply(M.Apply(M.Apply(s, M.Spawn(M.Completer(id, body))), M.Run(t, false)), M.Run(t, false)), M.Run(t, false));
            && s'.pending == s.pending - {id}
            && s'.threads[t].pc == M.Returned(if id in s.pending then M.Settled(s.pending[id]) else M.NotFound)
            && |s'.channels| == |s.channels|
            && (id in s.pending ==> s'.channels[s.pending[id]].buffer == Some(body) && s'.channels[s.pending[id]].closed)
            && (forall c :: 0 <= c < |s.channels| && (id in s.pending ==> c != s.pending[id]) ==> s'.channels[c] == s.channels[c])
  {
    var t := |s.threads|;
    var s1 := M.Apply(s, M.Spawn(M.Completer(id, body)));
    var s2 := M.Apply(s1, M.Run(t, false));
    if id in s.pending {
      assert M.ChannelInv(s, s.pending[id]);
      var s3 := M.Apply(s2, M.Run(t, false));
      assert s3.threads[t].pc == M.Closing(s.pending[id], M.Settled(s.pending[id]));
    } else {
      assert s2.threads[t].pc == M.Returned(M.NotFound);
    }
  }

  /** Cancel without interleaving: entry gone, channel closed and empty. */
  lemma UninterruptedCancel(s: M.State, id: string)
    requires M.Inv(s)
    ensures var t := |s.threads|;
            var s' := M.Apply(M.Apply(M.Apply(s, M.Spawn(M.Canceller(id))), M.Run(t, false)), M.Run(t, false));
            && s'.pending == s.pending - {id}
            && s'.threads[t].pc.Returned?
            && |s'.channels| == |s.channels|
            && (id in s.pending ==> s'.channels[s.pending[id]].buffer == None && s'.channels[s.pending[id]].closed)
            && (forall c :: 0 <= c < |s.channels| && (id in s.pending ==> c != s.pending[id]) ==> s'.channels[c] == s.channels[c])
  {
    var t := |s.threads|;
    var s2 := M.Apply(M.Apply(s, M.Spawn(M.Canceller(id))), M.Run(t, false));
    if id in s.pending {
      assert M.ChannelInv(s, s.pending[id]);
      assert s2.threads[t].pc == M.Closing(s.pending[id], M.Settled(s.pending[id]));
    } else {
      assert s2.threads[t].pc == M.Returned(M.NotFound);
    }
  }

  /** Register without interleaving: a new open empty channel under the id. */
  lemma UninterruptedRegister(s: M.State, id: string)
    requires M.Inv(s)
    ensures var t, c := |s.threads|, |s.channels|;
            var s' := M.Apply(M.Apply(s, M.Spawn(M.Registrar(id))), M.Run(t, false));
            && s'.pending == s.pending[id := c] && s'.threads[t].pc == M.Returned(M.Registered(c))
            && |s'.channels| == c + 1 && s'.channels[c].buffer == None && !s'.channels[c].closed
            && (forall d :: 0 <= d < c ==>
                  s'.channels[d].buffer == s.channels[d].buffer && s'.channels[d].closed == s.channels[d].closed)
  {
    var s1 := M.Apply(s, M.Spawn(M.Registrar(id)));
    assert s1.threads[|s.threads|] == M.Thread(M.Registrar(id), M.Start);
  }

  /** Wait without interleaving: the body that is there, nothing if the channel is closed or the timer wins, else no end. */
  lemma UninterruptedWait(s: M.State, ch: nat, timeout: bool)
    requires M.Inv(s) && ch < |s.channels|
    ensures var t, before := |s.threads|, s.channels[ch];
            var s' := M.Apply(M.Apply(M.Apply(s, M.Spawn(M.Waiter(ch))), M.Run(t, false)), M.Run(t, timeout));
            && s'.pending == s.pending && |s'.channels| == |s.channels|
            && (s'.threads[t].pc == if timeout then M.Returned(M.NoBody(ch))
                                    else if before.buffer.Some? then M.Returned(M.Received(ch, before.buffer.value))
                                    else if before.closed then M.Returned(M.NoBody(ch)) else M.Receiving(ch))
            && s'.channels == s.channels[ch := if timeout then before else before.(buffer := None)]
  {
    var t := |s.threads|;
    var s2 := M.Apply(M.Apply(s, M.Spawn(M.Waiter(ch))), M.Run(t, false));
    assert s2.threads[t] == M.Thread(M.Waiter(ch), M.Receiving(ch)) && s2.channels == s.channels;
  }
}
