/**
 * Connecting and disconnecting (relay/server.go handleMCPConnect and handleHarnessConnect): a session
 * registers under its id, and its deferred cleanup unregisters by id, whichever session holds the id then.
 */
module Sessions {

  datatype Session = Session(id: string, live: bool)

  /** `table` maps an id to the number of the session registered under it. */
  datatype State = State(sessions: seq<Session>, table: map<string, nat>)

  /** Evict is the heartbeat sweep: it drops the entry and leaves the socket open. */
  datatype Event = Connect(id: string) | Close(session: nat) | Evict(id: string)

  const INIT := State([], map[])

  function Apply(s: State, e: Event): State {
    match e
    case Connect(id) => State(s.sessions + [Session(id, true)], s.table[id := |s.sessions|])
    case Close(n) =>
      if n < |s.sessions| && s.sessions[n].live
      then State(s.sessions[n := s.sessions[n].(live := false)], s.table - {s.sessions[n].id})
      else s
    case Evict(id) => s.(table := s.table - {id})
  }

  /** The last session made under `id`. */
  predicate Newest(s: State, n: nat) {
    n < |s.sessions| && forall m :: n < m < |s.sessions| ==> s.sessions[m].id != s.sessions[n].id
  }

  /** An id is online exactly when the newest session made under it is live, and leads to that session. */
  ghost predicate Faithful(s: State) {
    && (forall id :: id in s.table ==> Newest(s, s.table[id]) && s.sessions[s.table[id]] == Session(id, true))
    && (forall n: nat :: Newest(s, n) && s.sessions[n].live ==> s.sessions[n].id in s.table && s.table[s.sessions[n].id] == n)
  }

  /** No live session is swept, and a session that closes has not been superseded by one still live. */
  ghost predicate SparesLive(s: State, e: Event) {
    && (e.Evict? ==> e.id !in s.table)
    && (e.Close? && e.session < |s.sessions| && s.sessions[e.session].live ==>
      forall m: nat :: e.session < m && Newest(s, m) && s.sessions[m].id == s.sessions[e.session].id ==> !s.sessions[m].live)
  }

  lemma {:induction false} NewestExists(s: State, n: nat) returns (m: nat)
    requires n < |s.sessions|
    ensures n <= m && Newest(s, m) && s.sessions[m].id == s.sessions[n].id
    decreases |s.sessions| - n
  {
    if Newest(s, n) {
      m := n;
    } else {
      var k :| n < k < |s.sessions| && s.sessions[k].id == s.sessions[n].id;
      m := NewestExists(s, k);
    }
  }

  lemma ConnectKeepsFaithful(s: State, id: string)
    requires Faithful(s)
    ensures Faithful(Apply(s, Connect(id)))
  {
    var s' := Apply(s, Connect(id));
    assert Newest(s', |s.sessions|);
    forall other | other in s'.table ensures Newest(s', s'.table[other]) && s'.sessions[s'.table[other]] == Session(other, true) {
      if other != id { assert Newest(s, s.table[other]); }
    }
    forall n: nat | Newest(s', n) && s'.sessions[n].live ensures s'.sessions[n].id in s'.table && s'.table[s'.sessions[n].id] == n {
      if n < |s.sessions| {
        assert s'.sessions[|s.sessions|].id != s'.sessions[n].id;
        forall m | n < m < |s.sessions| ensures s.sessions[m].id != s.sessions[n].id { assert s'.sessions[m] == s.sessions[m]; }
        assert Newest(s, n);
      }
    }
  }

  lemma CloseFaithfulIff(s: State, n: nat)
    requires Faithful(s)
    ensures Faithful(Apply(s, Close(n))) <==> SparesLive(s, Close(n))
  {
    var s' := Apply(s, Close(n));
    if n < |s.sessions| && s.sessions[n].live {
      var id := s.sessions[n].id;
      assert forall m: nat :: Newest(s', m) <==> Newest(s, m) by {
        assert forall m :: 0 <= m < |s.sessions| ==> s'.sessions[m].id == s.sessions[m].id;
      }
      var m := NewestExists(s, n);
      if m != n && s.sessions[m].live {
        assert Newest(s', m) && s'.sessions[m].live && id !in s'.table;
        assert !SparesLive(s, Close(n));
      } else {
        forall k: nat | Newest(s, k) && s.sessions[k].id == id ensures k == m {}
        forall k: nat | Newest(s', k) && s'.sessions[k].live ensures s'.sessions[k].id in s'.table && s'.table[s'.sessions[k].id] == k {
          assert Newest(s, k);
        }
      }
    }
  }

  lemma EvictFaithfulIff(s: State, id: string)
    requires Faithful(s)
    ensures Faithful(Apply(s, Evict(id))) <==> SparesLive(s, Evict(id))
  {
    var s' := Apply(s, Evict(id));
    assert forall n: nat :: Newest(s', n) <==> Newest(s, n);
    if id in s.table { assert Newest(s', s.table[id]); } else { assert s'.table == s.table; }
  }

  ghost predicate FaithfulThroughout(s: State, run: seq<Event>)
    decreases |run|
  {
    Faithful(s) && (run != [] ==> FaithfulThroughout(Apply(s, run[0]), run[1..]))
  }

  ghost predicate LiveSparedThroughout(s: State, run: seq<Event>)
    decreases |run|
  {
    run != [] ==> SparesLive(s, run[0]) && LiveSparedThroughout(Apply(s, run[0]), run[1..])
  }

  /**
   * Over every run: the table tells which ids have a live newest session if and only if no live one is
   * swept and no session closes after a live one took its id over: cleanup is by id, not by connection.
   */
  lemma {:induction false} FaithfulThroughoutIff(s: State, run: seq<Event>)
    requires Faithful(s)
    ensures FaithfulThroughout(s, run) <==> LiveSparedThroughout(s, run)
    decreases |run|
  {
    if run != [] {
      var s' := Apply(s, run[0]);
      match run[0]
      case Connect(id) =>
        ConnectKeepsFaithful(s, id);
        FaithfulThroughoutIff(s', run[1..]);
      case Close(n) =>
        CloseFaithfulIff(s, n);
        if SparesLive(s, run[0]) { FaithfulThroughoutIff(s', run[1..]); } else { assert !Faithful(s'); }
      case Evict(id) =>
        EvictFaithfulIff(s, id);
        if SparesLive(s, run[0]) { FaithfulThroughoutIff(s', run[1..]); } else { assert !Faithful(s'); }
    }
  }

  /** Whatever the state: reconnecting and then losing the old connection leaves the live one unregistered. */
  lemma LateCleanupRemovesReconnected(s: State, id: string)
    ensures var old1 := |s.sessions|;
            var s' := Apply(Apply(Apply(s, Connect(id)), Connect(id)), Close(old1));
            && s'.sessions[old1 + 1] == Session(id, true)
            && id !in s'.table
  {}
}
