/**
 * Hub and Conn of relay/hub.go and relay/heartbeat.go as objects updated in place. `View` is the abstract
 * state of module HubState; every method is proved to do to the view what the function of that module does.
 * The mutex makes each method one atomic step.
 */
module HubObject {
  import opened Text
  import opened HubState
  import opened Scheduling

  /** A live session. Send and Mux are not modelled here. */
  class Conn {
    var kind: string
    var instanceID: string
    var workerID: string
    var tenantID: string
    var userID: string
    var provider: string
    var tier: string
    var providers: seq<string>
    var maxConcurrent: int
    var activeJobs: int
    var lastSeen: int

    constructor (tenantID: string, userID: string, provider: string, tier: string)
      ensures View() == Worker(tenantID, userID, tier, provider, [], 0, 0, 0)
    {
      kind, instanceID, workerID := "", "", "";
      this.tenantID, this.userID, this.provider, this.tier := tenantID, userID, provider, tier;
      providers, maxConcurrent, activeJobs, lastSeen := [], 0, 0, 0;
    }

    /** The part of UpdateHarnessCapabilities that concerns the connection. */
    method SetCapabilities(tier: string, providers: seq<string>, maxConcurrent: int)
      modifies this`tier, this`providers, this`maxConcurrent
      ensures View() == WithCapabilities(old(View()), tier, providers, maxConcurrent)
      ensures View() == old(View()).(
                tier := ToLower(TrimSpace(tier)), providers := providers,
                maxConcurrent := if maxConcurrent > 0 then maxConcurrent
                                 else if old(this.maxConcurrent) > 0 then old(this.maxConcurrent) else 1)
    {
      this.tier := ToLower(TrimSpace(tier));
      this.providers := providers;
      if maxConcurrent > 0 {
        this.maxConcurrent := maxConcurrent;
      } else if this.maxConcurrent <= 0 {
        this.maxConcurrent := 1;
      }
    }

    function View(): Worker
      reads this
    {
      Worker(tenantID, userID, tier, provider, providers, maxConcurrent, activeJobs, lastSeen)
    }
  }

  class Hub {
    var mcp: map<string, Conn>
    var harness: map<string, Conn>
    var harnessByUser: map<string, string>

    /** A connection is registered under one id, its own, and on one side only. */
    ghost predicate Valid()
      reads this, harness.Values, mcp.Values
    {
      && (forall id :: id in harness ==> harness[id].workerID == id && harness[id].kind == "harness")
      && (forall id :: id in mcp ==> mcp[id].instanceID == id && mcp[id].kind == "mcp")
    }

    function Workers(): (m: map<string, Worker>)
      reads this`harness, harness.Values
      ensures m.Keys == harness.Keys
    {
      map id | id in harness :: harness[id].View()
    }

    function View(): State
      reads this`harness, this`harnessByUser, harness.Values
    {
      State(Workers(), harnessByUser)
    }

    /** When one registered connection changed, one element of the view did. */
    twostate lemma OneChanged(id: string)
      requires id in harness && harness.Keys == old(harness.Keys) + {id}
      requires forall other :: other in harness && other != id ==>
                 harness[other] == old(harness[other]) && harness[other].View() == old(harness[other].View())
      ensures Workers() == old(Workers())[id := harness[id].View()]
    {}

    constructor ()
      ensures Valid() && View() == EMPTY && mcp == map[]
    {
      mcp, harness, harnessByUser := map[], map[], map[];
    }

    /** What the connect handlers see to: the connection is not in use under another id or on the other side. */
    ghost predicate FreeForMCP(c: Conn?, instanceID: string)
      reads this
    {
      && (forall id :: id in harness ==> harness[id] != c)
      && (forall id :: id in mcp && mcp[id] == c ==> id == instanceID)
    }

    ghost predicate FreeForHarness(c: Conn?, workerID: string)
      reads this
    {
      && (forall id :: id in mcp ==> mcp[id] != c)
      && (forall id :: id in harness && harness[id] == c ==> id == workerID)
    }

    method RegisterMCP(instanceID: string, c: Conn?, now: int)
      requires Valid()
      modifies this`mcp, c
      ensures instanceID == "" || c == null ==> mcp == old(mcp) && Valid() && View() == old(View())
      ensures instanceID != "" && c != null ==>
                && mcp == old(mcp)[instanceID := c] && c.kind == "mcp" && c.instanceID == instanceID
                && c.View() == old(c.View()).(lastSeen := now) && c.workerID == old(c.workerID)
      ensures old(FreeForMCP(c, instanceID)) ==> Valid() && View() == old(View())
    {
      if instanceID == "" || c == null {
        return;
      }
      c.instanceID := instanceID;
      c.kind := "mcp";
      c.lastSeen := now;
      mcp := mcp[instanceID := c];
    }

    method IndexUser(c: Conn, workerID: string)
      modifies this`harnessByUser
      ensures harnessByUser ==
                if Indexable(c.View()) then old(harnessByUser)[KeyOf(c.View()) := workerID] else old(harnessByUser)
      ensures harnessByUser ==
                if c.tenantID != "" && c.userID != "" && EqualFold(c.tier, "heavy")
                then old(harnessByUser)[c.tenantID + "#" + c.userID := workerID] else old(harnessByUser)
    {
      if c.tenantID != "" && c.userID != "" && EqualFold(c.tier, "heavy") {
        harnessByUser := harnessByUser[c.tenantID + "#" + c.userID := workerID];
      }
    }

    method Insert(workerID: string, c: Conn, now: int)
      requires Valid()
      modifies this`harness, c`workerID, c`kind, c`lastSeen
      ensures c.kind == "harness" && c.workerID == workerID
      ensures harness == old(harness)[workerID := c] && c.View() == old(c.View()).(lastSeen := now)
      ensures old(FreeForHarness(c, workerID)) ==> Valid() && Workers() == old(Workers())[workerID := c.View()]
    {
      ghost var free := FreeForHarness(c, workerID);
      c.workerID := workerID;
      c.kind := "harness";
      c.lastSeen := now;
      harness := harness[workerID := c];
      if free { OneChanged(workerID); }
    }

    method RegisterHarness(workerID: string, c: Conn?, now: int)
      requires Valid()
      modifies this`harness, this`harnessByUser, c
      ensures workerID == "" || c == null ==> harness == old(harness) && Valid() && View() == old(View())
      ensures workerID != "" && c != null ==>
                && harness == old(harness)[workerID := c] && c.kind == "harness" && c.workerID == workerID
                && c.View() == old(c.View()).(lastSeen := now) && c.instanceID == old(c.instanceID)
                && harnessByUser ==
                   if c.tenantID != "" && c.userID != "" && EqualFold(c.tier, "heavy")
                   then old(harnessByUser)[c.tenantID + "#" + c.userID := workerID] else old(harnessByUser)
      ensures c != null && old(FreeForHarness(c, workerID)) ==>
                Valid() && View() == Register(old(View()), workerID, old(c.View()).(lastSeen := now))
    {
      if workerID == "" || c == null {
        return;
      }
      Insert(workerID, c, now);
      IndexUser(c, workerID);
    }

    method UpdateHarnessCapabilities(workerID: string, tier: string, providers: seq<string>, maxConcurrent: int)
      requires Valid()
      modifies this`harnessByUser, if workerID in harness then {harness[workerID]} else {}
      ensures Valid()
      ensures View() == UpdateCapabilities(old(View()), workerID, tier, providers, maxConcurrent)
      ensures workerID !in harness ==> harnessByUser == old(harnessByUser)
      ensures workerID in harness ==>
                var c := harness[workerID];
                && c.View() == old(c.View()).(
                     tier := ToLower(TrimSpace(tier)), providers := providers,
                     maxConcurrent := if maxConcurrent > 0 then maxConcurrent
                                      else if old(c.maxConcurrent) > 0 then old(c.maxConcurrent) else 1)
                && harnessByUser ==
                   if c.tenantID != "" && c.userID != "" && EqualFold(c.tier, "heavy")
                   then old(harnessByUser)[c.tenantID + "#" + c.userID := workerID] else old(harnessByUser)
    {
      if workerID !in harness {
        return;
      }
      var c := harness[workerID];
      Refresh(workerID, tier, providers, maxConcurrent);
      Reindex(c, workerID, old(View()));
    }

    /** The changed worker is indexed. */
    method Reindex(c: Conn, workerID: string, ghost s: State)
      requires Valid() && workerID in harness && harness[workerID] == c
      requires Workers() == s.harness[workerID := c.View()] && harnessByUser == s.byUser
      modifies this`harnessByUser
      ensures Valid() && View() == Indexed(s, workerID, c.View()) && c.View() == old(c.View())
      ensures harnessByUser ==
                if c.tenantID != "" && c.userID != "" && EqualFold(c.tier, "heavy")
                then old(harnessByUser)[c.tenantID + "#" + c.userID := workerID] else old(harnessByUser)
    {
      IndexUser(c, workerID);
    }

    method Refresh(workerID: string, tier: string, providers: seq<string>, maxConcurrent: int)
      requires Valid() && workerID in harness
      modifies harness[workerID]
      ensures Valid()
      ensures var c := harness[workerID];
        c.View() == old(c.View()).(
          tier := ToLower(TrimSpace(tier)), providers := providers,
          maxConcurrent := if maxConcurrent > 0 then maxConcurrent
                           else if old(c.maxConcurrent) > 0 then old(c.maxConcurrent) else 1)
      ensures harness[workerID].View() == WithCapabilities(old(View()).harness[workerID], tier, providers, maxConcurrent)
      ensures Workers() == old(View()).harness[workerID := harness[workerID].View()]
    {
      harness[workerID].SetCapabilities(tier, providers, maxConcurrent);
      OneChanged(workerID);
    }

    method IncHarnessActiveJobs(workerID: string, delta: int)
      requires Valid()
      modifies if workerID in harness then {harness[workerID]} else {}
      ensures Valid()
      ensures View() == IncActiveJobs(old(View()), workerID, delta)
      ensures workerID in harness ==>
                harness[workerID].activeJobs ==
                if old(harness[workerID].activeJobs) + delta > 0 then old(harness[workerID].activeJobs) + delta else 0
    {
      if workerID in harness {
        var c := harness[workerID];
        c.activeJobs := c.activeJobs + delta;
        if c.activeJobs < 0 {
          c.activeJobs := 0;
        }
        OneChanged(workerID);
      }
    }

    method UnregisterMCP(instanceID: string)
      requires Valid()
      modifies this`mcp
      ensures Valid() && mcp == old(mcp) - {instanceID}
    {
      mcp := mcp - {instanceID};
    }

    /** The deletions made for one worker by UnregisterHarness and by the sweep. */
    method Delete(workerID: string)
      requires workerID in harness
      modifies this`harness, this`harnessByUser
      ensures harness == old(harness) - {workerID}
      ensures View() == Unregister(old(View()), workerID)
      ensures var c := old(harness)[workerID];
        harnessByUser == if c.tenantID != "" && c.userID != "" then old(harnessByUser) - {c.tenantID + "#" + c.userID}
                         else old(harnessByUser)
    {
      var c := harness[workerID];
      if c.tenantID != "" && c.userID != "" {
        harnessByUser := harnessByUser - {c.tenantID + "#" + c.userID};
      }
      harness := harness - {workerID};
    }

    method UnregisterHarness(workerID: string)
      requires Valid()
      modifies this`harness, this`harnessByUser
      ensures Valid()
      ensures harness == old(harness) - {workerID}
      ensures View() == Unregister(old(View()), workerID)
      ensures harnessByUser ==
                if workerID in old(harness) && old(harness)[workerID].tenantID != "" && old(harness)[workerID].userID != ""
                then old(harnessByUser) - {old(harness)[workerID].tenantID + "#" + old(harness)[workerID].userID}
                else old(harnessByUser)
    {
      if workerID in harness {
        Delete(workerID);
      }
    }

    method LookupUser(tenantID: string, userID: string) returns (c: Conn?)
      requires Valid()
      ensures HarnessForUser(View(), tenantID, userID) == if c == null then None else Some(c.View())
      ensures var key := tenantID + "#" + userID;
        c == if key in harnessByUser && harnessByUser[key] in harness then harness[harnessByUser[key]] else null
    {
      c := null;
      var key := tenantID + "#" + userID;
      if key in harnessByUser {
        if harnessByUser[key] in harness {
          c := harness[harnessByUser[key]];
        }
      }
    }

    /**
     * The table is iterated in an arbitrary order. The worker picked is of the tier asked for, lightweight if none is;
     * of the tenant, where both name one; offers the provider, if one is asked for and it does not take any; and has a
     * slot free. Every registered worker lacks one of these, or has at least as many jobs as the one picked.
     */
    method PickSharedWorker(tenantID: string, provider: string, tier: string) returns (best: Conn?)
      requires Valid()
      ensures best == null ==> forall id :: !Eligible(View(), Normalise(tenantID, provider, tier), id)
      ensures best != null ==>
                && best.workerID in harness && harness[best.workerID] == best
                && IsPick(View(), Normalise(tenantID, provider, tier), best.workerID)
      ensures best != null ==>
                && EqualFold(best.tier, if TrimSpace(tier) == "" then "lightweight" else TrimSpace(tier))
                && (TrimSpace(tenantID) == "" || best.tenantID == "" || best.tenantID == TrimSpace(tenantID))
                && (TrimSpace(provider) == "" || SupportsProvider(best.View(), TrimSpace(provider)))
                && best.activeJobs < if best.maxConcurrent > 0 then best.maxConcurrent else 1
      ensures forall id :: id in harness ==>
                var c := harness[id];
                || !EqualFold(c.tier, if TrimSpace(tier) == "" then "lightweight" else TrimSpace(tier))
                || (TrimSpace(tenantID) != "" && c.tenantID != "" && c.tenantID != TrimSpace(tenantID))
                || (TrimSpace(provider) != "" && !SupportsProvider(c.View(), TrimSpace(provider)))
                || c.activeJobs >= (if c.maxConcurrent > 0 then c.maxConcurrent else 1)
                || (best != null && best.activeJobs <= c.activeJobs)
    {
      var id := PickWorker(View(), tenantID, provider, tier);
      best := if id.Some? then harness[id.value] else null;
    }

    /** The connection need not be registered any more. */
    method Touch(conn: Conn?, now: int)
      requires Valid()
      modifies conn
      ensures Valid()
      ensures conn == null || conn !in harness.Values ==> View() == old(View())
      ensures conn != null && conn in harness.Values ==> View() == HubState.Touch(old(View()), conn.workerID, now)
      ensures conn != null ==> conn.View() == old(conn.View()).(lastSeen := now)
    {
      if conn == null {
        return;
      }
      conn.lastSeen := now;
    }

    function StaleKeys(table: map<string, Conn>, now: int): set<string>
      reads table.Values
    {
      set id <- table | Stale(table[id].View(), now)
    }

    /** A list with each stale id of the table once, and no other. */
    ghost predicate Evicts(table: map<string, Conn>, now: int, list: seq<string>)
      reads table.Values
    {
      && (forall i, j :: 0 <= i < j < |list| ==> list[i] != list[j])
      && Elements(list) == StaleKeys(table, now)
    }

    static function Elements(list: seq<string>): set<string> {
      set id | id in list
    }

    static lemma ElementsAppend(list: seq<string>, id: string)
      ensures Elements(list + [id]) == Elements(list) + {id}
    {}

    method CollectStale(table: map<string, Conn>, now: int) returns (stale: seq<string>)
      ensures Evicts(table, now, stale)
      ensures forall id :: id in stale <==> id in table && now - table[id].lastSeen > 90_000_000_000
    {
      stale := [];
      var rest := table.Keys;
      while rest != {}
        invariant rest <= table.Keys
        invariant forall i, j :: 0 <= i < j < |stale| ==> stale[i] != stale[j]
        invariant Elements(stale) == StaleKeys(table, now) - rest
        decreases |rest|
      {
        var id :| id in rest;
        ghost var found := StaleKeys(table, now) - rest;
        if now - table[id].lastSeen > STALE_THRESHOLD {
          ElementsAppend(stale, id);
          assert id !in Elements(stale);
          assert StaleKeys(table, now) - (rest - {id}) == found + {id};
          stale := stale + [id];
        } else {
          assert StaleKeys(table, now) - (rest - {id}) == found;
        }
        rest := rest - {id};
      }
      assert forall id :: id in stale <==> id in Elements(stale);
      assert forall id :: id in StaleKeys(table, now) <==> id in table && now - table[id].lastSeen > 90_000_000_000;
    }

    method DropMCP(stale: seq<string>)
      modifies this`mcp
      ensures mcp == old(mcp) - Elements(stale)
    {
      for i := 0 to |stale|
        invariant mcp == old(mcp) - Elements(stale[..i])
      {
        assert stale[..i + 1] == stale[..i] + [stale[i]];
        ElementsAppend(stale[..i], stale[i]);
        mcp := mcp - {stale[i]};
      }
      assert stale[..|stale|] == stale;
    }

    static lemma DropOne(s: State, stale: seq<string>, i: nat)
      requires i < |stale| && Elements(stale) <= s.harness.Keys
      requires forall i, j :: 0 <= i < j < |stale| ==> stale[i] != stale[j]
      ensures stale[i] in Elements(stale) && stale[i] !in Elements(stale[..i])
      ensures Elements(stale[..i + 1]) == Elements(stale[..i]) + {stale[i]}
      ensures Unregister(Remove(s, Elements(stale[..i])), stale[i]) == Remove(s, Elements(stale[..i + 1]))
    {
      assert stale[..i + 1] == stale[..i] + [stale[i]];
      ElementsAppend(stale[..i], stale[i]);
      RemoveOneMore(s, Elements(stale[..i]), stale[i]);
    }

    method DropHarness(stale: seq<string>)
      requires Elements(stale) <= harness.Keys
      requires forall i, j :: 0 <= i < j < |stale| ==> stale[i] != stale[j]
      modifies this`harness, this`harnessByUser
      ensures harness.Keys == old(harness).Keys - Elements(stale)
      ensures forall id :: id in harness ==> harness[id] == old(harness)[id]
      ensures View() == Remove(old(View()), Elements(stale))
    {
      ghost var s := View();
      RemoveNone(s);
      for i := 0 to |stale|
        invariant harness.Keys == old(harness).Keys - Elements(stale[..i])
        invariant forall id :: id in harness ==> harness[id] == old(harness)[id]
        invariant View() == Remove(s, Elements(stale[..i]))
      {
        DropOne(s, stale, i);
        Delete(stale[i]);
      }
      assert stale[..|stale|] == stale;
    }

    method EvictMCP(now: int) returns (stale: seq<string>)
      modifies this`mcp
      ensures Evicts(old(mcp), now, stale) && mcp == old(mcp) - Elements(stale)
      ensures forall id :: id in stale <==> id in old(mcp) && now - old(mcp)[id].lastSeen > 90_000_000_000
    {
      stale := CollectStale(mcp, now);
      DropMCP(stale);
    }

    method EvictHarness(now: int) returns (stale: seq<string>)
      modifies this`harness, this`harnessByUser
      ensures Evicts(old(harness), now, stale)
      ensures harness.Keys == old(harness).Keys - Elements(stale)
      ensures forall id :: id in harness ==> harness[id] == old(harness)[id]
      ensures View() == Sweep(old(View()), now)
      ensures forall id :: id in stale <==> id in old(harness) && now - old(harness)[id].lastSeen > 90_000_000_000
      ensures forall k :: k in harnessByUser <==>
                && k in old(harnessByUser)
                && forall id :: id in stale && old(harness)[id].tenantID != "" && old(harness)[id].userID != "" ==>
                     k != old(harness)[id].tenantID + "#" + old(harness)[id].userID
    {
      stale := CollectStale(harness, now);
      assert StaleKeys(harness, now) == StaleIds(View(), now);
      DropHarness(stale);
    }

    /**
     * sweepStale under the lock. The results list the ids evicted, each once: after the lock is released
     * one offline callback is made for each, with the connection that was registered under it.
     */
    method SweepStale(now: int) returns (staleMCP: seq<string>, staleHarness: seq<string>)
      requires Valid()
      modifies this`mcp, this`harness, this`harnessByUser
      ensures Valid()
      ensures Evicts(old(mcp), now, staleMCP) && mcp == old(mcp) - Elements(staleMCP)
      ensures Evicts(old(harness), now, staleHarness) && harness.Keys == old(harness).Keys - Elements(staleHarness)
      ensures forall id :: id in harness ==> harness[id] == old(harness)[id]
      ensures View() == Sweep(old(View()), now)
      ensures forall id :: id in mcp <==> id in old(mcp) && now - old(mcp)[id].lastSeen <= 90_000_000_000
      ensures forall id :: id in harness <==> id in old(harness) && now - old(harness)[id].lastSeen <= 90_000_000_000
      ensures forall id :: id in staleMCP <==> id in old(mcp) && now - old(mcp)[id].lastSeen > 90_000_000_000
      ensures forall id :: id in staleHarness <==> id in old(harness) && now - old(harness)[id].lastSeen > 90_000_000_000
      ensures forall k :: k in harnessByUser <==>
                && k in old(harnessByUser)
                && forall id :: id in staleHarness && old(harness)[id].tenantID != "" && old(harness)[id].userID != "" ==>
                     k != old(harness)[id].tenantID + "#" + old(harness)[id].userID
    {
      ghost var s := View();
      staleMCP := EvictMCP(now);
      assert View() == s;
      staleHarness := EvictHarness(now);
    }
  }
}
