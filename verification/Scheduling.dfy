/**
 * Picking and loading workers (relay/hub.go PickSharedWorker, IncHarnessActiveJobs; relay/server.go
 * handleHarnessPick and handleHarnessRun): what a pick is, and what rounds of pick and dispatch do.
 */
module Scheduling {
  import opened Text
  import opened HubState

  /** A normalised query: trimmed tenant, lower-case trimmed provider and tier, tier never empty. */
  datatype Query = Query(tenant: string, provider: string, tier: string)

  function Normalise(tenant: string, provider: string, tier: string): Query {
    var t := ToLower(TrimSpace(tier));
    Query(TrimSpace(tenant), ToLower(TrimSpace(provider)), if t == "" then "lightweight" else t)
  }

  predicate Offers(listed: seq<string>, provider: string) {
    exists i :: 0 <= i < |listed| && EqualFold(TrimSpace(listed[i]), provider)
  }

  predicate SupportsProvider(w: Worker, provider: string) {
    provider != "" &&
    if w.providers != [] then Offers(w.providers, provider)
    else w.provider == "" || Offers(Split(w.provider, ','), provider)
  }

  predicate Matches(w: Worker, q: Query) {
    && EqualFold(w.tier, q.tier)
    && (q.tenant != "" && w.tenant != "" ==> w.tenant == q.tenant)
    && (q.provider != "" ==> SupportsProvider(w, q.provider))
  }

  lemma OffersAnyCase(listed: seq<string>, provider: string)
    ensures Offers(listed, ToLower(provider)) <==> Offers(listed, provider)
  {
    LowerTwice(provider);
  }

  /** A provider is supported by a worker that lists it, in either form and whatever the case, or that lists none. */
  lemma SupportsProviderIff(w: Worker, provider: string)
    ensures SupportsProvider(w, provider) <==>
              && provider != ""
              && var listed := if w.providers != [] then w.providers else Split(w.provider, ',');
              || (w.providers == [] && w.provider == "")
              || exists i :: 0 <= i < |listed| && EqualFold(TrimSpace(listed[i]), provider)
    ensures SupportsProvider(w, ToLower(provider)) <==> SupportsProvider(w, provider)
  {
    var listed := if w.providers != [] then w.providers else Split(w.provider, ',');
    OffersAnyCase(listed, provider);
    if w.providers == [] && w.provider == "" {
    } else {
      assert SupportsProvider(w, provider) <==> provider != "" && Offers(listed, provider);
      assert SupportsProvider(w, ToLower(provider)) <==> provider != "" && Offers(listed, ToLower(provider));
    }
  }

  lemma MatchesAnyCase(w: Worker, tenant: string, provider: string, tier: string)
    ensures Matches(w, Query(tenant, ToLower(provider), ToLower(tier))) <==>
              && EqualFold(w.tier, tier)
              && (tenant == "" || w.tenant == "" || w.tenant == tenant)
              && (provider == "" || SupportsProvider(w, provider))
  {
    FoldLower(w.tier, tier);
    SupportsProviderIff(w, provider);
  }

  lemma NormaliseIs(tenant: string, provider: string, tier: string)
    ensures Normalise(tenant, provider, tier)
            == Query(TrimSpace(tenant), ToLower(TrimSpace(provider)),
                     ToLower(if TrimSpace(tier) == "" then "lightweight" else TrimSpace(tier)))
  {
    assert ToLower("lightweight") == "lightweight";
  }

  /**
   * On the arguments as they are given: the tier whatever its case, lightweight if none is; a tenant where both sides
   * name one; and a provider, if one is asked for, that the worker lists, or any if it lists none.
   */
  lemma MatchesIff(w: Worker, tenant: string, provider: string, tier: string)
    ensures Matches(w, Normalise(tenant, provider, tier)) <==>
              && EqualFold(w.tier, if TrimSpace(tier) == "" then "lightweight" else TrimSpace(tier))
              && (TrimSpace(tenant) == "" || w.tenant == "" || w.tenant == TrimSpace(tenant))
              && (|| TrimSpace(provider) == "" || (w.providers == [] && w.provider == "")
                  || var listed := if w.providers != [] then w.providers else Split(w.provider, ',');
                     exists i :: 0 <= i < |listed| && EqualFold(TrimSpace(listed[i]), TrimSpace(provider)))
  {
    var t, p := TrimSpace(tenant), TrimSpace(provider);
    NormaliseIs(tenant, provider, tier);
    MatchesAnyCase(w, t, p, if TrimSpace(tier) == "" then "lightweight" else TrimSpace(tier));
    SupportsProviderIff(w, p);
  }

  lemma AllMatchIff(s: State, tenant: string, provider: string, tier: string)
    ensures forall id :: id in s.harness ==>
      var w := s.harness[id];
      Matches(w, Normalise(tenant, provider, tier)) <==>
        && EqualFold(w.tier, if TrimSpace(tier) == "" then "lightweight" else TrimSpace(tier))
        && (TrimSpace(tenant) == "" || w.tenant == "" || w.tenant == TrimSpace(tenant))
        && (TrimSpace(provider) == "" || SupportsProvider(w, TrimSpace(provider)))
  {
    var t, p, k := TrimSpace(tenant), TrimSpace(provider), if TrimSpace(tier) == "" then "lightweight" else TrimSpace(tier);
    NormaliseIs(tenant, provider, tier);
    forall id | id in s.harness
      ensures Matches(s.harness[id], Query(t, ToLower(p), ToLower(k))) <==>
                && EqualFold(s.harness[id].tier, k)
                && (t == "" || s.harness[id].tenant == "" || s.harness[id].tenant == t)
                && (p == "" || SupportsProvider(s.harness[id], p))
    {
      MatchesAnyCase(s.harness[id], t, p, k);
    }
  }

  function Capacity(w: Worker): int {
    if w.maxConcurrent <= 0 then 1 else w.maxConcurrent
  }

  predicate Eligible(s: State, q: Query, id: string) {
    id in s.harness && Matches(s.harness[id], q) && s.harness[id].activeJobs < Capacity(s.harness[id])
  }

  /** A pick is a matching worker with a free slot that no other such worker beats. Any of them may be it. */
  ghost predicate IsPick(s: State, q: Query, id: string) {
    && Eligible(s, q, id)
    && forall other :: Eligible(s, q, other) ==> s.harness[id].activeJobs <= s.harness[other].activeJobs
  }

  method Lists(listed: seq<string>, provider: string) returns (found: bool)
    ensures found <==> Offers(listed, provider)
  {
    for i := 0 to |listed|
      invariant forall j :: 0 <= j < i ==> !EqualFold(TrimSpace(listed[j]), provider)
    {
      if EqualFold(TrimSpace(listed[i]), provider) {
        return true;
      }
    }
    return false;
  }

  method HarnessSupportsProvider(w: Worker, provider: string) returns (ok: bool)
    ensures ok <==> SupportsProvider(w, provider)
    ensures ok <==>
              && provider != ""
              && var listed := if w.providers != [] then w.providers else Split(w.provider, ',');
              || (w.providers == [] && w.provider == "")
              || exists i :: 0 <= i < |listed| && EqualFold(TrimSpace(listed[i]), provider)
  {
    SupportsProviderIff(w, provider);
    if provider == "" {
      return false;
    }
    if |w.providers| == 0 {
      if w.provider == "" {
        return true;
      }
      ok := Lists(Split(w.provider, ','), provider);
    } else {
      ok := Lists(w.providers, provider);
    }
  }

  method Suits(w: Worker, q: Query) returns (ok: bool)
    ensures ok <==> Matches(w, q)
  {
    if !EqualFold(w.tier, q.tier) {
      return false;
    }
    if q.tenant != "" && w.tenant != "" && w.tenant != q.tenant {
      return false;
    }
    ok := true;
    if q.provider != "" {
      ok := HarnessSupportsProvider(w, q.provider);
    }
  }

  /** The loop of PickSharedWorker, over the table in an arbitrary order. */
  method LeastLoadedWorker(s: State, q: Query) returns (best: Option<string>)
    ensures best.None? ==> forall id :: !Eligible(s, q, id)
    ensures best.Some? ==> IsPick(s, q, best.value)
  {
    best := None;
    var bestLoad := MAX_INT64;
    var rest := s.harness.Keys;
    while rest != {}
      invariant rest <= s.harness.Keys
      invariant best.None? ==> forall id :: id in s.harness && id !in rest ==> !Eligible(s, q, id)
      invariant best.Some? ==> Eligible(s, q, best.value) && bestLoad == s.harness[best.value].activeJobs
      invariant best.Some? ==>
                  forall id :: id in s.harness && id !in rest && Eligible(s, q, id) ==> bestLoad <= s.harness[id].activeJobs
      decreases |rest|
    {
      var id :| id in rest;
      rest := rest - {id};
      var c := s.harness[id];
      var suits := Suits(c, q);
      if !suits {
        continue;
      }
      var maxC := c.maxConcurrent;
      if maxC <= 0 {
        maxC := 1;
      }
      if c.activeJobs >= maxC {
        continue;
      }
      var load := c.activeJobs;
      if best.None? || load < bestLoad {
        best := Some(id);
        bestLoad := load;
      }
    }
  }

  /**
   * The pick for the arguments as they are given: of the tier asked for, lightweight if none is; of the tenant, where
   * both sides name one; offering the provider, if one is asked for; with a slot free. Every worker lacks one of these,
   * or has at least as many jobs as the one picked.
   */
  method PickWorker(s: State, tenant: string, provider: string, tier: string) returns (best: Option<string>)
    ensures best.None? ==> forall id :: !Eligible(s, Normalise(tenant, provider, tier), id)
    ensures best.Some? ==> IsPick(s, Normalise(tenant, provider, tier), best.value)
    ensures best.Some? ==>
              && best.value in s.harness
              && var w := s.harness[best.value];
              && EqualFold(w.tier, if TrimSpace(tier) == "" then "lightweight" else TrimSpace(tier))
              && (TrimSpace(tenant) == "" || w.tenant == "" || w.tenant == TrimSpace(tenant))
              && (TrimSpace(provider) == "" || SupportsProvider(w, TrimSpace(provider)))
              && w.activeJobs < if w.maxConcurrent > 0 then w.maxConcurrent else 1
    ensures forall id :: id in s.harness ==>
              var w := s.harness[id];
              || !EqualFold(w.tier, if TrimSpace(tier) == "" then "lightweight" else TrimSpace(tier))
              || (TrimSpace(tenant) != "" && w.tenant != "" && w.tenant != TrimSpace(tenant))
              || (TrimSpace(provider) != "" && !SupportsProvider(w, TrimSpace(provider)))
              || w.activeJobs >= (if w.maxConcurrent > 0 then w.maxConcurrent else 1)
              || (best.Some? && s.harness[best.value].activeJobs <= w.activeJobs)
  {
    var q := Normalise(tenant, provider, tier);
    best := LeastLoadedWorker(s, q);
    AllMatchIff(s, tenant, provider, tier);
    assert forall id :: id in s.harness && !Eligible(s, q, id) ==>
      !Matches(s.harness[id], q) || s.harness[id].activeJobs >= Capacity(s.harness[id]);
  }

  /** One round: the picked worker is dispatched to, the frame is written. */
  function Round(s: State, id: string): State {
    IncActiveJobs(s, id, 1)
  }

  function Rounds(s: State, picks: seq<string>): State
    decreases |picks|
  {
    if picks == [] then s else Rounds(Round(s, picks[0]), picks[1..])
  }

  /** Every element of `picks` is a possible pick when its turn comes, whatever the map iteration order. */
  ghost predicate Admissible(s: State, q: Query, picks: seq<string>)
    decreases |picks|
  {
    picks != [] ==> IsPick(s, q, picks[0]) && Admissible(Round(s, picks[0]), q, picks[1..])
  }

  /** No worker has negative jobs; the clamp keeps it so. */
  ghost predicate NonNegative(s: State) {
    forall id :: id in s.harness ==> s.harness[id].activeJobs >= 0
  }

  /******* Conservation of slots *******/

  function Free(w: Worker, q: Query): nat {
    if Matches(w, q) && w.activeJobs < Capacity(w) then Capacity(w) - w.activeJobs else 0
  }

  ghost function FreeSlots(table: map<string, Worker>, q: Query): nat
    decreases |table|
  {
    if table == map[] then 0
    else
      var id :| id in table;
      Free(table[id], q) + FreeSlots(table - {id}, q)
  }

  /** The sum does not depend on the order in which it is taken. */
  lemma {:induction false} FreeSlotsRemove(table: map<string, Worker>, q: Query, id: string)
    requires id in table
    ensures FreeSlots(table, q) == Free(table[id], q) + FreeSlots(table - {id}, q)
    decreases |table|
  {
    var first :| first in table && FreeSlots(table, q) == Free(table[first], q) + FreeSlots(table - {first}, q);
    if first != id {
      FreeSlotsRemove(table - {first}, q, id);
      FreeSlotsRemove(table - {id}, q, first);
      assert table - {first} - {id} == table - {id} - {first};
    }
  }

  lemma {:induction false} FreeSlotsZero(table: map<string, Worker>, q: Query)
    ensures FreeSlots(table, q) == 0 <==> forall id :: id in table ==> Free(table[id], q) == 0
    decreases |table|
  {
    if table != map[] {
      var first :| first in table && FreeSlots(table, q) == Free(table[first], q) + FreeSlots(table - {first}, q);
      FreeSlotsZero(table - {first}, q);
      if forall id :: id in table - {first} ==> Free((table - {first})[id], q) == 0 {
        forall id | id in table && id != first ensures Free(table[id], q) == 0 { assert id in table - {first}; }
      } else {
        var id :| id in table - {first} && Free((table - {first})[id], q) != 0;
        assert Free(table[id], q) != 0;
      }
    }
  }

  lemma RoundTakesOneSlot(s: State, q: Query, id: string)
    requires NonNegative(s) && Eligible(s, q, id)
    ensures FreeSlots(Round(s, id).harness, q) == FreeSlots(s.harness, q) - 1
    ensures NonNegative(Round(s, id))
  {
    var s' := Round(s, id);
    FreeSlotsRemove(s.harness, q, id);
    FreeSlotsRemove(s'.harness, q, id);
    assert s.harness - {id} == s'.harness - {id};
  }

  /** A pick exists exactly when a slot is free: the least loaded of the eligible workers. */
  lemma PickExistsIff(s: State, q: Query)
    ensures (exists id :: IsPick(s, q, id)) <==> FreeSlots(s.harness, q) > 0
  {
    FreeSlotsZero(s.harness, q);
    var eligible := set id <- s.harness | Eligible(s, q, id);
    if eligible != {} {
      var id := LeastLoaded(s, eligible);
      assert IsPick(s, q, id);
      assert Free(s.harness[id], q) > 0;
    } else {
      forall id | id in s.harness ensures Free(s.harness[id], q) == 0 { assert id !in eligible; }
    }
  }

  lemma {:induction false} LeastLoaded(s: State, ids: set<string>) returns (id: string)
    requires ids != {} && ids <= s.harness.Keys
    ensures id in ids && forall other :: other in ids ==> s.harness[id].activeJobs <= s.harness[other].activeJobs
    decreases |ids|
  {
    var first :| first in ids;
    var rest := ids - {first};
    id := first;
    if rest != {} {
      var least := LeastLoaded(s, rest);
      if s.harness[least].activeJobs < s.harness[first].activeJobs { id := least; }
    }
    forall other | other in ids ensures s.harness[id].activeJobs <= s.harness[other].activeJobs {
      if other != first { assert other in rest; }
    }
  }

  /**
   * Consecutive rounds for one query, with no completions and no change of membership: they take one slot
   * each, and the next one succeeds exactly while slots are left. So n rounds all succeed if and only if n is at
   * most the number of free slots of the matching workers, whatever order the picks come in.
   */
  lemma {:induction false} RoundsConserveSlots(s: State, q: Query, picks: seq<string>)
    requires NonNegative(s) && Admissible(s, q, picks)
    ensures FreeSlots(Rounds(s, picks).harness, q) == FreeSlots(s.harness, q) - |picks|
    ensures (exists id :: IsPick(Rounds(s, picks), q, id)) <==> |picks| < FreeSlots(s.harness, q)
    decreases |picks|
  {
    if picks == [] {
      PickExistsIff(s, q);
    } else {
      RoundTakesOneSlot(s, q, picks[0]);
      RoundsConserveSlots(Round(s, picks[0]), q, picks[1..]);
    }
  }

  lemma {:induction false} RoundsSucceedIff(s: State, q: Query, n: nat)
    requires NonNegative(s)
    ensures (exists picks :: |picks| == n && Admissible(s, q, picks)) <==> n <= FreeSlots(s.harness, q)
    decreases n
  {
    if exists picks :: |picks| == n && Admissible(s, q, picks) {
      var picks :| |picks| == n && Admissible(s, q, picks);
      RoundsConserveSlots(s, q, picks);
    }
    if n <= FreeSlots(s.harness, q) {
      if n == 0 {
        assert Admissible(s, q, []);
      } else {
        PickExistsIff(s, q);
        var id :| IsPick(s, q, id);
        RoundTakesOneSlot(s, q, id);
        RoundsSucceedIff(Round(s, id), q, n - 1);
        var rest :| |rest| == n - 1 && Admissible(Round(s, id), q, rest);
        var picks := [id] + rest;
        assert picks[1..] == rest;
        assert |picks| == n && Admissible(s, q, picks);
      }
    }
  }

  /******* Balance *******/

  predicate Full(w: Worker) {
    w.activeJobs >= Capacity(w)
  }

  /** No matching worker has over one job more than another, unless the other is full. */
  ghost predicate Balanced(s: State, q: Query) {
    forall a, b :: (a in s.harness && b in s.harness && Matches(s.harness[a], q) && Matches(s.harness[b], q) && !Full(s.harness[b]))
                   ==> s.harness[a].activeJobs <= s.harness[b].activeJobs + 1
  }

  /** No matching worker has over one job more than `b` has. */
  ghost predicate WithinOneOf(s: State, q: Query, b: string) {
    b in s.harness && Matches(s.harness[b], q) && !Full(s.harness[b]) ==>
      forall a :: a in s.harness && Matches(s.harness[a], q) ==> s.harness[a].activeJobs <= s.harness[b].activeJobs + 1
  }

  /** The worker that was picked only gains. */
  lemma PickedStaysWithinOne(s: State, q: Query, id: string)
    requires Balanced(s, q) && IsPick(s, q, id) && NonNegative(s)
    ensures WithinOneOf(Round(s, id), q, id)
  {
    assert WithinOneOf(s, q, id);
  }

  /** Another one that is not full had at least as many jobs as the picked one. */
  lemma OtherStaysWithinOne(s: State, q: Query, id: string, b: string)
    requires Balanced(s, q) && IsPick(s, q, id) && NonNegative(s) && b != id
    ensures WithinOneOf(Round(s, id), q, b)
  {
    assert WithinOneOf(s, q, b);
    if b in s.harness && Matches(s.harness[b], q) && !Full(s.harness[b]) { assert Eligible(s, q, b); }
  }

  lemma RoundKeepsBalance(s: State, q: Query, id: string)
    requires Balanced(s, q) && IsPick(s, q, id) && NonNegative(s)
    ensures Balanced(Round(s, id), q)
  {
    PickedStaysWithinOne(s, q, id);
    forall b ensures WithinOneOf(Round(s, id), q, b) {
      if b != id { OtherStaysWithinOne(s, q, id, b); }
    }
  }

  lemma {:induction false} RoundsKeepBalance(s: State, q: Query, picks: seq<string>)
    requires NonNegative(s) && Balanced(s, q) && Admissible(s, q, picks)
    ensures Balanced(Rounds(s, picks), q)
    decreases |picks|
  {
    if picks != [] {
      RoundTakesOneSlot(s, q, picks[0]);
      RoundKeepsBalance(s, q, picks[0]);
      RoundsKeepBalance(Round(s, picks[0]), q, picks[1..]);
    }
  }

  /******* The clamp *******/

  function Clamped(initial: int, deltas: seq<int>): int
    decreases |deltas|
  {
    if deltas == [] then initial else Clamped(Clamp(initial + deltas[0]), deltas[1..])
  }

  function Sum(deltas: seq<int>): int {
    if deltas == [] then 0 else deltas[0] + Sum(deltas[1..])
  }

  /** The least sum of a prefix, the empty one included. */
  ghost function MinPrefix(deltas: seq<int>): (m: int)
    ensures m <= 0
    ensures exists k :: 0 <= k <= |deltas| && m == Sum(deltas[..k])
    ensures forall k :: 0 <= k <= |deltas| ==> m <= Sum(deltas[..k])
  {
    if deltas == [] then assert Sum(deltas[..0]) == 0; 0
    else
      var m := deltas[0] + MinPrefix(deltas[1..]);
      assert forall k :: 1 <= k <= |deltas| ==> deltas[..k][1..] == deltas[1..][..k - 1];
      assert Sum(deltas[..0]) == 0;
      if m < 0 then
        var k :| 0 <= k <= |deltas[1..]| && MinPrefix(deltas[1..]) == Sum(deltas[1..][..k]);
        assert m == Sum(deltas[..k + 1]);
        m
      else 0
  }

  function Max(a: int, b: int): int {
    if a < b then b else a
  }

  /**
   * For any deltas, the counter is the plain sum pushed up just enough never to have been negative:
   * prefix sum + max(initial, -(minimum prefix sum)).
   */
  lemma {:induction false} ClampReflects(initial: int, deltas: seq<int>)
    requires initial >= 0
    ensures Clamped(initial, deltas) == Sum(deltas) + Max(initial, -MinPrefix(deltas))
    decreases |deltas|
  {
    if deltas != [] { ClampReflects(Clamp(initial + deltas[0]), deltas[1..]); }
  }

  /** What a sequence of IncHarnessActiveJobs calls does to a registered worker. */
  function IncAll(s: State, id: string, deltas: seq<int>): State
    decreases |deltas|
  {
    if deltas == [] then s else IncAll(IncActiveJobs(s, id, deltas[0]), id, deltas[1..])
  }

  lemma {:induction false} CounterReflects(s: State, id: string, deltas: seq<int>)
    requires id in s.harness && s.harness[id].activeJobs >= 0
    ensures id in IncAll(s, id, deltas).harness
    ensures IncAll(s, id, deltas).harness[id].activeJobs
              == Sum(deltas) + Max(s.harness[id].activeJobs, -MinPrefix(deltas))
    decreases |deltas|
  {
    if deltas != [] {
      CounterReflects(IncActiveJobs(s, id, deltas[0]), id, deltas[1..]);
    }
  }
}
