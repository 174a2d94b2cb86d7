/**
 * The index by user, over every run of register, capability update, unregister and sweep: exactly when it
 * is sound (an entry leads to a worker of that user), and exactly when it equals a scan of the table.
 */
module UserIndex {
  import opened Text
  import opened HubState

  /******* Soundness *******/

  predicate Owns(w: Worker, k: string) {
    Named(w) && KeyOf(w) == k
  }

  /** Each entry leads to a registered worker, named, whose tenant#user is the key. */
  ghost predicate Sound(s: State) {
    forall k :: k in s.byUser ==> s.byUser[k] in s.harness && Owns(s.harness[s.byUser[k]], k)
  }

  /** Registering `id` does not turn the owner of an entry of another user into someone else. */
  ghost predicate KeepsOwner(s: State, a: Action) {
    a.RegisterA? && a.id != "" ==> forall k :: k in s.byUser && s.byUser[k] == a.id ==> Owns(a.worker, k)
  }

  /** The one step that can break soundness is registering over an indexed id for another tenant or user. */
  lemma StepSoundIff(s: State, a: Action)
    requires Sound(s)
    ensures Sound(Apply(s, a)) <==> KeepsOwner(s, a)
  {
    var s' := Apply(s, a);
    match a
    case RegisterA(id, w) =>
      if id != "" {
        forall k | k in s.byUser && s.byUser[k] == id && !Owns(w, k) ensures !Sound(s') {
          assert k in s'.byUser && s'.byUser[k] == id;
        }
      }
    case UnregisterA(id) =>
      UnregisterRemoves(s, id);
      RemoveKeepsSound(s, {id});
    case SweepA(now) => RemoveKeepsSound(s, StaleIds(s, now));
    case _ =>
  }

  lemma RemoveKeepsSound(s: State, ids: set<string>)
    requires Sound(s)
    ensures Sound(Remove(s, ids))
  {
    var s' := Remove(s, ids);
    forall k | k in s'.byUser ensures s'.byUser[k] in s'.harness && Owns(s'.harness[s'.byUser[k]], k) {
      assert Owns(s.harness[s.byUser[k]], k);
    }
  }

  ghost predicate SoundThroughout(s: State, run: seq<Action>)
    decreases |run|
  {
    Sound(s) && (run != [] ==> SoundThroughout(Apply(s, run[0]), run[1..]))
  }

  ghost predicate OwnersKept(s: State, run: seq<Action>)
    decreases |run|
  {
    run != [] ==> KeepsOwner(s, run[0]) && OwnersKept(Apply(s, run[0]), run[1..])
  }

  /**
   * Over every run: the index stays sound if and only if no registration takes an indexed worker id over
   * for another tenant or user. Capability updates, removals by id, sweeps and job counts never matter.
   */
  lemma {:induction false} SoundThroughoutIff(s: State, run: seq<Action>)
    requires Sound(s)
    ensures SoundThroughout(s, run) <==> OwnersKept(s, run)
    decreases |run|
  {
    if run != [] {
      StepSoundIff(s, run[0]);
      if KeepsOwner(s, run[0]) {
        SoundThroughoutIff(Apply(s, run[0]), run[1..]);
      } else {
        assert !Sound(Apply(s, run[0]));
      }
    }
  }

  /** One tenant is the other, a '#', and something more. */
  predicate Overlap(t1: string, t2: string) {
    HasPrefix(t1, t2 + "#") || HasPrefix(t2, t1 + "#")
  }

  lemma LongerTenant(t1: string, u1: string, t2: string, u2: string)
    requires |t1| < |t2| && Key(t1, u1) == Key(t2, u2)
    ensures HasPrefix(t2, t1 + "#")
  {
    var k := Key(t2, u2);
    assert k == t1 + "#" + u1;
    assert t2 == k[..|t2|] && t1 + "#" == k[..|t1| + 1];
  }

  /** The key separates any two (tenant, user) pairs whose tenants do not overlap. */
  lemma KeyInjective(t1: string, u1: string, t2: string, u2: string)
    requires !Overlap(t1, t2)
    ensures Key(t1, u1) == Key(t2, u2) <==> t1 == t2 && u1 == u2
  {
    if Key(t1, u1) == Key(t2, u2) {
      if |t1| < |t2| {
        LongerTenant(t1, u1, t2, u2);
      } else if |t2| < |t1| {
        LongerTenant(t2, u2, t1, u1);
      } else {
        SplitAlike(t1, t2, "#" + u1, "#" + u2);
        assert t1 + ("#" + u1) == Key(t1, u1) && t2 + ("#" + u2) == Key(t2, u2);
        assert u1 == ("#" + u1)[1..] && u2 == ("#" + u2)[1..];
      }
    }
  }

  lemma SplitAlike(a: string, b: string, x: string, y: string)
    requires |a| == |b| && |x| > 0 && |y| > 0
    ensures a + x == b + y ==> a == b && x[1..] == y[1..]
  {
    if a + x == b + y {
      assert a == (a + x)[..|a|] && b == (b + y)[..|b|];
      assert x == (a + x)[|a|..] && y == (b + y)[|b|..];
    }
  }

  /** Two different tenants have users with equal keys exactly when the tenants overlap. */
  lemma KeysMeetIff(t1: string, t2: string)
    requires t1 != t2
    ensures (exists u1, u2 :: Key(t1, u1) == Key(t2, u2)) <==> Overlap(t1, t2)
  {
    if u1, u2 :| Key(t1, u1) == Key(t2, u2) { KeyInjectiveOrOverlap(t1, u1, t2, u2); }
    if HasPrefix(t2, t1 + "#") { MeetingUsers(t1, t2, ""); }
    if HasPrefix(t1, t2 + "#") { MeetingUsers(t2, t1, ""); }
  }

  lemma KeyInjectiveOrOverlap(t1: string, u1: string, t2: string, u2: string)
    requires Key(t1, u1) == Key(t2, u2) && t1 != t2
    ensures Overlap(t1, t2)
  {
    if !Overlap(t1, t2) { KeyInjective(t1, u1, t2, u2); }
  }

  /** The user of the shorter tenant that meets user `u` of the longer one. */
  function MeetingUser(t1: string, t2: string, u: string): string
    requires |t1| < |t2|
  {
    t2[|t1| + 1..] + "#" + u
  }

  lemma MeetingUsers(t1: string, t2: string, u: string)
    requires HasPrefix(t2, t1 + "#")
    ensures |t1| < |t2| && Key(t1, MeetingUser(t1, t2, u)) == Key(t2, u)
  {
    var rest := t2[|t1| + 1..];
    assert t2 == t1 + "#" + rest;
    assert t1 + "#" + (rest + "#" + u) == (t1 + "#" + rest) + "#" + u;
  }

  lemma LookupIsOfThatUser(s: State, tenant: string, user: string)
    requires Sound(s) && HarnessForUser(s, tenant, user).Some?
    requires !Overlap(tenant, HarnessForUser(s, tenant, user).value.tenant)
    ensures HarnessForUser(s, tenant, user).value.tenant == tenant
    ensures HarnessForUser(s, tenant, user).value.user == user
  {
    var w := HarnessForUser(s, tenant, user).value;
    KeyInjective(w.tenant, w.user, tenant, user);
  }

  /** After the run, with the index sound throughout, a lookup for tenant `t1` gives a worker of tenant `t2`. */
  ghost predicate Crosses(run: seq<Action>, t1: string, user: string, t2: string) {
    && SoundThroughout(EMPTY, run)
    && HarnessForUser(Exec(EMPTY, run), t1, user).Some?
    && HarnessForUser(Exec(EMPTY, run), t1, user).value.tenant == t2
  }

  lemma {:induction false} SoundAtEnd(s: State, run: seq<Action>)
    requires SoundThroughout(s, run)
    ensures Sound(Exec(s, run))
    decreases |run|
  {
    if run != [] { SoundAtEnd(Apply(s, run[0]), run[1..]); }
  }

  lemma OneWorkerCrosses(t1: string, user: string, w: Worker)
    requires Indexable(w) && Key(t1, user) == KeyOf(w)
    ensures Crosses([RegisterA("w", w)], t1, user, w.tenant)
  {
    var run := [RegisterA("w", w)];
    var s := Apply(EMPTY, run[0]);
    assert run[1..] == [];
    StepSoundIff(EMPTY, run[0]);
    assert SoundThroughout(s, []);
    assert Exec(EMPTY, run) == Exec(s, []) == s;
  }

  /**
   * Even with a sound index a lookup can give another tenant's worker: for a named tenant t2 other than t1, some run
   * makes a lookup for t1 give a worker of t2 if and only if the two tenants overlap.
   */
  lemma LookupCrossesTenantsIff(t1: string, t2: string)
    requires t1 != t2 && t2 != ""
    ensures (exists run, user :: Crosses(run, t1, user, t2)) <==> Overlap(t1, t2)
  {
    if run, user :| Crosses(run, t1, user, t2) {
      var w := HarnessForUser(Exec(EMPTY, run), t1, user).value;
      SoundAtEnd(EMPTY, run);
      KeyInjectiveOrOverlap(t1, user, t2, w.user);
    }
    assert EqualFold("heavy", "heavy");
    if HasPrefix(t2, t1 + "#") {
      MeetingUsers(t1, t2, "u");
      OneWorkerCrosses(t1, MeetingUser(t1, t2, "u"), HeavyWorker(t2, "u"));
    }
    if HasPrefix(t1, t2 + "#") {
      MeetingUsers(t2, t1, "u");
      OneWorkerCrosses(t1, "u", HeavyWorker(t2, MeetingUser(t2, t1, "u")));
    }
  }

  function HeavyWorker(tenant: string, user: string): Worker {
    Worker(tenant, user, "heavy", "", [], 1, 0, 0)
  }

  /** Reconnecting a worker id for another tenant hands the first tenant the second tenant's worker. */
  lemma TakeOverCrossesTenants(w1: Worker, w2: Worker)
    requires Indexable(w1) && w1.tenant != w2.tenant && !Heavy(w2)
    ensures var s := Register(Register(EMPTY, "w", w1), "w", w2);
            HarnessForUser(s, w1.tenant, w1.user) == Some(w2)
  {}

  /******* Completeness *******/

  /**
   * The ids that were registered or updated into an indexable worker since they came online. This is
   * history kept beside the state, not something the hub stores.
   */
  function Flag(s: State, flags: set<string>, a: Action): set<string> {
    var s' := Apply(s, a);
    match a
    case RegisterA(id, w) => if id != "" && Indexable(w) then flags + {id} else flags
    case UpdateA(id, _, _, _) => if id in s.harness && Indexable(s'.harness[id]) then flags + {id} else flags
    case UnregisterA(id) => flags - {id}
    case SweepA(now) => flags - StaleIds(s, now)
    case _ => flags
  }

  /** The index is the scan of the table for flagged workers, entry by entry. */
  ghost predicate Exact(s: State, flags: set<string>) {
    && (forall id :: id in flags ==>
          id in s.harness && Named(s.harness[id]) && KeyOf(s.harness[id]) in s.byUser && s.byUser[KeyOf(s.harness[id])] == id)
    && (forall k :: k in s.byUser ==> s.byUser[k] in flags && KeyOf(s.harness[s.byUser[k]]) == k)
  }

  /** A flagged worker outside `gone` is that user's. */
  ghost predicate OtherFlagged(s: State, flags: set<string>, k: string, gone: set<string>) {
    exists id :: id in flags && id in s.harness && id !in gone && KeyOf(s.harness[id]) == k
  }

  /** The step leaves every other flagged worker its entry, and no entry under a wrong key. */
  ghost predicate KeepsEntries(s: State, flags: set<string>, a: Action) {
    match a
    case RegisterA(id, w) => id != "" ==>
      && (id in flags && id in s.harness ==> Owns(w, KeyOf(s.harness[id])))
      && (Indexable(w) ==> !OtherFlagged(s, flags, KeyOf(w), {id}))
    case UpdateA(id, _, _, _) =>
      id in s.harness && Indexable(Apply(s, a).harness[id]) ==> !OtherFlagged(s, flags, KeyOf(s.harness[id]), {id})
    case UnregisterA(id) =>
      id in s.harness && Named(s.harness[id]) ==> !OtherFlagged(s, flags, KeyOf(s.harness[id]), {id})
    case SweepA(now) =>
      forall id :: id in StaleIds(s, now) && Named(s.harness[id]) ==>
        !OtherFlagged(s, flags, KeyOf(s.harness[id]), StaleIds(s, now))
    case _ => true
  }

  lemma RemoveExactIff(s: State, flags: set<string>, ids: set<string>)
    requires Exact(s, flags) && ids <= s.harness.Keys
    ensures Exact(Remove(s, ids), flags - ids) <==>
              forall id :: id in ids && Named(s.harness[id]) ==> !OtherFlagged(s, flags, KeyOf(s.harness[id]), ids)
  {
    var s', flags' := Remove(s, ids), flags - ids;
    if forall id :: id in ids && Named(s.harness[id]) ==> !OtherFlagged(s, flags, KeyOf(s.harness[id]), ids) {
      forall id | id in flags' ensures KeyOf(s'.harness[id]) in s'.byUser && s'.byUser[KeyOf(s'.harness[id])] == id {}
      forall k | k in s'.byUser ensures s'.byUser[k] in flags' && KeyOf(s'.harness[s'.byUser[k]]) == k {
        assert s.byUser[k] in flags;
      }
    } else {
      var id :| id in ids && Named(s.harness[id]) && OtherFlagged(s, flags, KeyOf(s.harness[id]), ids);
      var other :| other in flags && other in s.harness && other !in ids && KeyOf(s.harness[other]) == KeyOf(s.harness[id]);
      assert KeyOf(s.harness[id]) !in s'.byUser;
      assert other in flags';
    }
  }

  lemma IndexedExactIff(s: State, flags: set<string>, id: string, w: Worker)
    requires Exact(s, flags)
    requires id in flags ==> id in s.harness
    ensures Exact(Indexed(s, id, w), if Indexable(w) then flags + {id} else flags) <==>
              && (id in flags ==> Owns(w, KeyOf(s.harness[id])))
              && (Indexable(w) ==> !OtherFlagged(s, flags, KeyOf(w), {id}))
  {
    var s', flags' := Indexed(s, id, w), if Indexable(w) then flags + {id} else flags;
    if id in flags && !Owns(w, KeyOf(s.harness[id])) {
      var k := KeyOf(s.harness[id]);
      assert k in s.byUser && s.byUser[k] == id;
      assert k in s'.byUser && s'.byUser[k] == id;
      assert !Exact(s', flags');
    } else if Indexable(w) && OtherFlagged(s, flags, KeyOf(w), {id}) {
      var other :| other in flags && other in s.harness && other !in {id} && KeyOf(s.harness[other]) == KeyOf(w);
      assert other in flags' && s'.byUser[KeyOf(w)] == id;
      assert !Exact(s', flags');
    } else {
      forall other | other in flags' ensures
        && other in s'.harness && Named(s'.harness[other])
        && KeyOf(s'.harness[other]) in s'.byUser && s'.byUser[KeyOf(s'.harness[other])] == other
      {
        if other != id { assert other in flags; }
      }
      forall k | k in s'.byUser ensures s'.byUser[k] in flags' && KeyOf(s'.harness[s'.byUser[k]]) == k {}
    }
  }

  lemma StepExactIff(s: State, flags: set<string>, a: Action)
    requires Exact(s, flags)
    ensures Exact(Apply(s, a), Flag(s, flags, a)) <==> KeepsEntries(s, flags, a)
  {
    match a
    case RegisterA(id, w) => if id != "" { IndexedExactIff(s, flags, id, w); }
    case UpdateA(id, tier, providers, m) =>
      if id in s.harness { IndexedExactIff(s, flags, id, WithCapabilities(s.harness[id], tier, providers, m)); }
    case UnregisterA(id) =>
      UnregisterRemoves(s, id);
      if id in s.harness { RemoveExactIff(s, flags, {id}); } else { assert flags - {id} == flags; }
    case SweepA(now) => RemoveExactIff(s, flags, StaleIds(s, now));
    case _ =>
  }

  ghost predicate ExactThroughout(s: State, flags: set<string>, run: seq<Action>)
    decreases |run|
  {
    Exact(s, flags) && (run != [] ==> ExactThroughout(Apply(s, run[0]), Flag(s, flags, run[0]), run[1..]))
  }

  ghost predicate EntriesKept(s: State, flags: set<string>, run: seq<Action>)
    decreases |run|
  {
    run != [] ==> KeepsEntries(s, flags, run[0]) && EntriesKept(Apply(s, run[0]), Flag(s, flags, run[0]), run[1..])
  }

  /** Over every run: the index equals the scan at every state if and only if each step keeps entries. */
  lemma {:induction false} ExactThroughoutIff(s: State, flags: set<string>, run: seq<Action>)
    requires Exact(s, flags)
    ensures ExactThroughout(s, flags, run) <==> EntriesKept(s, flags, run)
    decreases |run|
  {
    if run != [] {
      StepExactIff(s, flags, run[0]);
      if KeepsEntries(s, flags, run[0]) {
        ExactThroughoutIff(Apply(s, run[0]), Flag(s, flags, run[0]), run[1..]);
      } else {
        assert !Exact(Apply(s, run[0]), Flag(s, flags, run[0]));
      }
    }
  }

  /** At most one registered worker per named user. */
  ghost predicate OnePerUser(s: State) {
    forall a, b :: a in s.harness && b in s.harness && Named(s.harness[a]) && KeyOf(s.harness[a]) == KeyOf(s.harness[b])
      ==> a == b
  }

  /** One worker per user before and after, and ids of named workers keep their user: then the step keeps entries. */
  lemma OnePerUserKeepsEntries(s: State, flags: set<string>, a: Action)
    requires Exact(s, flags) && OnePerUser(s) && OnePerUser(Apply(s, a))
    requires a.RegisterA? && a.id in s.harness && Named(s.harness[a.id]) ==>
               KeyOf(a.worker) == KeyOf(s.harness[a.id]) && Named(a.worker)
    ensures KeepsEntries(s, flags, a)
  {
    if a.RegisterA? && a.id != "" {
      var s' := Apply(s, a);
      assert s'.harness[a.id] == a.worker;
      forall other | other in s.harness && other != a.id ensures s'.harness[other] == s.harness[other] {}
    }
  }

  ghost predicate Orderly(s: State, run: seq<Action>)
    decreases |run|
  {
    && OnePerUser(s)
    && (run != [] ==>
          && (run[0].RegisterA? && run[0].id in s.harness && Named(s.harness[run[0].id]) ==>
                KeyOf(run[0].worker) == KeyOf(s.harness[run[0].id]) && Named(run[0].worker))
          && Orderly(Apply(s, run[0]), run[1..]))
  }

  /** Over every run with at most one worker per user, the index is sound and equals the scan throughout. */
  lemma {:induction false} OrderlyRunIsExact(s: State, flags: set<string>, run: seq<Action>)
    requires Exact(s, flags) && Sound(s) && Orderly(s, run)
    ensures ExactThroughout(s, flags, run) && SoundThroughout(s, run)
    decreases |run|
  {
    if run != [] {
      var a := run[0];
      var s', flags' := Apply(s, a), Flag(s, flags, a);
      assert Orderly(s', run[1..]);
      assert OnePerUser(s');
      OnePerUserKeepsEntries(s, flags, a);
      StepExactIff(s, flags, a);
      StepSoundIff(s, a);
      OrderlyRunIsExact(s', flags', run[1..]);
    }
  }

  /** In a state where the index equals the scan, a lookup finds a worker exactly when a flagged one exists. */
  lemma LookupFindsFlagged(s: State, flags: set<string>, tenant: string, user: string)
    requires Exact(s, flags)
    requires forall id :: id in s.harness ==> !Overlap(s.harness[id].tenant, tenant)
    ensures HarnessForUser(s, tenant, user).Some? <==>
              exists id :: id in flags && id in s.harness && s.harness[id].tenant == tenant && s.harness[id].user == user
    ensures forall id :: id in flags && id in s.harness && s.harness[id].tenant == tenant && s.harness[id].user == user
              ==> HarnessForUser(s, tenant, user) == Some(s.harness[id])
  {
    if HarnessForUser(s, tenant, user).Some? {
      var id := s.byUser[Key(tenant, user)];
      KeyInjective(s.harness[id].tenant, s.harness[id].user, tenant, user);
      assert id in flags;
    }
  }

  /**
   * Why one worker per user is needed: unregistering any named worker deletes its user's entry without
   * looking where it leads. A light worker's goodbye hides the user's heavy worker, still registered.
   */
  lemma GoodbyeHidesAnotherWorker(heavy: Worker, light: Worker)
    requires Indexable(heavy) && !Heavy(light) && KeyOf(light) == KeyOf(heavy) && Named(light)
    ensures var s := Register(Register(EMPTY, "h", heavy), "l", light);
            && HarnessForUser(s, heavy.tenant, heavy.user) == Some(heavy)
            && "h" in Unregister(s, "l").harness
            && HarnessForUser(Unregister(s, "l"), heavy.tenant, heavy.user) == None
  {}
}
