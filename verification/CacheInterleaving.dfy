/** Overlapping `set` and `flush` calls, evictions and late deletion notifications
    (pkg/services/cache.go): every tagIndex method is one atomic step, `set` and `flush` are several. */
module CacheInterleaving {
  import opened TagIndexing

  /** Where one client goroutine stands. */
  datatype Client =
    | Idle
    | Tagging(key: string, tags: seq<string>)        // set: store.Set returned, setTags still to come
    | Untagging(named: seq<string>, tags: seq<string>) // flush: purgeTags still to come
    | Deleting(keys: seq<string>, next: nat)         // flush: store.Delete(keys[next]) or purgeKeys to come

  /** The live keys of the store, the index, the undelivered notifications and the clients. */
  datatype State = State(live: set<string>, index: Index, pending: multiset<string>, clients: seq<Client>)

  datatype Step =
    | StoreSet(i: nat, key: string, tags: seq<string>, added: bool, notifies: bool)
    | SetTags(i: nat)
    | BeginFlush(i: nat, key: string, tags: seq<string>)
    | PurgeTags(i: nat, purged: seq<string>)
    | Delete(i: nat)
    | PurgeKeys(i: nat)
    | Evict(key: string)
    | Deliver(key: string)

  predicate Enabled(s: State, step: Step) {
    match step
    case StoreSet(i, key, _, _, notifies) =>
      i < |s.clients| && s.clients[i].Idle? && (notifies ==> key in s.live)
    case SetTags(i) => i < |s.clients| && s.clients[i].Tagging?
    case BeginFlush(i, _, _) => i < |s.clients| && s.clients[i].Idle?
    case PurgeTags(i, purged) =>
      i < |s.clients| && s.clients[i].Untagging? && multiset(purged) == PurgedKeys(s.index, s.clients[i].tags)
    case Delete(i) => i < |s.clients| && s.clients[i].Deleting? && s.clients[i].next < |s.clients[i].keys|
    case PurgeKeys(i) => i < |s.clients| && s.clients[i].Deleting? && s.clients[i].next == |s.clients[i].keys|
    case Evict(key) => key in s.live
    case Deliver(key) => key in s.pending
  }

  function Apply(s: State, step: Step): State
    requires Enabled(s, step)
  {
    match step
    case StoreSet(i, key, tags, added, notifies) =>
      s.(live := if added then s.live + {key} else s.live,
         pending := if notifies then s.pending + multiset{key} else s.pending,
         clients := s.clients[i := if |tags| > 0 then Tagging(key, tags) else Idle])
    case SetTags(i) =>
      s.(index := AfterSetTags(s.index, s.clients[i].key, s.clients[i].tags), clients := s.clients[i := Idle])
    case BeginFlush(i, key, tags) =>
      var named := if key != "" then [key] else [];
      s.(clients := s.clients[i := if |tags| > 0 then Untagging(named, tags) else Deleting(named, 0)])
    case PurgeTags(i, purged) =>
      s.(index := AfterPurgeTags(s.index, s.clients[i].tags),
         clients := s.clients[i := Deleting(s.clients[i].named + purged, 0)])
    case Delete(i) =>
      var key := s.clients[i].keys[s.clients[i].next];
      s.(live := s.live - {key},
         pending := if key in s.live then s.pending + multiset{key} else s.pending,
         clients := s.clients[i := s.clients[i].(next := s.clients[i].next + 1)])
    case PurgeKeys(i) =>
      s.(index := AfterPurgeKeys(s.index, s.clients[i].keys), clients := s.clients[i := Idle])
    case Evict(key) => s.(live := s.live - {key}, pending := s.pending + multiset{key})
    case Deliver(key) => s.(pending := s.pending - multiset{key}, index := AfterPurgeKeys(s.index, [key]))
  }

  function Start(n: nat): State {
    State({}, EMPTY, multiset{}, seq(n, _ => Idle))
  }

  ghost predicate Runs(s: State, steps: seq<Step>)
    decreases |steps|
  {
    steps == [] || (Enabled(s, steps[0]) && Runs(Apply(s, steps[0]), steps[1..]))
  }

  /** The state a run ends in. */
  ghost function After(s: State, steps: seq<Step>): State
    decreases |steps|
  {
    if steps == [] || !Enabled(s, steps[0]) then s else After(Apply(s, steps[0]), steps[1..])
  }

  // ------------------------------------------------------------------ the index is always well formed

  /** `set` calls setTags only when it was given a tag, and the loop of `flush` stays in its range. */
  ghost predicate Sane(s: State) {
    && WellFormed(s.index)
    && (forall i | 0 <= i < |s.clients| :: s.clients[i].Tagging? ==> s.clients[i].tags != [])
    && (forall i | 0 <= i < |s.clients| :: s.clients[i].Deleting? ==> s.clients[i].next <= |s.clients[i].keys|)
  }

  lemma SaneStep(s: State, step: Step)
    requires Sane(s) && Enabled(s, step)
    ensures Sane(Apply(s, step))
  {
    match step
    case SetTags(i) => SetTagsPairs(s.index, s.clients[i].key, s.clients[i].tags);
    case PurgeTags(i, _) => PurgeTagsPairs(s.index, s.clients[i].tags);
    case PurgeKeys(i) => PurgeKeysPairs(s.index, s.clients[i].keys);
    case Deliver(key) => PurgeKeysPairs(s.index, [key]);
    case _ =>
  }

  lemma {:induction false} SaneRun(s: State, steps: seq<Step>)
    requires Sane(s) && Runs(s, steps)
    ensures Sane(After(s, steps))
    decreases |steps|
  {
    if steps != [] {
      SaneStep(s, steps[0]);
      SaneRun(Apply(s, steps[0]), steps[1..]);
    }
  }

  /** In every interleaving the index is mirror-symmetric, has no empty row, and both sides count
      the same pairs; two interleavings that leave the same key-tag relation leave the same index. */
  lemma EveryInterleavingKeepsTheIndex(n: nat, steps: seq<Step>, n': nat, steps': seq<Step>)
    requires Runs(Start(n), steps) && Runs(Start(n'), steps')
    ensures var ix, ix' := After(Start(n), steps).index, After(Start(n'), steps').index;
            && WellFormed(ix)
            && Total(ix.tags) == Total(ix.keys) == |Pairs(ix.keys)|
            && (Pairs(ix.keys) == Pairs(ix'.keys) ==> ix == ix')
  {
    SaneRun(Start(n), steps);
    SaneRun(Start(n'), steps');
    var ix, ix' := After(Start(n), steps).index, After(Start(n'), steps').index;
    BothSidesCountPairs(ix);
    if Pairs(ix.keys) == Pairs(ix'.keys) {
      RelationDeterminesIndex(ix, ix');
    }
  }

  // ------------------------------------------------------------------ which keys are live, and what is reported

  predicate Stores(step: Step, key: string) {
    step.StoreSet? && step.key == key && step.added
  }

  /** The step deletes `key` from the store: the loop of a flush has come to it. */
  predicate Deletes(s: State, step: Step, key: string)
    requires Enabled(s, step)
  {
    step.Delete? && s.clients[step.i].keys[s.clients[step.i].next] == key
  }

  predicate TakesOut(s: State, step: Step, key: string)
    requires Enabled(s, step)
  {
    step == Evict(key) || Deletes(s, step, key)
  }

  lemma LiveStep(s: State, step: Step, key: string)
    requires Enabled(s, step)
    ensures key in Apply(s, step).live <==> Stores(step, key) || (key in s.live && !TakesOut(s, step, key))
  {
  }

  ghost predicate NeverTakenOut(s: State, steps: seq<Step>, key: string)
    requires Runs(s, steps)
    decreases |steps|
  {
    steps == [] || (!TakesOut(s, steps[0], key) && NeverTakenOut(Apply(s, steps[0]), steps[1..], key))
  }

  /** Some step of the run stores the key, and no later step evicts or deletes it. */
  ghost predicate StoredForGood(s: State, steps: seq<Step>, key: string)
    requires Runs(s, steps)
    decreases |steps|
  {
    && steps != []
    && var s' := Apply(s, steps[0]);
       || (Stores(steps[0], key) && NeverTakenOut(s', steps[1..], key))
       || StoredForGood(s', steps[1..], key)
  }

  lemma {:induction false} LiveInRun(s: State, steps: seq<Step>, key: string)
    requires Runs(s, steps)
    ensures key in After(s, steps).live <==>
            StoredForGood(s, steps, key) || (key in s.live && NeverTakenOut(s, steps, key))
    decreases |steps|
  {
    if steps != [] {
      LiveStep(s, steps[0], key);
      LiveInRun(Apply(s, steps[0]), steps[1..], key);
    }
  }

  /** In every interleaving a key is live if and only if some `set` stored it and nothing evicted or
      deleted it after that. */
  lemma LiveKeys(n: nat, steps: seq<Step>, key: string)
    requires Runs(Start(n), steps)
    ensures key in After(Start(n), steps).live <==> StoredForGood(Start(n), steps, key)
  {
    LiveInRun(Start(n), steps, key);
  }

  /** How often the key came to life in the run, plus how often a replaced value was to be reported. */
  ghost function Lives(s: State, steps: seq<Step>, key: string): nat
    requires Runs(s, steps)
    decreases |steps|
  {
    if steps == [] then 0
    else
      (if Stores(steps[0], key) && key !in s.live then 1 else 0)
      + (if steps[0].StoreSet? && steps[0].key == key && steps[0].notifies then 1 else 0)
      + Lives(Apply(s, steps[0]), steps[1..], key)
  }

  function Deliveries(steps: seq<Step>, key: string): nat {
    if steps == [] then 0 else (if steps[0] == Deliver(key) then 1 else 0) + Deliveries(steps[1..], key)
  }

  function Owing(s: State, key: string): nat {
    s.pending[key] + if key in s.live then 1 else 0
  }

  lemma OwingStep(s: State, step: Step, key: string)
    requires Enabled(s, step)
    ensures Owing(Apply(s, step), key) + (if step == Deliver(key) then 1 else 0)
         == Owing(s, key)
          + (if Stores(step, key) && key !in s.live then 1 else 0)
          + (if step.StoreSet? && step.key == key && step.notifies then 1 else 0)
  {
  }

  lemma {:induction false} OwingRun(s: State, steps: seq<Step>, key: string)
    requires Runs(s, steps)
    ensures Deliveries(steps, key) + Owing(After(s, steps), key) == Owing(s, key) + Lives(s, steps, key)
    decreases |steps|
  {
    if steps != [] {
      OwingStep(s, steps[0], key);
      OwingRun(Apply(s, steps[0]), steps[1..], key);
    }
  }

  /** In every interleaving each life of a key, and each replacement that is to be reported, is reported
      exactly once: it has been delivered, is waiting, or the key is still live. */
  lemma EveryLifeIsReportedOnce(n: nat, steps: seq<Step>, key: string)
    requires Runs(Start(n), steps)
    ensures var s := After(Start(n), steps);
            Deliveries(steps, key) + s.pending[key] + (if key in s.live then 1 else 0) == Lives(Start(n), steps, key)
  {
    OwingRun(Start(n), steps, key);
  }

  // ------------------------------------------------------------------ one set, one flush, among the others

  predicate ByClient(step: Step, i: nat) {
    !step.Evict? && !step.Deliver? && step.i == i
  }

  predicate WithoutClient(steps: seq<Step>, i: nat) {
    forall step | step in steps :: !ByClient(step, i)
  }

  lemma {:induction false} ClientWaits(s: State, steps: seq<Step>, i: nat)
    requires Runs(s, steps) && WithoutClient(steps, i) && i < |s.clients|
    ensures |After(s, steps).clients| == |s.clients| && After(s, steps).clients[i] == s.clients[i]
    decreases |steps|
  {
    if steps != [] {
      assert steps[0] in steps && forall step | step in steps[1..] :: step in steps;
      ClientWaits(Apply(s, steps[0]), steps[1..], i);
    }
  }

  /** Whatever the others do after its `store.Set`, a client given tags comes to its `setTags`, which
      indexes the key under all of them; without tags it is done. */
  lemma SetTagsWhatItWasGiven(s: State, set': Step, others: seq<Step>)
    requires Sane(s) && set'.StoreSet? && Enabled(s, set')
    requires Runs(Apply(s, set'), others) && WithoutClient(others, set'.i)
    ensures var s' := After(Apply(s, set'), others);
            if set'.tags == [] then set'.i < |s'.clients| && s'.clients[set'.i].Idle?
            else
              && Enabled(s', SetTags(set'.i))
              && Apply(s', SetTags(set'.i)).clients[set'.i].Idle?
              && forall t | t in set'.tags :: Has(Apply(s', SetTags(set'.i)).index.keys, set'.key, t)
  {
    var s1 := Apply(s, set');
    SaneStep(s, set');
    SaneRun(s1, others);
    ClientWaits(s1, others, set'.i);
    if set'.tags != [] {
      var s' := After(s1, others);
      SetTagsPairs(s'.index, set'.key, set'.tags);
    }
  }

  lemma {:induction false} Listing(m: multiset<string>) returns (xs: seq<string>)
    ensures multiset(xs) == m
    decreases |m|
  {
    if m == multiset{} {
      xs := [];
    } else {
      var x :| x in m;
      var rest := Listing(m - multiset{x});
      xs := rest + [x];
      assert m == (m - multiset{x}) + multiset{x};
    }
  }

  /** In every reachable state a client in the middle of a `set` or a `flush` has a next step. */
  lemma ClientIsNeverStuck(n: nat, steps: seq<Step>, i: nat)
    requires Runs(Start(n), steps) && i < |After(Start(n), steps).clients|
    ensures exists step :: ByClient(step, i) && Enabled(After(Start(n), steps), step)
  {
    SaneRun(Start(n), steps);
    var s := After(Start(n), steps);
    match s.clients[i] {
      case Idle => assert Enabled(s, BeginFlush(i, "", [])) && ByClient(BeginFlush(i, "", []), i);
      case Tagging(_, _) => assert Enabled(s, SetTags(i)) && ByClient(SetTags(i), i);
      case Untagging(_, tags) =>
        var purged := Listing(PurgedKeys(s.index, tags));
        assert Enabled(s, PurgeTags(i, purged)) && ByClient(PurgeTags(i, purged), i);
      case Deleting(keys, next) =>
        var step := if next < |keys| then Delete(i) else PurgeKeys(i);
        assert Enabled(s, step) && ByClient(step, i);
    }
  }

  /** Whatever the others do after a flush by tags has begun, its `purgeTags` returns exactly the keys that
      carry one of these tags by then, and none of them carries one of the tags any more. */
  lemma FlushUntags(s: State, flush: Step, others: seq<Step>, purged: seq<string>)
    requires Sane(s) && flush.BeginFlush? && flush.tags != [] && Enabled(s, flush)
    requires Runs(Apply(s, flush), others) && WithoutClient(others, flush.i)
    requires multiset(purged) == PurgedKeys(After(Apply(s, flush), others).index, flush.tags)
    ensures var s' := After(Apply(s, flush), others);
            && Enabled(s', PurgeTags(flush.i, purged))
            && (forall k :: k in purged <==> exists t :: t in flush.tags && Has(s'.index.keys, k, t))
            && (forall k, t | t in flush.tags :: !Has(Apply(s', PurgeTags(flush.i, purged)).index.keys, k, t))
  {
    var s1 := Apply(s, flush);
    SaneStep(s, flush);
    SaneRun(s1, others);
    ClientWaits(s1, others, flush.i);
    var s' := After(s1, others);
    PurgeTagsPairs(s'.index, flush.tags);
    forall k
      ensures k in purged <==> exists t :: t in flush.tags && Has(s'.index.keys, k, t)
    {
      PurgeReturnsExactly(s'.index, flush.tags, purged, k);
    }
  }

  lemma PurgeReturnsExactly(ix: Index, tags: seq<string>, purged: seq<string>, key: string)
    requires Mirror(ix) && multiset(purged) == PurgedKeys(ix, tags)
    ensures key in purged <==> exists t :: t in tags && Has(ix.keys, key, t)
  {
    PurgedMultiplicity(ix, tags, key);
    var carried := set t | t in tags && Has(ix.keys, key, t);
    assert multiset(purged)[key] == |carried|;
    if t :| t in tags && Has(ix.keys, key, t) {
      assert t in carried && |carried| > 0;
    } else {
      assert carried == {};
    }
  }

  predicate Stored(steps: seq<Step>, key: string) {
    exists j :: 0 <= j < |steps| && Stores(steps[j], key)
  }

  /** The run deletes the key for client i, and a later step stores it again. */
  ghost predicate StoredAfterDelete(s: State, steps: seq<Step>, i: nat, key: string)
    requires Runs(s, steps)
    decreases |steps|
  {
    && steps != []
    && (|| (steps[0] == Delete(i) && Deletes(s, steps[0], key) && Stored(steps[1..], key))
        || StoredAfterDelete(Apply(s, steps[0]), steps[1..], i, key))
  }

  lemma {:induction false} LiveNeedsStore(s: State, steps: seq<Step>, key: string)
    requires Runs(s, steps) && key !in s.live && key in After(s, steps).live
    ensures Stored(steps, key)
    decreases |steps|
  {
    if steps != [] {
      LiveStep(s, steps[0], key);
      if !Stores(steps[0], key) {
        LiveNeedsStore(Apply(s, steps[0]), steps[1..], key);
        var j :| 0 <= j < |steps[1..]| && Stores(steps[1..][j], key);
        assert Stores(steps[j + 1], key);
      }
    }
  }

  /** What the next `purgeTags` of client i returns in the run. */
  function Returned(steps: seq<Step>, i: nat): seq<string> {
    if steps == [] then []
    else if steps[0].PurgeTags? && steps[0].i == i then steps[0].purged
    else Returned(steps[1..], i)
  }

  /** The flush of client i still has to delete the key: it has named it, `purgeTags` has returned it,
      or will return it in the run. */
  predicate ToDelete(c: Client, steps: seq<Step>, i: nat, key: string) {
    match c
    case Untagging(named, _) => key in named || key in Returned(steps, i)
    case Deleting(keys, next) => next <= |keys| && key in keys[next..]
    case _ => false
  }

  lemma {:induction false} DeletedByTheEnd(s: State, steps: seq<Step>, i: nat, key: string)
    requires Runs(s, steps) && PurgeKeys(i) !in steps && i < |s.clients|
    requires ToDelete(s.clients[i], steps, i, key) && Enabled(After(s, steps), PurgeKeys(i))
    ensures key in After(s, steps).live ==> StoredAfterDelete(s, steps, i, key)
    decreases |steps|
  {
    if steps != [] {
      var step, rest := steps[0], steps[1..];
      var s' := Apply(s, step);
      assert step in steps && forall x | x in rest :: x in steps;
      if step == Delete(i) && Deletes(s, step, key) {
        if key in After(s, steps).live {
          LiveNeedsStore(s', rest, key);
        }
      } else {
        StillToDelete(s, steps, i, key);
        DeletedByTheEnd(s', rest, i, key);
      }
    }
  }

  lemma StillToDelete(s: State, steps: seq<Step>, i: nat, key: string)
    requires steps != [] && Enabled(s, steps[0]) && steps[0] != PurgeKeys(i) && i < |s.clients|
    requires ToDelete(s.clients[i], steps, i, key) && !(steps[0] == Delete(i) && Deletes(s, steps[0], key))
    ensures var s' := Apply(s, steps[0]);
            i < |s'.clients| && ToDelete(s'.clients[i], steps[1..], i, key)
  {
    var step, c := steps[0], s.clients[i];
    if step == Delete(i) {
      assert c.keys[c.next..] == [c.keys[c.next]] + c.keys[c.next + 1..];
    }
  }

  /** When a flush has come to its end, no key that it named or its `purgeTags` returned is live, unless
      it was stored again after the flush had deleted it; then `purgeKeys` takes each of them out of the
      index. */
  lemma FlushedKeysAreGone(s: State, flush: Step, steps: seq<Step>, key: string)
    requires Sane(s) && flush.BeginFlush? && Enabled(s, flush)
    requires Runs(Apply(s, flush), steps) && PurgeKeys(flush.i) !in steps
    requires Enabled(After(Apply(s, flush), steps), PurgeKeys(flush.i))
    requires (key == flush.key && key != "") || (flush.tags != [] && key in Returned(steps, flush.i))
    ensures var s' := After(Apply(s, flush), steps);
            && (key in s'.live ==> StoredAfterDelete(Apply(s, flush), steps, flush.i, key))
            && Apply(s', PurgeKeys(flush.i)).clients[flush.i].Idle?
            && forall t :: !Has(Apply(s', PurgeKeys(flush.i)).index.keys, key, t)
  {
    var s1 := Apply(s, flush);
    DeletedByTheEnd(s1, steps, flush.i, key);
    NamedToTheEnd(s1, steps, flush.i, key);
    SaneStep(s, flush);
    SaneRun(s1, steps);
    var s' := After(s1, steps);
    PurgeKeysPairs(s'.index, s'.clients[flush.i].keys);
  }

  /** The flush of client i names the key, its `purgeTags` has returned it, or will return it in the run. */
  predicate Concerns(c: Client, steps: seq<Step>, i: nat, key: string) {
    match c
    case Untagging(named, _) => key in named || key in Returned(steps, i)
    case Deleting(keys, _) => key in keys
    case _ => false
  }

  lemma {:induction false} NamedToTheEnd(s: State, steps: seq<Step>, i: nat, key: string)
    requires Runs(s, steps) && PurgeKeys(i) !in steps && i < |s.clients| && Concerns(s.clients[i], steps, i, key)
    ensures |After(s, steps).clients| == |s.clients| && Concerns(After(s, steps).clients[i], [], i, key)
    decreases |steps|
  {
    if steps != [] {
      assert steps[0] in steps && forall x | x in steps[1..] :: x in steps;
      NamedToTheEnd(Apply(s, steps[0]), steps[1..], i, key);
    }
  }

  /** What a flush may delete: what it has named, and what its `purgeTags` has returned or will return. */
  ghost predicate OnlyOf(c: Client, steps: seq<Step>, i: nat, keys: set<string>) {
    match c
    case Untagging(named, _) => (forall k | k in named :: k in keys) && forall k | k in Returned(steps, i) :: k in keys
    case Deleting(ks, next) => forall k | k in ks :: k in keys
    case _ => true
  }

  /** Every key that client i deletes or purges from the index in the run is one of `keys`. */
  ghost predicate TouchesOnly(s: State, steps: seq<Step>, i: nat, keys: set<string>)
    requires Runs(s, steps)
    decreases |steps|
  {
    steps != [] ==>
      && (steps[0] == Delete(i) ==> s.clients[i].keys[s.clients[i].next] in keys)
      && (steps[0] == PurgeKeys(i) ==> forall k | k in s.clients[i].keys :: k in keys)
      && TouchesOnly(Apply(s, steps[0]), steps[1..], i, keys)
  }

  predicate BeginsFor(step: Step, i: nat) {
    ByClient(step, i) && (step.StoreSet? || step.BeginFlush?)
  }

  lemma {:induction false} FlushTouches(s: State, steps: seq<Step>, i: nat, keys: set<string>)
    requires Runs(s, steps) && i < |s.clients| && OnlyOf(s.clients[i], steps, i, keys)
    requires forall step | step in steps :: !BeginsFor(step, i)
    ensures TouchesOnly(s, steps, i, keys)
    decreases |steps|
  {
    if steps != [] {
      assert steps[0] in steps && forall x | x in steps[1..] :: x in steps;
      FlushTouches(Apply(s, steps[0]), steps[1..], i, keys);
    }
  }

  /** A flush deletes, and takes out of the index, no key but the one it named and those its `purgeTags`
      returned. */
  lemma FlushTouchesNoOther(s: State, flush: Step, steps: seq<Step>)
    requires flush.BeginFlush? && Enabled(s, flush) && Runs(Apply(s, flush), steps)
    requires forall step | step in steps :: !BeginsFor(step, flush.i)
    ensures TouchesOnly(Apply(s, flush), steps, flush.i,
                        (if flush.key != "" then {flush.key} else {})
                        + (if flush.tags != [] then (set k | k in Returned(steps, flush.i)) else {}))
  {
    FlushTouches(Apply(s, flush), steps, flush.i,
                 (if flush.key != "" then {flush.key} else {})
                 + (if flush.tags != [] then (set k | k in Returned(steps, flush.i)) else {}));
  }

  // ------------------------------------------------------------------ does the index track the store?

  /** The keys a flush in progress has still to purge from the index. */
  function Doomed(c: Client): seq<string> {
    match c
    case Untagging(named, _) => named
    case Deleting(keys, _) => keys
    case _ => []
  }

  /** `key` is live, or its removal is already under way. */
  ghost predicate Covered(s: State, key: string) {
    key in s.live || key in s.pending || exists i :: 0 <= i < |s.clients| && key in Doomed(s.clients[i])
  }

  ghost predicate Tracks(s: State) {
    forall key | key in s.index.keys :: Covered(s, key)
  }

  /** The one harmful step: a `set` tags its key after the key has been stored, evicted and its
      notification delivered (or after the store refused it). */
  ghost predicate TagsDeadKey(s: State, step: Step)
    requires Enabled(s, step)
  {
    step.SetTags? && !Covered(s, s.clients[step.i].key)
  }

  /** What one step does to the indexed keys. */
  lemma IndexedKeys(s: State, step: Step)
    requires Sane(s) && Enabled(s, step)
    ensures var s' := Apply(s, step);
            forall key | key in s'.index.keys ::
              && (key in s.index.keys || (step.SetTags? && key == s.clients[step.i].key))
              && (step.Deliver? ==> key != step.key)
              && (step.PurgeKeys? ==> key !in s.clients[step.i].keys)
    ensures step.SetTags? ==> s.clients[step.i].key in Apply(s, step).index.keys
  {
    var s' := Apply(s, step);
    SaneStep(s, step);
    match step {
      case SetTags(i) =>
        SetTagsPairs(s.index, s.clients[i].key, s.clients[i].tags);
        var t := s.clients[i].tags[0];
        assert Has(s'.index.keys, s.clients[i].key, t);
      case PurgeTags(i, _) => PurgeTagsPairs(s.index, s.clients[i].tags);
      case PurgeKeys(i) => PurgeKeysPairs(s.index, s.clients[i].keys);
      case Deliver(key) => PurgeKeysPairs(s.index, [key]);
      case _ =>
    }
    forall key | key in s'.index.keys
      ensures key in s.index.keys || (step.SetTags? && key == s.clients[step.i].key)
      ensures step.Deliver? ==> key != step.key
      ensures step.PurgeKeys? ==> key !in s.clients[step.i].keys
    {
      var t :| t in s'.index.keys[key];
      assert Has(s'.index.keys, key, t);
    }
  }

  /** A step loses the cover only of a key it purges from the index at the same time. */
  lemma CoverStays(s: State, step: Step, key: string)
    requires Enabled(s, step) && Covered(s, key)
    requires step.Deliver? ==> key != step.key
    requires step.PurgeKeys? ==> key !in s.clients[step.i].keys
    ensures Covered(Apply(s, step), key)
  {
    var s' := Apply(s, step);
    if key !in s.live && key !in s.pending {
      var i :| 0 <= i < |s.clients| && key in Doomed(s.clients[i]);
      assert key in Doomed(s'.clients[i]);
    }
  }

  /** From a state that tracks the store, a step leads to one that does if and only if it is not a
      `setTags` for a dead key. */
  lemma TracksStep(s: State, step: Step)
    requires Sane(s) && Tracks(s) && Enabled(s, step)
    ensures Tracks(Apply(s, step)) <==> !TagsDeadKey(s, step)
  {
    var s' := Apply(s, step);
    IndexedKeys(s, step);
    if TagsDeadKey(s, step) {
      var key := s.clients[step.i].key;
      assert forall i | 0 <= i < |s.clients| :: Doomed(s'.clients[i]) == Doomed(s.clients[i]);
      assert !Covered(s', key);
    } else {
      forall key | key in s'.index.keys
        ensures Covered(s', key)
      {
        CoverStays(s, step, key);
      }
    }
  }

  /** `key` is indexed, and neither live nor on its way out. */
  ghost predicate Stale(s: State, key: string) {
    key in s.index.keys && !Covered(s, key)
  }

  ghost predicate TagsDead(s: State, step: Step, key: string)
    requires Enabled(s, step)
  {
    TagsDeadKey(s, step) && s.clients[step.i].key == key
  }

  /** The step stores the key again, or begins to flush it. */
  predicate Revives(s: State, step: Step, key: string)
    requires Enabled(s, step)
  {
    || (step.StoreSet? && step.key == key && step.added)
    || (step.BeginFlush? && step.key == key && key != "")
    || (step.PurgeTags? && key in step.purged)
  }

  lemma StaleStep(s: State, step: Step, key: string)
    requires Sane(s) && Enabled(s, step)
    ensures Stale(Apply(s, step), key) <==> TagsDead(s, step, key) || (Stale(s, key) && !Revives(s, step, key))
  {
    var s' := Apply(s, step);
    if Covered(s, key) {
      StaysCovered(s, step, key);
    } else {
      CoveredAgain(s, step, key);
      if !Revives(s, step, key) {
        StaysIndexed(s, step, key);
      }
    }
  }

  /** A covered key does not go stale. */
  lemma StaysCovered(s: State, step: Step, key: string)
    requires Sane(s) && Enabled(s, step) && Covered(s, key)
    ensures !Stale(Apply(s, step), key)
  {
    IndexedKeys(s, step);
    if key in Apply(s, step).index.keys {
      CoverStays(s, step, key);
    }
  }

  /** An uncovered key is covered again exactly by the steps that revive it. */
  lemma CoveredAgain(s: State, step: Step, key: string)
    requires Enabled(s, step) && !Covered(s, key)
    ensures Covered(Apply(s, step), key) <==> Revives(s, step, key)
  {
    var s' := Apply(s, step);
    assert forall i | 0 <= i < |s.clients| :: key !in Doomed(s.clients[i]);
    if Revives(s, step, key) && !step.StoreSet? {
      assert key in Doomed(s'.clients[step.i]);
    }
  }

  /** An uncovered key leaves the index only by a purge of its tags that returns it. */
  lemma StaysIndexed(s: State, step: Step, key: string)
    requires Sane(s) && Enabled(s, step) && !Covered(s, key) && !Revives(s, step, key)
    ensures key in Apply(s, step).index.keys <==> key in s.index.keys || TagsDead(s, step, key)
  {
    IndexedKeys(s, step);
    if key in s.index.keys {
      var t :| t in s.index.keys[key];
      assert Has(s.index.keys, key, t);
      PairStep(s, step, key, t);
      if step.PurgeTags? {
        PurgeReturnsExactly(s.index, s.clients[step.i].tags, step.purged, key);
      } else if step.PurgeKeys? {
        assert key !in Doomed(s.clients[step.i]);
      }
    }
  }

  ghost predicate NeverRevived(s: State, steps: seq<Step>, key: string)
    requires Runs(s, steps)
    decreases |steps|
  {
    steps == [] || (!Revives(s, steps[0], key) && NeverRevived(Apply(s, steps[0]), steps[1..], key))
  }

  /** Some step of the run tags the key while it is dead, and no later step stores or flushes it. */
  ghost predicate TaggedDeadForGood(s: State, steps: seq<Step>, key: string)
    requires Runs(s, steps)
    decreases |steps|
  {
    && steps != []
    && var s' := Apply(s, steps[0]);
       || (TagsDead(s, steps[0], key) && NeverRevived(s', steps[1..], key))
       || TaggedDeadForGood(s', steps[1..], key)
  }

  lemma {:induction false} StaleRun(s: State, steps: seq<Step>, key: string)
    requires Sane(s) && Runs(s, steps)
    ensures Stale(After(s, steps), key) <==>
            TaggedDeadForGood(s, steps, key) || (Stale(s, key) && NeverRevived(s, steps, key))
    decreases |steps|
  {
    if steps != [] {
      SaneStep(s, steps[0]);
      StaleStep(s, steps[0], key);
      StaleRun(Apply(s, steps[0]), steps[1..], key);
    }
  }

  ghost predicate Quiet(s: State) {
    s.pending == multiset{} && forall i | 0 <= i < |s.clients| :: s.clients[i].Idle?
  }

  /** The run, from the start, tags the key while it is dead and leaves it at that. */
  ghost predicate LeftDead(n: nat, steps: seq<Step>, key: string)
    requires Runs(Start(n), steps)
  {
    TaggedDeadForGood(Start(n), steps, key)
  }

  /** Over every run: once every client is idle and every notification delivered, all indexed keys are
      live if and only if no `set` tagged a dead key that was neither stored nor flushed after that. */
  lemma QuietIndexIsLive(n: nat, steps: seq<Step>)
    requires Runs(Start(n), steps) && Quiet(After(Start(n), steps))
    ensures After(Start(n), steps).index.keys.Keys <= After(Start(n), steps).live <==>
            forall key :: !LeftDead(n, steps, key)
  {
    var s := After(Start(n), steps);
    forall key
      ensures LeftDead(n, steps, key) <==> Stale(s, key)
      ensures Covered(s, key) <==> key in s.live
    {
      StaleRun(Start(n), steps, key);
    }
    if s.index.keys.Keys <= s.live {
      forall key
        ensures !LeftDead(n, steps, key)
      {
        assert key in s.index.keys.Keys ==> Covered(s, key);
      }
    } else {
      var key :| key in s.index.keys.Keys && key !in s.live;
      assert !Covered(s, key) && Stale(s, key);
      assert LeftDead(n, steps, key);
    }
  }

  // ------------------------------------------------------------------ which pairs are in the index?

  /** The step is a `setTags` that names the pair. */
  predicate Adds(s: State, step: Step, key: string, tag: string)
    requires Enabled(s, step)
  {
    step.SetTags? && s.clients[step.i].key == key && tag in s.clients[step.i].tags
  }

  /** The step is a notification about the key, or the part of a flush that purges the key or the tag. */
  predicate Removes(s: State, step: Step, key: string, tag: string)
    requires Enabled(s, step)
  {
    || (step.Deliver? && step.key == key)
    || (step.PurgeTags? && tag in s.clients[step.i].tags)
    || (step.PurgeKeys? && key in s.clients[step.i].keys)
  }

  lemma PairStep(s: State, step: Step, key: string, tag: string)
    requires Sane(s) && Enabled(s, step)
    ensures Has(Apply(s, step).index.keys, key, tag) <==>
            Adds(s, step, key, tag) || (Has(s.index.keys, key, tag) && !Removes(s, step, key, tag))
  {
    match step
    case SetTags(i) => SetTagsPairs(s.index, s.clients[i].key, s.clients[i].tags);
    case PurgeTags(i, _) => PurgeTagsPairs(s.index, s.clients[i].tags);
    case PurgeKeys(i) => PurgeKeysPairs(s.index, s.clients[i].keys);
    case Deliver(k) => PurgeKeysPairs(s.index, [k]);
    case _ =>
  }

  /** No step of the run removes the pair. */
  ghost predicate NeverRemoved(s: State, steps: seq<Step>, key: string, tag: string)
    requires Runs(s, steps)
    decreases |steps|
  {
    steps == [] || (!Removes(s, steps[0], key, tag) && NeverRemoved(Apply(s, steps[0]), steps[1..], key, tag))
  }

  ghost predicate NeverAdded(s: State, steps: seq<Step>, key: string, tag: string)
    requires Runs(s, steps)
    decreases |steps|
  {
    steps == [] || (!Adds(s, steps[0], key, tag) && NeverAdded(Apply(s, steps[0]), steps[1..], key, tag))
  }

  /** Some step of the run puts the pair in, and no later step removes it. */
  ghost predicate AddedForGood(s: State, steps: seq<Step>, key: string, tag: string)
    requires Runs(s, steps)
    decreases |steps|
  {
    && steps != []
    && var s' := Apply(s, steps[0]);
       || (Adds(s, steps[0], key, tag) && NeverRemoved(s', steps[1..], key, tag))
       || AddedForGood(s', steps[1..], key, tag)
  }

  lemma {:induction false} PairsInRun(s: State, steps: seq<Step>, key: string, tag: string)
    requires Sane(s) && Runs(s, steps)
    ensures Has(After(s, steps).index.keys, key, tag) <==>
            AddedForGood(s, steps, key, tag) || (Has(s.index.keys, key, tag) && NeverRemoved(s, steps, key, tag))
    decreases |steps|
  {
    if steps != [] {
      SaneStep(s, steps[0]);
      PairStep(s, steps[0], key, tag);
      PairsInRun(Apply(s, steps[0]), steps[1..], key, tag);
    }
  }

  lemma {:induction false} NotAddedForGood(s: State, steps: seq<Step>, key: string, tag: string)
    requires Runs(s, steps) && NeverAdded(s, steps, key, tag)
    ensures !AddedForGood(s, steps, key, tag)
    decreases |steps|
  {
    if steps != [] {
      NotAddedForGood(Apply(s, steps[0]), steps[1..], key, tag);
    }
  }

  /** In every interleaving a pair is in the index if and only if some `setTags` put it there and no
      notification about its key, and no purge by its key or its tag, came after that. */
  lemma IndexedPairs(n: nat, steps: seq<Step>, key: string, tag: string)
    requires Runs(Start(n), steps)
    ensures Has(After(Start(n), steps).index.keys, key, tag) <==> AddedForGood(Start(n), steps, key, tag)
  {
    PairsInRun(Start(n), steps, key, tag);
  }

  /** A pair that the run `before` left in the index survives a further run that does not add it again
      if and only if that run delivers no notification about its key and purges neither its key nor
      its tag. */
  lemma PairSurvives(n: nat, before: seq<Step>, later: seq<Step>, key: string, tag: string)
    requires Runs(Start(n), before) && Has(After(Start(n), before).index.keys, key, tag)
    requires Runs(After(Start(n), before), later) && NeverAdded(After(Start(n), before), later, key, tag)
    ensures var s := After(Start(n), before);
            Has(After(s, later).index.keys, key, tag) <==> NeverRemoved(s, later, key, tag)
  {
    SaneRun(Start(n), before);
    PairsInRun(After(Start(n), before), later, key, tag);
    NotAddedForGood(After(Start(n), before), later, key, tag);
  }

  lemma Then(s: State, step: Step, rest: seq<Step>)
    requires Enabled(s, step) && Runs(Apply(s, step), rest)
    ensures Runs(s, [step] + rest) && After(s, [step] + rest) == After(Apply(s, step), rest)
  {
    assert ([step] + rest)[1..] == rest;
  }

  lemma PurgeOne(ix: Index, key: string)
    ensures AfterPurgeKeys(ix, [key]) == DropKey(ix, key)
  {
    assert [key][1..] == [];
  }

  // ------------------------------------------------------------------ why the hypotheses are needed

  /** A key that is gone and about to be reported is tagged only after the report. */
  lemma NotifiedThenTagged(s: State, key: string, tag: string)
    requires s == State({}, EMPTY, multiset{key}, [Tagging(key, [tag])])
    ensures var steps := [Deliver(key), SetTags(0)];
            && Runs(s, steps) && Quiet(After(s, steps))
            && key !in After(s, steps).live && Has(After(s, steps).index.keys, key, tag)
  {
    var s1 := Apply(s, Deliver(key));
    PurgeOne(EMPTY, key);
    assert s1 == State({}, EMPTY, multiset{}, [Tagging(key, [tag])]);
    SetTagsPairs(EMPTY, key, [tag]);
    assert tag in [tag];
    Then(s1, SetTags(0), []);
    Then(s, Deliver(key), [SetTags(0)]);
  }

  /** A dead key can stay indexed for ever: stored, evicted, notified, and only then tagged. */
  lemma DeadKeyCanStayIndexed(key: string, tag: string)
    ensures var steps := [StoreSet(0, key, [tag], true, false), Evict(key), Deliver(key), SetTags(0)];
            && Runs(Start(1), steps)
            && Quiet(After(Start(1), steps))
            && Has(After(Start(1), steps).index.keys, key, tag)
            && key !in After(Start(1), steps).live
  {
    var store, evict, rest := StoreSet(0, key, [tag], true, false), Evict(key), [Deliver(key), SetTags(0)];
    var s1 := Apply(Start(1), store);
    var s2 := Apply(s1, evict);
    NotifiedThenTagged(s2, key, tag);
    Then(s1, evict, rest);
    Then(Start(1), store, [evict] + rest);
    assert [store] + ([evict] + rest) == [store, evict, rest[0], rest[1]];
  }

  /** With a notification about a replaced or evicted value of `key` still to come, setting and tagging
      the key (again) before it is delivered leaves the key live and untagged. */
  lemma TaggedThenNotified(s: State, key: string, tag: string, notifies: bool)
    requires WellFormed(s.index)
    requires s.clients == [Idle] && (notifies ==> key in s.live)
    requires s.pending == if notifies then multiset{} else multiset{key}
    ensures var steps := [StoreSet(0, key, [tag], true, notifies), SetTags(0), Deliver(key)];
            && Runs(s, steps) && Quiet(After(s, steps))
            && key in After(s, steps).live && !Has(After(s, steps).index.keys, key, tag)
  {
    var store, tagging, deliver := StoreSet(0, key, [tag], true, notifies), SetTags(0), Deliver(key);
    var s1 := Apply(s, store);
    var s2 := Apply(s1, tagging);
    var s3 := Apply(s2, deliver);
    assert s2.pending == multiset{key} && s3.pending == multiset{};
    Untagged(s.index, key, [tag]);
    Then(s2, deliver, []);
    Then(s1, tagging, [deliver]);
    Then(s, store, [tagging, deliver]);
  }

  lemma Untagged(ix: Index, key: string, tags: seq<string>)
    requires WellFormed(ix)
    ensures key !in AfterPurgeKeys(AfterSetTags(ix, key, tags), [key]).keys
  {
    PurgeOne(AfterSetTags(ix, key, tags), key);
  }

  /** A live key can lose its tags: a notification about its previous life arrives after it was set
      and tagged again, and a flush by that tag then misses it. */
  lemma LateNotificationUntagsLiveKey(key: string, tag: string)
    ensures var steps := [StoreSet(0, key, [], true, false), Evict(key),
                          StoreSet(0, key, [tag], true, false), SetTags(0), Deliver(key)];
            && Runs(Start(1), steps)
            && Quiet(After(Start(1), steps))
            && key in After(Start(1), steps).live
            && !Has(After(Start(1), steps).index.keys, key, tag)
  {
    var rest := [StoreSet(0, key, [tag], true, false), SetTags(0), Deliver(key)];
    var store, evict := StoreSet(0, key, [], true, false), Evict(key);
    var s1 := Apply(Start(1), store);
    var s2 := Apply(s1, evict);
    TaggedThenNotified(s2, key, tag, false);
    Then(s1, evict, rest);
    Then(Start(1), store, [evict] + rest);
    assert [store] + ([evict] + rest) == [store, evict, rest[0], rest[1], rest[2]];
  }

  /** It takes no eviction and no second client: setting a tagged key a second time is enough, when the
      notification about the replaced value is delivered after the tagging. */
  lemma ReplacementUntagsLiveKey(key: string, tag: string)
    ensures var steps := [StoreSet(0, key, [tag], true, false), SetTags(0),
                          StoreSet(0, key, [tag], true, true), SetTags(0), Deliver(key)];
            && Runs(Start(1), steps)
            && Quiet(After(Start(1), steps))
            && key in After(Start(1), steps).live
            && !Has(After(Start(1), steps).index.keys, key, tag)
  {
    var rest := [StoreSet(0, key, [tag], true, true), SetTags(0), Deliver(key)];
    var store, tagging := StoreSet(0, key, [tag], true, false), SetTags(0);
    var s1 := Apply(Start(1), store);
    var s2 := Apply(s1, tagging);
    SetTagsPairs(EMPTY, key, [tag]);
    TaggedThenNotified(s2, key, tag, true);
    Then(s1, tagging, rest);
    Then(Start(1), store, [tagging] + rest);
    assert [store] + ([tagging] + rest) == [store, tagging, rest[0], rest[1], rest[2]];
  }
}
