/**
  The settings dialog's cache of device queries. One worker runs at most one query at a time;
  invalidation bumps an epoch, and a result of an older epoch is thrown away.

  Every method is one atomic step, taken under the cache's lock or, for the query itself, under
  the gate shared by old and new dialogs. The epoch is a 32-bit counter, so a query that sees
  2^32 invalidations, or a multiple of that, is taken for one of the current epoch.
*/
module ModeCache {
  import opened Wrappers

  const EPOCHS: nat := 0x1_0000_0000

  datatype Key = Key(device: nat, width: int, height: int)
  datatype Work = Work(key: Key, epoch: nat)
  datatype Worker = Waiting | Holding(work: Work) | Querying(work: Work) | Answered(work: Work, result: int) | Gone
  type Entry = (Key, int)

  datatype Invalidation = Everything | Device(device: nat)

  predicate Concerns(x: Invalidation, device: nat) {
    x.Everything? || x.device == device
  }

  /** How many of the invalidations from number `from` up to number `until` concern a device. */
  ghost function Relevant(log: seq<Invalidation>, from: nat, until: nat, device: nat): nat
    requires from <= until <= |log|
    decreases until
  {
    if from == until then 0 else Relevant(log, from, until - 1, device) + if Concerns(log[until - 1], device) then 1 else 0
  }

  /** What is remembered of a published query: its answer, and how many invalidations there had
      been when it was taken, when it began and when it was published. */
  datatype Answer = Answer(result: int, since: nat, began: nat, until: nat)

  ghost predicate Lists(cache: seq<Entry>, key: Key) {
    exists i :: 0 <= i < |cache| && cache[i].0 == key
  }

  ghost predicate Distinct(cache: seq<Entry>) {
    forall i, j :: 0 <= i < j < |cache| ==> cache[i].0 != cache[j].0
  }

  ghost predicate Undisturbed(log: seq<Invalidation>, from: nat, device: nat) {
    forall i :: from <= i < |log| ==> !Concerns(log[i], device)
  }

  /** The entry is what a query answered that began after everything that concerns its key. */
  ghost predicate Current(entry: Entry, answers: map<Key, Answer>, log: seq<Invalidation>) {
    entry.0 in answers && answers[entry.0].result == entry.1 && Undisturbed(log, answers[entry.0].began, entry.0.device)
  }

  /** The entry is the recorded answer, its epochs agreed, and nothing has concerned its key
      since it was published. */
  ghost predicate Recorded(entry: Entry, answers: map<Key, Answer>, log: seq<Invalidation>) {
    && entry.0 in answers
    && var a := answers[entry.0];
       && a.result == entry.1 && a.since <= a.began <= a.until <= |log|
       && (a.until - a.since) % EPOCHS == 0 && Undisturbed(log, a.until, entry.0.device)
  }

  ghost predicate AllRecorded(cache: seq<Entry>, answers: map<Key, Answer>, log: seq<Invalidation>) {
    forall i :: 0 <= i < |cache| ==> Recorded(cache[i], answers, log)
  }

  lemma {:induction false} RelevantNone(log: seq<Invalidation>, from: nat, until: nat, device: nat)
    requires from <= until <= |log|
    ensures Relevant(log, from, until, device) <= until - from
    ensures Relevant(log, from, until, device) == 0 <==> forall i :: from <= i < until ==> !Concerns(log[i], device)
    decreases until
  {
    if from < until { RelevantNone(log, from, until - 1, device); }
  }

  /** A cached value is stale if and only if, between the start of its query and its publication,
      some invalidation concerned its key; and then at least 2^32 invalidations fell into it. */
  lemma StaleExactly(entry: Entry, answers: map<Key, Answer>, log: seq<Invalidation>)
    requires Recorded(entry, answers, log)
    ensures var a := answers[entry.0]; var relevant := Relevant(log, a.began, a.until, entry.0.device);
            (!Current(entry, answers, log) <==> relevant > 0) && (relevant > 0 ==> a.until - a.since >= EPOCHS)
    ensures var (key, a) := (entry.0, answers[entry.0]);
            && (Current(entry, answers, log) <==> forall i :: a.began <= i < |log| ==> log[i].Device? && log[i].device != key.device)
            && (Current(entry, answers, log) <==> forall i :: a.began <= i < a.until ==> log[i].Device? && log[i].device != key.device)
  {
    var a := answers[entry.0];
    RelevantNone(log, a.began, a.until, entry.0.device);
    hide Relevant;
  }

  /** Nothing is cached twice; pending work is not cached, nor is the active work, and the two
      differ while the active work's epoch is the current one. */
  ghost predicate Unique(cache: seq<Entry>, pending: Option<Work>, active: Option<Work>, epoch: nat) {
    && Distinct(cache)
    && (pending.Some? ==> !Lists(cache, pending.value.key))
    && (active.Some? ==> !Lists(cache, active.value.key))
    && (pending.Some? && active.Some? && active.value.epoch == epoch ==> pending.value.key != active.value.key)
  }

  function Without(cache: seq<Entry>, device: nat): seq<Entry> {
    if cache == [] then []
    else
      var rest := Without(cache[..|cache| - 1], device);
      if cache[|cache| - 1].0.device == device then rest else rest + [cache[|cache| - 1]]
  }

  lemma {:induction false} WithoutKeeps(cache: seq<Entry>, device: nat)
    ensures forall e :: e in Without(cache, device) <==> e in cache && e.0.device != device
    ensures Distinct(cache) ==> Distinct(Without(cache, device))
  {
    if cache != [] {
      var front, last := cache[..|cache| - 1], cache[|cache| - 1];
      WithoutKeeps(front, device);
      assert cache == front + [last];
      if Distinct(cache) {
        forall j | 0 <= j < |Without(front, device)| ensures Without(front, device)[j].0 != last.0 {
          assert Without(front, device)[j] in front;
        }
      }
    }
  }

  /** Invalidating one device leaves the entries of the others, as they were recorded. */
  lemma InvalidationKeepsRecords(cache: seq<Entry>, answers: map<Key, Answer>, log: seq<Invalidation>, device: nat)
    requires AllRecorded(cache, answers, log)
    ensures AllRecorded(Without(cache, device), answers, log + [Device(device)])
  {
    hide Without;
    WithoutKeeps(cache, device);
    var kept := Without(cache, device);
    forall i | 0 <= i < |kept| ensures Recorded(kept[i], answers, log + [Device(device)]) {
      assert kept[i] in cache;
    }
  }

  lemma InvalidationKeepsUnique(cache: seq<Entry>, active: Option<Work>, device: nat, before: nat, after: nat)
    requires Unique(cache, None, active, before)
    ensures Unique(Without(cache, device), None, active, after)
  {
    WithoutKeeps(cache, device);
    var kept := Without(cache, device);
    if active.Some? {
      forall i | 0 <= i < |kept| ensures kept[i].0 != active.value.key {
        assert kept[i] in cache;
      }
    }
  }

  lemma PublishedOnce(cache: seq<Entry>, pending: Option<Work>, work: Work, result: int)
    requires Unique(cache, pending, Some(work), work.epoch)
    ensures Unique(cache + [(work.key, result)], pending, None, work.epoch)
  {
    var longer := cache + [(work.key, result)];
    if pending.Some? {
      forall i | 0 <= i < |longer| ensures longer[i].0 != pending.value.key {
        assert i < |cache| ==> longer[i] == cache[i];
      }
    }
  }

  lemma PublishedRecorded(cache: seq<Entry>, answers: map<Key, Answer>, log: seq<Invalidation>, key: Key, a: Answer)
    requires AllRecorded(cache, answers, log) && !Lists(cache, key)
    requires a.since <= a.began <= a.until == |log| && (a.until - a.since) % EPOCHS == 0
    ensures AllRecorded(cache + [(key, a.result)], answers[key := a], log)
  {
    var longer := cache + [(key, a.result)];
    forall i | 0 <= i < |longer| ensures Recorded(longer[i], answers[key := a], log) {
      if i < |cache| { assert longer[i] == cache[i] && Recorded(cache[i], answers, log); }
    }
  }

  /** Epochs agree exactly when a multiple of 2^32 invalidations lies between them. */
  lemma SameEpoch(since: nat, until: nat)
    requires since <= until
    ensures since % EPOCHS == until % EPOCHS <==> (until - since) % EPOCHS == 0
  {
    var rounds, rest := (until - since) / EPOCHS, (until - since) % EPOCHS;
    var own := since % EPOCHS;
    assert until == since / EPOCHS * EPOCHS + own + rounds * EPOCHS + rest;
    if own + rest < EPOCHS {
      assert until == (since / EPOCHS + rounds) * EPOCHS + (own + rest);
      Remainder(since / EPOCHS + rounds, own + rest);
    } else {
      assert until == (since / EPOCHS + rounds + 1) * EPOCHS + (own + rest - EPOCHS);
      Remainder(since / EPOCHS + rounds + 1, own + rest - EPOCHS);
    }
  }

  lemma Remainder(rounds: nat, rest: nat)
    requires rest < EPOCHS
    ensures (rounds * EPOCHS + rest) % EPOCHS == rest
  {
  }

  class Cache {
    var stopping: bool
    var epoch: nat
    var pending: Option<Work>
    var active: Option<Work>
    var cache: seq<Entry>
    var notifying: bool
    var notifications: nat
    var worker: Worker

    /** All invalidations so far; for each key its last published query; and how many of the
        invalidations came before the work in hand was taken, and before its query began. */
    ghost var log: seq<Invalidation>
    ghost var answers: map<Key, Answer>
    ghost var activeSince: nat
    ghost var activeBegan: nat

    ghost predicate Consistent()
      reads `stopping, `epoch, `pending, `active, `notifying, `worker, `log, `activeSince, `activeBegan
    {
      && epoch == |log| % EPOCHS
      && (pending.Some? ==> pending.value.epoch == epoch && !stopping)
      && (worker.Holding? || worker.Querying? || worker.Answered? ==> active == Some(worker.work))
      && (worker.Waiting? ==> active.None?)
      && (active.Some? ==> activeSince <= |log| && active.value.epoch == activeSince % EPOCHS)
      && (worker.Querying? || worker.Answered? ==> activeSince <= activeBegan <= |log|)
      && (stopping ==> !notifying)
    }

    ghost predicate Valid()
      reads this
    {
      Consistent() && Unique(cache, pending, active, epoch) && AllRecorded(cache, answers, log)
    }

    constructor ()
      ensures Valid() && !stopping && cache == [] && worker.Waiting? && pending.None?
    {
      stopping, epoch, pending, active, cache, notifying, notifications := false, 0, None, None, [], true, 0;
      worker := Waiting;
      log, answers, activeSince, activeBegan := [], map[], 0, 0;
    }

    /** The loop of `Request`. */
    method Find(key: Key) returns (value: Option<int>)
      ensures value.Some? ==> (key, value.value) in cache
      ensures value.None? <==> !Lists(cache, key)
    {
      for i := 0 to |cache|
        invariant forall k :: 0 <= k < i ==> cache[k].0 != key
      {
        if cache[i].0 == key { return Some(cache[i].1); }
      }
      return None;
    }

    /** A value is returned exactly for a cached key. It is stale if and only if an invalidation
        that concerns the key came between the start of its query and its publication, and then
        at least 2^32 came during the query; otherwise the key is queried in the current epoch,
        now or next. */
    method Request(key: Key) returns (value: Option<int>)
      requires Valid()
      modifies `pending
      ensures Valid()
      ensures stopping ==> value.None? && pending == old(pending)
      ensures value.Some? ==>
                && key in answers && answers[key].result == value.value
                && answers[key].since <= answers[key].began <= answers[key].until <= |log|
                && var a := answers[key]; var relevant := Relevant(log, a.began, a.until, key.device);
                   && (!Current((key, value.value), answers, log) <==> relevant > 0)
                   && (relevant > 0 ==> a.until - a.since >= EPOCHS)
                   && (relevant == 0 <==> forall i :: a.began <= i < |log| ==> log[i].Device? && log[i].device != key.device)
                   && (relevant == 0 <==> forall i :: a.began <= i < a.until ==> log[i].Device? && log[i].device != key.device)
      ensures !stopping ==> (value.Some? <==> exists i :: 0 <= i < |cache| && cache[i].0 == key) && (value.Some? ==> pending.None?)
      ensures value.Some? ==> (key, value.value) in cache
      ensures !stopping && value.None? ==>
                if active.Some? && active.value.key == key && (|log| - activeSince) % EPOCHS == 0 then pending.None?
                else pending == Some(Work(key, epoch))
    {
      hide Distinct, Relevant;
      if stopping { return None; }
      value := Find(key);
      if value.Some? {
        pending := None;
        StaleExactly((key, value.value), answers, log);
        return;
      }
      if active.Some? { SameEpoch(activeSince, |log|); }
      if active.None? || active.value.key != key || active.value.epoch != epoch {
        pending := Some(Work(key, epoch));
      } else {
        pending := None;
      }
    }

    method Invalidate()
      requires Valid()
      modifies `epoch, `cache, `pending, `log
      ensures Valid() && cache == [] && pending.None? && epoch == (old(epoch) + 1) % EPOCHS
      ensures log == old(log) + [Everything]
    {
      epoch, cache, pending := (epoch + 1) % EPOCHS, [], None;
      log := log + [Everything];
    }

    method EraseDevice(device: nat) returns (kept: seq<Entry>)
      ensures kept == Without(cache, device)
    {
      kept := [];
      for i := 0 to |cache|
        invariant kept == Without(cache[..i], device)
      {
        assert cache[..i + 1][..i] == cache[..i];
        if cache[i].0.device != device { kept := kept + [cache[i]]; }
      }
      assert cache[..|cache|] == cache;
    }

    method InvalidateDevice(device: nat)
      requires Valid()
      modifies `epoch, `cache, `pending, `log
      ensures Valid() && pending.None? && epoch == (old(epoch) + 1) % EPOCHS
      ensures log == old(log) + [Device(device)]
      ensures forall entry :: entry in cache <==> entry in old(cache) && entry.0.device != device
    {
      hide Lists, Distinct, AllRecorded, Without, Recorded;
      var kept := EraseDevice(device);
      WithoutKeeps(cache, device);
      InvalidationKeepsRecords(cache, answers, log, device);
      InvalidationKeepsUnique(cache, active, device, epoch, (epoch + 1) % EPOCHS);
      epoch, cache, pending := (epoch + 1) % EPOCHS, kept, None;
      log := log + [Device(device)];
    }

    /** Once stopped, a cache stays silent: `Publish` neither caches nor notifies any more. */
    method Stop()
      requires Valid()
      modifies `stopping, `pending, `notifying
      ensures Valid() && stopping && !notifying && pending.None?
    {
      stopping, pending, notifying := true, None, false;
    }

    method Take()
      requires Valid() && worker.Waiting? && (stopping || pending.Some?)
      modifies `worker, `pending, `active, `activeSince
      ensures Valid()
      ensures old(stopping) ==> worker.Gone? && pending == old(pending) && active == old(active)
      ensures !old(stopping) ==> worker == Holding(old(pending).value) && pending.None? && activeSince == |log|
    {
      hide Lists, Distinct, AllRecorded;
      if stopping { worker := Gone; return; }
      worker, active, pending := Holding(pending.value), pending, None;
      activeSince := |log|;
    }

    /** The gate is ours: the driver call begins, unless the dialog has gone meanwhile. */
    method Begin()
      requires Valid() && worker.Holding?
      modifies `worker, `activeBegan
      ensures Valid() && (if stopping then worker.Gone? else worker == Querying(old(worker).work))
      ensures !stopping ==> activeBegan == |log|
    {
      hide Unique, AllRecorded;
      if stopping { worker := Gone; return; }
      activeBegan, worker := |log|, Querying(worker.work);
    }

    method Return(result: int)
      requires Valid() && worker.Querying?
      modifies `worker
      ensures Valid() && worker == Answered(old(worker).work, result)
    {
      worker := Answered(worker.work, result);
    }

    /** The result is cached unless the dialog has stopped or the epochs disagree, which they do
        unless the invalidations since the work was taken are a multiple of 2^32. A stale result
        is cached exactly if, on top of that, one since the query began concerns its key. */
    method Publish()
      requires Valid() && worker.Answered?
      modifies `worker, `active, `cache, `notifications, `answers
      ensures Valid() && worker.Waiting? && active.None?
      ensures |log| >= activeBegan >= activeSince
      ensures var entry := (old(worker).work.key, old(worker).result);
              var fell, relevant := |log| - activeSince, Relevant(log, activeBegan, |log|, entry.0.device);
              && cache == (if !stopping && fell % EPOCHS == 0 then old(cache) + [entry] else old(cache))
              && answers == (if !stopping && fell % EPOCHS == 0
                             then old(answers)[entry.0 := Answer(entry.1, activeSince, activeBegan, |log|)] else old(answers))
              && (cache != old(cache) && !Current(entry, answers, log) <==> !stopping && fell % EPOCHS == 0 && relevant > 0)
              && (fell % EPOCHS == 0 && relevant > 0 ==> fell >= EPOCHS)
              && (relevant == 0 <==> forall i :: activeBegan <= i < |log| ==> log[i].Device? && log[i].device != entry.0.device)
      ensures notifications == old(notifications) + (if notifying && cache != old(cache) then 1 else 0)
    {
      hide Lists, Distinct, Unique, AllRecorded, Recorded, Relevant;
      var work, result := worker.work, worker.result;
      ghost var answer := Answer(result, activeSince, activeBegan, |log|);
      SameEpoch(activeSince, |log|);
      RelevantNone(log, activeBegan, |log|, work.key.device);
      Answerable(work.key, result);
      worker, active := Waiting, None;
      if !stopping && work.epoch == epoch {
        cache, answers := cache + [(work.key, result)], answers[work.key := answer];
        if notifying { notifications := notifications + 1; }
      }
    }

    /** The cache stays right without the work in hand, and with its answer if the epochs agree. */
    lemma Answerable(key: Key, result: int)
      requires Valid() && worker.Answered? && worker.work.key == key
      ensures Unique(cache, pending, None, epoch)
      ensures var a := Answer(result, activeSince, activeBegan, |log|);
              worker.work.epoch == epoch ==>
                && Unique(cache + [(key, result)], pending, None, epoch)
                && AllRecorded(cache + [(key, result)], answers[key := a], log)
    {
      hide Recorded;
      SameEpoch(activeSince, |log|);
      if worker.work.epoch == epoch {
        PublishedOnce(cache, pending, worker.work, result);
        PublishedRecorded(cache, answers, log, key, Answer(result, activeSince, activeBegan, |log|));
      }
    }
  }

  /** The epoch goes round: a query that sees 2^32 invalidations is published although every one
      of them concerned it, and the next request returns it. */
  method StaleAfterWrap(key: Key, result: int) returns (c: Cache, value: Option<int>)
    ensures fresh(c) && value == Some(result) && !Current((key, result), c.answers, c.log)
    ensures key in c.answers && c.answers[key].began < |c.log| && c.log[|c.log| - 1] == Everything
  {
    hide Unique, AllRecorded, Distinct, Recorded, Relevant, Current, Lists;
    c := Outdated(key, result);
    c.Publish();
    assert c.cache[0] == (key, result);
    value := c.Request(key);
    StaleSince(key, c.answers, c.log);
  }

  lemma StaleSince(key: Key, answers: map<Key, Answer>, log: seq<Invalidation>)
    requires key in answers && answers[key].began < |log| && log[|log| - 1] == Everything
    ensures !Current((key, answers[key].result), answers, log)
  {
  }

  /** A query whose answer arrives after 2^32 invalidations. */
  method Outdated(key: Key, result: int) returns (c: Cache)
    ensures fresh(c) && c.Valid() && c.worker.Answered? && c.worker.work.key == key && c.worker.result == result
    ensures !c.stopping && c.cache == [] && c.activeBegan == c.activeSince && c.activeSince + EPOCHS == |c.log|
    ensures c.log[|c.log| - 1] == Everything
  {
    hide Unique, AllRecorded, Distinct, Recorded, Relevant, Current, Lists;
    c := new Cache();
    var value := c.Request(key);
    c.Take();
    c.Begin();
    InvalidateAllRound(c);
    c.Return(result);
  }

  /** 2^32 invalidations while a query is under way. */
  method InvalidateAllRound(c: Cache)
    requires c.Valid() && c.worker.Querying? && c.activeSince == |c.log|
    modifies c`epoch, c`cache, c`pending, c`log
    ensures c.Valid() && c.cache == [] && c.activeSince + EPOCHS == |c.log|
    ensures c.log[|c.log| - 1] == Everything
  {
    hide Unique, AllRecorded;
    for i := 0 to EPOCHS
      invariant c.Valid() && |c.log| == c.activeSince + i
      invariant i > 0 ==> c.cache == [] && c.log[|c.log| - 1] == Everything
    {
      c.Invalidate();
    }
  }
}
