/**
 The in-memory cache with expiring entries, and the block lock built on it.
 Models internal/cache/memory.go and the lock of syncBlock in
 internal/indexer/engine.go. Time is passed in; it never runs backwards.
 */
module CacheLock {
  import opened Outcomes

  /** No expiry time means the entry never expires. */
  datatype Entry = Entry(val: string, expiresAt: Option<nat>)

  type Data = map<string, Entry>

  function Expiry(now: nat, ttl: nat): Option<nat> { if ttl > 0 then Some(now + ttl) else None }

  /** Strictly past its expiry time: what a purge removes and a read ignores. */
  predicate Expired(e: Entry, now: nat) { e.expiresAt.Some? && now > e.expiresAt.value }

  /** Not yet at its expiry time: what blocks an acquisition. */
  predicate Blocking(e: Entry, now: nat) { e.expiresAt.None? || now < e.expiresAt.value }

  function Purge(data: Data, now: nat): Data
  {
    map k | k in data && !Expired(data[k], now) :: data[k]
  }

  /** The empty string stands for a miss. */
  function Get(data: Data, key: string, now: nat): string
  {
    if key in data && !Expired(data[key], now) then data[key].val else ""
  }

  function SetNX(data: Data, key: string, val: string, ttl: nat, now: nat): (Data, bool)
  {
    var purged := Purge(data, now);
    if key in purged && Blocking(purged[key], now) then (purged, false)
    else (purged[key := Entry(val, Expiry(now, ttl))], true)
  }

  /** Purging is invisible to every reader from then on. */
  lemma PurgeInvisible(data: Data, purgedAt: nat, key: string, now: nat)
    requires now >= purgedAt
    ensures Get(Purge(data, purgedAt), key, now) == Get(data, key, now)
  {
  }

  /** A value that was set reads back through its lifetime and not after; without a lifetime it stays. */
  lemma SetThenGet(data: Data, key: string, val: string, ttl: nat, at: nat, now: nat)
    requires now >= at
    ensures Get(data[key := Entry(val, Expiry(at, ttl))], key, now) == if ttl == 0 || now <= at + ttl then val else ""
    ensures forall k :: k != key ==> Get(data[key := Entry(val, Expiry(at, ttl))], k, now) == Get(data, k, now)
  {
  }

  /**
   An acquisition succeeds exactly when the key holds nothing that has still time to run;
   then its value reads back through its lifetime. A refused one changes nothing that can
   be read, and neither kind changes what other keys read.
   */
  lemma SetNXExactly(data: Data, key: string, val: string, ttl: nat, now: nat, later: nat)
    requires later >= now
    ensures SetNX(data, key, val, ttl, now).1 <==>
            key !in data || (data[key].expiresAt.Some? && now >= data[key].expiresAt.value)
    ensures SetNX(data, key, val, ttl, now).1 ==>
              Get(SetNX(data, key, val, ttl, now).0, key, later) == if ttl == 0 || later <= now + ttl then val else ""
    ensures forall k :: k != key || !SetNX(data, key, val, ttl, now).1 ==>
              Get(SetNX(data, key, val, ttl, now).0, k, later) == Get(data, k, later)
  {
  }

  // ---------------------------------------------------------------------
  // Successive acquisitions.
  // ---------------------------------------------------------------------

  datatype Call =
    | SetCall(key: string, val: string, ttl: nat)
    | NXCall(key: string, val: string, ttl: nat)
    | DelCall(key: string)
    | GetCall(key: string)

  /** A call and the time it is made. */
  datatype Timed = Timed(call: Call, at: nat)

  function Step(data: Data, t: Timed): Data
  {
    match t.call
    case SetCall(k, v, ttl) => data[k := Entry(v, Expiry(t.at, ttl))]
    case NXCall(k, v, ttl) => SetNX(data, k, v, ttl, t.at).0
    case DelCall(k) => data - {k}
    case GetCall(_) => data
  }

  function Run(calls: seq<Timed>): Data
  {
    if |calls| == 0 then map[] else Step(Run(calls[..|calls| - 1]), calls[|calls| - 1])
  }

  ghost predicate Monotone(calls: seq<Timed>)
  {
    forall i, j :: 0 <= i < j < |calls| ==> calls[i].at <= calls[j].at
  }

  /** Call `i` is an acquisition of `key` that succeeds in the state it meets. */
  predicate Acquires(calls: seq<Timed>, i: nat, key: string)
    requires i < |calls|
  {
    && calls[i].call.NXCall? && calls[i].call.key == key
    && SetNX(Run(calls[..i]), key, calls[i].call.val, calls[i].call.ttl, calls[i].at).1
  }

  /** Between `i` and `j` nobody deletes or overwrites `key`. */
  ghost predicate Undisturbed(calls: seq<Timed>, i: nat, j: nat, key: string)
    requires j <= |calls|
  {
    forall k :: i < k < j ==> !(calls[k].call.DelCall? && calls[k].call.key == key)
                              && !(calls[k].call.SetCall? && calls[k].call.key == key)
  }

  /** The entry left by an acquisition at `at`, as seen until it expires. */
  ghost predicate Holds(data: Data, key: string, at: nat, ttl: nat, now: nat)
  {
    (ttl == 0 || now < at + ttl) ==> key in data && data[key].expiresAt == Expiry(at, ttl)
  }

  lemma {:induction false} HeldUntilExpiry(calls: seq<Timed>, i: nat, n: nat, key: string)
    requires Monotone(calls) && i < n <= |calls| && Acquires(calls, i, key) && Undisturbed(calls, i, n, key)
    ensures Holds(Run(calls[..n]), key, calls[i].at, calls[i].call.ttl, calls[n - 1].at)
    decreases n
  {
    assert calls[..n][..n - 1] == calls[..n - 1];
    if n - 1 > i {
      HeldUntilExpiry(calls, i, n - 1, key);
      assert calls[n - 2].at <= calls[n - 1].at && calls[i].at <= calls[n - 1].at;
    }
  }

  /**
   Two successful acquisitions of one key are separated by a delete or an overwrite of
   that key, or by at least the lifetime of the first; a lifetime of zero never ends.
   */
  lemma AcquisitionsSeparated(calls: seq<Timed>, i: nat, j: nat, key: string)
    requires Monotone(calls) && i < j < |calls|
    requires Acquires(calls, i, key) && Acquires(calls, j, key) && Undisturbed(calls, i, j, key)
    ensures calls[i].call.ttl > 0 && calls[j].at >= calls[i].at + calls[i].call.ttl
  {
    HeldUntilExpiry(calls, i, j, key);
    assert calls[j - 1].at <= calls[j].at;
  }

  // ---------------------------------------------------------------------
  // The lock: acquire by SetNX, release by an unconditional delete.
  // ---------------------------------------------------------------------

  const LOCK_TTL := 30

  /** A sync run that holds the lock of a height, since when. */
  datatype Holder = Holder(key: string, since: nat)

  /** The cache, the sync runs inside their critical section, and the clock. */
  datatype Locks = Locks(data: Data, holders: map<nat, Holder>, now: nat)

  datatype LockStep = Acquire(who: nat, key: string, at: nat) | Release(who: nat, at: nat)

  function NextLocks(s: Locks, step: LockStep): Locks
  {
    if step.at < s.now then s
    else
      match step
      case Acquire(who, key, at) =>
        var (data, ok) := SetNX(s.data, key, "1", LOCK_TTL, at);
        Locks(data, if ok && who !in s.holders then s.holders[who := Holder(key, at)] else s.holders, at)
      case Release(who, at) =>
        if who in s.holders then Locks(s.data - {s.holders[who].key}, s.holders - {who}, at) else s.(now := at)
  }

  /** A run that finds the lock taken leaves without it; only idle runs try. */
  predicate WellFormed(s: Locks, step: LockStep)
  {
    step.at >= s.now && (step.Acquire? ==> step.who !in s.holders)
  }

  /** Every holder is still within the lifetime of its lock when the step happens. */
  ghost predicate Punctual(s: Locks, step: LockStep)
  {
    forall w :: w in s.holders ==> step.at < s.holders[w].since + LOCK_TTL
  }

  /** Each height has at most one holder, and the cache still shows its entry. */
  ghost predicate Exclusive(s: Locks)
  {
    && (forall v, w :: v in s.holders && w in s.holders && v != w ==> s.holders[v].key != s.holders[w].key)
    && (forall w :: w in s.holders ==>
          && s.holders[w].key in s.data
          && s.data[s.holders[w].key].expiresAt == Some(s.holders[w].since + LOCK_TTL))
  }

  lemma PunctualStepIsExclusive(s: Locks, step: LockStep)
    requires Exclusive(s) && WellFormed(s, step) && Punctual(s, step)
    ensures Exclusive(NextLocks(s, step))
  {
  }

  ghost predicate PunctualRun(s: Locks, steps: seq<LockStep>)
    decreases |steps|
  {
    |steps| > 0 ==>
      WellFormed(s, steps[0]) && Punctual(s, steps[0]) && PunctualRun(NextLocks(s, steps[0]), steps[1..])
  }

  function RunLocks(s: Locks, steps: seq<LockStep>): Locks
    decreases |steps|
  {
    if |steps| == 0 then s else RunLocks(NextLocks(s, steps[0]), steps[1..])
  }

  /** If every holder finishes within the lock's lifetime, no two sync runs ever hold the same height. */
  lemma {:induction false} NoTwoHolders(s: Locks, steps: seq<LockStep>)
    requires Exclusive(s) && PunctualRun(s, steps)
    ensures Exclusive(RunLocks(s, steps))
    decreases |steps|
  {
    if |steps| > 0 {
      PunctualStepIsExclusive(s, steps[0]);
      NoTwoHolders(NextLocks(s, steps[0]), steps[1..]);
    }
  }

  // ---------------------------------------------------------------------
  // Arbitrary runs: exactly when a held height is handed out again.
  // ---------------------------------------------------------------------

  const UNLOCKED := Locks(map[], map[], 0)

  function After(steps: seq<LockStep>): Locks
  {
    if |steps| == 0 then UNLOCKED else NextLocks(After(steps[..|steps| - 1]), steps[|steps| - 1])
  }

  /** The clock never runs backwards and only idle sync runs try; holders may be as late as they like. */
  ghost predicate Orderly(steps: seq<LockStep>)
  {
    forall i :: 0 <= i < |steps| ==> WellFormed(After(steps[..i]), steps[i])
  }

  predicate AttemptOf(step: LockStep, key: string) { step.Acquire? && step.key == key }

  predicate AcquisitionOf(s: Locks, step: LockStep, key: string)
  {
    AttemptOf(step, key) && SetNX(s.data, key, "1", LOCK_TTL, step.at).1
  }

  predicate ReleaseOf(s: Locks, step: LockStep, key: string)
  {
    step.Release? && step.who in s.holders && s.holders[step.who].key == key
  }

  predicate Attempts(steps: seq<LockStep>, j: nat, key: string)
    requires j < |steps|
  {
    AttemptOf(steps[j], key)
  }

  /** Step `j` hands the lock of `key` to a sync run. */
  predicate Acquired(steps: seq<LockStep>, j: nat, key: string)
    requires j < |steps|
  {
    AcquisitionOf(After(steps[..j]), steps[j], key)
  }

  /** Step `j` is the release of a sync run that was handed the lock of `key` at some time. */
  predicate Released(steps: seq<LockStep>, j: nat, key: string)
    requires j < |steps|
  {
    ReleaseOf(After(steps[..j]), steps[j], key)
  }

  lemma AfterSplit(steps: seq<LockStep>, n: nat)
    requires n < |steps|
    ensures After(steps[..n + 1]) == NextLocks(After(steps[..n]), steps[n])
  {
    assert steps[..n + 1][..n] == steps[..n];
  }

  lemma ClockAfter(steps: seq<LockStep>, n: nat)
    requires Orderly(steps) && n < |steps|
    ensures After(steps[..n + 1]).now == steps[n].at
    ensures After(steps[..n]).now <= steps[n].at
  {
    hide After;
    AfterSplit(steps, n);
    assert WellFormed(After(steps[..n]), steps[n]);
  }

  /** What an acquisition at time `at` leaves in the cache, as seen at the current time. */
  predicate EntryOf(s: Locks, key: string, at: nat)
  {
    && (key in s.data ==> s.data[key].expiresAt == Some(at + LOCK_TTL))
    && (s.now <= at + LOCK_TTL ==> key in s.data)
  }

  lemma StepKeepsEntry(s: Locks, step: LockStep, key: string, at: nat)
    requires WellFormed(s, step) && EntryOf(s, key, at)
    requires !AcquisitionOf(s, step, key) && !ReleaseOf(s, step, key)
    ensures EntryOf(NextLocks(s, step), key, at)
  {
  }

  lemma AcquisitionWrites(s: Locks, step: LockStep, key: string)
    requires WellFormed(s, step) && AcquisitionOf(s, step, key)
    ensures EntryOf(NextLocks(s, step), key, step.at)
    ensures NextLocks(s, step).holders == s.holders[step.who := Holder(key, step.at)]
  {
  }

  lemma StepKeepsGone(s: Locks, step: LockStep, key: string)
    requires WellFormed(s, step)
    requires ReleaseOf(s, step, key) || (key !in s.data && !AcquisitionOf(s, step, key))
    ensures key !in NextLocks(s, step).data
  {
  }

  /** The entry of an acquisition as long as nobody acquires or releases the key. */
  lemma {:induction false} EntryStays(steps: seq<LockStep>, i: nat, n: nat, key: string)
    requires Orderly(steps) && i < n <= |steps| && Acquired(steps, i, key)
    requires forall k :: i < k < n ==> !Acquired(steps, k, key) && !Released(steps, k, key)
    ensures EntryOf(After(steps[..n]), key, steps[i].at)
    decreases n
  {
    hide After, NextLocks, AcquisitionOf, ReleaseOf, EntryOf, WellFormed;
    AfterSplit(steps, n - 1);
    assert WellFormed(After(steps[..n - 1]), steps[n - 1]);
    if n - 1 > i {
      EntryStays(steps, i, n - 1, key);
      assert !Acquired(steps, n - 1, key) && !Released(steps, n - 1, key);
      StepKeepsEntry(After(steps[..n - 1]), steps[n - 1], key, steps[i].at);
    } else {
      AcquisitionWrites(After(steps[..i]), steps[i], key);
    }
  }

  /** A release removes the entry, whoever wrote it, until the next acquisition. */
  lemma {:induction false} GoneAfterRelease(steps: seq<LockStep>, r: nat, n: nat, key: string)
    requires Orderly(steps) && r < n <= |steps| && Released(steps, r, key)
    requires forall k :: r < k < n ==> !Acquired(steps, k, key)
    ensures key !in After(steps[..n]).data
    decreases n
  {
    hide After, NextLocks, AcquisitionOf, ReleaseOf, WellFormed;
    AfterSplit(steps, n - 1);
    assert WellFormed(After(steps[..n - 1]), steps[n - 1]);
    if n - 1 > r {
      GoneAfterRelease(steps, r, n - 1, key);
      assert !Acquired(steps, n - 1, key);
    }
    StepKeepsGone(After(steps[..n - 1]), steps[n - 1], key);
  }

  /** An attempt after an acquisition, with no acquisition in between, succeeds on these grounds and no others. */
  lemma NextAcquisitionIff(steps: seq<LockStep>, i: nat, j: nat, key: string)
    requires Orderly(steps) && i < j < |steps| && Acquired(steps, i, key) && Attempts(steps, j, key)
    requires forall k :: i < k < j ==> !Acquired(steps, k, key)
    ensures Acquired(steps, j, key) <==>
            steps[j].at >= steps[i].at + LOCK_TTL || exists r :: i < r < j && Released(steps, r, key)
  {
    hide After;
    ClockAfter(steps, j);
    if r :| i < r < j && Released(steps, r, key) {
      GoneAfterRelease(steps, r, j, key);
    } else {
      EntryStays(steps, i, j, key);
    }
  }

  /**
   After an acquisition of a height some later run is handed the same height if and only
   if one tries when the lifetime is used up, or after any run that had been handed the
   height before has released it: the release deletes the entry whoever owns it by then.
   */
  lemma SecondHolderIff(steps: seq<LockStep>, i: nat, n: nat, key: string)
    requires Orderly(steps) && i < n <= |steps| && Acquired(steps, i, key)
    ensures (exists j :: i < j < n && Acquired(steps, j, key)) <==>
            (exists j :: i < j < n && Attempts(steps, j, key)
                         && (|| steps[j].at >= steps[i].at + LOCK_TTL
                             || exists r :: i < r < j && Released(steps, r, key)))
  {
    hide AcquisitionOf, ReleaseOf, AttemptOf;
    if j :| i < j < n && Acquired(steps, j, key) {
      var first := FirstAcquisition(steps, i, j, key);
      assert Attempts(steps, first, key) by { AcquisitionAttempts(After(steps[..first]), steps[first], key); }
      NextAcquisitionIff(steps, i, first, key);
    }
    if j :| i < j < n && Attempts(steps, j, key)
            && (steps[j].at >= steps[i].at + LOCK_TTL || exists r :: i < r < j && Released(steps, r, key)) {
      if forall k :: i < k < j ==> !Acquired(steps, k, key) {
        NextAcquisitionIff(steps, i, j, key);
      }
    }
  }

  lemma AcquisitionAttempts(s: Locks, step: LockStep, key: string)
    requires AcquisitionOf(s, step, key)
    ensures AttemptOf(step, key)
  {
  }

  function FirstAcquisition(steps: seq<LockStep>, i: nat, j: nat, key: string): (f: nat)
    requires i < j < |steps| && Acquired(steps, j, key)
    ensures i < f <= j && Acquired(steps, f, key)
    ensures forall k :: i < k < f ==> !Acquired(steps, k, key)
    decreases j - i
  {
    if Acquired(steps, i + 1, key) then i + 1 else FirstAcquisition(steps, i + 1, j, key)
  }

  lemma StepKeepsHolder(s: Locks, step: LockStep, who: nat)
    requires WellFormed(s, step) && who in s.holders && !(step.Release? && step.who == who)
    ensures who in NextLocks(s, step).holders && NextLocks(s, step).holders[who] == s.holders[who]
  {
  }

  /** A run that has acquired and not released is a holder. */
  lemma {:induction false} HoldsUntilRelease(steps: seq<LockStep>, i: nat, n: nat, key: string)
    requires Orderly(steps) && i < n <= |steps| && Acquired(steps, i, key)
    requires forall k :: i < k < n ==> !(steps[k].Release? && steps[k].who == steps[i].who)
    ensures var holders := After(steps[..n]).holders;
            steps[i].who in holders && holders[steps[i].who] == Holder(key, steps[i].at)
    decreases n
  {
    hide After, NextLocks, AcquisitionOf, WellFormed;
    AfterSplit(steps, n - 1);
    assert WellFormed(After(steps[..n - 1]), steps[n - 1]);
    if n - 1 > i {
      HoldsUntilRelease(steps, i, n - 1, key);
      StepKeepsHolder(After(steps[..n - 1]), steps[n - 1], steps[i].who);
    } else {
      AcquisitionWrites(After(steps[..i]), steps[i], key);
    }
  }

  /** So a second acquisition while the first run is still inside means two runs on one height. */
  lemma TwoHolders(steps: seq<LockStep>, i: nat, j: nat, key: string)
    requires Orderly(steps) && i < j < |steps| && Acquired(steps, i, key) && Acquired(steps, j, key)
    requires forall k :: i < k < j ==> !(steps[k].Release? && steps[k].who == steps[i].who)
    ensures var holders := After(steps[..j + 1]).holders;
            && steps[i].who in holders && steps[j].who in holders && steps[i].who != steps[j].who
            && holders[steps[i].who].key == holders[steps[j].who].key == key
  {
    hide After, SetNX;
    HoldsUntilRelease(steps, i, j, key);
    HoldsUntilRelease(steps, j, j + 1, key);
    assert WellFormed(After(steps[..j]), steps[j]);
    AfterSplit(steps, j);
    StepKeepsHolder(After(steps[..j]), steps[j], steps[i].who);
  }

  // Run 0 overstays, run 1 takes over, and the late release of run 0 lets run 2 in.
  const LATE_RELEASE := [Acquire(0, "h", 0), Acquire(1, "h", 31), Release(0, 32), Acquire(2, "h", 33)]

  /** Two runs hold one height although the first of them is two seconds into its lifetime. */
  lemma LateReleaseSharesHeight()
    ensures Orderly(LATE_RELEASE)
    ensures After(LATE_RELEASE).holders == map[1 := Holder("h", 31), 2 := Holder("h", 33)]
  {
    var steps := LATE_RELEASE;
    AfterSplit(steps, 0);
    AfterSplit(steps, 1);
    AfterSplit(steps, 2);
    AfterSplit(steps, 3);
    assert steps[..4] == steps && steps[..0] == [];
    var one := Locks(map["h" := Entry("1", Some(30))], map[0 := Holder("h", 0)], 0);
    assert After(steps[..1]) == one;
    var two := Locks(map["h" := Entry("1", Some(61))], map[0 := Holder("h", 0), 1 := Holder("h", 31)], 31);
    assert Purge(one.data, 31) == map[];
    assert After(steps[..2]) == two;
    var three := Locks(map[], map[1 := Holder("h", 31)], 32);
    assert After(steps[..3]) == three;
    forall i | 0 <= i < |steps| ensures WellFormed(After(steps[..i]), steps[i]) {
      assert i == 0 || i == 1 || i == 2 || i == 3;
    }
  }

  // ---------------------------------------------------------------------
  // The cache object.
  // ---------------------------------------------------------------------

  class MemoryCache {
    var data: Data

    constructor ()
      ensures data == map[]
    {
      data := map[];
    }

    /** Delete the expired entries one by one. */
    method PurgeLocked(now: nat)
      modifies this
      ensures data == Purge(old(data), now)
    {
      var rest := data.Keys;
      while rest != {}
        invariant rest <= old(data).Keys
        invariant data == map k | k in old(data) && (k in rest || !Expired(old(data)[k], now)) :: old(data)[k]
        decreases |rest|
      {
        var k :| k in rest;
        rest := rest - {k};
        if data[k].expiresAt.Some? && now > data[k].expiresAt.value {
          data := data - {k};
        }
      }
    }

    method Read(key: string, now: nat) returns (val: string)
      ensures val == Get(data, key, now)
    {
      if key !in data {
        return "";
      }
      if data[key].expiresAt.Some? && now > data[key].expiresAt.value {
        return "";
      }
      val := data[key].val;
    }

    method Set(key: string, val: string, ttl: nat, now: nat)
      modifies this
      ensures data == old(data)[key := Entry(val, Expiry(now, ttl))]
      ensures Get(data, key, now) == val
    {
      var expiresAt := None;
      if ttl > 0 {
        expiresAt := Some(now + ttl);
      }
      data := data[key := Entry(val, expiresAt)];
    }

    method SetIfAbsent(key: string, val: string, ttl: nat, now: nat) returns (ok: bool)
      modifies this
      ensures (data, ok) == SetNX(old(data), key, val, ttl, now)
    {
      PurgeLocked(now);
      if key in data {
        if data[key].expiresAt.None? || now < data[key].expiresAt.value {
          return false;
        }
      }
      data := data[key := Entry(val, if ttl > 0 then Some(now + ttl) else None)];
      ok := true;
    }

    method Del(keys: seq<string>)
      modifies this
      ensures data == old(data) - (set k | k in keys)
    {
      for i := 0 to |keys|
        invariant data == old(data) - (set k | k in keys[..i])
      {
        assert keys[..i + 1] == keys[..i] + [keys[i]];
        data := data - {keys[i]};
      }
      assert keys[..|keys|] == keys;
    }
  }
}
