/**
 * server/src/middleware/trackApiKeyUsage.ts: counting requests per key and bucket, and flushing the counts to the
 * store. Instants are the texts of `toISOString`.
 */
module ApiKeyUsage {
  import opened Common

  datatype Entry = Entry(count: nat, rejected: nat)

  datatype UsageKey = UsageKey(apiKeyId: string, granularity: string, bucketStart: string)

  datatype UpsertEntry = UpsertEntry(key: UsageKey, pushCount: nat, rejectedCount: nat)

  function Plus(a: Entry, b: Entry): Entry {
    Entry(a.count + b.count, a.rejected + b.rejected)
  }

  lemma PlusZero(a: Entry)
    ensures Plus(a, Entry(0, 0)) == a && Plus(Entry(0, 0), a) == a
  {
  }

  lemma PlusShuffle(a: Entry, b: Entry, c: Entry, d: Entry)
    ensures Plus(Plus(a, b), Plus(c, d)) == Plus(Plus(a, c), Plus(b, d))
    ensures Plus(Plus(a, b), c) == Plus(a, Plus(b, c)) && Plus(Plus(a, b), c) == Plus(Plus(a, c), b)
  {
  }

  // ---------------------------------------------------------------------------
  // Bucket names and joined keys
  // ---------------------------------------------------------------------------

  /** `YYYY-MM-DDTHH:MM...` with two minute digits below 60. */
  predicate IsIso(t: string) {
    |t| >= 16 && t[13] == ':' && IsDigit(t[14]) && t[14] <= '5' && IsDigit(t[15])
  }

  function MinuteBucketStart(t: string): string
    requires IsIso(t)
  {
    t[..16] + ":00"
  }

  function HourBucketStart(t: string): string
    requires IsIso(t)
  {
    t[..13] + ":00:00"
  }

  /** The accumulator's key: `id|granularity|bucket`. */
  function Join(u: UsageKey): string {
    u.apiKeyId + "|" + u.granularity + "|" + u.bucketStart
  }

  /** `s.indexOf('|', from)`, or -1. */
  function IndexOfPipe(s: string, from: nat): (i: int)
    ensures i == -1 || (from <= i < |s| && s[i] == '|')
    ensures forall k :: from <= k < (if i == -1 then |s| else i) ==> s[k] != '|'
    decreases |s| - from
  {
    if from >= |s| then -1 else if s[from] == '|' then from else IndexOfPipe(s, from + 1)
  }

  /** The text has the two delimiters that every joined key has. */
  predicate HasTwoPipes(s: string) {
    IndexOfPipe(s, 0) >= 0 && IndexOfPipe(s, IndexOfPipe(s, 0) + 1) >= 0
  }

  function Split(s: string): UsageKey
    requires HasTwoPipes(s)
  {
    var first := IndexOfPipe(s, 0);
    var second := IndexOfPipe(s, first + 1);
    UsageKey(s[..first], s[first + 1..second], s[second + 1..])
  }

  ghost predicate Clean(u: UsageKey) {
    '|' !in u.apiKeyId && '|' !in u.granularity
  }

  lemma PipeAt(s: string, from: nat, i: nat)
    requires from <= i < |s| && s[i] == '|' && forall k :: from <= k < i ==> s[k] != '|'
    ensures IndexOfPipe(s, from) == i
  {
    var j := IndexOfPipe(s, from);
    assert j != -1 && !(j < i);
  }

  lemma JoinShape(u: UsageKey)
    ensures var s, n := Join(u), |u.apiKeyId|;
            var second := n + 1 + |u.granularity|;
            && second < |s| && s[n] == '|' && s[second] == '|'
            && s[..n] == u.apiKeyId && s[n + 1..second] == u.granularity && s[second + 1..] == u.bucketStart
  {
  }

  lemma CleanJoinSplits(u: UsageKey)
    requires Clean(u)
    ensures HasTwoPipes(Join(u)) && Split(Join(u)) == u
  {
    JoinShape(u);
    hide Join;
    var s, n := Join(u), |u.apiKeyId|;
    var second := n + 1 + |u.granularity|;
    assert forall k :: 0 <= k < n ==> s[k] == s[..n][k];
    PipeAt(s, 0, n);
    assert forall k :: n + 1 <= k < second ==> s[k] == s[n + 1..second][k - n - 1];
    PipeAt(s, n + 1, second);
  }

  lemma PipedJoinSplitsElsewhere(u: UsageKey)
    requires '|' in u.apiKeyId
    ensures HasTwoPipes(Join(u)) && Split(Join(u)) != u
  {
    JoinShape(u);
    hide Join;
    var s, n := Join(u), |u.apiKeyId|;
    var k :| 0 <= k < n && u.apiKeyId[k] == '|';
    assert s[..n][k] == '|' == s[k];
    var first := IndexOfPipe(s, 0);
    assert 0 <= first <= k;
    assert IndexOfPipe(s, first + 1) != -1;
    assert |Split(s).apiKeyId| == first < n;
  }

  /** Splitting undoes joining exactly for ids without the delimiter. */
  lemma SplitUndoesJoin(u: UsageKey)
    requires '|' !in u.granularity
    ensures HasTwoPipes(Join(u))
    ensures Split(Join(u)) == u <==> '|' !in u.apiKeyId
  {
    hide Join, Split, HasTwoPipes;
    if '|' in u.apiKeyId { PipedJoinSplitsElsewhere(u); } else { CleanJoinSplits(u); }
  }

  /** Joining undoes splitting, and what splitting yields is free of the delimiter. */
  lemma JoinUndoesSplit(s: string)
    requires HasTwoPipes(s)
    ensures Join(Split(s)) == s && Clean(Split(s))
  {
  }

  lemma JoinInjective(u: UsageKey, v: UsageKey)
    requires Clean(u) && Clean(v) && Join(u) == Join(v)
    ensures u == v
  {
    SplitUndoesJoin(u);
    SplitUndoesJoin(v);
  }

  // ---------------------------------------------------------------------------
  // The accumulator, the store, and what each event does to them
  // ---------------------------------------------------------------------------

  function Find<K>(m: map<K, Entry>, k: K): Entry {
    if k in m then m[k] else Entry(0, 0)
  }

  function Bump(acc: map<string, Entry>, u: UsageKey, step: Entry): map<string, Entry> {
    acc[Join(u) := Plus(Find(acc, Join(u)), step)]
  }

  function MinuteKey(id: string, t: string): UsageKey
    requires IsIso(t)
  {
    UsageKey(id, "minute", MinuteBucketStart(t))
  }

  function HourKey(id: string, t: string): UsageKey
    requires IsIso(t)
  {
    UsageKey(id, "hour", HourBucketStart(t))
  }

  function BumpBoth(acc: map<string, Entry>, id: string, t: string, step: Entry): map<string, Entry>
    requires IsIso(t)
  {
    Bump(Bump(acc, MinuteKey(id, t), step), HourKey(id, t), step)
  }

  ghost predicate AllJoined(acc: map<string, Entry>) {
    forall k :: k in acc ==> HasTwoPipes(k)
  }

  /** What the accumulator holds for `u`: what a flush would add to the row of `u`. */
  ghost function Pending(acc: map<string, Entry>, u: UsageKey): Entry {
    if Clean(u) then Find(acc, Join(u)) else Entry(0, 0)
  }

  /** The row of `u` gained what was pending for it, and nothing else. */
  ghost predicate Gains(
    before: map<UsageKey, Entry>, after: map<UsageKey, Entry>, acc: map<string, Entry>, u: UsageKey)
  {
    Find(after, u) == Plus(Find(before, u), Pending(acc, u))
  }

  /** Rows of one `bulkUpsert`: insert, or add to both counts. */
  function Upsert(store: map<UsageKey, Entry>, rows: seq<UpsertEntry>): map<UsageKey, Entry> {
    if rows == [] then store
    else
      var row := rows[|rows| - 1];
      var before := Upsert(store, rows[..|rows| - 1]);
      before[row.key := Plus(Find(before, row.key), Entry(row.pushCount, row.rejectedCount))]
  }

  class UsageTracker {
    var accumulator: map<string, Entry>
    var store: map<UsageKey, Entry>

    ghost predicate Valid()
      reads this
    {
      AllJoined(accumulator)
    }

    /** Flushed and still accumulated. */
    ghost function Total(u: UsageKey): Entry
      reads this
    {
      Plus(Find(store, u), Pending(accumulator, u))
    }

    constructor ()
      ensures Valid() && accumulator == map[] && store == map[]
    {
      accumulator := map[];
      store := map[];
    }

    method Add(u: UsageKey, step: Entry)
      requires Valid() && '|' !in u.granularity
      modifies this`accumulator
      ensures Valid() && accumulator == Bump(old(accumulator), u, step)
    {
      SplitUndoesJoin(u);
      var entry := if Join(u) in accumulator then accumulator[Join(u)] else Entry(0, 0);
      accumulator := accumulator[Join(u) := Plus(entry, step)];
    }

    method IncrementRejected(apiKeyId: string, now: string)
      requires Valid() && IsIso(now)
      modifies this`accumulator
      ensures Valid() && accumulator == BumpBoth(old(accumulator), apiKeyId, now, Entry(0, 1))
    {
      Add(MinuteKey(apiKeyId, now), Entry(0, 1));
      Add(HourKey(apiKeyId, now), Entry(0, 1));
    }

    /** The request handler of `createTrackApiKeyUsage`; requests without a key are not counted. */
    method TrackRequest(apiKeyId: Option<string>, now: string)
      requires Valid() && IsIso(now)
      modifies this`accumulator
      ensures Valid()
      ensures accumulator == if apiKeyId.None? || apiKeyId.value == "" then old(accumulator)
                             else BumpBoth(old(accumulator), apiKeyId.value, now, Entry(1, 0))
    {
      if apiKeyId.None? || apiKeyId.value == "" {
        return;
      }
      Add(MinuteKey(apiKeyId.value, now), Entry(1, 0));
      Add(HourKey(apiKeyId.value, now), Entry(1, 0));
    }

    /**
     * Swap the accumulator out, split its keys and upsert the rows, in any order and in one transaction.  When the
     * store throws, the swapped-out counts are gone.
     */
    method Flush(storeThrows: bool) returns (thrown: bool)
      requires Valid()
      modifies this
      ensures Valid() && accumulator == map[]
      ensures thrown == (storeThrows && old(accumulator) != map[])
      ensures if storeThrows then store == old(store) else forall u :: Gains(old(store), store, old(accumulator), u)
    {
      hide Split, HasTwoPipes, Join, Upsert, Gains, Find, Plus, Pending;
      if |accumulator| == 0 {
        assert accumulator == map[];
        NothingPending(store);
        return false;
      }
      var snapshot := accumulator;
      accumulator := map[];
      var entries: seq<UpsertEntry> := [];
      var rest := snapshot;
      assert snapshot - rest.Keys == map[];
      NothingPending(store);
      while |rest| > 0
        invariant rest.Keys <= snapshot.Keys && forall k :: k in rest ==> rest[k] == snapshot[k]
        invariant accumulator == map[] && store == old(store)
        invariant Flushed(store, entries, snapshot - rest.Keys)
        decreases |rest|
      {
        var key :| key in rest;
        var val := rest[key];
        FlushOne(store, entries, snapshot, rest.Keys, key);
        entries := entries + [UpsertEntry(Split(key), val.count, val.rejected)];
        rest := rest - {key};
      }
      assert snapshot - rest.Keys == snapshot;
      if storeThrows {
        return true;
      }
      store := Upsert(store, entries);
      thrown := false;
    }
  }

  /** Upserting the rows adds to the store what was pending in `acc`. */
  ghost predicate Flushed(store: map<UsageKey, Entry>, rows: seq<UpsertEntry>, acc: map<string, Entry>) {
    forall u :: Gains(store, Upsert(store, rows), acc, u)
  }

  lemma NothingPending(store: map<UsageKey, Entry>)
    ensures Flushed(store, [], map[]) && Upsert(store, []) == store
    ensures forall u :: Gains(store, store, map[], u)
  {
  }

  lemma UpsertStep(store: map<UsageKey, Entry>, rows: seq<UpsertEntry>, row: UpsertEntry, u: UsageKey)
    ensures Find(Upsert(store, rows + [row]), u) ==
            if u == row.key then Plus(Find(Upsert(store, rows), u), Entry(row.pushCount, row.rejectedCount))
            else Find(Upsert(store, rows), u)
  {
    assert (rows + [row])[..|rows|] == rows;
  }

  /** One accumulated key fewer. */
  lemma PendingOne(snapshot: map<string, Entry>, rest: set<string>, key: string, u: UsageKey)
    requires key in rest && rest <= snapshot.Keys && HasTwoPipes(key)
    ensures var flushed, more := Pending(snapshot - rest, u), Pending(snapshot - (rest - {key}), u);
            if u == Split(key) then flushed == Entry(0, 0) && more == snapshot[key] else more == flushed
  {
    JoinUndoesSplit(key);
    hide Join, Split, HasTwoPipes;
    if Clean(u) && Join(u) == key {
      JoinInjective(u, Split(key));
    }
  }

  /** Flushing one more accumulated key. */
  lemma FlushOne(
    store: map<UsageKey, Entry>, rows: seq<UpsertEntry>, snapshot: map<string, Entry>, rest: set<string>, key: string)
    requires AllJoined(snapshot) && key in rest && rest <= snapshot.Keys
    requires Flushed(store, rows, snapshot - rest)
    ensures var row := UpsertEntry(Split(key), snapshot[key].count, snapshot[key].rejected);
            Flushed(store, rows + [row], snapshot - (rest - {key}))
  {
    hide Split, HasTwoPipes, Upsert, Find, Plus, Pending;
    var row := UpsertEntry(Split(key), snapshot[key].count, snapshot[key].rejected);
    forall u ensures Gains(store, Upsert(store, rows + [row]), snapshot - (rest - {key}), u) {
      assert Gains(store, Upsert(store, rows), snapshot - rest, u);
      UpsertStep(store, rows, row, u);
      PendingOne(snapshot, rest, key, u);
      PlusZero(Find(store, u));
    }
  }

  // ---------------------------------------------------------------------------
  // Runs
  // ---------------------------------------------------------------------------

  datatype Event =
    | Accept(apiKeyId: string, at: string) | Reject(apiKeyId: string, at: string) | Flush(storeThrows: bool)

  datatype Usage = Usage(accumulator: map<string, Entry>, store: map<UsageKey, Entry>)

  /** A run may flush in any order, so its states are related, not computed. */
  ghost predicate Next(s: Usage, e: Event, s': Usage) {
    match e
    case Accept(id, at) => IsIso(at) && s' == Usage(BumpBoth(s.accumulator, id, at, Entry(1, 0)), s.store)
    case Reject(id, at) => IsIso(at) && s' == Usage(BumpBoth(s.accumulator, id, at, Entry(0, 1)), s.store)
    case Flush(storeThrows) =>
      && s'.accumulator == map[]
      && if storeThrows then s'.store == s.store else forall u :: Gains(s.store, s'.store, s.accumulator, u)
  }

  /** A run of events through the states, from an empty accumulator and an empty store. */
  ghost predicate IsRun(events: seq<Event>, states: seq<Usage>) {
    && |states| == |events| + 1 && states[0] == Usage(map[], map[])
    && (forall i :: 0 <= i < |events| ==> Next(states[i], events[i], states[i + 1]))
    && (forall i :: 0 <= i < |events| && !events[i].Flush? ==> '|' !in events[i].apiKeyId)
  }

  ghost function TotalIn(s: Usage, u: UsageKey): Entry {
    Plus(Find(s.store, u), Pending(s.accumulator, u))
  }

  /** What an event contributes to the bucket `u`. */
  ghost function Contribution(e: Event, u: UsageKey): Entry {
    if e.Flush? || !IsIso(e.at) || (u != MinuteKey(e.apiKeyId, e.at) && u != HourKey(e.apiKeyId, e.at)) then Entry(0, 0)
    else if e.Accept? then Entry(1, 0) else Entry(0, 1)
  }

  /** The number of accepted and rejected events that fall into the bucket `u`. */
  ghost function Tally(events: seq<Event>, u: UsageKey): Entry {
    if events == [] then Entry(0, 0)
    else Plus(Tally(events[..|events| - 1], u), Contribution(events[|events| - 1], u))
  }

  lemma BumpOne(acc: map<string, Entry>, v: UsageKey, step: Entry, u: UsageKey)
    requires Clean(u) && Clean(v)
    ensures Pending(Bump(acc, v, step), u) == if u == v then Plus(Pending(acc, u), step) else Pending(acc, u)
  {
    if Join(u) == Join(v) {
      JoinInjective(u, v);
    }
  }

  lemma BumpIsContribution(acc: map<string, Entry>, id: string, t: string, step: Entry, u: UsageKey)
    requires Clean(u) && '|' !in id && IsIso(t)
    ensures Pending(BumpBoth(acc, id, t, step), u) ==
            if u == MinuteKey(id, t) || u == HourKey(id, t) then Plus(Pending(acc, u), step) else Pending(acc, u)
  {
    hide Bump, Join, MinuteBucketStart, HourBucketStart, IsIso, Pending;
    BumpOne(acc, MinuteKey(id, t), step, u);
    BumpOne(Bump(acc, MinuteKey(id, t), step), HourKey(id, t), step, u);
  }

  lemma NothingPendingFor(u: UsageKey)
    ensures Pending(map[], u) == Entry(0, 0) && forall e: Entry :: Plus(e, Entry(0, 0)) == e
  {
  }

  lemma TallyStep(events: seq<Event>, n: nat, u: UsageKey)
    requires 0 < n <= |events|
    ensures Tally(events[..n], u) == Plus(Tally(events[..n - 1], u), Contribution(events[n - 1], u))
  {
    hide Contribution;
    assert events[..n][..n - 1] == events[..n - 1];
  }

  /** Counted events by the fate of their batch: flushed, still accumulated, or lost to a flush the store refused. */
  datatype Batches = Batches(stored: seq<Event>, open: seq<Event>, lost: seq<Event>)

  ghost function BatchesOf(events: seq<Event>): Batches {
    if events == [] then Batches([], [], [])
    else
      var before, e := BatchesOf(events[..|events| - 1]), events[|events| - 1];
      if !e.Flush? then before.(open := before.open + [e])
      else if e.storeThrows then Batches(before.stored, [], before.lost + before.open)
      else Batches(before.stored + before.open, [], before.lost)
  }

  lemma BatchesStep(events: seq<Event>, n: nat)
    requires 0 < n <= |events|
    ensures var before, after, e := BatchesOf(events[..n - 1]), BatchesOf(events[..n]), events[n - 1];
            after == if !e.Flush? then before.(open := before.open + [e])
                     else if e.storeThrows then Batches(before.stored, [], before.lost + before.open)
                     else Batches(before.stored + before.open, [], before.lost)
  {
    assert events[..n][..n - 1] == events[..n - 1];
  }

  lemma TallyOne(events: seq<Event>, e: Event, u: UsageKey)
    ensures Tally(events + [e], u) == Plus(Tally(events, u), Contribution(e, u))
  {
    assert (events + [e])[..|events|] == events;
  }

  lemma {:induction false} TallyAppend(a: seq<Event>, b: seq<Event>, u: UsageKey)
    ensures Tally(a + b, u) == Plus(Tally(a, u), Tally(b, u))
  {
    hide Contribution, Plus;
    if b == [] {
      assert a + b == a;
      PlusZero(Tally(a, u));
    } else {
      var shorter, e := b[..|b| - 1], b[|b| - 1];
      TallyAppend(a, shorter, u);
      assert a + b == (a + shorter) + [e];
      TallyOne(a + shorter, e, u);
      PlusShuffle(Tally(a, u), Tally(shorter, u), Contribution(e, u), Contribution(e, u));
    }
  }

  /** The store holds the stored batches' counts, and the accumulator those since the last flush. */
  lemma {:induction false} BatchesHold(events: seq<Event>, states: seq<Usage>, n: nat, u: UsageKey)
    requires IsRun(events, states) && n <= |events| && Clean(u)
    ensures Find(states[n].store, u) == Tally(BatchesOf(events[..n]).stored, u)
    ensures Pending(states[n].accumulator, u) == Tally(BatchesOf(events[..n]).open, u)
  {
    if n == 0 {
      assert events[..0] == [];
    } else {
      hide Tally, Contribution, BatchesOf, Find, Plus, Pending, Join, MinuteKey, HourKey, Bump, IsIso;
      BatchesHold(events, states, n - 1, u);
      BatchesStep(events, n);
      assert Next(states[n - 1], events[n - 1], states[n]);
      BatchesNext(BatchesOf(events[..n - 1]), states[n - 1], events[n - 1], states[n], u);
    }
  }

  /** One event keeps stored and pending counts those of the batches. */
  lemma BatchesNext(b: Batches, s: Usage, e: Event, s': Usage, u: UsageKey)
    requires Next(s, e, s') && Clean(u) && (!e.Flush? ==> '|' !in e.apiKeyId)
    requires Find(s.store, u) == Tally(b.stored, u) && Pending(s.accumulator, u) == Tally(b.open, u)
    ensures Find(s'.store, u) == Tally(if e.Flush? && !e.storeThrows then b.stored + b.open else b.stored, u)
    ensures Pending(s'.accumulator, u) == Tally(if e.Flush? then [] else b.open + [e], u)
  {
    hide Join, MinuteKey, HourKey, Bump, IsIso, Find, Plus, Pending, Tally, Gains;
    TallyOne(b.open, e, u);
    TallyAppend(b.stored, b.open, u);
    PlusZero(Pending(s.accumulator, u));
    NothingTallied(u);
    NothingPendingFor(u);
    match e {
      case Accept(id, at) => BumpIsContribution(s.accumulator, id, at, Entry(1, 0), u);
      case Reject(id, at) => BumpIsContribution(s.accumulator, id, at, Entry(0, 1), u);
      case Flush(storeThrows) =>
        if !storeThrows {
          assert Gains(s.store, s'.store, s.accumulator, u);
          GainsMeaning(s.store, s'.store, s.accumulator, u);
        }
    }
  }

  lemma GainsMeaning(before: map<UsageKey, Entry>, after: map<UsageKey, Entry>, acc: map<string, Entry>, u: UsageKey)
    requires Gains(before, after, acc, u)
    ensures Find(after, u) == Plus(Find(before, u), Pending(acc, u))
  {
  }

  lemma NothingTallied(u: UsageKey)
    ensures Tally([], u) == Entry(0, 0)
  {
  }

  /** Every counted event is in exactly one batch. */
  lemma {:induction false} BatchesTally(events: seq<Event>, u: UsageKey)
    ensures var b := BatchesOf(events);
            Tally(events, u) == Plus(Plus(Tally(b.stored, u), Tally(b.open, u)), Tally(b.lost, u))
  {
    hide Plus;
    NothingTallied(u);
    PlusZero(Entry(0, 0));
    if events != [] {
      var before, e := events[..|events| - 1], events[|events| - 1];
      var b := BatchesOf(before);
      BatchesTally(before, u);
      hide Tally, Contribution;
      assert events == before + [e];
      TallyOne(before, e, u);
      TallyOne(b.open, e, u);
      TallyAppend(b.stored, b.open, u);
      TallyAppend(b.lost, b.open, u);
      FlushContributesNothing(e, u);
      RegroupBatches(Tally(b.stored, u), Tally(b.open, u), Tally(b.lost, u), Contribution(e, u));
    }
  }

  lemma FlushContributesNothing(e: Event, u: UsageKey)
    ensures e.Flush? ==> Contribution(e, u) == Entry(0, 0)
  {
  }

  lemma RegroupBatches(stored: Entry, open: Entry, lost: Entry, e: Entry)
    ensures var all := Plus(Plus(stored, open), lost);
            && Plus(all, Entry(0, 0)) == all == Plus(Plus(Plus(stored, open), Entry(0, 0)), lost)
            && Plus(Plus(stored, Entry(0, 0)), Plus(lost, open)) == all
            && Plus(all, e) == Plus(Plus(stored, Plus(open, e)), lost)
  {
  }

  /** Stored, pending and lost counts are the number of events, at every point of every run. */
  lemma CountsConserved(events: seq<Event>, states: seq<Usage>, n: nat, u: UsageKey)
    requires IsRun(events, states) && n <= |events| && Clean(u)
    ensures Plus(TotalIn(states[n], u), Tally(BatchesOf(events[..n]).lost, u)) == Tally(events[..n], u)
  {
    hide Tally, BatchesOf, Plus, Find, Pending;
    BatchesHold(events, states, n, u);
    BatchesTally(events[..n], u);
  }

  /** The accumulator is empty exactly when nothing was counted since the last flush. */
  lemma EmptyTogether(events: seq<Event>, states: seq<Usage>, n: nat)
    requires IsRun(events, states) && n <= |events|
    ensures states[n].accumulator == map[] <==> BatchesOf(events[..n]).open == []
  {
    hide BatchesOf, Join, MinuteKey, HourKey, IsIso, Plus, Find, Gains;
    if n == 0 {
      assert events[..0] == [];
      NoBatches();
    } else {
      BatchesStep(events, n);
      var s, e, s' := states[n - 1], events[n - 1], states[n];
      assert Next(s, e, s');
      if !e.Flush? {
        assert Join(HourKey(e.apiKeyId, e.at)) in s'.accumulator;
      }
    }
  }

  lemma NoBatches()
    ensures BatchesOf([]) == Batches([], [], [])
  {
  }

  /** Nothing is lost exactly when every refused flush found the accumulator empty. */
  lemma {:induction false} NothingLost(events: seq<Event>, states: seq<Usage>, n: nat)
    requires IsRun(events, states) && n <= |events|
    ensures BatchesOf(events[..n]).lost == [] <==>
      forall i :: 0 <= i < n && events[i] == Flush(true) ==> states[i].accumulator == map[]
  {
    hide BatchesOf, Next;
    if n == 0 {
      assert events[..0] == [];
      NoBatches();
    } else {
      NothingLost(events, states, n - 1);
      BatchesStep(events, n);
      EmptyTogether(events, states, n - 1);
    }
  }

  /** Batches hold counted events of the run. */
  lemma {:induction false} BatchMembers(events: seq<Event>)
    ensures var b := BatchesOf(events);
            forall e :: e in b.stored || e in b.open || e in b.lost ==> e in events && !e.Flush?
  {
    if events != [] {
      BatchMembers(events[..|events| - 1]);
      assert events == events[..|events| - 1] + [events[|events| - 1]];
    }
  }

  lemma {:induction false} CountedIsTallied(events: seq<Event>, i: nat)
    requires i < |events| && !events[i].Flush? && IsIso(events[i].at)
    ensures Tally(events, MinuteKey(events[i].apiKeyId, events[i].at)) != Entry(0, 0)
  {
    hide IsIso, HourBucketStart, MinuteBucketStart;
    if i < |events| - 1 {
      CountedIsTallied(events[..|events| - 1], i);
    }
  }

  /** Stored plus pending counts every event of every bucket exactly when no refused flush had anything to lose. */
  lemma CountsConservedExactly(events: seq<Event>, states: seq<Usage>, n: nat)
    requires IsRun(events, states) && n <= |events|
    ensures (forall u :: Clean(u) ==> TotalIn(states[n], u) == Tally(events[..n], u)) <==>
            (forall i :: 0 <= i < n && events[i] == Flush(true) ==> states[i].accumulator == map[])
  {
    hide Tally, TotalIn, BatchesOf, IsIso, MinuteBucketStart, Next;
    var lost := BatchesOf(events[..n]).lost;
    NothingLost(events, states, n);
    forall u | Clean(u) ensures TotalIn(states[n], u) == Tally(events[..n], u) <==> Tally(lost, u) == Entry(0, 0) {
      CountsConserved(events, states, n, u);
    }
    if lost == [] {
      forall u ensures Tally(lost, u) == Entry(0, 0) {
        NothingTallied(u);
      }
    } else {
      BatchMembers(events[..n]);
      assert lost[0] in lost;
      var i :| 0 <= i < n && events[i] == lost[0];
      CountedHasTime(events, states, i);
      CountedIsTallied(lost, 0);
      var u := MinuteKey(lost[0].apiKeyId, lost[0].at);
      assert Clean(u);
    }
  }

  lemma CountedHasTime(events: seq<Event>, states: seq<Usage>, i: nat)
    requires IsRun(events, states) && i < |events| && !events[i].Flush?
    ensures IsIso(events[i].at) && '|' !in events[i].apiKeyId
  {
    assert Next(states[i], events[i], states[i + 1]);
  }

  // ---------------------------------------------------------------------------
  // Minutes make up the hour
  // ---------------------------------------------------------------------------

  function DigitChar(d: nat): char
    requires d < 10
  {
    '0' + d as char
  }

  /** The minute bucket `m` of the hour whose text is `hour`. */
  function MinuteOfHour(id: string, hour: string, m: nat): UsageKey
    requires m < 60
  {
    UsageKey(id, "minute", hour + ":" + [DigitChar(m / 10), DigitChar(m % 10)] + ":00")
  }

  function WholeHour(id: string, hour: string): UsageKey {
    UsageKey(id, "hour", hour + ":00:00")
  }

  ghost function SumOfMinutes(events: seq<Event>, id: string, hour: string, n: nat): Entry
    requires n <= 60
  {
    if n == 0 then Entry(0, 0)
    else Plus(SumOfMinutes(events, id, hour, n - 1), Tally(events, MinuteOfHour(id, hour, n - 1)))
  }

  /** The minute an instant names. */
  function MinuteIn(t: string): (m: nat)
    requires IsIso(t)
    ensures m < 60
  {
    10 * (t[14] - '0') as nat + (t[15] - '0') as nat
  }

  lemma OneMinuteFits(id: string, hour: string, t: string, id': string, m: nat)
    requires IsIso(t) && |hour| == 13 && m < 60
    ensures MinuteKey(id', t) == MinuteOfHour(id, hour, m) <==> id' == id && t[..13] == hour && m == MinuteIn(t)
  {
    var name := hour + ":" + [DigitChar(m / 10), DigitChar(m % 10)] + ":00";
    var text := MinuteBucketStart(t);
    assert text[..13] == t[..13] && name[..13] == hour;
    assert text[13] == ':' == name[13];
    assert text[14] == t[14] && text[15] == t[15] && name[14] == DigitChar(m / 10) && name[15] == DigitChar(m % 10);
    if t[..13] == hour && m == MinuteIn(t) {
      assert t[14] == DigitChar(m / 10) && t[15] == DigitChar(m % 10);
      assert text == name;
    }
  }

  lemma HourFits(id: string, hour: string, t: string, id': string)
    requires IsIso(t) && |hour| == 13
    ensures HourKey(id', t) == WholeHour(id, hour) <==> id' == id && t[..13] == hour
  {
    assert HourBucketStart(t)[..13] == t[..13] && (hour + ":00:00")[..13] == hour;
  }

  /** Contributions of one event to the first `n` minutes of an hour. */
  ghost function MinuteContributions(e: Event, id: string, hour: string, n: nat): Entry
    requires n <= 60
  {
    if n == 0 then Entry(0, 0)
    else Plus(MinuteContributions(e, id, hour, n - 1), Contribution(e, MinuteOfHour(id, hour, n - 1)))
  }

  lemma ContributionToMinute(e: Event, id: string, hour: string, m: nat)
    requires m < 60 && |hour| == 13
    ensures Contribution(e, MinuteOfHour(id, hour, m)) ==
            if !e.Flush? && IsIso(e.at) && e.apiKeyId == id && e.at[..13] == hour && MinuteIn(e.at) == m
            then Contribution(e, WholeHour(id, hour)) else Entry(0, 0)
  {
    if !e.Flush? && IsIso(e.at) {
      OneMinuteFits(id, hour, e.at, e.apiKeyId, m);
      HourFits(id, hour, e.at, e.apiKeyId);
    }
  }

  lemma ContributionToHour(e: Event, id: string, hour: string)
    requires |hour| == 13
    ensures Contribution(e, WholeHour(id, hour)) != Entry(0, 0) ==>
              !e.Flush? && IsIso(e.at) && e.apiKeyId == id && e.at[..13] == hour
  {
    if !e.Flush? && IsIso(e.at) {
      HourFits(id, hour, e.at, e.apiKeyId);
    }
  }

  lemma {:induction false} MinuteContributionsMeaning(e: Event, id: string, hour: string, n: nat)
    requires n <= 60 && |hour| == 13
    ensures MinuteContributions(e, id, hour, n) ==
            if !e.Flush? && IsIso(e.at) && e.apiKeyId == id && e.at[..13] == hour && MinuteIn(e.at) < n
            then Contribution(e, WholeHour(id, hour)) else Entry(0, 0)
  {
    hide IsIso, MinuteIn, Contribution, MinuteOfHour, WholeHour;
    if n > 0 {
      MinuteContributionsMeaning(e, id, hour, n - 1);
      ContributionToMinute(e, id, hour, n - 1);
    }
  }

  lemma {:induction false} SumOfMinutesStep(events: seq<Event>, id: string, hour: string, n: nat)
    requires n <= 60 && events != []
    ensures SumOfMinutes(events, id, hour, n) ==
            Plus(SumOfMinutes(events[..|events| - 1], id, hour, n),
              MinuteContributions(events[|events| - 1], id, hour, n))
  {
    if n > 0 {
      var before, last, u := events[..|events| - 1], events[|events| - 1], MinuteOfHour(id, hour, n - 1);
      SumOfMinutesStep(events, id, hour, n - 1);
      assert events[..|events|] == events;
      TallyStep(events, |events|, u);
      hide Tally, Contribution, Plus;
      PlusShuffle(SumOfMinutes(before, id, hour, n - 1), MinuteContributions(last, id, hour, n - 1),
                  Tally(before, u), Contribution(last, u));
    }
  }

  lemma {:induction false} NoEventsNoMinutes(id: string, hour: string, n: nat)
    requires n <= 60
    ensures SumOfMinutes([], id, hour, n) == Entry(0, 0)
  {
    hide Join, MinuteOfHour, WholeHour, MinuteKey, HourKey;
    if n > 0 {
      NoEventsNoMinutes(id, hour, n - 1);
    }
  }

  lemma {:induction false} MinutesSumToHour(events: seq<Event>, id: string, hour: string)
    requires |hour| == 13 && forall i :: 0 <= i < |events| && !events[i].Flush? ==> IsIso(events[i].at)
    ensures SumOfMinutes(events, id, hour, 60) == Tally(events, WholeHour(id, hour))
  {
    hide IsIso, MinuteIn, Contribution, MinuteOfHour, WholeHour, SumOfMinutes, MinuteContributions;
    if events == [] {
      NoEventsNoMinutes(id, hour, 60);
    } else {
      var last := events[|events| - 1];
      MinutesSumToHour(events[..|events| - 1], id, hour);
      SumOfMinutesStep(events, id, hour, 60);
      MinuteContributionsMeaning(last, id, hour, 60);
      ContributionToHour(last, id, hour);
    }
  }

  ghost function SumOfMinuteTotals(s: Usage, id: string, hour: string, n: nat): Entry
    requires n <= 60
  {
    if n == 0 then Entry(0, 0)
      else Plus(SumOfMinuteTotals(s, id, hour, n - 1), TotalIn(s, MinuteOfHour(id, hour, n - 1)))
  }

  /** The events whose counts are stored or pending. */
  ghost function Counted(events: seq<Event>): seq<Event> {
    BatchesOf(events).stored + BatchesOf(events).open
  }

  lemma TotalIsCounted(events: seq<Event>, states: seq<Usage>, k: nat, u: UsageKey)
    requires IsRun(events, states) && k <= |events| && Clean(u)
    ensures TotalIn(states[k], u) == Tally(Counted(events[..k]), u)
  {
    hide Tally, BatchesOf, Find, Pending, Plus;
    BatchesHold(events, states, k, u);
    TallyAppend(BatchesOf(events[..k]).stored, BatchesOf(events[..k]).open, u);
  }

  lemma {:induction false} MinuteTotalsAreTallies(
    events: seq<Event>, states: seq<Usage>, k: nat, id: string, hour: string, n: nat)
    requires IsRun(events, states) && k <= |events| && n <= 60 && '|' !in id
    ensures SumOfMinuteTotals(states[k], id, hour, n) == SumOfMinutes(Counted(events[..k]), id, hour, n)
  {
    hide Join, Tally, TotalIn, Counted;
    if n > 0 {
      MinuteTotalsAreTallies(events, states, k, id, hour, n - 1);
      TotalIsCounted(events, states, k, MinuteOfHour(id, hour, n - 1));
    }
  }

  /**
   * At every point of every run the sixty minute buckets of an hour sum to its hour bucket: a batch is lost as a whole.
   */
  lemma MinuteBucketsSumToHourBucket(events: seq<Event>, states: seq<Usage>, k: nat, id: string, hour: string)
    requires IsRun(events, states) && k <= |events| && |hour| == 13 && '|' !in id
    ensures SumOfMinuteTotals(states[k], id, hour, 60) == TotalIn(states[k], WholeHour(id, hour))
  {
    hide Join, Tally, TotalIn, SumOfMinutes, SumOfMinuteTotals, IsIso, BatchesOf;
    MinuteTotalsAreTallies(events, states, k, id, hour, 60);
    TotalIsCounted(events, states, k, WholeHour(id, hour));
    BatchMembers(events[..k]);
    var counted := Counted(events[..k]);
    forall i | 0 <= i < |counted| && !counted[i].Flush? ensures IsIso(counted[i].at) {
      assert counted[i] in counted;
      var j :| 0 <= j < k && events[j] == counted[i];
      CountedHasTime(events, states, j);
    }
    MinutesSumToHour(counted, id, hour);
  }

  // ---------------------------------------------------------------------------
  // The buckets by name
  // ---------------------------------------------------------------------------

  /** The event is one of the key's, in the minute or the hour that the bucket is named after. */
  ghost predicate FallsInto(id: string, at: string, u: UsageKey) {
    && IsIso(at) && u.apiKeyId == id
    && ((u.granularity == "minute" && u.bucketStart == at[..16] + ":00")
        || (u.granularity == "hour" && u.bucketStart == at[..13] + ":00:00"))
  }

  /** How many accepted requests fall into the bucket. */
  ghost function AcceptedIn(events: seq<Event>, u: UsageKey): nat {
    if events == [] then 0
    else
      var e := events[|events| - 1];
      AcceptedIn(events[..|events| - 1], u) + if e.Accept? && FallsInto(e.apiKeyId, e.at, u) then 1 else 0
  }

  ghost function RejectedIn(events: seq<Event>, u: UsageKey): nat {
    if events == [] then 0
    else
      var e := events[|events| - 1];
      RejectedIn(events[..|events| - 1], u) + if e.Reject? && FallsInto(e.apiKeyId, e.at, u) then 1 else 0
  }

  lemma ContributionInWords(e: Event, u: UsageKey)
    ensures Contribution(e, u) ==
            if e.Accept? && FallsInto(e.apiKeyId, e.at, u) then Entry(1, 0)
            else if e.Reject? && FallsInto(e.apiKeyId, e.at, u) then Entry(0, 1)
            else Entry(0, 0)
  {
  }

  /** A bucket's tally is the numbers of accepted and of rejected requests of its key in its minute or its hour. */
  lemma {:induction false} TallyInEvents(events: seq<Event>, u: UsageKey)
    ensures Tally(events, u) == Entry(AcceptedIn(events, u), RejectedIn(events, u))
  {
    hide FallsInto, Contribution;
    if events != [] {
      TallyInEvents(events[..|events| - 1], u);
      ContributionInWords(events[|events| - 1], u);
    }
  }
}
