/** Which log entries the bank report lists: entries of the last 60 days whose
    title mentions money, newest first, at most 25 of them. */
module Selection {
  import opened Api
  import opened Text
  import opened Ordering

  const MicrosPerSecond: int := 1_000_000
  const SecondsPerDay: int := 86400
  const WindowDays: int := 60

  /** The report's length limit. */
  const Cap: nat := 25

  /** The title words that mark a money transaction; all are lower case. */
  const Keywords: seq<string> := ["paid", "deposit", "withdraw", "sold", "received", "sent"]

  /** `datetime.utcfromtimestamp(ts) >= datetime.utcnow() - timedelta(days=60)`, where `now`
      is the clock in microseconds since the epoch (the resolution of `utcnow()`). */
  predicate InWindow(timestamp: int, now: int) {
    timestamp * MicrosPerSecond >= now - WindowDays * SecondsPerDay * MicrosPerSecond
  }

  /** The lower-cased title contains at least one keyword. */
  predicate MentionsMoney(title: string) {
    exists k :: 0 <= k < |Keywords| && Contains(Lower(title), Keywords[k])
  }

  /** The filter of the report loop. */
  predicate Relevant(e: Entry, now: int) {
    InWindow(e.timestamp, now) && MentionsMoney(e.title)
  }

  /** Reference definition: the ids of all entries the report may list. */
  ghost function RelevantIds(log: Log, now: int): set<LogId> {
    set id | id in log && Relevant(log[id], now)
  }

  /** `r` is the log's own entry under `r.id`, and it passes the filter. */
  ghost predicate IsRelevantRow(log: Log, now: int, r: Row) {
    r.id in log && log[r.id] == r.entry && Relevant(r.entry, now)
  }

  /** The ids that occur in `rows`. */
  ghost function IdSet(rows: seq<Row>): set<LogId> {
    set r | r in rows :: r.id
  }

  /** What a correct report listing is: relevant rows only, each at most once,
      newest first, as many as there are relevant entries up to the cap, and no
      relevant entry left out while an older one is listed. */
  ghost predicate IsSelection(log: Log, now: int, listed: seq<Row>) {
    && |listed| == Min(Cap, |RelevantIds(log, now)|)
    && (forall r :: r in listed ==> IsRelevantRow(log, now, r))
    && UniqueIds(listed)
    && NewestFirst(listed)
    && (forall id, r :: id in log && Relevant(log[id], now) && Row(id, log[id]) !in listed && r in listed
          ==> log[id].timestamp <= r.entry.timestamp)
  }

  /** The report's loop over `entries.items()`. The order of the log object
      is not known, so keys are visited in an arbitrary order. */
  method FilterLog(log: Log, now: int) returns (filtered: seq<Row>)
    ensures forall r :: r in filtered ==> IsRelevantRow(log, now, r)
    ensures forall id :: id in log && Relevant(log[id], now) ==> Row(id, log[id]) in filtered
    ensures UniqueIds(filtered)
  {
    filtered := [];
    var remaining := log.Keys;
    while remaining != {}
      invariant remaining <= log.Keys
      invariant forall r :: r in filtered ==> IsRelevantRow(log, now, r) && r.id !in remaining
      invariant forall id :: id in log && id !in remaining && Relevant(log[id], now) ==> Row(id, log[id]) in filtered
      invariant UniqueIds(filtered)
      decreases remaining
    {
      var id :| id in remaining;
      var entry := log[id];
      if Relevant(entry, now) {
        filtered := filtered + [Row(id, entry)];
      }
      remaining := remaining - {id};
    }
  }

  /** A sequence of distinct ids has exactly as many rows as ids. */
  lemma {:induction false} IdSetSize(rows: seq<Row>)
    requires UniqueIds(rows)
    ensures |IdSet(rows)| == |rows|
  {
    if rows != [] {
      var tail := rows[1..];
      IdSetSize(tail);
      assert IdSet(rows) == {rows[0].id} + IdSet(tail) by {
        assert rows == [rows[0]] + tail;
      }
      assert forall k :: 0 <= k < |tail| ==> tail[k].id != rows[0].id by {
        forall k | 0 <= k < |tail| ensures tail[k].id != rows[0].id {
          assert tail[k] == rows[k + 1];
        }
      }
    }
  }

  /** The filtered rows are as many as the relevant ids. */
  lemma FilteredSize(log: Log, now: int, filtered: seq<Row>)
    requires forall r :: r in filtered ==> IsRelevantRow(log, now, r)
    requires forall id :: id in log && Relevant(log[id], now) ==> Row(id, log[id]) in filtered
    requires UniqueIds(filtered)
    ensures |filtered| == |RelevantIds(log, now)|
  {
    IdSetSize(filtered);
    assert IdSet(filtered) == RelevantIds(log, now) by {
      forall id | id in RelevantIds(log, now) ensures id in IdSet(filtered) {
        assert Row(id, log[id]) in filtered;
      }
    }
  }

  /** Every row of a permutation of `a` is a row of `a`. */
  lemma PermutationMembers(a: seq<Row>, b: seq<Row>)
    requires multiset(a) == multiset(b)
    ensures forall r :: r in b ==> r in a
  {
    forall r | r in b ensures r in a {
      assert r in multiset(b);
    }
  }

  /** A relevant row missing from a prefix of a newest-first permutation of
      the filtered rows is no newer than anything in that prefix. */
  lemma PrefixHoldsNewest(log: Log, now: int, filtered: seq<Row>, sorted: seq<Row>, n: nat)
    requires forall id :: id in log && Relevant(log[id], now) ==> Row(id, log[id]) in filtered
    requires multiset(sorted) == multiset(filtered)
    requires NewestFirst(sorted)
    requires n <= |sorted|
    ensures forall id, r :: id in log && Relevant(log[id], now) && Row(id, log[id]) !in sorted[..n] && r in sorted[..n]
              ==> log[id].timestamp <= r.entry.timestamp
  {
    var listed := sorted[..n];
    forall id, r | id in log && Relevant(log[id], now) && Row(id, log[id]) !in listed && r in listed
      ensures log[id].timestamp <= r.entry.timestamp
    {
      var row := Row(id, log[id]);
      assert row in multiset(filtered);
      var j :| 0 <= j < |sorted| && sorted[j] == row;
      var i :| 0 <= i < n && listed[i] == r;
      assert forall k :: 0 <= k < n ==> listed[k] == sorted[k];
      assert sorted[i] == r;
    }
  }

  /** The report listing: filter, sort newest first, keep the first 25. */
  method SelectRows(log: Log, now: int) returns (listed: seq<Row>)
    ensures IsSelection(log, now, listed)
  {
    var filtered := FilterLog(log, now);
    var sorted := SortNewestFirst(filtered);
    listed := Take(sorted, Cap);
    var n := |listed|;
    assert listed == sorted[..n];
    FilteredSize(log, now, filtered);
    assert |sorted| == |filtered| by {
      assert |multiset(sorted)| == |multiset(filtered)|;
    }
    PermutationMembers(filtered, sorted);
    UniqueIdsPermutation(filtered, sorted);
    PrefixHoldsNewest(log, now, filtered, sorted, n);
  }

  /** When the clock reads a whole second `nowSeconds`, the window is `ts >= nowSeconds - 60 days`. */
  lemma WholeSecondCutoff(timestamp: int, nowSeconds: int)
    ensures InWindow(timestamp, nowSeconds * MicrosPerSecond)
        <==> timestamp >= nowSeconds - WindowDays * SecondsPerDay
  {
  }

  /** Between two whole seconds the clock's fraction moves the cutoff by one second:
      an entry exactly 60 days old at `nowSeconds` is already outside the window. */
  lemma FractionalSecondCutoff(timestamp: int, nowSeconds: int, micros: int)
    requires 0 < micros < MicrosPerSecond
    ensures InWindow(timestamp, nowSeconds * MicrosPerSecond + micros)
        <==> timestamp > nowSeconds - WindowDays * SecondsPerDay
  {
  }

  /** Keyword matching ignores the case of ASCII letters in the title. */
  lemma MentionsMoneyIgnoresCase(title: string)
    ensures MentionsMoney(Lower(title)) == MentionsMoney(title)
  {
    LowerIdempotent(title);
  }
}
