/** Ordering of report rows: Python's stable `sorted(..., key=timestamp, reverse=True)`
    and the `[:25]` slice that follows it. */
module Ordering {
  import opened Api

  /** A log entry together with the id it was listed under. */
  datatype Row = Row(id: LogId, entry: Entry)

  /** Rows are in non-increasing timestamp order. */
  ghost predicate NewestFirst(rows: seq<Row>) {
    forall i, j :: 0 <= i < j < |rows| ==> rows[i].entry.timestamp >= rows[j].entry.timestamp
  }

  /** No log id appears twice. */
  ghost predicate UniqueIds(rows: seq<Row>) {
    forall i, j :: 0 <= i < j < |rows| ==> rows[i].id != rows[j].id
  }

  /** A row no older than the head of a newest-first sequence can be put in front of it. */
  lemma ConsNewestFirst(a: Row, rows: seq<Row>)
    requires NewestFirst(rows)
    requires rows == [] || a.entry.timestamp >= rows[0].entry.timestamp
    ensures NewestFirst([a] + rows)
  {
    var r := [a] + rows;
    forall i, j | 0 <= i < j < |r| ensures r[i].entry.timestamp >= r[j].entry.timestamp {
      assert r[j] == rows[j - 1];
      if i > 0 {
        assert r[i] == rows[i - 1];
      } else {
        assert r[i] == a;
        assert rows[0].entry.timestamp >= rows[j - 1].entry.timestamp;
      }
    }
  }

  /** Inserts `x` into newest-first `rows` in front of the first row that is not newer,
      so that `x` stays ahead of rows with the same timestamp. */
  function Insert(x: Row, rows: seq<Row>): (r: seq<Row>)
    requires NewestFirst(rows)
    ensures multiset(r) == multiset(rows) + multiset{x}
    ensures |r| == |rows| + 1
    ensures r[0] == x || (rows != [] && r[0] == rows[0])
    ensures NewestFirst(r)
  {
    if rows == [] || x.entry.timestamp >= rows[0].entry.timestamp then
      ConsNewestFirst(x, rows);
      [x] + rows
    else
      assert rows == [rows[0]] + rows[1..];
      var rest := Insert(x, rows[1..]);
      ConsNewestFirst(rows[0], rest);
      [rows[0]] + rest
  }

  /** The rows with timestamp `t`, in their original order. */
  function OfTime(rows: seq<Row>, t: int): seq<Row> {
    if rows == [] then []
    else (if rows[0].entry.timestamp == t then [rows[0]] else []) + OfTime(rows[1..], t)
  }

  /** `OfTime` unfolded once for a sequence built by prepending a row. */
  lemma OfTimeCons(a: Row, rows: seq<Row>, t: int)
    ensures OfTime([a] + rows, t) == (if a.entry.timestamp == t then [a] else []) + OfTime(rows, t)
  {
    assert ([a] + rows)[1..] == rows;
  }

  /** Inserting `x` puts it in front of the rows with its timestamp and
      leaves the rows of every other timestamp as they were. */
  lemma {:induction false} OfTimeInsert(x: Row, rows: seq<Row>, t: int)
    requires NewestFirst(rows)
    ensures OfTime(Insert(x, rows), t)
         == (if x.entry.timestamp == t then [x] else []) + OfTime(rows, t)
  {
    if rows == [] || x.entry.timestamp >= rows[0].entry.timestamp {
      OfTimeCons(x, rows, t);
    } else {
      var head := rows[0];
      var tail := rows[1..];
      var rest := Insert(x, tail);
      assert Insert(x, rows) == [head] + rest;
      assert rows == [head] + tail;
      OfTimeInsert(x, tail, t);
      OfTimeCons(head, rest, t);
      OfTimeCons(head, tail, t);
    }
  }

  /** Insertion sort, newest first. It is stable: for every timestamp, the rows
      carrying it appear in the same relative order as in the input. */
  function SortNewestFirst(rows: seq<Row>): (r: seq<Row>)
    ensures multiset(r) == multiset(rows)
    ensures NewestFirst(r)
    ensures forall stamp :: OfTime(r, stamp) == OfTime(rows, stamp)
  {
    if rows == [] then
      []
    else
      var rest := SortNewestFirst(rows[1..]);
      assert rows == [rows[0]] + rows[1..];
      assert forall stamp :: OfTime(Insert(rows[0], rest), stamp) == OfTime(rows, stamp) by {
        forall stamp ensures OfTime(Insert(rows[0], rest), stamp) == OfTime(rows, stamp) {
          OfTimeInsert(rows[0], rest, stamp);
          OfTimeCons(rows[0], rows[1..], stamp);
        }
      }
      Insert(rows[0], rest)
  }

  /** A sequence without repeated ids keeps that property under any permutation. */
  lemma {:induction false} UniqueIdsPermutation(a: seq<Row>, b: seq<Row>)
    requires multiset(a) == multiset(b)
    requires UniqueIds(a)
    ensures UniqueIds(b)
  {
    forall i, j | 0 <= i < j < |b| ensures b[i].id != b[j].id {
      if b[i].id == b[j].id {
        assert b[i] in multiset(a) && b[j] in multiset(a);
        var p :| 0 <= p < |a| && a[p] == b[i];
        var q :| 0 <= q < |a| && a[q] == b[j];
        assert p == q;
        assert b[i] == b[j];
        assert multiset(b)[b[i]] >= 2 by {
          assert b == b[..j] + b[j..];
          assert b[i] in b[..j];
          assert b[j] in b[j..];
          assert multiset(b) == multiset(b[..j]) + multiset(b[j..]);
        }
        MultisetCountAtMostOne(a, p);
        assert false;
      }
    }
  }

  /** In a sequence whose ids are distinct, each row occurs once. */
  lemma {:induction false} MultisetCountAtMostOne(a: seq<Row>, p: int)
    requires UniqueIds(a)
    requires 0 <= p < |a|
    ensures multiset(a)[a[p]] == 1
  {
    if p == 0 {
      assert a == [a[0]] + a[1..];
      assert a[0] !in a[1..];
    } else {
      assert a == [a[0]] + a[1..];
      assert a[1..][p - 1] == a[p];
      MultisetCountAtMostOne(a[1..], p - 1);
      assert a[0] != a[p] by {
        assert a[0].id != a[p].id;
      }
    }
  }

  /** Python's `min`. */
  function Min(a: int, b: int): int {
    if a <= b then a else b
  }

  /** The first `n` rows, or all of them when there are fewer (Python's `rows[:n]`). */
  function Take(rows: seq<Row>, n: nat): (r: seq<Row>)
    ensures |r| == Min(n, |rows|)
    ensures r <= rows
  {
    rows[..Min(n, |rows|)]
  }
}
