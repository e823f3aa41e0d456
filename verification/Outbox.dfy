/**
The agent's offline outbox (crates/ravn-agent/src/buffer.rs:41-97) and the flush loop that empties
it (crates/ravn-agent/src/main.rs:190-211).

`rows` is the table in rowid order: a new row gets the highest rowid, so it is appended. Statements
read it `ORDER BY enqueued_at, rowid`, which is `Ordered`, a stable sort.
*/
module Outbox {
  datatype Body = Readable(msg: string) | Garbled

  datatype Row = Row(id: string, body: Body, at: int)

  /** Insert after every row that is not younger. */
  function Insert(s: seq<Row>, r: Row): seq<Row> {
    if s == [] || s[|s| - 1].at <= r.at then s + [r] else Insert(s[..|s| - 1], r) + [s[|s| - 1]]
  }

  function Ordered(rows: seq<Row>): seq<Row> {
    if rows == [] then [] else Insert(Ordered(rows[..|rows| - 1]), rows[|rows| - 1])
  }

  /** `DELETE ... WHERE event_id IN ids`. */
  function Without(s: seq<Row>, ids: set<string>): seq<Row> {
    if s == [] then []
    else if s[|s| - 1].id in ids then Without(s[..|s| - 1], ids)
    else Without(s[..|s| - 1], ids) + [s[|s| - 1]]
  }

  function Ids(s: seq<Row>): set<string> { set r | r in s :: r.id }

  predicate UniqueIds(s: seq<Row>) {
    forall i, j :: 0 <= i < j < |s| ==> s[i].id != s[j].id
  }

  predicate Sorted(s: seq<Row>) {
    forall i, j :: 0 <= i < j < |s| ==> s[i].at <= s[j].at
  }

  function Excess(count: nat, max: nat): nat { if count > max then count - max else 0 }

  // ---- what the statements do to the ordered view ----

  function EnqueueView(q: seq<Row>, max: nat, r: Row): seq<Row> {
    var q1 := if r.id in Ids(q) then q else Insert(q, r);
    q1[Excess(|q1|, max)..]
  }

  function FirstRows(q: seq<Row>, n: nat): seq<Row> { if n < |q| then q[..n] else q }

  function GarbledIds(s: seq<Row>): set<string> { set r | r in s && r.body.Garbled? :: r.id }

  function ReadableOf(s: seq<Row>): seq<Row> {
    if s == [] then []
    else if s[|s| - 1].body.Readable? then ReadableOf(s[..|s| - 1]) + [s[|s| - 1]]
    else ReadableOf(s[..|s| - 1])
  }

  class Buffer {
    const max: nat
    var rows: seq<Row>

    ghost predicate Valid() reads this { max >= 1 && UniqueIds(rows) }

    /** Opens a table that may hold rows from earlier runs; the cap is at least one. */
    constructor (rows: seq<Row>, max: nat)
      requires UniqueIds(rows)
      ensures Valid() && this.rows == rows && this.max == if max > 1 then max else 1
    {
      this.rows := rows;
      this.max := if max > 1 then max else 1;
    }

    method Enqueue(id: string, msg: string, now: int)
      requires Valid()
      modifies this
      ensures Valid()
      ensures Ordered(rows) == EnqueueView(Ordered(old(rows)), max, Row(id, Readable(msg), now))
    {
      hide Insert, Ordered, Without, Sorted;
      var r := Row(id, Readable(msg), now);
      OrderedHolds(rows);
      OrderedAppend(rows, r);
      if id !in Ids(rows) {
        rows := rows + [r];
      }
      OrderedHolds(rows);
      var oldest := Ordered(rows)[..Excess(|rows|, max)];
      PruneIsDropping(rows, Excess(|rows|, max));
      rows := Without(rows, Ids(oldest));
    }

    /** Oldest first; rows that do not parse are deleted on the way. */
    method DrainBatch(n: nat) returns (out: seq<Row>)
      requires Valid()
      modifies this
      ensures Valid()
      ensures out == ReadableOf(FirstRows(Ordered(old(rows)), n))
      ensures Ordered(rows) == Without(Ordered(old(rows)), GarbledIds(FirstRows(Ordered(old(rows)), n)))
    {
      hide Without, Ordered, ReadableOf, GarbledIds, FirstRows;
      var picked := FirstRows(Ordered(rows), n);
      out := [];
      assert picked[..|picked|] == picked && picked[..0] == [];
      WithoutNone(rows);
      NonePicked();
      for i := 0 to |picked|
        invariant out == ReadableOf(picked[..i])
        invariant rows == Without(old(rows), GarbledIds(picked[..i])) && UniqueIds(rows)
      {
        OneMorePicked(picked[..i], picked[i]);
        assert picked[..i + 1] == picked[..i] + [picked[i]];
        if picked[i].body.Readable? {
          out := out + [picked[i]];
        } else {
          WithoutTwice(old(rows), GarbledIds(picked[..i]), {picked[i].id});
          WithoutKeepsUnique(rows, {picked[i].id});
          rows := Without(rows, {picked[i].id});
        }
      }
      OrderedWithout(old(rows), GarbledIds(picked));
    }

    method Delete(id: string)
      requires Valid()
      modifies this
      ensures Valid() && Ordered(rows) == Without(Ordered(old(rows)), {id})
    {
      OrderedWithout(rows, {id});
      WithoutKeepsUnique(rows, {id});
      rows := Without(rows, {id});
    }

    /** One tick of the flush loop with nothing enqueued meanwhile: `publishOk` answers each publish
        and `deleteOk` each delete. What was published is the batch up to the first failure. */
    method FlushTick(publishOk: seq<bool>, deleteOk: seq<bool>) returns (published: seq<Row>)
      requires Valid() && |publishOk| >= 100 && |deleteOk| >= 100
      modifies this
      ensures Valid()
      ensures var batch := ReadableOf(FirstRows(Ordered(old(rows)), 100));
              && |published| <= |batch| <= 100 && published == batch[..|published|]
              && (forall i :: 0 <= i < |published| ==> publishOk[i])
              && (|published| < |batch| ==> !publishOk[|published|])
      ensures Ordered(rows) == Without(Ordered(old(rows)),
                GarbledIds(FirstRows(Ordered(old(rows)), 100)) + DeletedIds(published, deleteOk))
    {
      hide Without, ReadableOf, Ordered;
      ghost var q, first := Ordered(rows), FirstRows(Ordered(rows), 100);
      ReadableNoLonger(first);
      var batch := DrainBatch(100);
      published := [];
      assert GarbledIds(first) + DeletedIds([], deleteOk) == GarbledIds(first);
      for i := 0 to |batch|
        invariant published == batch[..i] && Valid()
        invariant forall j :: 0 <= j < i ==> publishOk[j]
        invariant Ordered(rows) == Without(q, GarbledIds(first) + DeletedIds(published, deleteOk))
      {
        if !publishOk[i] {
          break;
        }
        ghost var gone := GarbledIds(first) + DeletedIds(published, deleteOk);
        published := published + [batch[i]];
        assert published[..i] == batch[..i];
        assert GarbledIds(first) + DeletedIds(published, deleteOk) == gone + if deleteOk[i] then {batch[i].id} else {};
        if deleteOk[i] {
          WithoutTwice(q, gone, {batch[i].id});
          Delete(batch[i].id);
        } else {
          assert gone + {} == gone;
        }
      }
    }
  }

  function DeletedIds(published: seq<Row>, deleteOk: seq<bool>): set<string>
    requires |published| <= |deleteOk|
  {
    if published == [] then {}
    else
      var n := |published| - 1;
      DeletedIds(published[..n], deleteOk) + (if deleteOk[n] then {published[n].id} else {})
  }

  // ---- tables and views ----

  lemma NonePicked()
    ensures ReadableOf([]) == [] && GarbledIds([]) == {}
  {
  }

  lemma OneMorePicked(s: seq<Row>, r: Row)
    ensures ReadableOf(s + [r]) == if r.body.Readable? then ReadableOf(s) + [r] else ReadableOf(s)
    ensures GarbledIds(s + [r]) == if r.body.Readable? then GarbledIds(s) else GarbledIds(s) + {r.id}
  {
    assert (s + [r])[..|s|] == s;
  }

  lemma {:induction false} ReadableNoLonger(s: seq<Row>)
    ensures |ReadableOf(s)| <= |s|
  {
    if s != [] { ReadableNoLonger(s[..|s| - 1]); }
  }

  lemma InsertAtEnd(s: seq<Row>, r: Row)
    requires s == [] || s[|s| - 1].at <= r.at
    ensures Insert(s, r) == s + [r]
  {
  }

  lemma InsertBeforeLast(front: seq<Row>, last: Row, r: Row)
    requires last.at > r.at
    ensures Insert(front + [last], r) == Insert(front, r) + [last]
  {
    assert (front + [last])[..|front|] == front;
  }

  lemma OrderedAppend(front: seq<Row>, last: Row)
    ensures Ordered(front + [last]) == Insert(Ordered(front), last)
  {
    assert (front + [last])[..|front|] == front;
  }

  lemma {:induction false} InsertHolds(s: seq<Row>, r: Row)
    ensures multiset(Insert(s, r)) == multiset(s) + multiset{r} && |Insert(s, r)| == |s| + 1
  {
    if s != [] {
      assert s == s[..|s| - 1] + [s[|s| - 1]];
      InsertHolds(s[..|s| - 1], r);
    }
  }

  lemma {:induction false} OrderedHolds(rows: seq<Row>)
    ensures multiset(Ordered(rows)) == multiset(rows) && |Ordered(rows)| == |rows|
    ensures Ids(Ordered(rows)) == Ids(rows)
  {
    if rows != [] {
      assert rows == rows[..|rows| - 1] + [rows[|rows| - 1]];
      OrderedHolds(rows[..|rows| - 1]);
      InsertHolds(Ordered(rows[..|rows| - 1]), rows[|rows| - 1]);
    }
    SameElements(Ordered(rows), rows);
  }

  lemma SameElements(a: seq<Row>, b: seq<Row>)
    requires multiset(a) == multiset(b)
    ensures Ids(a) == Ids(b)
  {
    assert forall r :: r in a <==> r in multiset(a);
    assert forall r :: r in b <==> r in multiset(b);
  }

  lemma {:induction false} InsertSorted(s: seq<Row>, r: Row)
    requires Sorted(s)
    ensures Sorted(Insert(s, r))
  {
    if !(s == [] || s[|s| - 1].at <= r.at) {
      var front, last := s[..|s| - 1], s[|s| - 1];
      InsertSorted(front, r);
      InsertHolds(front, r);
      forall x | x in Insert(front, r) ensures x.at <= last.at {
        assert x in multiset(Insert(front, r));
        if x != r {
          assert x in front;
          var i :| 0 <= i < |front| && front[i] == x;
          assert s[i] == x;
        }
      }
    }
  }

  lemma {:induction false} OrderedSorted(rows: seq<Row>)
    ensures Sorted(Ordered(rows))
  {
    if rows != [] {
      OrderedSorted(rows[..|rows| - 1]);
      InsertSorted(Ordered(rows[..|rows| - 1]), rows[|rows| - 1]);
    }
  }

  lemma {:induction false} WithoutHolds(s: seq<Row>, ids: set<string>)
    ensures forall r :: r in Without(s, ids) <==> r in s && r.id !in ids
    ensures |Without(s, ids)| <= |s|
    ensures Sorted(s) ==> Sorted(Without(s, ids))
  {
    if s != [] {
      var front, last := s[..|s| - 1], s[|s| - 1];
      assert s == front + [last];
      WithoutHolds(front, ids);
      if Sorted(s) {
        assert forall i :: 0 <= i < |front| ==> front[i] == s[i];
        forall x | x in Without(front, ids) ensures x.at <= last.at { assert x in front; }
      }
    }
  }

  lemma WithoutAppend(s: seq<Row>, r: Row, ids: set<string>)
    ensures Without(s + [r], ids) == if r.id in ids then Without(s, ids) else Without(s, ids) + [r]
  {
    assert (s + [r])[..|s|] == s;
  }

  lemma {:induction false} WithoutNone(s: seq<Row>)
    ensures Without(s, {}) == s
  {
    if s != [] {
      WithoutNone(s[..|s| - 1]);
      assert s == s[..|s| - 1] + [s[|s| - 1]];
    }
  }

  lemma {:induction false} WithoutTwice(s: seq<Row>, a: set<string>, b: set<string>)
    ensures Without(Without(s, a), b) == Without(s, a + b)
  {
    if s != [] {
      var front, last := s[..|s| - 1], s[|s| - 1];
      WithoutTwice(front, a, b);
      WithoutAppend(Without(front, a), last, b);
    }
  }

  lemma {:induction false} WithoutKeepsUnique(s: seq<Row>, ids: set<string>)
    requires UniqueIds(s)
    ensures UniqueIds(Without(s, ids))
  {
    if s != [] {
      var front, last := s[..|s| - 1], s[|s| - 1];
      assert forall i :: 0 <= i < |front| ==> front[i] == s[i];
      WithoutKeepsUnique(front, ids);
      WithoutHolds(front, ids);
      forall x | x in Without(front, ids) ensures x.id != last.id { assert x in front; }
    }
  }

  lemma {:induction false} InsertWithout(s: seq<Row>, r: Row, ids: set<string>)
    requires Sorted(s)
    ensures Without(Insert(s, r), ids) == if r.id in ids then Without(s, ids) else Insert(Without(s, ids), r)
  {
    hide Insert, Without;
    var w := Without(s, ids);
    if s == [] || s[|s| - 1].at <= r.at {
      InsertAtEnd(s, r);
      WithoutAppend(s, r, ids);
      WithoutHolds(s, ids);
      if w != [] { LastIsYoungest(s, w[|w| - 1]); }
      InsertAtEnd(w, r);
    } else {
      var front, last := s[..|s| - 1], s[|s| - 1];
      assert s == front + [last];
      InsertWithout(front, r, ids);
      InsertBeforeLast(front, last, r);
      WithoutAppend(front, last, ids);
      WithoutAppend(Insert(front, r), last, ids);
      InsertBeforeLast(Without(front, ids), last, r);
    }
  }

  lemma LastIsYoungest(s: seq<Row>, r: Row)
    requires Sorted(s) && r in s
    ensures r.at <= s[|s| - 1].at
  {
    var i :| 0 <= i < |s| && s[i] == r;
  }

  /** Deleting rows and ordering them commute: deletes never disturb the order of the rest. */
  lemma {:induction false} OrderedWithout(rows: seq<Row>, ids: set<string>)
    ensures Ordered(Without(rows, ids)) == Without(Ordered(rows), ids)
  {
    hide Insert;
    if rows != [] {
      var front, last := rows[..|rows| - 1], rows[|rows| - 1];
      assert rows == front + [last];
      OrderedWithout(front, ids);
      OrderedSorted(front);
      InsertWithout(Ordered(front), last, ids);
      WithoutAppend(front, last, ids);
      OrderedAppend(front, last);
      OrderedAppend(Without(front, ids), last);
      hide Without, Ordered;
    }
  }

  lemma {:induction false} WithoutAll(q: seq<Row>, ids: set<string>)
    requires Ids(q) <= ids
    ensures Without(q, ids) == []
  {
    if q != [] {
      assert forall r :: r in q[..|q| - 1] ==> r in q;
      assert q[|q| - 1] in q;
      WithoutAll(q[..|q| - 1], ids);
    }
  }

  lemma LaterIdsDiffer(q: seq<Row>, k: nat, j: nat)
    requires UniqueIds(q) && k <= j < |q|
    ensures q[j].id !in Ids(q[..k])
  {
    forall r | r in q[..k] ensures r.id != q[j].id {
      var i :| 0 <= i < k && q[i] == r;
    }
  }

  lemma {:induction false} WithoutPrefix(q: seq<Row>, k: nat)
    requires UniqueIds(q) && k <= |q|
    ensures Without(q, Ids(q[..k])) == q[k..]
    decreases |q|
  {
    if k == |q| {
      assert q[..k] == q;
      WithoutAll(q, Ids(q));
    } else {
      var front, last := q[..|q| - 1], q[|q| - 1];
      WithoutPrefix(front, k);
      assert front[..k] == q[..k];
      assert q[k..] == front[k..] + [last];
      LaterIdsDiffer(q, k, |q| - 1);
    }
  }

  lemma {:induction false} OrderedUnique(rows: seq<Row>)
    requires UniqueIds(rows)
    ensures UniqueIds(Ordered(rows))
  {
    if rows != [] {
      var front, last := rows[..|rows| - 1], rows[|rows| - 1];
      assert forall i :: 0 <= i < |front| ==> front[i] == rows[i];
      OrderedUnique(front);
      OrderedHolds(front);
      assert last.id !in Ids(front);
      InsertUnique(Ordered(front), last);
    }
  }

  lemma {:induction false} InsertUnique(s: seq<Row>, r: Row)
    requires UniqueIds(s) && r.id !in Ids(s)
    ensures UniqueIds(Insert(s, r))
  {
    forall i | 0 <= i < |s| ensures s[i].id != r.id { assert s[i] in s; }
    if !(s == [] || s[|s| - 1].at <= r.at) {
      var front, last := s[..|s| - 1], s[|s| - 1];
      InsertUnique(front, r);
      InsertHolds(front, r);
      forall x | x in Insert(front, r) ensures x.id != last.id {
        assert x in multiset(Insert(front, r));
        if x != r {
          var i :| 0 <= i < |front| && front[i] == x;
          assert s[i] == x;
        }
      }
    }
  }

  /** The prune statement drops exactly the first `k` rows of the ordered view. */
  lemma PruneIsDropping(rows: seq<Row>, k: nat)
    requires UniqueIds(rows) && k <= |rows|
    ensures |Ordered(rows)| == |rows|
    ensures var rest := Without(rows, Ids(Ordered(rows)[..k]));
            Ordered(rest) == Ordered(rows)[k..] && UniqueIds(rest)
  {
    OrderedHolds(rows);
    OrderedUnique(rows);
    OrderedWithout(rows, Ids(Ordered(rows)[..k]));
    WithoutPrefix(Ordered(rows), k);
    WithoutKeepsUnique(rows, Ids(Ordered(rows)[..k]));
  }
}
