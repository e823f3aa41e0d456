/**
Runs of the outbox (crates/ravn-agent/src/buffer.rs:41-97) and its flush loop
(crates/ravn-agent/src/main.rs:190-211): what leaves it and how, in which order, and for which
messages nothing is ever lost.
*/
module OutboxRuns {
  import opened Outbox
  import Sets

  // ---- runs: enqueues may come between a drain and the publishes of its batch ----

  datatype Event =
    | Enqueued(id: string, msg: string, now: int)
    | Drained(n: nat)
    | PublishFailed            // the loop breaks and forgets the rest of the batch
    | Published(deleted: bool) // the head of the batch went out; its delete may fail

  /** The ordered view, the batch in flight, and logs of everything that ever came and went. */
  datatype World = World(q: seq<Row>, batch: seq<Row>,
                         accepted: seq<Row>, published: seq<Row>,
                         pruned: seq<Row>, unreadable: seq<Row>, removed: seq<Row>)

  datatype Run = Start | Then(before: Run, event: Event)

  predicate Possible(w: World, e: Event) {
    (e.PublishFailed? || e.Published?) ==> w.batch != []
  }

  /** The rows a delete takes out. */
  function Having(s: seq<Row>, ids: set<string>): seq<Row> {
    if s == [] then []
    else if s[|s| - 1].id in ids then Having(s[..|s| - 1], ids) + [s[|s| - 1]]
    else Having(s[..|s| - 1], ids)
  }

  function Next(w: World, max: nat, e: Event): World
    requires Possible(w, e)
  {
    match e
    case Enqueued(id, msg, now) =>
      var r := Row(id, Readable(msg), now);
      var q1 := if id in Ids(w.q) then w.q else Insert(w.q, r);
      w.(q := EnqueueView(w.q, max, r),
         accepted := if id in Ids(w.q) then w.accepted else w.accepted + [r],
         pruned := w.pruned + q1[..Excess(|q1|, max)])
    case Drained(n) =>
      var first := FirstRows(w.q, n);
      w.(q := Without(w.q, GarbledIds(first)), batch := ReadableOf(first),
         unreadable := w.unreadable + Having(w.q, GarbledIds(first)))
    case PublishFailed => w.(batch := [])
    case Published(deleted) =>
      var gone := if deleted then {w.batch[0].id} else {};
      w.(q := Without(w.q, gone), batch := w.batch[1..],
         published := w.published + [w.batch[0]], removed := w.removed + Having(w.q, gone))
  }

  predicate Feasible(run: Run, max: nat, q0: seq<Row>)
    decreases run, 0
  {
    run.Then? ==> Feasible(run.before, max, q0) && Possible(After(run.before, max, q0), run.event)
  }

  function After(run: Run, max: nat, q0: seq<Row>): World
    requires Feasible(run, max, q0)
    decreases run, 1
  {
    if run.Start? then World(q0, [], [], [], [], [], []) else Next(After(run.before, max, q0), max, run.event)
  }

  lemma {:induction false} HavingHolds(s: seq<Row>, ids: set<string>)
    ensures multiset(Without(s, ids)) + multiset(Having(s, ids)) == multiset(s)
    ensures forall r :: r in Having(s, ids) <==> r in s && r.id in ids
  {
    if s != [] {
      HavingHolds(s[..|s| - 1], ids);
      assert s == s[..|s| - 1] + [s[|s| - 1]];
    }
  }

  lemma EnqueueKeeps(q: seq<Row>, max: nat, r: Row)
    requires Sorted(q) && UniqueIds(q)
    ensures Sorted(EnqueueView(q, max, r)) && UniqueIds(EnqueueView(q, max, r))
    ensures max >= 1 ==> |EnqueueView(q, max, r)| <= max
  {
    if r.id !in Ids(q) {
      InsertSorted(q, r);
      InsertUnique(q, r);
    }
  }

  /** Every reachable view is sorted and holds each event id at most once. */
  lemma {:induction false} ViewsStayOrdered(run: Run, max: nat, q0: seq<Row>)
    requires Feasible(run, max, q0) && Sorted(q0) && UniqueIds(q0)
    ensures Sorted(After(run, max, q0).q) && UniqueIds(After(run, max, q0).q)
  {
    if run.Then? {
      ViewsStayOrdered(run.before, max, q0);
      var w := After(run.before, max, q0);
      match run.event
      case Enqueued(id, msg, now) => EnqueueKeeps(w.q, max, Row(id, Readable(msg), now));
      case Drained(n) =>
        WithoutHolds(w.q, GarbledIds(FirstRows(w.q, n)));
        WithoutKeepsUnique(w.q, GarbledIds(FirstRows(w.q, n)));
      case PublishFailed =>
      case Published(deleted) =>
        WithoutHolds(w.q, if deleted then {w.batch[0].id} else {});
        WithoutKeepsUnique(w.q, if deleted then {w.batch[0].id} else {});
    }
  }

  /** Everything that was ever accepted is still queued or left in one of three ways. */
  ghost predicate Conserved(w: World, q0: seq<Row>) {
    multiset(q0) + multiset(w.accepted)
    == multiset(w.q) + multiset(w.pruned) + multiset(w.unreadable) + multiset(w.removed)
  }

  /** What a delete removed had the event id of a published row, and what was discarded as unreadable was. */
  ghost predicate Justified(w: World) {
    && (forall r :: r in w.removed ==> exists p :: p in w.published && p.id == r.id)
    && (forall r :: r in w.unreadable ==> r.body.Garbled?)
  }

  lemma NextConserves(w: World, max: nat, e: Event, q0: seq<Row>)
    requires Possible(w, e) && Conserved(w, q0)
    ensures Conserved(Next(w, max, e), q0)
  {
    hide EnqueueView;
    match e
    case Enqueued(id, msg, now) =>
      var r, w' := Row(id, Readable(msg), now), Next(w, max, e);
      var q1 := if r.id in Ids(w.q) then w.q else Insert(w.q, r);
      var x := if r.id in Ids(w.q) then multiset{} else multiset{r};
      var dropped := multiset(q1[..Excess(|q1|, max)]);
      EnqueueConserves(w.q, max, r);
      assert multiset(w'.q) + dropped == multiset(w.q) + x;
      assert multiset(w'.accepted) == multiset(w.accepted) + x;
      assert multiset(w'.pruned) == multiset(w.pruned) + dropped;
      Rebalance(multiset(q0), multiset(w.accepted), multiset(w.q), multiset(w.pruned),
                multiset(w.unreadable), multiset(w.removed), x, dropped, multiset(w'.q));
    case Drained(n) => HavingHolds(w.q, GarbledIds(FirstRows(w.q, n)));
    case PublishFailed =>
    case Published(deleted) => HavingHolds(w.q, if deleted then {w.batch[0].id} else {});
  }

  lemma Rebalance(a: multiset<Row>, b: multiset<Row>, q: multiset<Row>, p: multiset<Row>, u: multiset<Row>,
                  m: multiset<Row>, x: multiset<Row>, d: multiset<Row>, q': multiset<Row>)
    requires a + b == q + p + u + m && q' + d == q + x
    ensures a + (b + x) == q' + (p + d) + u + m
  {
    forall r ensures (a + (b + x))[r] == (q' + (p + d) + u + m)[r] {
      assert (a + b)[r] == (q + p + u + m)[r] && (q' + d)[r] == (q + x)[r];
    }
  }

  lemma EnqueueConserves(q: seq<Row>, max: nat, r: Row)
    ensures var q1 := if r.id in Ids(q) then q else Insert(q, r);
            multiset(q1[..Excess(|q1|, max)]) + multiset(EnqueueView(q, max, r))
            == multiset(q) + (if r.id in Ids(q) then multiset{} else multiset{r})
  {
    var q1 := if r.id in Ids(q) then q else Insert(q, r);
    InsertHolds(q, r);
    assert q1 == q1[..Excess(|q1|, max)] + q1[Excess(|q1|, max)..];
  }

  lemma NextJustifies(w: World, max: nat, e: Event)
    requires Possible(w, e) && Justified(w) && UniqueIds(w.q)
    ensures Justified(Next(w, max, e))
  {
    hide EnqueueView;
    match e
    case Enqueued(id, msg, now) =>
    case Drained(n) =>
      var first := FirstRows(w.q, n);
      HavingHolds(w.q, GarbledIds(first));
      forall r | r in Having(w.q, GarbledIds(first)) ensures r.body.Garbled? {
        var g :| g in first && g.body.Garbled? && g.id == r.id;
        SameIdSameRow(w.q, g, r);
      }
    case PublishFailed =>
    case Published(deleted) =>
      var gone := if deleted then {w.batch[0].id} else {};
      HavingHolds(w.q, gone);
      var w' := Next(w, max, e);
      forall r | r in w'.removed ensures exists p :: p in w'.published && p.id == r.id {
        if r in w.removed {
          var p :| p in w.published && p.id == r.id;
          assert p in w'.published;
        } else {
          assert w.batch[0] in w'.published;
        }
      }
  }

  lemma SameIdSameRow(q: seq<Row>, a: Row, b: Row)
    requires UniqueIds(q) && a in q && b in q && a.id == b.id
    ensures a == b
  {
    var i :| 0 <= i < |q| && q[i] == a;
    var j :| 0 <= j < |q| && q[j] == b;
  }

  /** Over every run, however enqueues, drains, publishes and failures interleave: nothing is lost
      or duplicated, and a readable row leaves only by being pruned or by a delete for its event id,
      under which a row was published before. */
  lemma {:induction false} NothingLeavesUnpublished(run: Run, max: nat, q0: seq<Row>)
    requires Feasible(run, max, q0) && Sorted(q0) && UniqueIds(q0)
    ensures Conserved(After(run, max, q0), q0) && Justified(After(run, max, q0))
  {
    hide Conserved, Justified, Next;
    if run.Then? {
      NothingLeavesUnpublished(run.before, max, q0);
      ViewsStayOrdered(run.before, max, q0);
      NextConserves(After(run.before, max, q0), max, run.event, q0);
      NextJustifies(After(run.before, max, q0), max, run.event);
    } else {
      StartIsFine(q0);
    }
  }

  lemma StartIsFine(q0: seq<Row>)
    ensures var w := World(q0, [], [], [], [], [], []);
            Conserved(w, q0) && Justified(w)
  {
  }

  // ---- one message per event id ----

  /** Every row that was ever offered to the outbox: those found in it at first and those enqueued. */
  function Offered(run: Run, q0: seq<Row>): set<Row> {
    match run
    case Start => set r | r in q0
    case Then(before, Enqueued(id, msg, now)) => Offered(before, q0) + {Row(id, Readable(msg), now)}
    case Then(before, _) => Offered(before, q0)
  }

  /** No event id was ever used for two different messages. */
  predicate OneMessagePerId(rows: set<Row>) {
    forall a, b :: a in rows && b in rows && a.body.Readable? && b.body.Readable? && a.id == b.id ==> a.body == b.body
  }

  /** Rows in the queue and in flight were offered; and for a row in flight the queue holds, under its
      id, at most a readable row. */
  ghost predicate Known(w: World, offered: set<Row>) {
    && (forall r :: r in w.q ==> r in offered)
    && (forall b :: b in w.batch ==> b in offered && b.body.Readable?)
    && (forall b, r :: b in w.batch && r in w.q && r.id == b.id ==> r.body.Readable?)
  }

  lemma {:induction false} ReadableHolds(s: seq<Row>)
    ensures forall r :: r in ReadableOf(s) <==> r in s && r.body.Readable?
  {
    if s != [] {
      ReadableHolds(s[..|s| - 1]);
      assert s == s[..|s| - 1] + [s[|s| - 1]];
    }
  }

  lemma EnqueueKnown(q: seq<Row>, max: nat, r: Row)
    ensures forall x :: x in EnqueueView(q, max, r) ==> x in q || x == r
  {
    InsertHolds(q, r);
    var q1 := if r.id in Ids(q) then q else Insert(q, r);
    forall x | x in EnqueueView(q, max, r) ensures x in q || x == r { assert x in q1; assert x in multiset(q1); }
  }

  lemma {:induction false} EverythingIsKnown(run: Run, max: nat, q0: seq<Row>)
    requires Feasible(run, max, q0) && Sorted(q0) && UniqueIds(q0)
    ensures Known(After(run, max, q0), Offered(run, q0))
  {
    if run.Then? {
      EverythingIsKnown(run.before, max, q0);
      ViewsStayOrdered(run.before, max, q0);
      var w := After(run.before, max, q0);
      match run.event
      case Enqueued(id, msg, now) => EnqueueKnown(w.q, max, Row(id, Readable(msg), now));
      case Drained(n) => DrainKnown(w, n, Offered(run, q0));
      case PublishFailed =>
      case Published(deleted) => WithoutHolds(w.q, if deleted then {w.batch[0].id} else {});
    }
  }

  lemma DrainKnown(w: World, n: nat, offered: set<Row>)
    requires Known(w, offered) && UniqueIds(w.q)
    ensures var first := FirstRows(w.q, n);
            Known(w.(q := Without(w.q, GarbledIds(first)), batch := ReadableOf(first)), offered)
  {
    var first := FirstRows(w.q, n);
    WithoutHolds(w.q, GarbledIds(first));
    ReadableHolds(first);
    forall b, r | b in ReadableOf(first) && r in w.q && r.id == b.id ensures r == b { SameIdSameRow(w.q, b, r); }
  }

  /** Every row a delete removed had its very message published before. */
  ghost predicate RemovedWerePublished(w: World) {
    forall r :: r in w.removed ==> WasPublished(w, r)
  }

  ghost predicate WasPublished(w: World, r: Row) { exists p :: p in w.published && p.id == r.id && p.body == r.body }

  /** As long as no event id stands for two messages, a readable message leaves the outbox only after
      having been published itself, or by being pruned. */
  lemma {:induction false} NoMessageLeavesUnpublished(run: Run, max: nat, q0: seq<Row>)
    requires Feasible(run, max, q0) && Sorted(q0) && UniqueIds(q0) && OneMessagePerId(Offered(run, q0))
    ensures RemovedWerePublished(After(run, max, q0))
  {
    if run.Then? {
      var w, w' := After(run.before, max, q0), After(run, max, q0);
      assert Offered(run.before, q0) <= Offered(run, q0);
      NoMessageLeavesUnpublished(run.before, max, q0);
      EverythingIsKnown(run.before, max, q0);
      hide After, Feasible;
      RemovalStep(w, max, run.event, w', Offered(run.before, q0));
    }
  }

  lemma RemovalStep(w: World, max: nat, e: Event, w': World, offered: set<Row>)
    requires Possible(w, e) && w' == Next(w, max, e)
    requires RemovedWerePublished(w) && Known(w, offered) && OneMessagePerId(offered)
    ensures RemovedWerePublished(w')
  {
    hide EnqueueView, Without, Having;
    forall r | r in w.removed ensures WasPublished(w', r) {
      assert WasPublished(w, r);
      var p :| p in w.published && p.id == r.id && p.body == r.body;
      assert p in w'.published;
    }
    if e.Published? {
      var head, gone := w.batch[0], if e.deleted then {w.batch[0].id} else {};
      HavingHolds(w.q, gone);
      assert head in w.batch && w'.published[|w.published|] == head;
      forall r | r in Having(w.q, gone) ensures WasPublished(w', r) {
        assert r in w.q && r.id == head.id;
        assert head in w'.published;
      }
    }
  }

  // ---- exactly which messages are safe ----

  /** Every message enqueued is one of `ms`, given as event id and text. */
  predicate Draws(run: Run, ms: set<(string, string)>) {
    run.Then? ==> Draws(run.before, ms) && (run.event.Enqueued? ==> (run.event.id, run.event.msg) in ms)
  }

  function IdsIn(ms: set<(string, string)>): set<string> { set m | m in ms :: m.0 }

  predicate OneTextPerId(ms: set<(string, string)>) { forall a, b :: a in ms && b in ms && a.0 == b.0 ==> a.1 == b.1 }

  /** No run over these messages, on an outbox that starts empty, loses one unpublished to a delete. */
  ghost predicate NeverLost(ms: set<(string, string)>, max: nat) {
    forall run :: Draws(run, ms) && Feasible(run, max, []) ==> RemovedWerePublished(After(run, max, []))
  }

  /** Messages are safe in every run exactly when no id stands for two of them, or they are so few that
      nothing is ever pruned. */
  lemma NeverLostExactlyWhen(ms: set<(string, string)>, max: nat)
    requires max >= 1
    ensures NeverLost(ms, max) <==> OneTextPerId(ms) || |IdsIn(ms)| <= max
  {
    if OneTextPerId(ms) || |IdsIn(ms)| <= max {
      hide After, Feasible, RemovedWerePublished, OneTextPerId, IdsIn;
      forall run | Draws(run, ms) && Feasible(run, max, []) ensures RemovedWerePublished(After(run, max, [])) {
        if OneTextPerId(ms) {
          OfferedFrom(run, ms);
          EmptyIsFine();
          NoMessageLeavesUnpublished(run, max, []);
        } else {
          FewAreSafe(run, ms, max);
        }
      }
    } else {
      var a, b :| a in ms && b in ms && a.0 == b.0 && a.1 != b.1;
      hide *;
      LosingRun(ms, max, a.0, a.1, b.1);
      NotNeverLost(ms, max, Losing(ms, Others(ms, a.0, max), a.0, a.1, b.1));
    }
  }

  lemma EmptyIsFine()
    ensures Sorted([]) && UniqueIds([])
  {
  }

  lemma NotNeverLost(ms: set<(string, string)>, max: nat, run: Run)
    requires Draws(run, ms) && Feasible(run, max, []) && !RemovedWerePublished(After(run, max, []))
    ensures !NeverLost(ms, max)
  {
    hide After, Feasible, RemovedWerePublished;
  }

  lemma {:induction false} OfferedFrom(run: Run, ms: set<(string, string)>)
    requires Draws(run, ms) && OneTextPerId(ms)
    ensures OneMessagePerId(Offered(run, []))
    ensures forall r :: r in Offered(run, []) ==> r.body.Readable? && (r.id, r.body.msg) in ms
  {
    if run.Then? { OfferedFrom(run.before, ms); }
  }

  // With few ids nothing is pruned, and what is in flight is still in the queue.

  ghost predicate Calm(w: World, ids: set<string>) {
    UniqueIds(w.q) && UniqueIds(w.batch) && Ids(w.q) <= ids && forall b :: b in w.batch ==> b in w.q
  }

  lemma {:induction false} UniqueSize(s: seq<Row>)
    requires UniqueIds(s)
    ensures |Ids(s)| == |s|
  {
    if s != [] {
      var front, last := s[..|s| - 1], s[|s| - 1];
      UniqueSize(front);
      assert s == front + [last];
      assert Ids(s) == Ids(front) + {last.id};
      assert last.id !in Ids(front);
    }
  }

  lemma FitsIn(s: seq<Row>, ids: set<string>)
    requires UniqueIds(s) && Ids(s) <= ids
    ensures |s| <= |ids|
  {
    UniqueSize(s);
    Sets.SubsetIsSmaller(Ids(s), ids);
  }

  lemma CalmEnqueue(q: seq<Row>, max: nat, r: Row, ids: set<string>)
    requires UniqueIds(q) && Ids(q) <= ids && r.id in ids && |ids| <= max
    ensures var q' := EnqueueView(q, max, r);
            UniqueIds(q') && Ids(q') <= ids && (forall x :: x in q ==> x in q')
  {
    var q1 := if r.id in Ids(q) then q else Insert(q, r);
    if r.id !in Ids(q) {
      InsertUnique(q, r);
      InsertHolds(q, r);
      forall x | x in q1 ensures x.id in ids { assert x in multiset(q1); assert x in q || x == r; }
      forall x | x in q ensures x in q1 { assert x in multiset(q1); }
    }
    FitsIn(q1, ids);
    assert q1[0..] == q1;
  }

  lemma CalmDrain(w: World, n: nat, ids: set<string>)
    requires Calm(w, ids)
    ensures var first := FirstRows(w.q, n);
            Calm(w.(q := Without(w.q, GarbledIds(first)), batch := ReadableOf(first)), ids)
  {
    var first := FirstRows(w.q, n);
    WithoutHolds(w.q, GarbledIds(first));
    WithoutKeepsUnique(w.q, GarbledIds(first));
    ReadableHolds(first);
    ReadableUnique(first);
    forall b | b in ReadableOf(first) ensures b in Without(w.q, GarbledIds(first)) {
      forall g | g in first && g.body.Garbled? ensures g.id != b.id {
        if g.id == b.id { SameIdSameRow(w.q, g, b); }
      }
    }
  }

  lemma {:induction false} ReadableUnique(s: seq<Row>)
    requires UniqueIds(s)
    ensures UniqueIds(ReadableOf(s))
  {
    if s != [] {
      ReadableUnique(s[..|s| - 1]);
      ReadableHolds(s[..|s| - 1]);
    }
  }

  lemma CalmPublish(w: World, deleted: bool, ids: set<string>)
    requires Calm(w, ids) && w.batch != []
    ensures var gone := if deleted then {w.batch[0].id} else {};
            Calm(w.(q := Without(w.q, gone), batch := w.batch[1..]), ids)
  {
    var gone := if deleted then {w.batch[0].id} else {};
    WithoutHolds(w.q, gone);
    WithoutKeepsUnique(w.q, gone);
    forall b | b in w.batch[1..] ensures b in w.q && b.id != w.batch[0].id {
      var i :| 0 <= i < |w.batch| - 1 && w.batch[1..][i] == b;
      assert w.batch[i + 1] == b;
    }
  }

  lemma {:induction false} FewAreSafe(run: Run, ms: set<(string, string)>, max: nat)
    requires Draws(run, ms) && Feasible(run, max, []) && |IdsIn(ms)| <= max
    ensures Calm(After(run, max, []), IdsIn(ms)) && RemovedWerePublished(After(run, max, []))
  {
    if run.Then? {
      FewAreSafe(run.before, ms, max);
      var w, w' := After(run.before, max, []), After(run, max, []);
      hide After, Feasible, EnqueueView, Without, GarbledIds, Having, Calm, RemovedWerePublished;
      match run.event
      case Enqueued(id, msg, now) =>
        assert (id, msg).0 in IdsIn(ms);
        CalmMeans(w, IdsIn(ms));
        CalmEnqueue(w.q, max, Row(id, Readable(msg), now), IdsIn(ms));
        CalmIs(w', IdsIn(ms));
        NothingRemoved(w, w');
      case Drained(n) =>
        CalmDrain(w, n, IdsIn(ms));
        CalmSame(w.(q := w'.q, batch := w'.batch), w', IdsIn(ms));
        NothingRemoved(w, w');
      case PublishFailed =>
        CalmMeans(w, IdsIn(ms));
        CalmIs(w', IdsIn(ms));
        NothingRemoved(w, w');
      case Published(deleted) =>
        CalmPublish(w, deleted, IdsIn(ms));
        CalmSame(w.(q := w'.q, batch := w'.batch), w', IdsIn(ms));
        CalmRemoval(w, w', if deleted then {w.batch[0].id} else {}, IdsIn(ms));
    }
  }

  lemma CalmMeans(w: World, ids: set<string>)
    requires Calm(w, ids)
    ensures UniqueIds(w.q) && UniqueIds(w.batch) && Ids(w.q) <= ids && forall b :: b in w.batch ==> b in w.q
  {
  }

  lemma CalmIs(w: World, ids: set<string>)
    requires UniqueIds(w.q) && UniqueIds(w.batch) && Ids(w.q) <= ids && forall b :: b in w.batch ==> b in w.q
    ensures Calm(w, ids)
  {
  }

  lemma CalmSame(w: World, w': World, ids: set<string>)
    requires Calm(w, ids) && w'.q == w.q && w'.batch == w.batch
    ensures Calm(w', ids)
  {
  }

  lemma NothingRemoved(w: World, w': World)
    requires RemovedWerePublished(w) && w'.removed == w.removed && w'.published == w.published
    ensures RemovedWerePublished(w')
  {
    forall r | r in w'.removed ensures WasPublished(w', r) { assert WasPublished(w, r); }
  }

  lemma CalmRemoval(w: World, w': World, gone: set<string>, ids: set<string>)
    requires RemovedWerePublished(w) && Calm(w, ids) && w.batch != [] && gone <= {w.batch[0].id}
    requires w'.removed == w.removed + Having(w.q, gone) && w'.published == w.published + [w.batch[0]]
    ensures RemovedWerePublished(w')
  {
    var head := w.batch[0];
    HavingHolds(w.q, gone);
    assert head in w.batch && w'.published[|w.published|] == head;
    forall r | r in w'.removed ensures WasPublished(w', r) {
      if r in w.removed {
        assert WasPublished(w, r);
        var p :| p in w.published && p.id == r.id && p.body == r.body;
        assert p in w'.published;
      } else {
        SameIdSameRow(w.q, head, r);
        assert head in w'.published;
      }
    }
  }

  // With more ids a message in flight can be pushed out and its id used again.

  ghost function TextOf(ms: set<(string, string)>, id: string): string
    requires id in IdsIn(ms)
    ensures (id, TextOf(ms, id)) in ms
  {
    var m :| m in ms && m.0 == id;
    m.1
  }

  /** `n` different ids other than `x`. */
  ghost function Others(ms: set<(string, string)>, x: string, n: nat): (ids: seq<string>)
    requires n < |IdsIn(ms)|
    ensures |ids| == n && (forall i :: 0 <= i < n ==> ids[i] in IdsIn(ms) && ids[i] != x)
    ensures forall i, j :: 0 <= i < j < n ==> ids[i] != ids[j]
    decreases n
  {
    if n == 0 then []
    else
      var front := Others(ms, x, n - 1);
      SomeLeft(IdsIn(ms), front, x);
      var id :| id in IdsIn(ms) && id !in front && id != x;
      front + [id]
  }

  lemma SomeLeft(ids: set<string>, front: seq<string>, x: string)
    requires |front| + 1 < |ids|
    ensures exists id :: id in ids && id !in front && id != x
  {
    SeqIsSmall(front);
    var used := (set i | i in front) + {x};
    if ids <= used {
      Sets.SubsetIsSmaller(ids, used);
    } else {
      var id :| id in ids && id !in used;
      assert id !in front && id != x;
    }
  }

  lemma {:induction false} SeqIsSmall(s: seq<string>)
    ensures |set i | i in s| <= |s|
  {
    if s != [] {
      var front, last := s[..|s| - 1], s[|s| - 1];
      SeqIsSmall(front);
      assert s == front + [last];
      assert (set i | i in s) == (set i | i in front) + {last};
    }
  }

  ghost function Fill(run: Run, ms: set<(string, string)>, ids: seq<string>): Run
    requires forall i :: 0 <= i < |ids| ==> ids[i] in IdsIn(ms)
    decreases |ids|
  {
    if ids == [] then run
    else Then(Fill(run, ms, ids[..|ids| - 1]), Enqueued(ids[|ids| - 1], TextOf(ms, ids[|ids| - 1]), 0))
  }

  ghost function FillRows(ms: set<(string, string)>, ids: seq<string>): seq<Row>
    requires forall i :: 0 <= i < |ids| ==> ids[i] in IdsIn(ms)
  {
    seq(|ids|, i requires 0 <= i < |ids| => Row(ids[i], Readable(TextOf(ms, ids[i])), 0))
  }

  /** `x` is enqueued and drained, the others push it out, it comes back with another text, and then the
      first one goes out and takes the second one's row with it. */
  ghost function Losing(ms: set<(string, string)>, ids: seq<string>, x: string, first: string, second: string): Run
    requires forall i :: 0 <= i < |ids| ==> ids[i] in IdsIn(ms)
  {
    Then(Then(Fill(Then(Then(Start, Enqueued(x, first, 0)), Drained(1)), ms, ids), Enqueued(x, second, 0)), Published(true))
  }

  lemma LosingRun(ms: set<(string, string)>, max: nat, x: string, first: string, second: string)
    requires max >= 1 && max < |IdsIn(ms)| && (x, first) in ms && (x, second) in ms && first != second
    ensures var run := Losing(ms, Others(ms, x, max), x, first, second);
            Draws(run, ms) && Feasible(run, max, []) && !RemovedWerePublished(After(run, max, []))
  {
    hide *;
    var ids, a, c := Others(ms, x, max), Row(x, Readable(first), 0), Row(x, Readable(second), 0);
    var r2 := Then(Then(Start, Enqueued(x, first, 0)), Drained(1));
    LosingIs(ms, ids, x, first, second);
    Begin(ms, max, x, first);
    Filled(r2, ms, ids, a, max);
    var r3 := Fill(r2, ms, ids);
    assert |[a] + FillRows(ms, ids)| == max + 1 by { FillRowsAt(ms, ids); }
    PushedOut(ms, ids, a, max);
    FillRowsAt(ms, ids);
    ComesBack(r3, ms, a, FillRows(ms, ids), c, max, second);
    TakesTheOther(Then(r3, Enqueued(x, second, 0)), ms, a, c, max);
  }

  lemma LosingIs(ms: set<(string, string)>, ids: seq<string>, x: string, first: string, second: string)
    requires forall i :: 0 <= i < |ids| ==> ids[i] in IdsIn(ms)
    ensures Losing(ms, ids, x, first, second) ==
            Then(Then(Fill(Then(Then(Start, Enqueued(x, first, 0)), Drained(1)), ms, ids), Enqueued(x, second, 0)), Published(true))
  {
    hide Fill;
  }

  lemma FillRowsAt(ms: set<(string, string)>, ids: seq<string>)
    requires forall i :: 0 <= i < |ids| ==> ids[i] in IdsIn(ms)
    ensures |FillRows(ms, ids)| == |ids|
    ensures forall i :: 0 <= i < |ids| ==> FillRows(ms, ids)[i] == Row(ids[i], Readable(TextOf(ms, ids[i])), 0)
  {
  }

  lemma PushedOut(ms: set<(string, string)>, ids: seq<string>, a: Row, max: nat)
    requires (forall i :: 0 <= i < |ids| ==> ids[i] in IdsIn(ms)) && |ids| == max
    ensures var all := [a] + FillRows(ms, ids); all[Excess(|all|, max)..] == FillRows(ms, ids)
  {
    FillRowsAt(ms, ids);
    hide FillRows;
    var all := [a] + FillRows(ms, ids);
    assert all[1..] == FillRows(ms, ids);
  }

  lemma Begin(ms: set<(string, string)>, max: nat, x: string, msg: string)
    requires max >= 1 && (x, msg) in ms
    ensures var run, a := Then(Then(Start, Enqueued(x, msg, 0)), Drained(1)), Row(x, Readable(msg), 0);
            Draws(run, ms) && Feasible(run, max, []) && After(run, max, []) == World([a], [a], [a], [], [], [], [])
  {
    hide *;
    BeginEnqueue(ms, max, x, msg);
    BeginDrain(Then(Start, Enqueued(x, msg, 0)), ms, max, Row(x, Readable(msg), 0));
  }

  lemma BeginEnqueue(ms: set<(string, string)>, max: nat, x: string, msg: string)
    requires max >= 1 && (x, msg) in ms
    ensures var run, a := Then(Start, Enqueued(x, msg, 0)), Row(x, Readable(msg), 0);
            Draws(run, ms) && Feasible(run, max, []) && After(run, max, []) == World([a], [], [a], [], [], [], [])
  {
    var a := Row(x, Readable(msg), 0);
    InsertAtEnd([], a);
    hide Insert;
    assert [] + [a] == [a] && [a][0..] == [a] && [a][..0] == [];
    assert Draws(Start, ms) && After(Start, max, []) == World([], [], [], [], [], [], []);
  }

  lemma BeginDrain(run: Run, ms: set<(string, string)>, max: nat, a: Row)
    requires Draws(run, ms) && Feasible(run, max, []) && a.body.Readable?
    requires After(run, max, []) == World([a], [], [a], [], [], [], [])
    ensures var run' := Then(run, Drained(1));
            Draws(run', ms) && Feasible(run', max, []) && After(run', max, []) == World([a], [a], [a], [], [], [], [])
  {
    DrainOne(a);
    hide FirstRows, ReadableOf, GarbledIds, Without, Having, EnqueueView, Insert;
  }

  lemma DrainOne(a: Row)
    requires a.body.Readable?
    ensures FirstRows([a], 1) == [a] && ReadableOf([a]) == [a] && GarbledIds([a]) == {}
    ensures Without([a], {}) == [a] && Having([a], {}) == []
  {
    assert [a][..0] == [];
  }

  /** What filling leaves alone, and the queue it leaves behind: the latest `max` rows. */
  lemma {:induction false} Filled(run: Run, ms: set<(string, string)>, ids: seq<string>, a: Row, max: nat)
    requires max >= 1 && Draws(run, ms) && Feasible(run, max, []) && After(run, max, []).q == [a] && a.at == 0
    requires forall i :: 0 <= i < |ids| ==> ids[i] in IdsIn(ms) && ids[i] != a.id
    requires forall i, j :: 0 <= i < j < |ids| ==> ids[i] != ids[j]
    ensures var run', all := Fill(run, ms, ids), [a] + FillRows(ms, ids);
            && Draws(run', ms) && Feasible(run', max, [])
            && var (w, w') := (After(run, max, []), After(run', max, []));
               w'.batch == w.batch && w'.removed == w.removed && w'.published == w.published
               && w'.q == all[Excess(|all|, max)..]
    decreases |ids|
  {
    hide *;
    if ids == [] {
      NothingFilled(run, ms, a, max);
    } else {
      var front, id := ids[..|ids| - 1], ids[|ids| - 1];
      FillOne(run, ms, ids);
      FillRowsAt(ms, front);
      FillRowsAt(ms, ids);
      assert FillRows(ms, ids) == FillRows(ms, front) + [Row(id, Readable(TextOf(ms, id)), 0)];
      Filled(run, ms, front, a, max);
      var all := [a] + FillRows(ms, front);
      assert [a] + FillRows(ms, ids) == all + [Row(id, Readable(TextOf(ms, id)), 0)];
      FillStep(Fill(run, ms, front), ms, all, id, max);
    }
  }

  lemma NothingFilled(run: Run, ms: set<(string, string)>, a: Row, max: nat)
    requires max >= 1
    ensures Fill(run, ms, []) == run
    ensures var all := [a] + FillRows(ms, []); all[Excess(|all|, max)..] == [a]
  {
    assert [a] + FillRows(ms, []) == [a] && [a][0..] == [a];
  }

  lemma FillOne(run: Run, ms: set<(string, string)>, ids: seq<string>)
    requires ids != [] && forall i :: 0 <= i < |ids| ==> ids[i] in IdsIn(ms)
    ensures Fill(run, ms, ids) == Then(Fill(run, ms, ids[..|ids| - 1]), Enqueued(ids[|ids| - 1], TextOf(ms, ids[|ids| - 1]), 0))
  {
    hide IdsIn;
  }

  lemma FillStep(run: Run, ms: set<(string, string)>, all: seq<Row>, id: string, max: nat)
    requires max >= 1 && Draws(run, ms) && Feasible(run, max, []) && id in IdsIn(ms)
    requires After(run, max, []).q == all[Excess(|all|, max)..]
    requires forall i :: 0 <= i < |all| ==> all[i].id != id && all[i].at == 0
    ensures var run', w := Then(run, Enqueued(id, TextOf(ms, id), 0)), After(run, max, []);
            && Draws(run', ms) && Feasible(run', max, [])
            && var w' := After(run', max, []);
               w'.batch == w.batch && w'.removed == w.removed && w'.published == w.published
               && w'.q == (all + [Row(id, Readable(TextOf(ms, id)), 0)])[Excess(|all| + 1, max)..]
  {
    var r, q := Row(id, Readable(TextOf(ms, id)), 0), all[Excess(|all|, max)..];
    forall x | x in q ensures x.id != id && x.at == 0 {
      var i :| 0 <= i < |q| && q[i] == x;
      assert x == all[Excess(|all|, max) + i];
    }
    OneMoreEnqueued(run, ms, id, TextOf(ms, id), max);
    EnqueueIsFifo(q, max, r);
    hide After, Feasible, Draws, EnqueueView, Insert;
    AppendsAtEnd(all, max, r);
  }

  lemma AppendsAtEnd(all: seq<Row>, max: nat, r: Row)
    requires max >= 1
    ensures var q1 := all[Excess(|all|, max)..] + [r];
            q1[Excess(|q1|, max)..] == (all + [r])[Excess(|all| + 1, max)..]
  {
  }

  lemma OneMoreEnqueued(run: Run, ms: set<(string, string)>, id: string, msg: string, max: nat)
    requires Draws(run, ms) && Feasible(run, max, []) && (id, msg) in ms
    ensures var run', w := Then(run, Enqueued(id, msg, 0)), After(run, max, []);
            && Draws(run', ms) && Feasible(run', max, [])
            && var w' := After(run', max, []);
               w'.batch == w.batch && w'.removed == w.removed && w'.published == w.published
               && w'.q == EnqueueView(w.q, max, Row(id, Readable(msg), 0))
  {
    hide EnqueueView, Insert;
  }

  lemma ComesBack(run: Run, ms: set<(string, string)>, a: Row, q: seq<Row>, c: Row, max: nat, second: string)
    requires max >= 1 && Draws(run, ms) && Feasible(run, max, []) && (c.id, second) in ms
    requires After(run, max, []).q == q && |q| == max && c == Row(c.id, Readable(second), 0)
    requires forall i :: 0 <= i < |q| ==> q[i].id != c.id && q[i].at == 0
    ensures var run', w := Then(run, Enqueued(c.id, second, 0)), After(run, max, []);
            && Draws(run', ms) && Feasible(run', max, [])
            && var w' := After(run', max, []);
               w'.batch == w.batch && w'.removed == w.removed && w'.published == w.published && c in w'.q
  {
    OneMoreEnqueued(run, ms, c.id, second, max);
    EnqueueIsFifo(q, max, c);
    hide After, Feasible, Draws, EnqueueView;
    assert (q + [c])[1..][|q| - 1] == c;
  }

  lemma TakesTheOther(run: Run, ms: set<(string, string)>, a: Row, c: Row, max: nat)
    requires Draws(run, ms) && Feasible(run, max, []) && a.id == c.id && a.body != c.body
    requires var w := After(run, max, []); c in w.q && w.batch == [a] && w.removed == [] && w.published == []
    ensures var run' := Then(run, Published(true));
            Draws(run', ms) && Feasible(run', max, []) && !RemovedWerePublished(After(run', max, []))
  {
    var w, w' := After(run, max, []), After(Then(run, Published(true)), max, []);
    HavingHolds(w.q, {a.id});
    hide Having, Without;
    assert c in w'.removed && w'.published == [a];
    assert !WasPublished(w', c);
  }

  // ---- in which order messages go out ----

  /** What the latest drain put in flight, and what went out since. */
  function InFlight(run: Run, max: nat, q0: seq<Row>): seq<Row>
    requires Feasible(run, max, q0)
  {
    if run.Start? then []
    else if run.event.Drained? then ReadableOf(FirstRows(After(run.before, max, q0).q, run.event.n))
    else InFlight(run.before, max, q0)
  }

  function OutSince(run: Run, max: nat, q0: seq<Row>): seq<Row>
    requires Feasible(run, max, q0)
  {
    if run.Start? || run.event.Drained? then []
    else if run.event.Published? then OutSince(run.before, max, q0) + [After(run.before, max, q0).batch[0]]
    else OutSince(run.before, max, q0)
  }

  /** Everything that was published, drain by drain. */
  function OutBefore(run: Run, max: nat, q0: seq<Row>): seq<Row>
    requires Feasible(run, max, q0)
  {
    if run.Start? then []
    else if run.event.Drained? then OutBefore(run.before, max, q0) + OutSince(run.before, max, q0)
    else OutBefore(run.before, max, q0)
  }

  /** However enqueues fall between them, publishes follow the order of the queue as it stood at the
      drain, oldest first, up to the first failure: after every run, what went out since the latest
      drain is a first part of what that drain took, with the rest still in flight unless a publish
      failed; and that is all that was published. */
  lemma {:induction false} PublishesFollowTheQueue(run: Run, max: nat, q0: seq<Row>)
    requires Feasible(run, max, q0) && Sorted(q0) && UniqueIds(q0)
    ensures var (w, batch, out) := (After(run, max, q0), InFlight(run, max, q0), OutSince(run, max, q0));
            InOrder(batch, out, w.batch) && w.published == OutBefore(run, max, q0) + out
  {
    hide *;
    if run.Start? {
      NothingInFlight(run, max, q0);
    } else {
      FeasibleBefore(run, max, q0);
      PublishesFollowTheQueue(run.before, max, q0);
      ViewsStayOrdered(run.before, max, q0);
      FlightStep(run, max, q0);
      var w := After(run.before, max, q0);
      match run.event
      case Enqueued(_, _, _) =>
      case Drained(n) =>
        FirstRowsSorted(w.q, n);
        ReadableSorted(FirstRows(w.q, n));
        var past, out := OutBefore(run.before, max, q0), OutSince(run.before, max, q0);
        assert (past + out) + [] == past + out;
        DrainInOrder(ReadableOf(FirstRows(w.q, n)));
      case PublishFailed => FailureInOrder(InFlight(run.before, max, q0), OutSince(run.before, max, q0), w.batch);
      case Published(deleted) =>
        var past, out := OutBefore(run.before, max, q0), OutSince(run.before, max, q0);
        PublishInOrder(InFlight(run.before, max, q0), out, w.batch);
        assert (past + out) + [w.batch[0]] == past + (out + [w.batch[0]]);
    }
  }

  lemma FeasibleBefore(run: Run, max: nat, q0: seq<Row>)
    requires run.Then? && Feasible(run, max, q0)
    ensures Feasible(run.before, max, q0)
  {
  }

  lemma NothingInFlight(run: Run, max: nat, q0: seq<Row>)
    requires run.Start?
    ensures InFlight(run, max, q0) == [] && OutSince(run, max, q0) == [] && OutBefore(run, max, q0) == []
    ensures After(run, max, q0).batch == [] && After(run, max, q0).published == [] + []
    ensures InOrder([], [], [])
  {
  }

  /** `out` is a first part of the drained batch and `rest`, unless given up, is what follows it. */
  ghost predicate InOrder(batch: seq<Row>, out: seq<Row>, rest: seq<Row>) {
    out <= batch && Sorted(batch) && (rest != [] ==> out + rest == batch)
  }

  lemma DrainInOrder(batch: seq<Row>)
    requires Sorted(batch)
    ensures InOrder(batch, [], batch)
  {
    assert [] + batch == batch;
  }

  lemma FailureInOrder(batch: seq<Row>, out: seq<Row>, rest: seq<Row>)
    requires InOrder(batch, out, rest)
    ensures InOrder(batch, out, [])
  {
  }

  lemma PublishInOrder(batch: seq<Row>, out: seq<Row>, rest: seq<Row>)
    requires InOrder(batch, out, rest) && rest != []
    ensures InOrder(batch, out + [rest[0]], rest[1..])
  {
    assert (out + [rest[0]]) + rest[1..] == out + rest;
  }

  lemma FirstRowsSorted(q: seq<Row>, n: nat)
    requires Sorted(q)
    ensures Sorted(FirstRows(q, n))
  {
  }

  /** One event, seen by what is in flight and what went out. */
  lemma FlightStep(run: Run, max: nat, q0: seq<Row>)
    requires Feasible(run, max, q0) && run.Then?
    ensures var (w, w') := (After(run.before, max, q0), After(run, max, q0));
            var (batch, out, past) := (InFlight(run.before, max, q0), OutSince(run.before, max, q0), OutBefore(run.before, max, q0));
            match run.event
            case Enqueued(_, _, _) =>
              && w'.batch == w.batch && w'.published == w.published
              && InFlight(run, max, q0) == batch && OutSince(run, max, q0) == out && OutBefore(run, max, q0) == past
            case Drained(n) =>
              && w'.batch == ReadableOf(FirstRows(w.q, n)) && w'.published == w.published
              && InFlight(run, max, q0) == w'.batch && OutSince(run, max, q0) == [] && OutBefore(run, max, q0) == past + out
            case PublishFailed =>
              && w'.batch == [] && w'.published == w.published
              && InFlight(run, max, q0) == batch && OutSince(run, max, q0) == out && OutBefore(run, max, q0) == past
            case Published(_) =>
              && w.batch != [] && w'.batch == w.batch[1..] && w'.published == w.published + [w.batch[0]]
              && InFlight(run, max, q0) == batch && OutSince(run, max, q0) == out + [w.batch[0]] && OutBefore(run, max, q0) == past
  {
    hide EnqueueView, Without, Having, ReadableOf, GarbledIds, FirstRows, Insert;
  }

  lemma {:induction false} ReadableSorted(s: seq<Row>)
    requires Sorted(s)
    ensures Sorted(ReadableOf(s))
  {
    if s != [] {
      ReadableSorted(s[..|s| - 1]);
      ReadableHolds(s[..|s| - 1]);
    }
  }

  /** Pruning takes the oldest, only when the cap is exceeded, and no more than the excess. */
  lemma PrunedAreOldest(q: seq<Row>, max: nat, r: Row, out: Row, kept: Row)
    requires Sorted(q) && max >= 1 && kept in EnqueueView(q, max, r)
    requires var q1 := if r.id in Ids(q) then q else Insert(q, r);
             out in q1[..Excess(|q1|, max)]
    ensures out.at <= kept.at && |EnqueueView(q, max, r)| == max
  {
    InsertSorted(q, r);
    var q1 := if r.id in Ids(q) then q else Insert(q, r);
    assert EnqueueView(q, max, r) == q1[Excess(|q1|, max)..];
    hide EnqueueView, Insert, Ids, Sorted;
    SplitSorted(q1, Excess(|q1|, max), out, kept);
  }

  lemma SplitSorted(q: seq<Row>, k: nat, out: Row, kept: Row)
    requires Sorted(q) && k <= |q| && out in q[..k] && kept in q[k..]
    ensures out.at <= kept.at
  {
    var i :| 0 <= i < k && q[i] == out;
    var j :| 0 <= j < |q| - k && q[k..][j] == kept;
    assert q[k + j] == kept;
  }

  /** A drain takes the oldest rows, as many as there are up to its size: nothing it looks at is younger than
      anything it leaves. */
  lemma DrainTakesTheOldest(q: seq<Row>, n: nat, i: nat, left: nat)
    requires Sorted(q) && i < |FirstRows(q, n)| && |FirstRows(q, n)| <= left < |q|
    ensures FirstRows(q, n)[i].at <= q[left].at && FirstRows(q, n)[i] in q
    ensures |FirstRows(q, n)| == n && FirstRows(q, n) + q[n..] == q
  {
  }

  /** It discards what it looked at and could not read, and nothing else; the rest of it is the batch. */
  lemma DrainDiscardsTheGarbled(q: seq<Row>, n: nat, r: Row)
    requires UniqueIds(q) && r in q
    ensures var first := FirstRows(q, n);
            && (r in Without(q, GarbledIds(first)) <==> !(r in first && r.body == Garbled))
            && (r in ReadableOf(first) <==> r in first && r.body != Garbled)
  {
    var first := FirstRows(q, n);
    WithoutHolds(q, GarbledIds(first));
    ReadableHolds(first);
    if r.id in GarbledIds(first) {
      var g :| g in first && g.body.Garbled? && g.id == r.id;
      assert g in q;
      SameIdSameRow(q, r, g);
    }
    hide Without, ReadableOf;
  }

  // ---- under a clock that never steps back the outbox is a plain bounded queue ----

  /** A deduplicated first-in first-out queue that forgets its head when full. */
  function FifoEnqueue(q: seq<Row>, max: nat, r: Row): seq<Row> {
    var q1 := if r.id in Ids(q) then q else q + [r];
    q1[Excess(|q1|, max)..]
  }

  predicate NoneYounger(q: seq<Row>, now: int) { forall r :: r in q ==> r.at <= now }

  /** From `start`, when the run began, to `now` no enqueue saw the clock step back. */
  predicate ClockUpTo(run: Run, start: int, now: int) {
    match run
    case Start => start <= now
    case Then(before, Enqueued(_, _, t)) => t <= now && ClockUpTo(before, start, t)
    case Then(before, _) => ClockUpTo(before, start, now)
  }

  lemma {:induction false} QueueInThePast(run: Run, max: nat, q0: seq<Row>, start: int, now: int)
    requires Feasible(run, max, q0) && ClockUpTo(run, start, now) && NoneYounger(q0, start)
    ensures NoneYounger(After(run, max, q0).q, now)
  {
    if run.Then? {
      var w := After(run.before, max, q0);
      QueueInThePast(run.before, max, q0, start, if run.event.Enqueued? then run.event.now else now);
      match run.event
      case Enqueued(id, msg, t) => EnqueueInThePast(w.q, max, Row(id, Readable(msg), t), now);
      case Drained(n) => WithoutHolds(w.q, GarbledIds(FirstRows(w.q, n)));
      case PublishFailed =>
      case Published(deleted) => WithoutHolds(w.q, if deleted then {w.batch[0].id} else {});
    }
  }

  lemma EnqueueInThePast(q: seq<Row>, max: nat, r: Row, now: int)
    requires NoneYounger(q, r.at) && r.at <= now
    ensures NoneYounger(EnqueueView(q, max, r), now)
  {
    EnqueueIsFifo(q, max, r);
  }

  /** After every run under such a clock, an enqueue is the one of the plain queue. */
  lemma OutboxIsFifo(run: Run, max: nat, q0: seq<Row>, start: int, r: Row)
    requires Feasible(run, max, q0) && ClockUpTo(run, start, r.at) && NoneYounger(q0, start)
    ensures var q := After(run, max, q0).q;
            EnqueueView(q, max, r) == FifoEnqueue(q, max, r)
  {
    QueueInThePast(run, max, q0, start, r.at);
    EnqueueIsFifo(After(run, max, q0).q, max, r);
  }

  lemma EnqueueIsFifo(q: seq<Row>, max: nat, r: Row)
    requires NoneYounger(q, r.at)
    ensures EnqueueView(q, max, r) == FifoEnqueue(q, max, r)
  {
    if q != [] { assert q[|q| - 1] in q; }
  }

  /** When a full outbox meets a clock that stepped back, the row just stored is the one it prunes:
      a new row survives exactly when there is room or something is not younger than it. */
  lemma NewRowSurvives(q: seq<Row>, max: nat, r: Row)
    requires Sorted(q) && UniqueIds(q) && r.id !in Ids(q) && 1 <= max && |q| <= max
    ensures r in EnqueueView(q, max, r) <==> |q| < max || q[0].at <= r.at
  {
    hide Insert;
    if q != [] {
      if q[0].at <= r.at { InsertBehindHead(q, r); } else { InsertInFront(q, r); }
    }
    InsertHolds(q, r);
    var q1 := Insert(q, r);
    forall i | 0 <= i < |q| ensures q[i] != r { assert q[i] in q; }
    if |q| < max {
      assert q1[0..] == q1;
      assert r in multiset(q1);
    }
  }

  lemma {:induction false} InsertInFront(q: seq<Row>, r: Row)
    requires forall x :: x in q ==> x.at > r.at
    ensures Insert(q, r) == [r] + q
  {
    if q == [] {
      InsertAtEnd(q, r);
    } else {
      var front, last := q[..|q| - 1], q[|q| - 1];
      assert q == front + [last];
      InsertInFront(front, r);
      InsertBeforeLast(front, last, r);
      hide Insert;
      assert [r] + front + [last] == [r] + q;
    }
  }

  lemma {:induction false} InsertBehindHead(q: seq<Row>, r: Row)
    requires q != [] && q[0].at <= r.at
    ensures r in Insert(q, r)[1..]
    ensures |Insert(q, r)| == |q| + 1
  {
    hide Insert;
    var front, last := q[..|q| - 1], q[|q| - 1];
    assert q == front + [last];
    if last.at <= r.at {
      InsertAtEnd(q, r);
      assert (q + [r])[1..][|q| - 1] == r;
    } else {
      InsertBeforeLast(front, last, r);
      InsertBehindHead(front, r);
      assert (Insert(front, r) + [last])[1..] == Insert(front, r)[1..] + [last];
    }
  }
}
