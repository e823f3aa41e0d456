/**
Edge-triggered node signals (crates/ravn-k8s/src/node.rs:27-73 and 122-160). A signal is the pair of
node name and condition; severities, ids and timestamps of the message do not matter here.
*/
module NodeConditions {
  import opened Options

  datatype Condition = Condition(kind: string, status: string)

  datatype Node = Node(name: Option<string>, conditions: Option<seq<Condition>>)

  datatype Signal = Signal(node: string, condition: string)

  const PRESSURE: seq<string> := ["MemoryPressure", "DiskPressure", "PIDPressure"]

  function NameOf(node: Node, host: string): string { if node.name.Some? then node.name.value else host }

  function Problem(c: Condition): Option<string> {
    if c.kind == "Ready" then (if c.status != "True" then Some("NodeNotReady") else None)
    else if c.kind in PRESSURE then (if c.status == "True" then Some(c.kind) else None)
    else None
  }

  /** The active conditions of a status, in its order, repeats included. */
  function Problems(cs: seq<Condition>): seq<string> {
    if cs == [] then []
    else
      var p := Problem(cs[|cs| - 1]);
      Problems(cs[..|cs| - 1]) + (if p.Some? then [p.value] else [])
  }

  function ProblemsOf(node: Node): seq<string> {
    if node.conditions.Some? then Problems(node.conditions.value) else []
  }

  /** Which conditions a status makes active: `NodeNotReady` while it has a `Ready` condition that is not
      `True`, and each of the three pressures while it is `True`. */
  lemma {:induction false} ProblemsAre(cs: seq<Condition>, p: string)
    ensures p in Problems(cs) <==>
            || (p == "NodeNotReady" && exists i :: 0 <= i < |cs| && cs[i].kind == "Ready" && cs[i].status != "True")
            || (p in {"MemoryPressure", "DiskPressure", "PIDPressure"} && Condition(p, "True") in cs)
  {
    hide Problem;
    if cs != [] {
      var n := |cs| - 1;
      ProblemsAre(cs[..n], p);
      ProblemIs(cs[n], p);
      assert cs == cs[..n] + [cs[n]];
    }
  }

  lemma ProblemIs(c: Condition, p: string)
    ensures Problem(c) == Some(p) <==>
            || (p == "NodeNotReady" && c.kind == "Ready" && c.status != "True")
            || (p in {"MemoryPressure", "DiskPressure", "PIDPressure"} && c == Condition(p, "True"))
  {
    assert PRESSURE[0] == "MemoryPressure" && PRESSURE[1] == "DiskPressure" && PRESSURE[2] == "PIDPressure";
    assert "Ready"[0] == 'R' && "MemoryPressure"[0] == 'M' && "DiskPressure"[0] == 'D' && "PIDPressure"[0] == 'P';
    assert "NodeNotReady"[0] == 'N';
  }

  /** They come in the order of the status, one for each problem. */
  lemma {:induction false} ProblemsInOrder(a: seq<Condition>, b: seq<Condition>)
    ensures Problems(a + b) == Problems(a) + Problems(b)
    ensures |Problems(b)| == |set i | 0 <= i < |b| && Problem(b[i]).Some?|
  {
    hide *;
    if b == [] {
      assert a + b == a;
      NoProblems();
    } else {
      var front, c := b[..|b| - 1], b[|b| - 1];
      assert b == front + [c] && a + b == (a + front) + [c];
      ProblemsInOrder(a, front);
      OneMoreStatus(a + front, c);
      OneMoreStatus(front, c);
      OneMorePosition(front, c);
    }
  }

  lemma NoProblems()
    ensures Problems([]) == []
  {
  }

  lemma OneMoreStatus(cs: seq<Condition>, c: Condition)
    ensures Problems(cs + [c]) == Problems(cs) + (if Problem(c).Some? then [Problem(c).value] else [])
  {
    hide Problem;
    assert (cs + [c])[..|cs|] == cs;
  }

  lemma OneMorePosition(cs: seq<Condition>, c: Condition)
    ensures |set i | 0 <= i < |cs + [c]| && Problem((cs + [c])[i]).Some?| ==
            |set i | 0 <= i < |cs| && Problem(cs[i]).Some?| + (if Problem(c).Some? then 1 else 0)
  {
    hide Problem;
    var all, front := set i | 0 <= i < |cs + [c]| && Problem((cs + [c])[i]).Some?, set i | 0 <= i < |cs| && Problem(cs[i]).Some?;
    assert all == front + (if Problem(c).Some? then {|cs|} else {});
  }

  method NodeToMessages(node: Node, host: string) returns (out: seq<Signal>)
    ensures |out| == |ProblemsOf(node)|
    ensures forall i :: 0 <= i < |out| ==> out[i] == Signal(NameOf(node, host), ProblemsOf(node)[i])
    ensures forall i :: 0 <= i < |out| ==>
              match node.name
              case Some(name) => out[i].node == name
              case None => out[i].node == host
  {
    out := [];
    if node.conditions.Some? {
      var cs := node.conditions.value;
      assert cs[..|cs|] == cs;
      for i := 0 to |cs|
        invariant |out| == |Problems(cs[..i])|
        invariant forall j :: 0 <= j < |out| ==> out[j] == Signal(NameOf(node, host), Problems(cs[..i])[j])
      {
        assert cs[..i + 1][..i] == cs[..i];
        var p := Problem(cs[i]);
        if p.Some? { out := out + [Signal(NameOf(node, host), p.value)]; }
      }
    }
  }

  function Key(node: string, condition: string): string { node + "/" + condition }

  function KeysOf(node: string, conditions: seq<string>): set<string> {
    set c | c in conditions :: Key(node, c)
  }

  /** `retain`: the node's own keys stay only while they are current. */
  function Retained(active: set<string>, node: string, current: set<string>): set<string> {
    set k | k in active && (!(node + "/" <= k) || k in current)
  }

  /** The conditions whose keys are not yet active, each at its first occurrence. */
  function Risen(active: set<string>, node: string, conditions: seq<string>): seq<string> {
    if conditions == [] then []
    else
      var n := |conditions| - 1;
      var c, before := conditions[n], conditions[..n];
      Risen(active, node, before)
      + (if Key(node, c) in active + KeysOf(node, before) then [] else [c])
  }

  function ActiveAfter(active: set<string>, node: string, conditions: seq<string>): set<string> {
    Retained(active, node, KeysOf(node, conditions)) + KeysOf(node, conditions)
  }

  function SignalsOf(active: set<string>, node: string, conditions: seq<string>, emit: bool): seq<string> {
    if emit then Risen(Retained(active, node, KeysOf(node, conditions)), node, conditions) else []
  }

  /** The watch loop's set of active `node/condition` keys. */
  class NodeWatch {
    var active: set<string>

    constructor ()
      ensures active == {}
    {
      active := {};
    }

    method Reconcile(node: Node, host: string, emit: bool) returns (fresh_: seq<Signal>)
      modifies this
      ensures var name := NameOf(node, host);
              && active == ActiveAfter(old(active), name, ProblemsOf(node))
              && |fresh_| == |SignalsOf(old(active), name, ProblemsOf(node), emit)|
              && forall i :: 0 <= i < |fresh_| ==>
                   fresh_[i] == Signal(name, SignalsOf(old(active), name, ProblemsOf(node), emit)[i])
    {
      hide ProblemsOf, Retained, Risen, KeysOf;
      var name := NameOf(node, host);
      var messages := NodeToMessages(node, host);
      ghost var ps := ProblemsOf(node);
      var current := set m | m in messages :: Key(name, m.condition);
      SameKeys(messages, name, ps);
      active := Retained(active, name, current);
      ghost var kept := active;
      fresh_ := [];
      assert ps[..|ps|] == ps && ps[..0] == [];
      NothingRisen(kept, name);
      for i := 0 to |messages|
        invariant active == kept + KeysOf(name, ps[..i])
        invariant |fresh_| == (if emit then |Risen(kept, name, ps[..i])| else 0)
        invariant forall j :: 0 <= j < |fresh_| ==> fresh_[j] == Signal(name, Risen(kept, name, ps[..i])[j])
      {
        OneMoreCondition(kept, name, ps, i);
        var k := Key(name, messages[i].condition);
        if k !in active {
          active := active + {k};
          if emit { fresh_ := fresh_ + [messages[i]]; }
        }
      }
    }
  }

  lemma SameKeys(messages: seq<Signal>, name: string, ps: seq<string>)
    requires |messages| == |ps| && forall i :: 0 <= i < |ps| ==> messages[i] == Signal(name, ps[i])
    ensures (set m | m in messages :: Key(name, m.condition)) == KeysOf(name, ps)
  {
    var keys := set m | m in messages :: Key(name, m.condition);
    forall k | k in KeysOf(name, ps) ensures k in keys {
      var c :| c in ps && k == Key(name, c);
      var i :| 0 <= i < |ps| && ps[i] == c;
      assert messages[i] in messages && k == Key(name, messages[i].condition);
    }
  }

  lemma NothingRisen(active: set<string>, name: string)
    ensures Risen(active, name, []) == [] && KeysOf(name, []) == {}
  {
  }

  lemma OneMoreCondition(active: set<string>, name: string, ps: seq<string>, i: nat)
    requires i < |ps|
    ensures KeysOf(name, ps[..i + 1]) == KeysOf(name, ps[..i]) + {Key(name, ps[i])}
    ensures Risen(active, name, ps[..i + 1]) ==
            if Key(name, ps[i]) in active + KeysOf(name, ps[..i]) then Risen(active, name, ps[..i])
            else Risen(active, name, ps[..i]) + [ps[i]]
  {
    hide Key;
    assert ps[..i + 1] == ps[..i] + [ps[i]];
    assert ps[..i + 1][..i] == ps[..i];
  }

  // ---- runs over many nodes ----

  /** The watch events so far, latest outermost; the initial listing seeds without emitting. */
  datatype Run = Start | Seen(before: Run, node: string, conditions: seq<string>, emit: bool)

  function Active(run: Run): set<string> {
    if run.Start? then {} else ActiveAfter(Active(run.before), run.node, run.conditions)
  }

  /** The signals of the latest event. */
  function Signals(run: Run): seq<string>
    requires run.Seen?
  {
    SignalsOf(Active(run.before), run.node, run.conditions, run.emit)
  }

  /** The conditions the node showed in the latest event about it. */
  function Current(run: Run, node: string): set<string> {
    if run.Start? then {}
    else if run.node == node then (set c | c in run.conditions)
    else Current(run.before, node)
  }

  /** The run is about the given nodes and conditions only. */
  predicate Over(run: Run, names: set<string>, conditions: set<string>) {
    run.Seen? ==>
      && run.node in names && (forall c :: c in run.conditions ==> c in conditions)
      && Over(run.before, names, conditions)
  }

  /** No node's prefix starts the key of another node. */
  predicate Separated(names: set<string>, conditions: set<string>) {
    forall a, b, c :: a in names && b in names && c in conditions && a + "/" <= Key(b, c) ==> a == b
  }

  lemma OwnPrefix(node: string, c: string)
    ensures node + "/" <= Key(node, c) && Key(node, c)[|node| + 1..] == c
  {
    assert Key(node, c) == (node + "/") + c;
  }

  lemma KeysDiffer(names: set<string>, conditions: set<string>, node: string, c: string, other: string, d: string)
    requires Separated(names, conditions) && node in names && other in names && c in conditions && d in conditions
    requires Key(node, c) == Key(other, d)
    ensures node == other && c == d
  {
    OwnPrefix(node, c);
    OwnPrefix(other, d);
  }

  lemma OneEvent(names: set<string>, conditions: set<string>, active: set<string>, node: string, shown: seq<string>,
                 other: string, c: string)
    requires Separated(names, conditions) && node in names && other in names && c in conditions
    requires forall d :: d in shown ==> d in conditions
    ensures Key(other, c) in ActiveAfter(active, node, shown) <==>
            if other == node then c in shown else Key(other, c) in active
  {
    OwnPrefix(node, c);
    if Key(other, c) in KeysOf(node, shown) {
      var d :| d in shown && Key(node, d) == Key(other, c);
      KeysDiffer(names, conditions, node, d, other, c);
    }
  }

  /** The active keys of the node are its current conditions. */
  ghost predicate Tracks(run: Run, node: string, c: string) { Key(node, c) in Active(run) <==> c in Current(run, node) }

  /** An event replaces its own node's keys and leaves all the others alone. */
  lemma {:induction false} SeparatedTracks(run: Run, names: set<string>, conditions: set<string>, node: string, c: string)
    requires Over(run, names, conditions) && Separated(names, conditions) && node in names && c in conditions
    ensures Tracks(run, node, c)
  {
    hide Separated, ActiveAfter;
    if run.Seen? {
      SeparatedTracks(run.before, names, conditions, node, c);
      OneEvent(names, conditions, Active(run.before), run.node, run.conditions, node, c);
    }
  }

  lemma {:induction false} RisenAreNew(names: set<string>, conditions: set<string>, active: set<string>, node: string,
                                       shown: seq<string>, c: string)
    requires Separated(names, conditions) && node in names && c in conditions
    requires forall d :: d in shown ==> d in conditions
    ensures c in Risen(active, node, shown) <==> c in shown && Key(node, c) !in active
    ensures multiset(Risen(active, node, shown))[c] <= 1
  {
    hide Separated;
    if shown != [] {
      var n := |shown| - 1;
      var before, last := shown[..n], shown[n];
      assert shown == before + [last];
      RisenAreNew(names, conditions, active, node, before, c);
      if Key(node, last) in KeysOf(node, before) {
        var d :| d in before && Key(node, d) == Key(node, last);
        KeysDiffer(names, conditions, node, d, node, last);
      }
    }
  }

  /** A signal goes out exactly on a rising edge seen in an emitting event, and only once. */
  lemma SeparatedSignals(run: Run, names: set<string>, conditions: set<string>, c: string)
    requires Over(run, names, conditions) && Separated(names, conditions) && run.Seen? && c in conditions
    ensures multiset(Signals(run))[c] ==
            if run.emit && c in run.conditions && c !in Current(run.before, run.node) then 1 else 0
  {
    hide Separated, Active, Current, Risen;
    var active, keys := Active(run.before), KeysOf(run.node, run.conditions);
    if run.emit {
      RisenAreNew(names, conditions, Retained(active, run.node, keys), run.node, run.conditions, c);
      SeparatedTracks(run.before, names, conditions, run.node, c);
      OwnPrefix(run.node, c);
    }
  }

  /** How often the node was signalled for the condition over the whole run. */
  function SignalCount(run: Run, node: string, c: string): nat {
    if run.Start? then 0
    else SignalCount(run.before, node, c) + (if run.node == node then multiset(Signals(run))[c] else 0)
  }

  /** How often an emitting event showed the condition where the event before it did not. */
  function RisingEdges(run: Run, node: string, c: string): nat {
    if run.Start? then 0
    else
      RisingEdges(run.before, node, c)
      + (if run.emit && c in Current(run, node) && c !in Current(run.before, node) then 1 else 0)
  }

  lemma {:induction false} SeparatedCounts(run: Run, names: set<string>, conditions: set<string>, node: string, c: string)
    requires Over(run, names, conditions) && Separated(names, conditions) && node in names && c in conditions
    ensures SignalCount(run, node, c) == RisingEdges(run, node, c)
  {
    hide Separated, Signals;
    if run.Seen? {
      SeparatedCounts(run.before, names, conditions, node, c);
      SeparatedSignals(run, names, conditions, c);
    }
  }

  // ---- names without a slash ----

  predicate SlashFree(s: string) { '/' !in s }

  /** Kubernetes object names never hold a slash. */
  predicate Proper(run: Run) { run.Seen? ==> SlashFree(run.node) && Proper(run.before) }

  function NodesOf(run: Run): set<string> { if run.Start? then {} else NodesOf(run.before) + {run.node} }

  function ConditionsOf(run: Run): set<string> {
    if run.Start? then {} else ConditionsOf(run.before) + set c | c in run.conditions
  }

  /** A slash-free name owns exactly the keys that start with it and a slash. */
  lemma PrefixOwnsKeys(node: string, other: string, c: string)
    requires SlashFree(node) && SlashFree(other)
    ensures node + "/" <= Key(other, c) <==> node == other
  {
    var k := Key(other, c);
    if node + "/" <= k {
      assert forall i :: 0 <= i < |node| ==> k[i] == (node + "/")[i] == node[i];
      assert forall i :: 0 <= i < |other| ==> k[i] == other[i];
      assert k[|node|] == (node + "/")[|node|] == '/' && k[|other|] == '/';
      assert |node| == |other|;
      assert k[..|node|] == node && k[..|other|] == other;
    } else {
      OwnPrefix(node, c);
    }
  }

  lemma {:induction false} OverItself(run: Run, names: set<string>, conditions: set<string>)
    requires NodesOf(run) <= names && ConditionsOf(run) <= conditions
    ensures Over(run, names, conditions)
  {
    if run.Seen? {
      OverItself(run.before, names, conditions);
      assert run.node in NodesOf(run);
      forall c | c in run.conditions ensures c in conditions { assert c in ConditionsOf(run); }
    }
  }

  lemma {:induction false} ProperNodes(run: Run)
    requires Proper(run)
    ensures forall a :: a in NodesOf(run) ==> SlashFree(a)
  {
    if run.Seen? { ProperNodes(run.before); }
  }

  lemma SlashFreeIsSeparated(names: set<string>, conditions: set<string>)
    requires forall a :: a in names ==> SlashFree(a)
    ensures Separated(names, conditions)
  {
    forall a, b, c | a in names && b in names && c in conditions && a + "/" <= Key(b, c) ensures a == b {
      PrefixOwnsKeys(a, b, c);
    }
  }

  lemma ProperIsOver(run: Run, node: string, c: string)
    requires Proper(run) && SlashFree(node)
    ensures var (names, conditions) := (NodesOf(run) + {node}, ConditionsOf(run) + {c});
            Over(run, names, conditions) && Separated(names, conditions)
  {
    ProperNodes(run);
    OverItself(run, NodesOf(run) + {node}, ConditionsOf(run) + {c});
    SlashFreeIsSeparated(NodesOf(run) + {node}, ConditionsOf(run) + {c});
  }

  /** After every run the active keys of every node are its current conditions: an event replaces
      its own node's keys and leaves all the others alone. */
  lemma ActiveIsCurrent(run: Run, node: string, c: string)
    requires Proper(run) && SlashFree(node)
    ensures Key(node, c) in Active(run) <==> c in Current(run, node)
  {
    hide *;
    ProperIsOver(run, node, c);
    SeparatedTracks(run, NodesOf(run) + {node}, ConditionsOf(run) + {c}, node, c);
    TracksMeans(run, node, c);
  }

  lemma TracksMeans(run: Run, node: string, c: string)
    ensures Tracks(run, node, c) <==> (Key(node, c) in Active(run) <==> c in Current(run, node))
  {
  }

  /** A signal goes out exactly on a rising edge seen in an emitting event, and only once. */
  lemma SignalsAreRisingEdges(run: Run, c: string)
    requires Proper(run) && run.Seen?
    ensures multiset(Signals(run))[c] ==
            if run.emit && c in run.conditions && c !in Current(run.before, run.node) then 1 else 0
  {
    assert SlashFree(run.node);
    hide *;
    ProperIsOver(run, run.node, c);
    SeparatedSignals(run, NodesOf(run) + {run.node}, ConditionsOf(run) + {c}, c);
  }

  lemma {:induction false} OneSignalPerRisingEdge(run: Run, node: string, c: string)
    requires Proper(run)
    ensures SignalCount(run, node, c) == RisingEdges(run, node, c)
  {
    hide Signals, Current;
    if run.Seen? {
      OneSignalPerRisingEdge(run.before, node, c);
      SignalsAreRisingEdges(run, c);
      if run.node == node { OwnConditions(run); } else { OtherConditions(run, node); }
    }
  }

  lemma OtherConditions(run: Run, node: string)
    requires run.Seen? && run.node != node
    ensures Current(run, node) == Current(run.before, node)
  {
  }

  // ---- exactly which names work ----

  /** Every run over these names and conditions keeps every node's keys in step. */
  ghost predicate AlwaysTracks(names: set<string>, conditions: set<string>) {
    forall run, node, c :: Over(run, names, conditions) && node in names && c in conditions ==> Tracks(run, node, c)
  }

  /** Every run over them signals each rising edge once and nothing else. */
  ghost predicate AlwaysCounts(names: set<string>, conditions: set<string>) {
    forall run, node, c :: Over(run, names, conditions) && node in names && c in conditions ==>
      SignalCount(run, node, c) == RisingEdges(run, node, c)
  }

  /** Both claims hold over every run exactly when no node's prefix starts another node's key. */
  lemma ClaimsHoldExactlyWhenSeparated(names: set<string>, conditions: set<string>)
    ensures AlwaysTracks(names, conditions) <==> Separated(names, conditions)
    ensures AlwaysCounts(names, conditions) <==> Separated(names, conditions)
  {
    if Separated(names, conditions) {
      hide Separated, Over, Tracks, SignalCount, RisingEdges;
      forall run, node, c | Over(run, names, conditions) && node in names && c in conditions
        ensures Tracks(run, node, c) && SignalCount(run, node, c) == RisingEdges(run, node, c)
      {
        SeparatedTracks(run, names, conditions, node, c);
        SeparatedCounts(run, names, conditions, node, c);
      }
    } else {
      var a, b, c :| a in names && b in names && c in conditions && a + "/" <= Key(b, c) && a != b;
      var hurt, again := HealthyAfter(a, b, c), Seen(HealthyAfter(a, b, c), b, [c], true);
      Overlap(a, b, c);
      OverExample(names, conditions, a, b, c);
      hide Over, Tracks, SignalCount, RisingEdges, Separated;
      assert !Tracks(hurt, b, c) && SignalCount(again, b, c) != RisingEdges(again, b, c);
    }
  }

  /** `b` shows the condition, then `a` shows none. */
  function HealthyAfter(a: string, b: string, c: string): Run { Seen(Seen(Start, b, [c], true), a, [], true) }

  /** The healthy report for `a` forgets the condition of `b`, which is signalled again, without
      having risen again, when `b` reports it once more. */
  lemma Overlap(a: string, b: string, c: string)
    requires a + "/" <= Key(b, c) && a != b
    ensures var (hurt, again) := (HealthyAfter(a, b, c), Seen(HealthyAfter(a, b, c), b, [c], true));
            && !Tracks(hurt, b, c)
            && SignalCount(again, b, c) == 2 && RisingEdges(again, b, c) == 1
  {
    hide *;
    var shown, hurt := Seen(Start, b, [c], true), HealthyAfter(a, b, c);
    assert hurt == Seen(shown, a, [], true) by { HealthyIs(a, b, c); }
    StartIsEmpty(b, c);
    EventCounts(Start, b, c);
    ForgetsTheOther(shown, a, b, c);
    OtherEventCounts(shown, a, b, c);
    EventCounts(hurt, b, c);
    TracksMeans(hurt, b, c);
  }

  lemma OverExample(names: set<string>, conditions: set<string>, a: string, b: string, c: string)
    requires a in names && b in names && c in conditions
    ensures Over(HealthyAfter(a, b, c), names, conditions)
    ensures Over(Seen(HealthyAfter(a, b, c), b, [c], true), names, conditions)
  {
    var shown := Seen(Start, b, [c], true);
    assert Over(shown, names, conditions);
    assert Over(Seen(shown, a, [], true), names, conditions);
  }

  lemma HealthyIs(a: string, b: string, c: string)
    ensures HealthyAfter(a, b, c) == Seen(Seen(Start, b, [c], true), a, [], true)
  {
  }

  /** The names alone: no name followed by a slash starts another one followed by a slash. */
  predicate Apart(names: set<string>) { forall a, b :: a in names && b in names && a + "/" <= b + "/" ==> a == b }

  lemma LastSlash(a: string, b: string, c: string)
    requires SlashFree(c)
    ensures a + "/" <= Key(b, c) <==> a + "/" <= b + "/"
  {
    var k := Key(b, c);
    assert k == (b + "/") + c;
    assert forall i :: |b| < i < |k| ==> k[i] == c[i - |b| - 1];
    if a + "/" <= k {
      assert k[|a|] == (a + "/")[|a|] == '/';
      assert |a| <= |b|;
      assert (b + "/")[..|a| + 1] == k[..|a| + 1];
    }
    if a + "/" <= b + "/" { assert k[..|a| + 1] == (b + "/")[..|a| + 1]; }
  }

  /** The conditions the watch reports hold no slash, so only the names matter. */
  lemma SeparatedExactlyWhenApart(names: set<string>, conditions: set<string>)
    requires conditions != {} && forall c :: c in conditions ==> SlashFree(c)
    ensures Separated(names, conditions) <==> Apart(names)
  {
    hide Key;
    var c :| c in conditions;
    forall a, b | a in names && b in names ensures a + "/" <= Key(b, c) <==> a + "/" <= b + "/" { LastSlash(a, b, c); }
    forall a, b, d | a in names && b in names && d in conditions ensures a + "/" <= Key(b, d) <==> a + "/" <= b + "/" {
      LastSlash(a, b, d);
    }
  }

  /** So for the conditions that are reported, both claims hold over every run exactly when no name
      followed by a slash starts another one followed by a slash. */
  lemma NamesWorkExactlyWhenApart(names: set<string>, conditions: set<string>)
    requires conditions != {} && forall c :: c in conditions ==> SlashFree(c)
    ensures AlwaysTracks(names, conditions) <==> Apart(names)
    ensures AlwaysCounts(names, conditions) <==> Apart(names)
  {
    hide *;
    ClaimsHoldExactlyWhenSeparated(names, conditions);
    SeparatedExactlyWhenApart(names, conditions);
  }

  lemma StartIsEmpty(node: string, c: string)
    ensures Active(Start) == {} && SignalCount(Start, node, c) == 0 && RisingEdges(Start, node, c) == 0
    ensures Current(Start, node) == {}
  {
  }

  /** A report of one condition for a watch that holds no key at all. */
  lemma EventCounts(before: Run, node: string, c: string)
    requires Active(before) == {}
    ensures var run := Seen(before, node, [c], true);
            && Active(run) == {Key(node, c)} && Current(run, node) == {c}
            && SignalCount(run, node, c) == SignalCount(before, node, c) + 1
            && RisingEdges(run, node, c) == RisingEdges(before, node, c) + (if c in Current(before, node) then 0 else 1)
  {
    hide *;
    var run := Seen(before, node, [c], true);
    FirstReport({}, node, c);
    EventUnfolds(run, c);
    OwnConditions(run);
    assert (set d | d in [c]) == {c};
    assert multiset([c])[c] == 1;
  }

  lemma EventUnfolds(run: Run, c: string)
    requires run.Seen?
    ensures Active(run) == ActiveAfter(Active(run.before), run.node, run.conditions)
    ensures SignalCount(run, run.node, c) == SignalCount(run.before, run.node, c)
              + multiset(SignalsOf(Active(run.before), run.node, run.conditions, run.emit))[c]
    ensures RisingEdges(run, run.node, c) == RisingEdges(run.before, run.node, c)
              + (if run.emit && c in Current(run, run.node) && c !in Current(run.before, run.node) then 1 else 0)
  {
    hide ActiveAfter, SignalsOf, Current;
  }

  lemma OwnConditions(run: Run)
    requires run.Seen?
    ensures Current(run, run.node) == (set d | d in run.conditions)
  {
  }

  lemma OtherEventCounts(before: Run, other: string, node: string, c: string)
    requires other != node
    ensures var run := Seen(before, other, [], true);
            && Current(run, node) == Current(before, node) && SignalCount(run, node, c) == SignalCount(before, node, c)
            && RisingEdges(run, node, c) == RisingEdges(before, node, c)
  {
    hide Active, Signals;
  }

  lemma ForgetsTheOther(before: Run, a: string, b: string, c: string)
    requires Active(before) == {Key(b, c)} && a + "/" <= Key(b, c)
    ensures Active(Seen(before, a, [], true)) == {}
  {
    assert KeysOf(a, []) == {};
    assert Retained({Key(b, c)}, a, {}) == {};
  }

  lemma FirstReport(active: set<string>, node: string, c: string)
    requires active == {}
    ensures ActiveAfter(active, node, [c]) == {Key(node, c)}
    ensures SignalsOf(active, node, [c], true) == [c]
  {
    assert [c][..0] == [];
    assert KeysOf(node, [c]) == {Key(node, c)} && KeysOf(node, []) == {};
    assert Retained(active, node, {Key(node, c)}) == {};
    assert Risen({}, node, [c][..0]) == [];
    assert Risen({}, node, [c]) == [] + [c];
  }
}
