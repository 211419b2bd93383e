/** Predecessor graphs, cycles and Kahn's in-degrees: what `validate_audit_topology` has to decide. */
module PredecessorGraph {
  import opened Lists

  // The predecessors of every step.
  type Graph = map<string, seq<string>>

  ghost predicate Edge(g: Graph, a: string, b: string) {
    b in g && a in g[b]
  }

  ghost predicate WalksAt(g: Graph, path: seq<string>, i: nat)
    requires i + 1 < |path|
  {
    Edge(g, path[i], path[i + 1])
  }

  ghost predicate IsWalk(g: Graph, path: seq<string>) {
    forall i: nat | i < |path| - 1 :: WalksAt(g, path, i)
  }

  /** Some step is reached again by following one or more edges. */
  ghost predicate HasCycle(g: Graph) {
    exists path: seq<string> :: |path| >= 2 && path[0] == path[|path| - 1] && IsWalk(g, path)
  }

  /** Every predecessor list is free of repeats and names steps of the graph. */
  predicate Closed(g: Graph) {
    forall x | x in g :: NoRepeats(g[x]) && forall p | p in g[x] :: p in g
  }

  /** The entries of `preds` outside `done`, counted. */
  function CountOutside(preds: seq<string>, done: set<string>): nat {
    if preds == [] then 0 else (if preds[0] in done then 0 else 1) + CountOutside(preds[1..], done)
  }

  lemma {:induction false} CountAdds(preds: seq<string>, done: set<string>, x: string)
    requires NoRepeats(preds) && x !in done
    ensures CountOutside(preds, done + {x}) == CountOutside(preds, done) - (if x in preds then 1 else 0)
    ensures x in preds ==> CountOutside(preds, done) > 0
  {
    if preds != [] {
      CountAdds(preds[1..], done, x);
      assert preds == [preds[0]] + preds[1..];
    }
  }

  lemma {:induction false} CountZero(preds: seq<string>, done: set<string>)
    ensures CountOutside(preds, done) == 0 <==> forall p | p in preds :: p in done
  {
    if preds != [] {
      CountZero(preds[1..], done);
      assert preds == [preds[0]] + preds[1..];
    }
  }

  lemma {:induction false} CountNone(preds: seq<string>)
    ensures CountOutside(preds, {}) == |preds|
  {
    if preds != [] { CountNone(preds[1..]); }
  }

  /** Every step comes after its predecessors. */
  ghost predicate IsTopological(g: Graph, order: seq<string>) {
    forall i, p {:trigger Edge(g, p, order[i])} | 0 <= i < |order| && Edge(g, p, order[i]) :: p in order[..i]
  }

  lemma {:induction false} WalkAdvances(g: Graph, order: seq<string>, path: seq<string>, i: nat, j: nat)
    returns (k: nat, l: nat)
    requires IsTopological(g, order) && NoRepeats(order) && (forall x | x in g :: x in order)
    requires IsWalk(g, path) && i < j < |path|
    ensures k < l < |order| && order[k] == path[i] && order[l] == path[j]
    decreases j - i
  {
    assert WalksAt(g, path, j - 1);
    l :| 0 <= l < |order| && order[l] == path[j];
    var m :| 0 <= m < l && order[m] == path[j - 1];
    if j == i + 1 {
      k := m;
    } else {
      var n;
      k, n := WalkAdvances(g, order, path, i, j - 1);
    }
  }

  lemma WalkNeverCloses(g: Graph, order: seq<string>, path: seq<string>)
    requires IsTopological(g, order) && NoRepeats(order) && (forall x | x in g :: x in order)
    requires IsWalk(g, path) && |path| >= 2
    ensures path[0] != path[|path| - 1]
  {
    var k, l := WalkAdvances(g, order, path, 0, |path| - 1);
  }

  /** A graph with a topological order of all its steps has no cycle. */
  lemma TopologicalIsAcyclic(g: Graph, order: seq<string>)
    requires IsTopological(g, order) && NoRepeats(order) && forall x | x in g :: x in order
    ensures !HasCycle(g)
  {
    forall path: seq<string> | |path| >= 2 && IsWalk(g, path)
      ensures path[0] != path[|path| - 1]
    {
      WalkNeverCloses(g, order, path);
    }
  }

  ghost predicate HasPredIn(g: Graph, stuck: set<string>, x: string) {
    exists p :: p in stuck && Edge(g, p, x)
  }

  // Every step of `stuck` has a predecessor in `stuck`.
  ghost predicate Stuck(g: Graph, stuck: set<string>) {
    forall x {:trigger HasPredIn(g, stuck, x)} | x in stuck :: HasPredIn(g, stuck, x)
  }

  // Is w[i + 1] a predecessor of w[i]?
  ghost predicate BacksAt(g: Graph, w: seq<string>, i: nat)
    requires i + 1 < |w|
  {
    Edge(g, w[i + 1], w[i])
  }

  // A walk against the edges, inside `stuck`.
  ghost predicate IsBackWalk(g: Graph, stuck: set<string>, w: seq<string>) {
    (forall x | x in w :: x in stuck) && forall i: nat | i < |w| - 1 :: BacksAt(g, w, i)
  }

  lemma {:induction false} BackWalkExists(g: Graph, stuck: set<string>, n: nat) returns (w: seq<string>)
    requires Stuck(g, stuck) && stuck != {}
    ensures |w| == n + 1 && IsBackWalk(g, stuck, w)
  {
    if n == 0 {
      var x :| x in stuck;
      w := [x];
    } else {
      var shorter := BackWalkExists(g, stuck, n - 1);
      assert HasPredIn(g, stuck, shorter[n - 1]);
      var p :| p in stuck && Edge(g, p, shorter[n - 1]);
      w := shorter + [p];
      forall i: nat | i < n
        ensures BacksAt(g, w, i)
      {
        if i < n - 1 { assert BacksAt(g, shorter, i); }
      }
    }
  }

  /** Steps none of which can come first lie on or above a cycle. */
  lemma StuckHasCycle(g: Graph, stuck: set<string>)
    requires Stuck(g, stuck) && stuck != {}
    ensures HasCycle(g)
  {
    var w := BackWalkExists(g, stuck, |stuck|);
    if NoRepeats(w) { NoRepeatsFits(w, stuck); }
    var i: nat, j: nat :| i < j < |w| && w[i] == w[j];
    BackWalkCloses(g, stuck, w, i, j);
  }

  lemma BackWalkCloses(g: Graph, stuck: set<string>, w: seq<string>, i: nat, j: nat)
    requires IsBackWalk(g, stuck, w) && i < j < |w| && w[i] == w[j]
    ensures HasCycle(g)
  {
    var path := seq(j - i + 1, k requires 0 <= k <= j - i => w[j - k]);
    forall k: nat | k < |path| - 1
      ensures WalksAt(g, path, k)
    {
      assert BacksAt(g, w, j - k - 1);
    }
    assert path[0] == path[|path| - 1];
  }
}

/** `validate_audit_topology`: the ordering and reference checks, and Kahn's algorithm over ordered maps. */
module AuditTopology {
  import opened Lists
  import opened PredecessorGraph
  import Text

  datatype PlanRef = PlanRef(planId: string, recordDigest: string)
  datatype Step = Step(stepId: string, planRef: PlanRef, predecessors: seq<string>)
  datatype Topology = Topology(schemaVersion: string, topologyId: string, steps: seq<Step>)

  predicate Increasing(s: seq<string>) {
    forall i | 0 <= i < |s| - 1 :: Text.StrLess(s[i], s[i + 1])
  }

  predicate ValidStep(s: Step) {
    && Text.IsPrefixedId(s.stepId, "step_")
    && Text.IsPrefixedId(s.planRef.planId, "plan_") && Text.IsSha256(s.planRef.recordDigest)
    && Increasing(s.predecessors)
    && forall p | p in s.predecessors :: Text.IsPrefixedId(p, "step_") && p != s.stepId
  }

  function Ids(steps: seq<Step>): seq<string> {
    seq(|steps|, i requires 0 <= i < |steps| => steps[i].stepId)
  }

  predicate IdBefore(steps: seq<Step>, i: nat)
    requires i + 1 < |steps|
  {
    Text.StrLess(steps[i].stepId, steps[i + 1].stepId)
  }

  predicate IncreasingIds(steps: seq<Step>) {
    forall i: nat | i + 1 < |steps| :: IdBefore(steps, i)
  }

  predicate DistinctPlans(steps: seq<Step>) {
    forall i, j | 0 <= i < j < |steps| :: steps[i].planRef.planId != steps[j].planRef.planId
  }

  predicate ReferencesKnown(steps: seq<Step>) {
    forall i, p | 0 <= i < |steps| && p in steps[i].predecessors :: HasId(steps, p)
  }

  /** Every check before Kahn's algorithm. */
  predicate WellFormed(t: Topology) {
    && t.schemaVersion == "audit-topology/v1" && Text.IsPrefixedId(t.topologyId, "topology_") && t.steps != []
    && (forall i | 0 <= i < |t.steps| :: ValidStep(t.steps[i])) && IncreasingIds(t.steps)
    && DistinctPlans(t.steps) && ReferencesKnown(t.steps)
  }

  /** The map that collecting (step id, predecessors) pairs builds; a later step replaces an earlier one. */
  function GraphOf(steps: seq<Step>): Graph {
    if steps == [] then map[]
    else GraphOf(steps[..|steps| - 1])[steps[|steps| - 1].stepId := steps[|steps| - 1].predecessors]
  }

  // The keys of the graph are the ids of the steps.
  lemma {:induction false} GraphKeys(steps: seq<Step>)
    ensures forall x | x in GraphOf(steps) :: HasId(steps, x)
  {
    if steps != [] {
      var n := |steps| - 1;
      GraphKeys(steps[..n]);
      forall x | x in GraphOf(steps)
        ensures HasId(steps, x)
      {
        if x != steps[n].stepId {
          assert HasId(steps[..n], x);
          var j :| 0 <= j < n && steps[..n][j].stepId == x;
          assert steps[j].stepId == x;
        }
      }
    }
  }

  // With distinct ids every step is in the graph with its own predecessors.
  lemma {:induction false} GraphOfIds(steps: seq<Step>)
    requires NoRepeats(Ids(steps))
    ensures forall i | 0 <= i < |steps| :: InGraph(steps, i)
    ensures forall x | x in GraphOf(steps) :: HasId(steps, x)
    ensures |GraphOf(steps)| == |steps|
  {
    GraphKeys(steps);
    if steps != [] {
      var n := |steps| - 1;
      var init, ids := steps[..n], Ids(steps);
      assert Ids(init) == ids[..n];
      GraphOfIds(init);
      forall j | 0 <= j < n
        ensures init[j].stepId != steps[n].stepId
      {
        assert ids[j] != ids[n];
      }
      assert !HasId(init, steps[n].stepId);
      hide NoRepeats, HasId;
      forall i | 0 <= i < |steps|
        ensures InGraph(steps, i)
      {
        if i < n { assert InGraph(init, i); }
      }
    }
  }

  predicate InGraph(steps: seq<Step>, i: nat)
    requires i < |steps|
  {
    steps[i].stepId in GraphOf(steps) && GraphOf(steps)[steps[i].stepId] == steps[i].predecessors
  }

  predicate HasId(steps: seq<Step>, x: string) {
    exists i :: 0 <= i < |steps| && steps[i].stepId == x
  }

  lemma {:induction false} IncreasingOrders(s: seq<string>, i: nat, j: nat)
    requires Increasing(s) && i < j < |s|
    ensures Text.StrLess(s[i], s[j])
  {
    if i + 1 < j {
      IncreasingOrders(s, i, j - 1);
      assert Text.StrLess(s[j - 1], s[(j - 1) + 1]);
      Text.StrTransitive(s[i], s[j - 1], s[j]);
    }
  }

  lemma IncreasingHasNoRepeats(s: seq<string>)
    requires Increasing(s)
    ensures NoRepeats(s)
  {
    forall i, j | 0 <= i < j < |s|
      ensures s[i] != s[j]
    {
      IncreasingOrders(s, i, j);
      Text.StrTotal(s[i], s[j]);
    }
  }

  lemma IncreasingIdsHaveNoRepeats(steps: seq<Step>)
    requires IncreasingIds(steps)
    ensures NoRepeats(Ids(steps))
  {
    var ids := Ids(steps);
    forall i | 0 <= i < |ids| - 1
      ensures Text.StrLess(ids[i], ids[i + 1])
    {
      assert IdBefore(steps, i);
    }
    IncreasingHasNoRepeats(ids);
  }

  lemma WellFormedGraph(t: Topology)
    requires WellFormed(t)
    ensures NoRepeats(Ids(t.steps)) && Closed(GraphOf(t.steps)) && |GraphOf(t.steps)| == |t.steps|
  {
    var g := GraphOf(t.steps);
    IncreasingIdsHaveNoRepeats(t.steps);
    GraphOfIds(t.steps);
    forall x | x in g
      ensures NoRepeats(g[x]) && forall p | p in g[x] :: p in g
    {
      assert HasId(t.steps, x);
      var i :| 0 <= i < |t.steps| && t.steps[i].stepId == x;
      assert InGraph(t.steps, i) && ValidStep(t.steps[i]);
      IncreasingHasNoRepeats(g[x]);
      forall p | p in g[x]
        ensures p in g
      {
        assert HasId(t.steps, p);
        var j :| 0 <= j < |t.steps| && t.steps[j].stepId == p;
        assert InGraph(t.steps, j);
      }
    }
  }

  // ----- the checks -----

  // Every check before the graph is built.
  method CheckRecords(t: Topology) returns (ok: bool)
    ensures ok <==> WellFormed(t)
  {
    if t.schemaVersion != "audit-topology/v1" || !Text.IsPrefixedId(t.topologyId, "topology_") || t.steps == [] {
      return false;
    }
    var stepIds;
    ok, stepIds := CheckSteps(t.steps);
    if ok { ok := CheckReferences(t.steps, stepIds); }
  }

  // `seen` holds the first `i` names.
  ghost predicate SeenUpTo(names: seq<string>, i: nat, seen: set<string>)
    requires i <= |names|
  {
    forall x :: x in seen <==> x in names[..i]
  }

  lemma SeeName(names: seq<string>, i: nat, seen: set<string>)
    requires i < |names| && SeenUpTo(names, i, seen)
    ensures SeenUpTo(names, i + 1, seen + {names[i]})
    ensures names[i] in seen <==> exists j :: 0 <= j < i && names[j] == names[i]
  {
    assert names[..i + 1] == names[..i] + [names[i]];
  }

  function PlanIds(steps: seq<Step>): seq<string> {
    seq(|steps|, i requires 0 <= i < |steps| => steps[i].planRef.planId)
  }

  method CheckSteps(steps: seq<Step>) returns (ok: bool, stepIds: set<string>)
    ensures ok <==> (forall i | 0 <= i < |steps| :: ValidStep(steps[i])) && IncreasingIds(steps) && DistinctPlans(steps)
    ensures ok ==> forall x :: x in stepIds <==> HasId(steps, x)
  {
    hide Text.IsPrefixedId, Text.IsSha256, Increasing, Text.StrLess, SeenUpTo;
    stepIds := {};
    var planIds: set<string> := {};
    ghost var ids, plans := Ids(steps), PlanIds(steps);
    NothingSeen(ids);
    NothingSeen(plans);
    for i := 0 to |steps|
      invariant SeenUpTo(ids, i, stepIds) && SeenUpTo(plans, i, planIds)
      invariant forall j | 0 <= j < i :: ValidStep(steps[j])
      invariant forall j: nat | j + 1 < i :: IdBefore(steps, j)
      invariant forall j, k | 0 <= j < k < i :: steps[j].planRef.planId != steps[k].planRef.planId
    {
      var step := steps[i];
      SeeName(ids, i, stepIds);
      SeeName(plans, i, planIds);
      if !Text.IsPrefixedId(step.stepId, "step_") { return false, {}; }
      if i > 0 && !Text.StrLess(steps[i - 1].stepId, step.stepId) {
        assert !IdBefore(steps, i - 1);
        return false, {};
      }
      stepIds := stepIds + {step.stepId};
      if !Text.IsPrefixedId(step.planRef.planId, "plan_") || !Text.IsSha256(step.planRef.recordDigest) {
        return false, {};
      }
      if step.planRef.planId in planIds { return false, {}; }
      assert forall j | 0 <= j < i :: plans[j] == steps[j].planRef.planId && plans[j] != plans[i];
      planIds := planIds + {step.planRef.planId};
      var valid := CheckPredecessors(step);
      if !valid { return false, {}; }
    }
    AllSeen(steps, stepIds);
    ok := true;
  }

  lemma NothingSeen(names: seq<string>)
    ensures SeenUpTo(names, 0, {})
  {
  }

  lemma AllSeen(steps: seq<Step>, seen: set<string>)
    requires SeenUpTo(Ids(steps), |steps|, seen)
    ensures forall x :: x in seen <==> HasId(steps, x)
  {
    var ids := Ids(steps);
    assert ids[..|steps|] == ids;
    forall x
      ensures x in ids <==> HasId(steps, x)
    {
      if HasId(steps, x) {
        var i :| 0 <= i < |steps| && steps[i].stepId == x;
        assert ids[i] == x;
      }
    }
  }

  method CheckReferences(steps: seq<Step>, stepIds: set<string>) returns (ok: bool)
    requires forall x :: x in stepIds <==> HasId(steps, x)
    ensures ok <==> ReferencesKnown(steps)
  {
    hide HasId;
    for i := 0 to |steps|
      invariant forall j, p | 0 <= j < i && p in steps[j].predecessors :: HasId(steps, p)
    {
      var preds := steps[i].predecessors;
      for j := 0 to |preds|
        invariant forall k | 0 <= k < j :: HasId(steps, preds[k])
      {
        if preds[j] !in stepIds { return false; }
      }
    }
    return true;
  }

  method CheckPredecessors(step: Step) returns (ok: bool)
    ensures ok <==> Increasing(step.predecessors) &&
                    forall p | p in step.predecessors :: Text.IsPrefixedId(p, "step_") && p != step.stepId
  {
    for j := 0 to |step.predecessors|
      invariant forall k | 0 <= k < j ::
        Text.IsPrefixedId(step.predecessors[k], "step_") && step.predecessors[k] != step.stepId
      invariant forall k | 0 <= k < j - 1 :: Text.StrLess(step.predecessors[k], step.predecessors[k + 1])
    {
      var p := step.predecessors[j];
      if !Text.IsPrefixedId(p, "step_") || p == step.stepId { return false; }
      if j > 0 && !Text.StrLess(step.predecessors[j - 1], p) { return false; }
    }
    return true;
  }

  // ----- Kahn's algorithm -----

  // Every step that lists `p` as a predecessor is in its successor list, once.
  ghost predicate IsSuccessorMap(g: Graph, successors: map<string, seq<string>>) {
    && (forall p | p in successors :: NoRepeats(successors[p]) && forall x | x in successors[p] :: Edge(g, p, x))
    && (forall p, x {:trigger Edge(g, p, x)} | Edge(g, p, x) :: p in successors && x in successors[p])
  }

  lemma AddSuccessor(g: Graph, id: string, preds: seq<string>, j: nat, successors: map<string, seq<string>>)
    requires j < |preds| && NoRepeats(preds) && id !in g && IsSuccessorMap(g[id := preds[..j]], successors)
    ensures var list := if preds[j] in successors then successors[preds[j]] else [];
      IsSuccessorMap(g[id := preds[..j + 1]], successors[preds[j] := list + [id]])
  {
    var p := preds[j];
    var list := if p in successors then successors[p] else [];
    var g1, g2, successors2 := g[id := preds[..j]], g[id := preds[..j + 1]], successors[p := list + [id]];
    assert p !in preds[..j] && !Edge(g1, p, id);
    assert preds[..j + 1] == preds[..j] + [p];
    assert forall q, x :: Edge(g2, q, x) <==> Edge(g1, q, x) || (q == p && x == id);
  }

  lemma NoSuccessorsYet(g: Graph, id: string, successors: map<string, seq<string>>)
    requires id !in g && IsSuccessorMap(g, successors)
    ensures IsSuccessorMap(g[id := []], successors)
  {
    var g' := g[id := []];
    assert forall q, x :: Edge(g', q, x) <==> Edge(g, q, x);
    forall q, x | Edge(g', q, x)
      ensures q in successors && x in successors[q]
    {
      assert Edge(g, q, x);
    }
    forall q, x | q in successors && x in successors[q]
      ensures Edge(g', q, x)
    {
      assert Edge(g, q, x);
    }
  }

  method BuildMaps(steps: seq<Step>) returns (inDegree: map<string, nat>, successors: map<string, seq<string>>)
    requires NoRepeats(Ids(steps)) && forall i | 0 <= i < |steps| :: NoRepeats(steps[i].predecessors)
    ensures inDegree.Keys == GraphOf(steps).Keys && forall x | x in inDegree :: inDegree[x] == |GraphOf(steps)[x]|
    ensures IsSuccessorMap(GraphOf(steps), successors)
  {
    inDegree, successors := map[], map[];
    for i := 0 to |steps|
      invariant inDegree.Keys == GraphOf(steps[..i]).Keys
      invariant forall x | x in inDegree :: inDegree[x] == |GraphOf(steps[..i])[x]|
    {
      assert steps[..i + 1][..i] == steps[..i];
      inDegree := inDegree[steps[i].stepId := |steps[i].predecessors|];
    }
    for i := 0 to |steps|
      invariant IsSuccessorMap(GraphOf(steps[..i]), successors)
    {
      assert steps[..i + 1][..i] == steps[..i];
      hide IsSuccessorMap;
      var id, preds := steps[i].stepId, steps[i].predecessors;
      ghost var g := GraphOf(steps[..i]);
      IdIsNew(steps, i);
      NoSuccessorsYet(g, id, successors);
      assert preds[..0] == [];
      for j := 0 to |preds|
        invariant IsSuccessorMap(g[id := preds[..j]], successors)
      {
        AddSuccessor(g, id, preds, j, successors);
        var list := if preds[j] in successors then successors[preds[j]] else [];
        successors := successors[preds[j] := list + [id]];
      }
      assert preds[..|preds|] == preds;
    }
    assert steps[..|steps|] == steps;
  }

  lemma IdIsNew(steps: seq<Step>, i: nat)
    requires NoRepeats(Ids(steps)) && i < |steps|
    ensures steps[i].stepId !in GraphOf(steps[..i])
  {
    var ids := Ids(steps);
    assert Ids(steps[..i]) == ids[..i];
    GraphOfIds(steps[..i]);
    assert forall j | 0 <= j < i :: steps[..i][j].stepId == ids[j] && ids[j] != ids[i];
    assert !HasId(steps[..i], ids[i]);
  }

  // The state of the worklist: the in-degrees count the predecessors that were not popped, and the ready set holds
  // the steps, not popped themselves, for which that count is zero.
  ghost predicate Counts(g: Graph, popped: seq<string>, inDegree: map<string, nat>, ready: set<string>) {
    && inDegree.Keys == g.Keys
    && (forall x | x in g :: inDegree[x] == CountOutside(g[x], SetOf(popped)))
    && (forall x :: x in ready <==> x in g && x !in popped && inDegree[x] == 0)
  }

  ghost function SetOf(s: seq<string>): set<string> { set x | x in s }

  ghost predicate Popped(g: Graph, popped: seq<string>) {
    NoRepeats(popped) && IsTopological(g, popped) && forall x | x in popped :: x in g
  }

  // `BTreeSet::pop_first` of a non-empty set.
  lemma {:induction false} LeastExists(s: set<string>) returns (least: string)
    requires s != {}
    ensures least in s && forall x | x in s :: x == least || Text.StrLess(least, x)
  {
    var x :| x in s;
    if s == {x} {
      least := x;
    } else {
      var rest := LeastExists(s - {x});
      Text.StrTotal(x, rest);
      if Text.StrLess(x, rest) {
        forall y | y in s - {x, rest}
          ensures Text.StrLess(x, y)
        {
          Text.StrTransitive(x, rest, y);
        }
        least := x;
      } else {
        least := rest;
      }
    }
  }

  // All predecessors of `s` were popped, and `s` was not.
  ghost predicate Free(g: Graph, popped: seq<string>, s: string) {
    s in g && s !in popped && forall p | p in g[s] :: p in popped
  }

  // `next` lists the steps that `s` precedes, once each.
  ghost predicate Successors(g: Graph, s: string, next: seq<string>) {
    NoRepeats(next) && forall x :: x in next <==> Edge(g, s, x)
  }

  lemma PopKeeps(g: Graph, popped: seq<string>, s: string)
    requires Popped(g, popped) && Free(g, popped, s)
    ensures Popped(g, popped + [s])
  {
    var all := popped + [s];
    forall i, p | 0 <= i < |all| && Edge(g, p, all[i])
      ensures p in all[..i]
    {
      if i < |popped| {
        assert Edge(g, p, popped[i]) && all[..i] == popped[..i];
      } else {
        assert all[..i] == popped;
      }
    }
  }

  // One in-degree is decremented for each successor of the popped step; `done` of them have been.
  ghost predicate Decrementing(g: Graph, popped: seq<string>, s: string, next: seq<string>, done: nat,
                               inDegree: map<string, nat>, ready: set<string>)
    requires done <= |next|
  {
    && inDegree.Keys == g.Keys
    && (forall x | x in g :: inDegree[x] ==
          CountOutside(g[x], SetOf(popped)) - (if x in next[..done] then 1 else 0))
    && (forall x :: x in ready <==> x in g && x !in popped && x != s && inDegree[x] == 0)
  }

  lemma DecrementNext(g: Graph, popped: seq<string>, s: string, next: seq<string>, done: nat,
                      inDegree: map<string, nat>, ready: set<string>)
    requires Closed(g) && Popped(g, popped) && Free(g, popped, s)
    requires done < |next| && Successors(g, s, next)
    requires Decrementing(g, popped, s, next, done, inDegree, ready)
    ensures var x := next[done];
      x in inDegree && inDegree[x] > 0 && x != s &&
      var inDegree' := inDegree[x := inDegree[x] - 1];
      var ready' := if inDegree'[x] == 0 then ready + {x} else ready;
      Decrementing(g, popped, s, next, done + 1, inDegree', ready')
  {
    hide CountOutside, Popped;
    var x := next[done];
    assert Edge(g, s, x) && next[..done + 1] == next[..done] + [x] && x !in next[..done];
    CountAdds(g[x], SetOf(popped), s);
    if x in popped { PredecessorsPopped(g, popped, s, x); }
  }

  lemma PredecessorsPopped(g: Graph, popped: seq<string>, p: string, x: string)
    requires Popped(g, popped) && Edge(g, p, x) && x in popped
    ensures p in popped
  {
    var i :| 0 <= i < |popped| && popped[i] == x;
    assert Edge(g, p, popped[i]);
  }

  lemma DecrementedAll(g: Graph, popped: seq<string>, s: string, next: seq<string>,
                       inDegree: map<string, nat>, ready: set<string>)
    requires Closed(g) && Free(g, popped, s)
    requires Successors(g, s, next) && Decrementing(g, popped, s, next, |next|, inDegree, ready)
    ensures Counts(g, popped + [s], inDegree, ready)
  {
    assert next[..|next|] == next;
    assert SetOf(popped + [s]) == SetOf(popped) + {s};
    forall x | x in g
      ensures inDegree[x] == CountOutside(g[x], SetOf(popped + [s]))
    {
      CountAdds(g[x], SetOf(popped), s);
      assert x in next <==> Edge(g, s, x);
    }
  }

  lemma StartCounts(g: Graph, inDegree: map<string, nat>, ready: set<string>)
    requires inDegree.Keys == g.Keys && (forall x | x in g :: inDegree[x] == |g[x]|)
    requires forall x :: x in ready <==> x in inDegree && inDegree[x] == 0
    ensures Popped(g, []) && Counts(g, [], inDegree, ready)
  {
    forall x | x in g { CountNone(g[x]); }
    assert SetOf([]) == {};
  }

  // A ready step is in the graph, was not popped, and all its predecessors were.
  lemma ReadyStep(g: Graph, popped: seq<string>, inDegree: map<string, nat>, ready: set<string>, s: string,
                  next: seq<string>)
    requires Counts(g, popped, inDegree, ready) && s in ready
    ensures Free(g, popped, s)
    ensures Decrementing(g, popped, s, next, 0, inDegree, ready - {s})
  {
    CountZero(g[s], SetOf(popped));
    assert next[..0] == [];
  }

  function SuccessorsOf(successors: map<string, seq<string>>, s: string): seq<string> {
    if s in successors then successors[s] else []
  }

  lemma SuccessorList(g: Graph, successors: map<string, seq<string>>, s: string)
    requires IsSuccessorMap(g, successors)
    ensures Successors(g, s, SuccessorsOf(successors, s))
  {
  }

  lemma PopShrinks(g: Graph, popped: seq<string>, s: string)
    requires Free(g, popped, s)
    ensures |g.Keys - SetOf(popped + [s])| < |g.Keys - SetOf(popped)|
  {
    assert g.Keys - SetOf(popped + [s]) == g.Keys - SetOf(popped) - {s};
  }

  // The inner loop: one in-degree less for each successor, and a successor without any left becomes ready.
  method DecrementAll(ghost g: Graph, ghost popped: seq<string>, ghost s: string, next: seq<string>,
                      degrees: map<string, nat>, start: set<string>)
    returns (inDegree: map<string, nat>, ready: set<string>)
    requires Closed(g) && Popped(g, popped) && Free(g, popped, s) && Successors(g, s, next)
    requires Decrementing(g, popped, s, next, 0, degrees, start)
    ensures Decrementing(g, popped, s, next, |next|, inDegree, ready)
  {
    hide Decrementing, Closed, Popped, Free, Successors;
    inDegree, ready := degrees, start;
    for j := 0 to |next|
      invariant Decrementing(g, popped, s, next, j, inDegree, ready)
    {
      DecrementNext(g, popped, s, next, j, inDegree, ready);
      inDegree := inDegree[next[j] := inDegree[next[j]] - 1];
      if inDegree[next[j]] == 0 { ready := ready + {next[j]}; }
    }
  }

  /** Kahn's algorithm: it visits every step exactly when the graph has no cycle. No in-degree underflows, every
      successor is a step of the graph, each step is popped at most once, and the pops are in topological order. */
  method KahnVisits(ghost g: Graph, degrees: map<string, nat>, successors: map<string, seq<string>>)
    returns (visited: nat, ghost popped: seq<string>)
    requires Closed(g) && IsSuccessorMap(g, successors)
    requires degrees.Keys == g.Keys && forall x | x in g :: degrees[x] == |g[x]|
    ensures visited == |popped| && NoRepeats(popped) && IsTopological(g, popped) && visited <= |g|
    ensures visited == |g| <==> !HasCycle(g)
  {
    var inDegree := degrees;
    var ready := set x | x in inDegree && inDegree[x] == 0;
    visited, popped := 0, [];
    StartCounts(g, inDegree, ready);
    PoppedMeans(g);
    hide Counts, Decrementing, Closed, IsSuccessorMap, IsTopological, HasCycle, NoRepeats, SuccessorsOf, Popped, Free,
      Successors, Edge, SetOf, Text.StrLess;
    while ready != {}
      invariant Popped(g, popped) && Counts(g, popped, inDegree, ready) && visited == |popped|
      decreases |g.Keys - SetOf(popped)|
    {
      ghost var least := LeastExists(ready);
      var s :| s in ready && forall x | x in ready :: x == s || Text.StrLess(s, x);
      var next := SuccessorsOf(successors, s);
      ReadyStep(g, popped, inDegree, ready, s, next);
      SuccessorList(g, successors, s);
      ready := ready - {s};
      visited := visited + 1;
      inDegree, ready := DecrementAll(g, popped, s, next, inDegree, ready);
      DecrementedAll(g, popped, s, next, inDegree, ready);
      PopKeeps(g, popped, s);
      PopShrinks(g, popped, s);
      popped := popped + [s];
    }
    VisitedDecides(g, popped, inDegree);
  }

  lemma PoppedMeans(g: Graph)
    ensures Popped(g, [])
    ensures forall popped: seq<string> | Popped(g, popped) :: NoRepeats(popped) && IsTopological(g, popped)
  {
  }

  lemma {:induction false} NoRepeatsCount(ids: seq<string>, keys: set<string>)
    requires NoRepeats(ids) && forall x :: x in keys <==> x in ids
    ensures |keys| == |ids|
  {
    if ids == [] {
      assert keys == {};
    } else {
      forall x
        ensures x in keys - {ids[0]} <==> x in ids[1..]
      {
        assert ids == [ids[0]] + ids[1..];
      }
      NoRepeatsCount(ids[1..], keys - {ids[0]});
    }
  }

  lemma VisitedDecides(g: Graph, popped: seq<string>, inDegree: map<string, nat>)
    requires Closed(g) && Popped(g, popped) && Counts(g, popped, inDegree, {})
    ensures |popped| <= |g| && (|popped| == |g| <==> !HasCycle(g))
  {
    NoRepeatsCount(popped, SetOf(popped));
    var stuck := g.Keys - SetOf(popped);
    assert SetOf(popped) <= g.Keys && |stuck| == |g| - |popped|;
    if stuck == {} {
      assert forall x | x in g :: x in popped;
      TopologicalIsAcyclic(g, popped);
    } else {
      forall x | x in stuck
        ensures HasPredIn(g, stuck, x)
      {
        CountZero(g[x], SetOf(popped));
        var p :| p in g[x] && p !in SetOf(popped);
        assert p in stuck && Edge(g, p, x);
      }
      StuckHasCycle(g, stuck);
    }
  }

  /** `validate_audit_topology` accepts exactly the topologies that pass the ordering and reference checks and whose
      predecessor graph has no cycle. */
  method ValidateAuditTopology(t: Topology) returns (ok: bool)
    ensures ok <==> WellFormed(t) && !HasCycle(GraphOf(t.steps))
  {
    ok := CheckRecords(t);
    if ok {
      WellFormedGraph(t);
      PredecessorsHaveNoRepeats(t);
      var inDegree, successors := BuildMaps(t.steps);
      ghost var popped;
      var visited;
      visited, popped := KahnVisits(GraphOf(t.steps), inDegree, successors);
      ok := visited == |t.steps|;
    }
  }

  lemma PredecessorsHaveNoRepeats(t: Topology)
    requires WellFormed(t)
    ensures forall i | 0 <= i < |t.steps| :: NoRepeats(t.steps[i].predecessors)
  {
    forall i | 0 <= i < |t.steps|
      ensures NoRepeats(t.steps[i].predecessors)
    {
      assert ValidStep(t.steps[i]);
      IncreasingHasNoRepeats(t.steps[i].predecessors);
    }
  }
}
