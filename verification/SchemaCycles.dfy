/**
 Cycles among the object types a GraphQL Query root can reach, found by walking every
 path that does not repeat a type.
 */
module SchemaCycles {
  import opened Common

  /** Each object type with the named type behind each of its fields, in field order. */
  type Schema = map<string, seq<string>>

  type Path = seq<string>

  /** A path the walk may stand on: object types, none twice. */
  ghost predicate Simple(schema: Schema, path: Path) {
    Distinct(path) && forall t :: t in path ==> t in schema
  }

  /** A simple path cannot be longer than the schema, which is why the walk ends. */
  lemma SimpleIsShort(schema: Schema, path: Path)
    requires Simple(schema, path)
    ensures |path| <= |schema.Keys|
  {
    DistinctCardinality(path);
    SubsetCardinality(Elements(path), schema.Keys);
  }

  lemma ExtendSimple(schema: Schema, path: Path, t: string)
    requires Simple(schema, path) && t in schema && t !in path
    ensures Simple(schema, path + [t]) && |path| < |schema.Keys|
  {
    SimpleIsShort(schema, path + [t]);
  }

  /** What the walk reports below `path` for the remaining fields of its last type. */
  ghost function Reported(schema: Schema, path: Path, targets: seq<string>): seq<Path>
    requires Simple(schema, path)
    decreases |schema.Keys| - |path|, |targets|
  {
    if targets == [] then []
    else
      var t := targets[0];
      (if t !in schema then []
       else if t in path then [path + [t]]
       else
         ExtendSimple(schema, path, t);
         Reported(schema, path + [t], schema[t]))
      + Reported(schema, path, targets[1..])
  }

  /** The recursive walk, pushing each path that closes on itself. */
  method Walk(schema: Schema, path: Path, cycles: seq<Path>) returns (r: seq<Path>)
    requires Simple(schema, path) && path != []
    ensures r == cycles + Reported(schema, path, schema[path[|path| - 1]])
    decreases |schema.Keys| - |path|
  {
    var targets := schema[path[|path| - 1]];
    r := cycles;
    assert targets[0..] == targets;
    for k := 0 to |targets|
      invariant r + Reported(schema, path, targets[k..]) == cycles + Reported(schema, path, targets)
    {
      var t := targets[k];
      assert targets[k..][1..] == targets[k + 1..];
      ghost var before, rest := r, Reported(schema, path, targets[k + 1..]);
      if t !in schema {
        assert [] + rest == rest;
        continue;
      }
      if t in path {
        r := r + [path + [t]];
        assert before + ([path + [t]] + rest) == r + rest;
        continue;
      }
      ExtendSimple(schema, path, t);
      r := Walk(schema, path + [t], r);
      ghost var below := Reported(schema, path + [t], schema[t]);
      assert before + (below + rest) == before + below + rest;
    }
  }

  /** `root` is the Query type, if the schema has one. */
  method FindCycles(schema: Schema, root: Option<string>) returns (cycles: seq<Path>)
    requires root.Some? ==> root.value in schema
    ensures root.None? ==> cycles == []
    ensures root.Some? ==> forall q :: q in cycles <==> IsLasso(schema, root.value, q)
    ensures root.Some? ==> (cycles == [] <==> !HasCycle(schema, root.value))
  {
    cycles := [];
    if root.Some? {
      assert [root.value][0] == root.value;
      cycles := Walk(schema, [root.value], []);
      var all := Reported(schema, [root.value], schema[root.value]);
      assert [] + all == all;
      ReportsExactlyTheLassos(schema, root.value);
      EmptyIffAcyclic(schema, root.value);
    }
  }

  // ---- what is reported ----

  predicate Edge(schema: Schema, a: string, b: string) {
    a in schema && b in schema && b in schema[a]
  }

  ghost predicate IsWalk(schema: Schema, root: string, w: Path) {
    w != [] && w[0] == root && root in schema && forall i :: 0 <= i < |w| - 1 ==> Edge(schema, w[i], w[i + 1])
  }

  /** A path from the root whose last type, and no earlier one, repeats. */
  ghost predicate IsLasso(schema: Schema, root: string, q: Path) {
    && |q| >= 2 && IsWalk(schema, root, q)
    && Distinct(q[..|q| - 1])
    && q[|q| - 1] in q[..|q| - 1]
  }

  /** A type reachable from the root that reaches itself. */
  ghost predicate HasCycle(schema: Schema, root: string) {
    exists stem, loop :: IsWalk(schema, root, stem) && IsWalk(schema, stem[|stem| - 1], loop)
                         && |loop| >= 2 && loop[|loop| - 1] == stem[|stem| - 1]
  }

  /** `q` continues `path` through one of `targets` and closes on itself. */
  ghost predicate Closes(schema: Schema, path: Path, targets: seq<string>, q: Path) {
    && |q| > |path| && q[..|path|] == path
    && q[|path|] in targets && q[|path|] in schema
    && (forall i :: |path| <= i < |q| - 1 ==> Edge(schema, q[i], q[i + 1]))
    && Distinct(q[..|q| - 1])
    && q[|q| - 1] in q[..|q| - 1]
  }

  lemma {:induction false} ReportedCloses(schema: Schema, path: Path, targets: seq<string>, q: Path)
    requires Simple(schema, path) && q in Reported(schema, path, targets)
    ensures Closes(schema, path, targets, q)
    decreases |schema.Keys| - |path|, |targets|
  {
    var t := targets[0];
    if q in Reported(schema, path, targets[1..]) {
      ReportedCloses(schema, path, targets[1..], q);
    } else if t in path {
      assert q == path + [t];
      assert q[..|q| - 1] == path;
    } else {
      ExtendSimple(schema, path, t);
      ReportedCloses(schema, path + [t], schema[t], q);
      ClosesAbove(schema, path, t, targets, q);
    }
  }

  /** What closes below `path` extended by one of its targets closes below `path`. */
  lemma ClosesAbove(schema: Schema, path: Path, t: string, targets: seq<string>, q: Path)
    requires t in targets && t in schema && Closes(schema, path + [t], schema[t], q)
    ensures Closes(schema, path, targets, q)
  {
    assert q[..|path|] == q[..|path| + 1][..|path|];
    assert q[|path|] == q[..|path| + 1][|path|];
    assert Edge(schema, q[|path|], q[|path| + 1]);
  }

  lemma {:induction false} ClosesReported(schema: Schema, path: Path, targets: seq<string>, q: Path)
    requires Simple(schema, path) && Closes(schema, path, targets, q)
    ensures q in Reported(schema, path, targets)
    decreases |schema.Keys| - |path|, |targets|
  {
    var t, u := targets[0], q[|path|];
    if u != t {
      assert u in targets[1..];
      ClosesReported(schema, path, targets[1..], q);
    } else if u in path {
      LastOnPath(path, q);
      assert q == path + [t];
    } else {
      ExtendSimple(schema, path, t);
      assert q[..|path| + 1] == path + [t];
      assert Edge(schema, q[|path|], q[|path| + 1]);
      ClosesReported(schema, path + [t], schema[t], q);
    }
  }

  lemma LastOnPath(path: Path, q: Path)
    requires |q| > |path| && q[..|path|] == path && q[|path|] in path && Distinct(q[..|q| - 1])
    ensures |q| == |path| + 1
  {
    var i :| 0 <= i < |path| && path[i] == q[|path|];
    assert q[i] == q[..|path|][i];
    var init := q[..|q| - 1];
    assert forall k {:trigger q[k]} :: 0 <= k < |init| ==> init[k] == q[k];
  }

  /** The walk reports every path that closes on itself, and nothing else. */
  lemma ReportsExactlyTheLassos(schema: Schema, root: string)
    requires root in schema
    ensures forall q :: q in Reported(schema, [root], schema[root]) <==> IsLasso(schema, root, q)
  {
    forall q | q in Reported(schema, [root], schema[root]) ensures IsLasso(schema, root, q) {
      ReportedCloses(schema, [root], schema[root], q);
      assert q[0] == q[..1][0];
      assert |q| > 1;
      assert Edge(schema, q[0], q[1]);
    }
    forall q | IsLasso(schema, root, q) ensures q in Reported(schema, [root], schema[root]) {
      assert q[..1] == [root];
      assert Edge(schema, q[0], q[1]);
      ClosesReported(schema, [root], schema[root], q);
    }
  }

  /** Cut a walk that repeats a type at its first repetition. */
  lemma {:induction false} FirstRepetition(schema: Schema, root: string, w: Path) returns (q: Path)
    requires IsWalk(schema, root, w) && !Distinct(w)
    ensures IsLasso(schema, root, q)
    decreases |w|
  {
    var init := w[..|w| - 1];
    if |w| >= 2 && !Distinct(init) {
      assert forall i :: 0 <= i < |init| - 1 ==> Edge(schema, init[i], init[i + 1]);
      q := FirstRepetition(schema, root, init);
    } else {
      q := w;
      var i, j :| 0 <= i < j < |w| && w[i] == w[j];
      assert forall k :: 0 <= k < |init| ==> init[k] == w[k];
      assert j == |w| - 1 && init[i] == w[j];
    }
  }

  lemma SplitWalk(schema: Schema, root: string, w: Path, i: nat)
    requires IsWalk(schema, root, w) && i < |w|
    ensures IsWalk(schema, root, w[..i + 1])
    ensures i < |w| - 1 ==> IsWalk(schema, w[i], w[i..])
  {
    var stem, rest := w[..i + 1], w[i..];
    forall k | 0 <= k < |stem| - 1 ensures Edge(schema, stem[k], stem[k + 1]) {
      assert Edge(schema, w[k], w[k + 1]);
    }
    forall k | 0 <= k < |rest| - 1 ensures Edge(schema, rest[k], rest[k + 1]) {
      assert Edge(schema, w[i + k], w[i + k + 1]);
    }
    assert i < |w| - 1 ==> Edge(schema, w[i], w[i + 1]);
  }

  lemma WalksGiveCycle(schema: Schema, root: string, stem: Path, loop: Path)
    requires IsWalk(schema, root, stem) && IsWalk(schema, stem[|stem| - 1], loop)
    requires |loop| >= 2 && loop[|loop| - 1] == stem[|stem| - 1]
    ensures HasCycle(schema, root)
  {
  }

  lemma LassoGivesCycle(schema: Schema, root: string, q: Path)
    requires IsLasso(schema, root, q)
    ensures HasCycle(schema, root)
  {
    var init := q[..|q| - 1];
    var i :| 0 <= i < |init| && init[i] == q[|q| - 1];
    SplitWalk(schema, root, q, i);
    WalksGiveCycle(schema, root, q[..i + 1], q[i..]);
  }

  lemma CycleGivesLasso(schema: Schema, root: string) returns (q: Path)
    requires HasCycle(schema, root)
    ensures IsLasso(schema, root, q)
  {
    var stem, loop :| IsWalk(schema, root, stem) && IsWalk(schema, stem[|stem| - 1], loop)
                      && |loop| >= 2 && loop[|loop| - 1] == stem[|stem| - 1];
    var w := stem + loop[1..];
    forall k | 0 <= k < |w| - 1 ensures Edge(schema, w[k], w[k + 1]) {
      if k >= |stem| - 1 {
        assert w[k] == loop[k - |stem| + 1] && w[k + 1] == loop[k - |stem| + 2];
      }
    }
    assert w[|stem| - 1] == w[|w| - 1];
    q := FirstRepetition(schema, root, w);
  }

  /** Nothing is reported exactly when no reachable object type reaches itself. */
  lemma EmptyIffAcyclic(schema: Schema, root: string)
    requires root in schema
    ensures Reported(schema, [root], schema[root]) == [] <==> !HasCycle(schema, root)
  {
    var all := Reported(schema, [root], schema[root]);
    ReportsExactlyTheLassos(schema, root);
    if all != [] {
      assert all[0] in all;
      LassoGivesCycle(schema, root, all[0]);
    }
    if HasCycle(schema, root) {
      var q := CycleGivesLasso(schema, root);
      assert q in all;
    }
  }

  // ---- how deep a query can go ----

  lemma AcyclicWalkIsDistinct(schema: Schema, root: string, w: Path)
    requires !HasCycle(schema, root) && IsWalk(schema, root, w)
    ensures Distinct(w) && |w| <= |schema.Keys|
  {
    if !Distinct(w) {
      var q := FirstRepetition(schema, root, w);
      LassoGivesCycle(schema, root, q);
    }
    forall t | t in w ensures t in schema {
      var i :| 0 <= i < |w| && w[i] == t;
      assert i > 0 ==> Edge(schema, w[i - 1], w[i]);
    }
    SimpleIsShort(schema, w);
  }

  /** A loop at the end of a stem can be walked as often as one likes. */
  lemma {:induction false} WalkLoops(schema: Schema, root: string, stem: Path, loop: Path, n: nat) returns (w: Path)
    requires IsWalk(schema, root, stem) && IsWalk(schema, stem[|stem| - 1], loop)
    requires |loop| >= 2 && loop[|loop| - 1] == stem[|stem| - 1]
    ensures IsWalk(schema, root, w) && |w| > n && w[|w| - 1] == stem[|stem| - 1]
  {
    if n == 0 {
      w := stem;
    } else {
      var before := WalkLoops(schema, root, stem, loop, n - 1);
      w := before + loop[1..];
      JoinWalks(schema, root, before, loop);
    }
  }

  lemma JoinWalks(schema: Schema, root: string, stem: Path, loop: Path)
    requires IsWalk(schema, root, stem) && IsWalk(schema, stem[|stem| - 1], loop)
    ensures IsWalk(schema, root, stem + loop[1..])
    ensures (stem + loop[1..])[|stem + loop[1..]| - 1] == loop[|loop| - 1]
  {
    var w := stem + loop[1..];
    forall k | 0 <= k < |w| - 1 ensures Edge(schema, w[k], w[k + 1]) {
      if k < |stem| - 1 {
        assert Edge(schema, stem[k], stem[k + 1]);
      } else {
        assert Edge(schema, loop[k - |stem| + 1], loop[k - |stem| + 2]);
        assert w[k] == loop[k - |stem| + 1] && w[k + 1] == loop[k - |stem| + 2];
      }
    }
  }

  /** Walks through object types only are no longer than `bound`. */
  ghost predicate BoundedBy(schema: Schema, root: string, bound: nat) {
    forall w :: IsWalk(schema, root, w) ==> |w| <= bound
  }

  /** Queries that pass through object types only have bounded depth exactly when no cycle is reported. */
  lemma BoundedExactly(schema: Schema, root: string)
    requires root in schema
    ensures (exists bound: nat :: BoundedBy(schema, root, bound)) <==> Reported(schema, [root], schema[root]) == []
  {
    EmptyIffAcyclic(schema, root);
    if !HasCycle(schema, root) {
      forall w | IsWalk(schema, root, w) ensures |w| <= |schema.Keys| {
        AcyclicWalkIsDistinct(schema, root, w);
      }
      assert BoundedBy(schema, root, |schema.Keys|);
    } else {
      var stem, loop :| IsWalk(schema, root, stem) && IsWalk(schema, stem[|stem| - 1], loop)
                        && |loop| >= 2 && loop[|loop| - 1] == stem[|stem| - 1];
      forall bound: nat ensures !BoundedBy(schema, root, bound) {
        var w := WalkLoops(schema, root, stem, loop, bound);
      }
    }
  }

  // ---- interfaces and unions, which the walk passes over ----

  /** The object types behind each interface or union. */
  type Abstracts = map<string, seq<string>>

  /** A field of `a` that leads to `b`, perhaps through an inline fragment on an abstract type. */
  ghost predicate QueryEdge(schema: Schema, abstracts: Abstracts, a: string, b: string) {
    Edge(schema, a, b)
    || (a in schema && b in schema && exists t :: t in schema[a] && t in abstracts && b in abstracts[t])
  }

  ghost predicate IsQueryWalk(schema: Schema, abstracts: Abstracts, root: string, w: Path) {
    && w != [] && w[0] == root && root in schema
    && forall i :: 0 <= i < |w| - 1 ==> QueryEdge(schema, abstracts, w[i], w[i + 1])
  }

  /** No object type that the walk reaches has a field of an abstract type. */
  ghost predicate NoAbstractFields(schema: Schema, abstracts: Abstracts, root: string) {
    forall w, t ::
      IsWalk(schema, root, w) && w[|w| - 1] in schema && t in schema[w[|w| - 1]] ==> t !in abstracts
  }

  lemma {:induction false} QueryWalkIsWalk(schema: Schema, abstracts: Abstracts, root: string, w: Path)
    requires NoAbstractFields(schema, abstracts, root) && IsQueryWalk(schema, abstracts, root, w)
    ensures IsWalk(schema, root, w)
    decreases |w|
  {
    if |w| > 1 {
      var init := w[..|w| - 1];
      assert forall i :: 0 <= i < |init| - 1 ==> QueryEdge(schema, abstracts, init[i], init[i + 1]);
      QueryWalkIsWalk(schema, abstracts, root, init);
      var k := |w| - 2;
      assert QueryEdge(schema, abstracts, w[k], w[k + 1]) && init[|init| - 1] == w[k];
      assert Edge(schema, w[k], w[k + 1]);
      forall i | 0 <= i < |w| - 1 ensures Edge(schema, w[i], w[i + 1]) {
        assert i < k ==> Edge(schema, init[i], init[i + 1]);
      }
    }
  }

  /**
   With no cycle reported and no abstract field in reach, every query is at most as deep as there
   are object types.
   */
  lemma QueriesAreBounded(schema: Schema, abstracts: Abstracts, root: string, w: Path)
    requires root in schema && NoAbstractFields(schema, abstracts, root)
    requires Reported(schema, [root], schema[root]) == [] && IsQueryWalk(schema, abstracts, root, w)
    ensures |w| <= |schema.Keys|
  {
    EmptyIffAcyclic(schema, root);
    QueryWalkIsWalk(schema, abstracts, root, w);
    AcyclicWalkIsDistinct(schema, root, w);
  }

  /** The types a selection can reach from `targets`: those, and the object types behind the abstract ones. */
  function Reach(abstracts: Abstracts, targets: seq<string>): (r: seq<string>)
    ensures forall t :: t in r <==> t in targets || exists a :: a in targets && a in abstracts && t in abstracts[a]
  {
    if targets == [] then []
    else
      [targets[0]] + (if targets[0] in abstracts then abstracts[targets[0]] else [])
      + Reach(abstracts, targets[1..])
  }

  /** The schema with the object types behind it beside every field of an abstract type. */
  function SeenThrough(schema: Schema, abstracts: Abstracts): (s: Schema)
    ensures s.Keys == schema.Keys
    ensures forall a, b :: Edge(s, a, b) <==> QueryEdge(schema, abstracts, a, b)
  {
    map a | a in schema :: Reach(abstracts, schema[a])
  }

  ghost predicate QueriesBoundedBy(schema: Schema, abstracts: Abstracts, root: string, bound: nat) {
    forall w :: IsQueryWalk(schema, abstracts, root, w) ==> |w| <= bound
  }

  /** Queries have bounded depth exactly when the same walk, seeing through abstract types, would report nothing. */
  lemma QueriesBoundedExactly(schema: Schema, abstracts: Abstracts, root: string)
    requires root in schema
    ensures var s := SeenThrough(schema, abstracts);
            (exists bound: nat :: QueriesBoundedBy(schema, abstracts, root, bound))
            <==> Reported(s, [root], s[root]) == []
  {
    var s := SeenThrough(schema, abstracts);
    BoundedExactly(s, root);
    forall bound: nat ensures QueriesBoundedBy(schema, abstracts, root, bound) <==> BoundedBy(s, root, bound) {
      assert forall w :: IsQueryWalk(schema, abstracts, root, w) <==> IsWalk(s, root, w);
    }
  }

  const LOOP_SCHEMA: Schema := map["Query" := ["Node"]]

  const LOOP_ABSTRACTS: Abstracts := map["Node" := ["Query"]]

  /** A cycle through an interface is not reported, and queries along it go as deep as one likes. */
  lemma {:induction false} InterfaceCycleIsMissed(n: nat) returns (w: Path)
    ensures Reported(LOOP_SCHEMA, ["Query"], LOOP_SCHEMA["Query"]) == []
    ensures IsQueryWalk(LOOP_SCHEMA, LOOP_ABSTRACTS, "Query", w) && |w| == n + 1
    ensures forall i :: 0 <= i < |w| ==> w[i] == "Query"
  {
    w := seq(n + 1, _ => "Query");
    assert LOOP_SCHEMA["Query"] == ["Node"] && "Node" in LOOP_ABSTRACTS && "Query" in LOOP_ABSTRACTS["Node"];
    assert QueryEdge(LOOP_SCHEMA, LOOP_ABSTRACTS, "Query", "Query");
    assert ["Node"][1..] == [];
  }
}
