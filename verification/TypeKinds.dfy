/**
 * `collectKinds` and `classifyType` of apps/webapp/scripts/runOpsLegacyGuard.ts: a depth-first
 * walk over TypeScript's type graph, which unions and intersections can make cyclic.
 */
module TypeKinds {
  import opened Wrappers

  type Id = nat

  datatype Kind = Cp | RunOps

  /** A union or intersection of types, or a type with declarations, each in a client package or not. */
  datatype Node = Composite(types: seq<Id>) | Plain(declarations: seq<Option<Kind>>)

  type Graph = map<Id, Node>

  predicate Closed(g: Graph) {
    forall a | a in g && g[a].Composite? :: forall b | b in g[a].types :: b in g
  }

  predicate Edge(g: Graph, a: Id, b: Id) { a in g && g[a].Composite? && b in g[a].types }

  ghost predicate Path(g: Graph, p: seq<Id>) {
    p != [] && forall i | 0 <= i < |p| - 1 :: Edge(g, p[i], p[i + 1])
  }

  /** Some path through the composites leads from `a` to `b`. */
  ghost predicate Reachable(g: Graph, a: Id, b: Id) {
    exists p :: Path(g, p) && p[0] == a && p[|p| - 1] == b
  }

  predicate Declares(g: Graph, a: Id, k: Kind) { a in g && g[a].Plain? && Some(k) in g[a].declarations }

  /** Some type reachable from `a` is declared in the package of `k`. */
  ghost predicate Exposes(g: Graph, a: Id, k: Kind) {
    exists b :: Reachable(g, a, b) && Declares(g, b, k)
  }

  ghost predicate AnyDeclares(g: Graph, s: set<Id>, k: Kind) { exists b | b in s :: Declares(g, b, k) }

  /** Everything one step from a member of `s` is in `t`. */
  ghost predicate Explored(g: Graph, s: set<Id>, t: set<Id>) {
    forall a, b | a in s && Edge(g, a, b) :: b in t
  }

  lemma ReachSelf(g: Graph, a: Id)
    ensures Reachable(g, a, a)
  {
    assert Path(g, [a]);
  }

  lemma ReachThrough(g: Graph, a: Id, b: Id, c: Id)
    requires Edge(g, a, b) && Reachable(g, b, c)
    ensures Reachable(g, a, c)
  {
    var p :| Path(g, p) && p[0] == b && p[|p| - 1] == c;
    var q := [a] + p;
    forall i | 0 <= i < |q| - 1 ensures Edge(g, q[i], q[i + 1]) {
      assert i > 0 ==> q[i] == p[i - 1];
      assert q[i + 1] == p[i];
    }
    assert Path(g, q);
  }

  /** No path leaves a set that holds the successors of its members. */
  lemma {:induction false} PathStays(g: Graph, s: set<Id>, p: seq<Id>)
    requires Explored(g, s, s) && Path(g, p) && p[0] in s
    ensures p[|p| - 1] in s
  {
    if |p| > 1 {
      assert Edge(g, p[0], p[1]);
      PathStays(g, s, p[1..]);
    }
  }

  /** A visited set that started at `a`, is closed, and went nowhere else is what `a` reaches. */
  lemma VisitedIsReachable(g: Graph, s: set<Id>, a: Id, k: Kind)
    requires a in s && Explored(g, s, s) && forall b | b in s :: Reachable(g, a, b)
    ensures AnyDeclares(g, s, k) <==> Exposes(g, a, k)
  {
    forall b | Reachable(g, a, b) ensures b in s {
      var p :| Path(g, p) && p[0] == a && p[|p| - 1] == b;
      PathStays(g, s, p);
    }
  }

  /** One walk: the graph, and the visited set every recursive call shares. */
  class KindCollector {
    const graph: Graph
    var seen: set<Id>

    constructor (g: Graph)
      ensures graph == g && seen == {}
    {
      graph := g;
      seen := {};
    }

    /** Adds to `seen` what `t` reaches outside it, and returns the kinds declared by just that. */
    method CollectKinds(t: Id) returns (out: set<Kind>)
      requires Closed(graph) && t in graph && seen <= graph.Keys
      modifies this`seen
      ensures old(seen) + {t} <= seen <= graph.Keys
      ensures forall b | b in seen - old(seen) :: Reachable(graph, t, b)
      ensures Explored(graph, seen - old(seen), seen)
      ensures forall k :: k in out <==> AnyDeclares(graph, seen - old(seen), k)
      decreases graph.Keys - seen
    {
      out := {};
      if t in seen {
        return;
      }
      ghost var before := seen;
      seen := seen + {t};
      ReachSelf(graph, t);
      match graph[t] {
        case Composite(types) =>
          var i := 0;
          while i < |types|
            invariant 0 <= i <= |types|
            invariant before + {t} <= seen <= graph.Keys
            invariant forall b | b in types[..i] :: b in seen
            invariant forall b | b in seen - before :: Reachable(graph, t, b)
            invariant Explored(graph, seen - before - {t}, seen)
            invariant forall k :: k in out <==> AnyDeclares(graph, seen - before, k)
          {
            var sub := types[i];
            ghost var mid := seen;
            assert Edge(graph, t, sub);
            var kinds := CollectKinds(sub);
            forall b | b in seen - mid ensures Reachable(graph, t, b) {
              ReachThrough(graph, t, sub, b);
            }
            assert seen - before == (seen - mid) + (mid - before);
            out := out + kinds;
            i := i + 1;
          }
        case Plain(declarations) =>
          assert seen - before == {t};
          var i := 0;
          while i < |declarations|
            invariant 0 <= i <= |declarations|
            invariant forall k :: k in out <==> Some(k) in declarations[..i]
          {
            if declarations[i].Some? {
              out := out + {declarations[i].value};
            }
            i := i + 1;
          }
          assert declarations[..i] == declarations;
      }
    }
  }

  datatype Client = CpClient | RunOpsClient | OtherClient

  /** Control-plane as soon as one reachable leg is, whatever the cycles in between. */
  method ClassifyType(g: Graph, t: Id) returns (client: Client)
    requires Closed(g) && t in g
    ensures client == CpClient <==> Exposes(g, t, Cp)
    ensures client == RunOpsClient <==> !Exposes(g, t, Cp) && Exposes(g, t, RunOps)
  {
    var collector := new KindCollector(g);
    var kinds := collector.CollectKinds(t);
    assert collector.seen - {} == collector.seen;
    VisitedIsReachable(g, collector.seen, t, Cp);
    VisitedIsReachable(g, collector.seen, t, RunOps);
    client := if Cp in kinds then CpClient else if RunOps in kinds then RunOpsClient else OtherClient;
  }

  /** What a union shows is what its members show. */
  lemma UnionExposesItsMembers(g: Graph, t: Id, k: Kind)
    requires t in g && g[t].Composite?
    ensures Exposes(g, t, k) <==> exists b | b in g[t].types :: Exposes(g, b, k)
  {
    if Exposes(g, t, k) {
      var c :| Reachable(g, t, c) && Declares(g, c, k);
      var p :| Path(g, p) && p[0] == t && p[|p| - 1] == c;
      var b := p[1];
      assert Edge(g, p[0], b);
      assert Path(g, p[1..]) by {
        forall i | 0 <= i < |p[1..]| - 1 ensures Edge(g, p[1..][i], p[1..][i + 1]) { assert Edge(g, p[i + 1], p[i + 2]); }
      }
      assert Reachable(g, b, c);
      assert Exposes(g, b, k);
    }
    if b :| b in g[t].types && Exposes(g, b, k) {
      var c :| Reachable(g, b, c) && Declares(g, c, k);
      ReachThrough(g, t, b, c);
    }
  }
}
