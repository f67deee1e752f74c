/** The transition graph of a workflow and the set of states a traversal
    from one state visits. The traversal is a worklist over the finite set
    of state names; it terminates because every step either marks a new
    name visited or shrinks the worklist. */
module Reachability {
  import opened Models

  /** Some transition leads from `x` to `y`. */
  ghost predicate Edge(ts: seq<Transition>, x: string, y: string) {
    exists i :: 0 <= i < |ts| && ts[i].fromState == x && ts[i].toState == y
  }

  ghost predicate IsPath(ts: seq<Transition>, p: seq<string>) {
    forall i :: 0 <= i < |p| - 1 ==> Edge(ts, p[i], p[i + 1])
  }

  /** `b` can be reached from `a` by following zero or more transitions. */
  ghost predicate Reachable(ts: seq<Transition>, a: string, b: string) {
    exists p :: |p| > 0 && p[0] == a && p[|p| - 1] == b && IsPath(ts, p)
  }

  /** No transition leaves the set `s`. */
  ghost predicate Closed(ts: seq<Transition>, s: set<string>) {
    forall x, y :: x in s && Edge(ts, x, y) ==> y in s
  }

  /** The targets of the transitions leaving `x`, in transition order: the
      adjacency entry of `x`. */
  function Successors(ts: seq<Transition>, x: string): (r: seq<string>)
    ensures forall y :: y in r <==> Edge(ts, x, y)
  {
    if |ts| == 0 then []
    else
      var rest := Successors(ts[1..], x);
      assert forall y :: Edge(ts[1..], x, y) ==> Edge(ts, x, y) by {
        forall y | Edge(ts[1..], x, y) ensures Edge(ts, x, y) {
          var i :| 0 <= i < |ts[1..]| && ts[1..][i].fromState == x && ts[1..][i].toState == y;
          assert ts[i + 1] == ts[1..][i];
        }
      }
      assert forall y :: Edge(ts, x, y) ==> Edge(ts[1..], x, y) || (ts[0].fromState == x && ts[0].toState == y) by {
        forall y | Edge(ts, x, y) && !(ts[0].fromState == x && ts[0].toState == y) ensures Edge(ts[1..], x, y) {
          var i :| 0 <= i < |ts| && ts[i].fromState == x && ts[i].toState == y;
          assert i > 0 && ts[1..][i - 1] == ts[i];
        }
      }
      (if ts[0].fromState == x then [ts[0].toState] else []) + rest
  }

  /** Every transition target is one of `nodes`. */
  predicate TargetsIn(ts: seq<Transition>, nodes: set<string>) {
    forall i :: 0 <= i < |ts| ==> ts[i].toState in nodes
  }

  /** The names visited by a depth-first traversal that has already
      visited `visited` and still has `stack` to explore. Every name on the
      stack ends up visited, and no transition leaves the result. */
  function Explore(ts: seq<Transition>, nodes: set<string>, visited: set<string>, stack: seq<string>): (r: set<string>)
    requires TargetsIn(ts, nodes) && visited <= nodes
    requires forall y :: y in stack ==> y in nodes
    requires forall x, y :: x in visited && Edge(ts, x, y) ==> y in visited || y in stack
    ensures visited <= r <= nodes
    ensures forall y :: y in stack ==> y in r
    ensures Closed(ts, r)
    decreases |nodes - visited|, |stack|
  {
    if |stack| == 0 then visited
    else
      var top := stack[|stack| - 1];
      var rest := stack[..|stack| - 1];
      assert stack == rest + [top];
      if top in visited then
        Explore(ts, nodes, visited, rest)
      else
        var next := rest + Successors(ts, top);
        assert |nodes - (visited + {top})| < |nodes - visited| by {
          assert nodes - (visited + {top}) < nodes - visited;
        }
        assert forall y :: y in Successors(ts, top) ==> y in nodes;
        PushKeepsFrontier(ts, visited, stack, top);
        Explore(ts, nodes, visited + {top}, next)
  }

  /** Visiting the top of the stack and pushing its successors keeps every
      edge out of a visited name pointing at a visited or stacked name. */
  lemma PushKeepsFrontier(ts: seq<Transition>, visited: set<string>, stack: seq<string>, top: string)
    requires |stack| > 0 && top == stack[|stack| - 1]
    requires forall x, y :: x in visited && Edge(ts, x, y) ==> y in visited || y in stack
    ensures forall x, y :: x in visited + {top} && Edge(ts, x, y) ==>
              y in visited + {top} || y in stack[..|stack| - 1] + Successors(ts, top)
  {
    var rest := stack[..|stack| - 1];
    assert stack == rest + [top];
    forall x, y | x in visited + {top} && Edge(ts, x, y)
      ensures y in visited + {top} || y in rest + Successors(ts, top)
    {
      if x == top {
        assert y in Successors(ts, top);
      } else {
        assert y in visited || y in stack;
      }
    }
  }

  /** Everything `Explore` adds lies in any closed set containing what was
      already visited and still stacked. */
  lemma {:induction false} ExploreWithin(ts: seq<Transition>, nodes: set<string>, visited: set<string>, stack: seq<string>, bound: set<string>)
    requires TargetsIn(ts, nodes) && visited <= nodes
    requires forall y :: y in stack ==> y in nodes
    requires forall x, y :: x in visited && Edge(ts, x, y) ==> y in visited || y in stack
    requires visited <= bound && Closed(ts, bound)
    requires forall y :: y in stack ==> y in bound
    ensures Explore(ts, nodes, visited, stack) <= bound
    decreases |nodes - visited|, |stack|
  {
    if |stack| > 0 {
      var top := stack[|stack| - 1];
      var rest := stack[..|stack| - 1];
      assert stack == rest + [top];
      if top in visited {
        ExploreWithin(ts, nodes, visited, rest, bound);
      } else {
        var next := rest + Successors(ts, top);
        assert |nodes - (visited + {top})| < |nodes - visited| by {
          assert nodes - (visited + {top}) < nodes - visited;
        }
        assert forall y :: y in Successors(ts, top) ==> y in nodes && y in bound;
        PushKeepsFrontier(ts, visited, stack, top);
        ExploreWithin(ts, nodes, visited + {top}, next, bound);
      }
    }
  }

  /** The names visited by a traversal started at `start`. */
  function VisitedFrom(ts: seq<Transition>, nodes: set<string>, start: string): (r: set<string>)
    requires TargetsIn(ts, nodes) && start in nodes
  {
    Explore(ts, nodes, {}, [start])
  }

  /** Any closed set containing `a` contains everything reachable from `a`. */
  lemma {:induction false} ClosedContainsReachable(ts: seq<Transition>, s: set<string>, a: string, p: seq<string>)
    requires Closed(ts, s) && a in s
    requires |p| > 0 && p[0] == a && IsPath(ts, p)
    ensures p[|p| - 1] in s
    decreases |p|
  {
    if |p| > 1 {
      var q := p[..|p| - 1];
      assert IsPath(ts, q) by {
        forall i | 0 <= i < |q| - 1 ensures Edge(ts, q[i], q[i + 1]) {
          assert q[i] == p[i] && q[i + 1] == p[i + 1];
        }
      }
      ClosedContainsReachable(ts, s, a, q);
      assert Edge(ts, p[|p| - 2], p[|p| - 1]);
    }
  }

  /** The traversal visits exactly the names reachable from its start. */
  lemma VisitedIsReachable(ts: seq<Transition>, nodes: set<string>, start: string)
    requires TargetsIn(ts, nodes) && start in nodes
    ensures forall y :: y in VisitedFrom(ts, nodes, start) <==> Reachable(ts, start, y)
  {
    var r := VisitedFrom(ts, nodes, start);
    forall y | Reachable(ts, start, y) ensures y in r {
      var p :| |p| > 0 && p[0] == start && p[|p| - 1] == y && IsPath(ts, p);
      ClosedContainsReachable(ts, r, start, p);
    }
    var bound := set y | y in nodes && Reachable(ts, start, y);
    assert [start][0] == start && IsPath(ts, [start]);
    assert start in bound;
    assert Closed(ts, bound) by {
      forall x, y | x in bound && Edge(ts, x, y) ensures y in bound {
        var p :| |p| > 0 && p[0] == start && p[|p| - 1] == x && IsPath(ts, p);
        var p' := p + [y];
        assert IsPath(ts, p') by {
          forall i | 0 <= i < |p'| - 1 ensures Edge(ts, p'[i], p'[i + 1]) {
            if i < |p| - 1 {
              assert p'[i] == p[i] && p'[i + 1] == p[i + 1];
            }
          }
        }
        var i :| 0 <= i < |ts| && ts[i].fromState == x && ts[i].toState == y;
        assert y in nodes;
        assert p'[0] == start && p'[|p'| - 1] == y;
      }
    }
    ExploreWithin(ts, nodes, {}, [start], bound);
  }
}
