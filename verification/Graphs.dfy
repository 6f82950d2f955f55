/** Finite directed graphs given as node to parents: cycles, the depth-first walk that looks
    for one, and what the absence of cycles gives. */
module Graphs {
  import opened Common

  type Edges = map<string, set<string>>

  ghost predicate Closed(e: Edges) {
    forall n | n in e :: e[n] <= e.Keys
  }

  ghost predicate IsPath(e: Edges, p: seq<string>) {
    && p != []
    && (forall i | 0 <= i < |p| :: p[i] in e)
    && forall i | 1 <= i < |p| :: p[i] in e[p[i - 1]]
  }

  ghost predicate IsCycle(e: Edges, p: seq<string>) {
    |p| >= 2 && IsPath(e, p) && p[0] == p[|p| - 1]
  }

  ghost predicate Acyclic(e: Edges) {
    forall p :: !IsCycle(e, p)
  }

  /** Every node comes after all its parents. */
  ghost predicate Sorted(e: Edges, done: seq<string>) {
    forall i | 0 <= i < |done| :: done[i] in e && e[done[i]] <= Members(done[..i])
  }

  lemma {:induction false} PathInsideSortedPrefix(e: Edges, done: seq<string>, p: seq<string>, i: nat)
    requires Sorted(e, done) && IsPath(e, p)
    requires i < |done| && done[i] == p[0] && |p| >= 2
    ensures p[|p| - 1] in Members(done[..i])
    decreases |p|
  {
    assert p[1] in done[..i];
    var j :| 0 <= j < i && done[j] == p[1];
    var rest := p[1..];
    assert rest[|rest| - 1] == p[|p| - 1];
    if |rest| >= 2 {
      assert forall k | 1 <= k < |rest| :: rest[k] == p[k + 1] && rest[k - 1] == p[k];
      PathInsideSortedPrefix(e, done, rest, j);
      assert Members(done[..j]) <= Members(done[..i]);
    }
  }

  /** An order in which parents come first rules cycles out. */
  lemma {:induction false} SortedIsAcyclic(e: Edges, done: seq<string>)
    requires Sorted(e, done) && Members(done) == e.Keys
    ensures Acyclic(e)
  {
    forall p ensures !IsCycle(e, p) {
      if IsCycle(e, p) {
        NoCycleThrough(e, done, p, |done|);
      }
    }
  }

  lemma {:induction false} NoCycleThrough(e: Edges, done: seq<string>, p: seq<string>, n: nat)
    requires Sorted(e, done) && IsCycle(e, p)
    requires n <= |done| && p[0] in done[..n]
    ensures false
    decreases n
  {
    var i :| 0 <= i < n && done[i] == p[0];
    PathInsideSortedPrefix(e, done, p, i);
    NoCycleThrough(e, done, p, i);
  }

  /* ------------------------------------------------------- depth-first walk */

  class CycleWalk {
    const edges: Edges
    var visiting: set<string>
    var visited: set<string>
    ghost var stack: seq<string>
    ghost var done: seq<string>

    ghost predicate Valid()
      reads this
    {
      && visiting == Members(stack) && visited == Members(done)
      && visiting !! visited
      && visiting <= edges.Keys
      && (stack != [] ==> IsPath(edges, stack))
      && Sorted(edges, done)
    }

    constructor (edges: Edges)
      ensures this.edges == edges && visiting == {} && visited == {} && stack == [] && Valid()
    {
      this.edges := edges;
      visiting, visited := {}, {};
      stack, done := [], [];
    }

    /** Visit a node and, before it is finished, all its parents.  False when the walk came back
        to a node it is still visiting. */
    method Visit(node: string) returns (ok: bool)
      requires Closed(edges) && Valid() && node in edges
      requires stack != [] ==> node in edges[stack[|stack| - 1]]
      modifies this
      ensures ok ==> Valid() && stack == old(stack) && old(visited) <= visited && node in visited
      ensures !ok ==> !Acyclic(edges)
      decreases edges.Keys - visiting
    {
      if node in visiting {
        ghost var i :| 0 <= i < |stack| && stack[i] == node;
        ghost var cycle := stack[i..] + [node];
        assert IsCycle(edges, cycle);
        return false;
      }
      if node in visited {
        return true;
      }
      visiting := visiting + {node};
      stack := stack + [node];
      var pending := edges[node];
      while pending != {}
        invariant pending <= edges[node]
        invariant Valid() && stack == old(stack) + [node] && old(visited) <= visited
        invariant edges[node] - pending <= visited
        decreases pending
      {
        var parent :| parent in pending;
        assert stack[|stack| - 1] == node;
        var fine := Visit(parent);
        if !fine {
          return false;
        }
        pending := pending - {parent};
      }
      Unstack(old(stack), node);
      visiting := visiting - {node};
      visited := visited + {node};
      stack := old(stack);
      done := done + [node];
      return true;
    }

    lemma Unstack(below: seq<string>, node: string)
      requires Valid() && stack == below + [node] && node !in below && edges[node] <= visited
      ensures Members(below) == visiting - {node}
      ensures Members(done + [node]) == visited + {node}
      ensures below != [] ==> IsPath(edges, below)
      ensures Sorted(edges, done + [node])
    {
      assert forall i | 0 <= i < |below| :: stack[i] == below[i];
      assert node in stack;
      forall i | 0 <= i < |done + [node]|
        ensures (done + [node])[i] in edges && edges[(done + [node])[i]] <= Members((done + [node])[..i])
      {
        assert (done + [node])[..i] == done[..i];
      }
    }
  }

  /** The walk over all nodes reports a cycle exactly when there is one. */
  method HasCycle(edges: Edges) returns (cyclic: bool)
    requires Closed(edges)
    ensures cyclic <==> !Acyclic(edges)
  {
    var walk := new CycleWalk(edges);
    var pending := edges.Keys;
    while pending != {}
      invariant walk.edges == edges && fresh(walk)
      invariant walk.Valid() && walk.stack == []
      invariant pending <= edges.Keys && edges.Keys - pending <= walk.visited
    {
      var node :| node in pending;
      var fine := walk.Visit(node);
      if !fine {
        return true;
      }
      pending := pending - {node};
    }
    SortedIsAcyclic(edges, walk.done);
    return false;
  }

  /* ---------------------------------------------------------- minimal nodes */

  lemma {:induction false} Pigeonhole(p: seq<string>, s: set<string>)
    requires Members(p) <= s && |p| > |s|
    ensures exists i, j | 0 <= i < j < |p| :: p[i] == p[j]
    decreases |p|
  {
    var last := |p| - 1;
    var x := p[last];
    assert x in s;
    if x in p[..last] {
      var i :| 0 <= i < last && p[i] == x;
    } else {
      assert Members(p[..last]) <= s - {x};
      Pigeonhole(p[..last], s - {x});
      var i, j :| 0 <= i < j < last && p[..last][i] == p[..last][j];
      assert p[i] == p[j];
    }
  }

  ghost predicate HasParentIn(e: Edges, s: set<string>, n: string)
    requires n in e
  {
    e[n] * s != {}
  }

  lemma {:induction false} WalkInside(e: Edges, s: set<string>, start: string, k: nat) returns (p: seq<string>)
    requires s <= e.Keys && start in s
    requires forall n | n in s :: HasParentIn(e, s, n)
    ensures IsPath(e, p) && |p| == k + 1 && Members(p) <= s
  {
    if k == 0 {
      p := [start];
    } else {
      var shorter := WalkInside(e, s, start, k - 1);
      var last := shorter[|shorter| - 1];
      assert last in s && HasParentIn(e, s, last);
      var next :| next in e[last] * s;
      p := shorter + [next];
    }
  }

  /** In an acyclic graph every non-empty set of nodes has one with no parent in the set. */
  lemma MinimalNode(e: Edges, s: set<string>) returns (n: string)
    requires Acyclic(e) && s <= e.Keys && s != {}
    ensures n in s && e[n] !! s
  {
    if forall m | m in s :: HasParentIn(e, s, m) {
      var start :| start in s;
      var p := WalkInside(e, s, start, |s|);
      Pigeonhole(p, s);
      var i, j :| 0 <= i < j < |p| && p[i] == p[j];
      assert IsCycle(e, p[i..j + 1]);
      assert false;
    }
    n :| n in s && !HasParentIn(e, s, n);
    EmptyMeetIsDisjoint(e[n], s);
  }
}
