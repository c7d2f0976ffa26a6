/** The dependency loop check of tools/kconfiglib.py on a configuration without choices: a depth-first
    search that reports a loop on the way back through the call stack. */
module DepLoop {
  import opened Basics

  type Id = nat

  /** _dependents of every defined symbol: what depends on it */
  type Graph = map<Id, set<Id>>

  ghost predicate Closed(g: Graph) {
    forall x, y :: x in g && y in g[x] ==> y in g
  }

  /** y depends on x. */
  predicate Edge(g: Graph, x: Id, y: Id) {
    x in g && y in g[x]
  }

  /** Each item depends on the one after it. */
  ghost predicate Backwards(g: Graph, loop: seq<Id>) {
    forall i :: 0 <= i < |loop| - 1 ==> StepBack(g, loop, i)
  }

  ghost predicate StepBack(g: Graph, loop: seq<Id>, i: nat)
    requires i + 1 < |loop|
  {
    Edge(g, loop[i + 1], loop[i])
  }

  /** A dependency loop: different items, each depending on the next, the last on the first. */
  ghost predicate IsLoop(g: Graph, loop: seq<Id>) {
    loop != [] && Distinct(loop) && Backwards(g, loop) && Edge(g, loop[0], loop[|loop| - 1])
  }

  /** A closed walk, repetitions allowed. */
  ghost predicate IsCycle(g: Graph, walk: seq<Id>) {
    walk != [] && Backwards(g, walk) && Edge(g, walk[0], walk[|walk| - 1])
  }

  ghost predicate HasCycle(g: Graph) {
    exists walk :: IsCycle(g, walk)
  }

  // ---------------------------------------------------------------- finished symbols

  /** Everything that depends on symbol i of the list comes before it. */
  ghost predicate Finished(g: Graph, done: seq<Id>, i: nat)
    requires i < |done|
  {
    done[i] in g && forall y :: y in g[done[i]] ==> y in done[..i]
  }

  /** The symbols that are done, in the order they were finished in: no loop passes through them. */
  ghost predicate DoneOk(g: Graph, done: seq<Id>) {
    forall i :: 0 <= i < |done| ==> Finished(g, done, i)
  }

  lemma DoneMore(g: Graph, done: seq<Id>, x: Id)
    requires DoneOk(g, done) && x in g && forall y :: y in g[x] ==> y in done
    ensures DoneOk(g, done + [x])
  {
    forall i | 0 <= i < |done| + 1 ensures Finished(g, done + [x], i) {
      assert (done + [x])[..i] == done[..i];
      if i < |done| {
        assert Finished(g, done, i);
      }
    }
  }

  lemma Position(done: seq<Id>, x: Id) returns (i: nat)
    requires x in done
    ensures i < |done| && done[i] == x && x !in done[..i]
  {
    if done[0] == x {
      i := 0;
    } else {
      assert done == [done[0]] + done[1..];
      var j := Position(done[1..], x);
      i := j + 1;
      assert done[..i] == [done[0]] + done[1..][..j];
    }
  }

  /** Walking to what depends on a finished symbol leads to symbols that finished earlier. */
  lemma {:induction false} WalkDescends(g: Graph, done: seq<Id>, walk: seq<Id>, i: nat, k: nat)
    requires DoneOk(g, done) && Backwards(g, walk) && i < |walk| && k <= |done| && walk[|walk| - 1] in done[..k]
    ensures walk[i] in done[..k] && (i < |walk| - 1 ==> k > 0 && walk[i] in done[..k - 1])
    decreases |walk| - i
  {
    if i < |walk| - 1 {
      WalkDescends(g, done, walk, i + 1, k);
      assert StepBack(g, walk, i);
      var j := Position(done[..k], walk[i + 1]);
      assert Finished(g, done, j) && done[j] == walk[i + 1];
      assert walk[i] in done[..j];
      assert done[..j] <= done[..k - 1];
    }
  }

  /** When every symbol is done the graph has no cycle. */
  lemma {:induction false} AllDoneNoCycle(g: Graph, done: seq<Id>, walk: seq<Id>)
    requires DoneOk(g, done) && forall x :: x in g ==> x in done
    ensures !IsCycle(g, walk)
  {
    if walk != [] && walk[|walk| - 1] in done {
      var last := walk[|walk| - 1];
      var k := Position(done, last);
      assert Finished(g, done, k);
      if Backwards(g, walk) {
        assert last in done[..k + 1];
        WalkDescends(g, done, walk, 0, k + 1);
        FirstBeforeLast(g, done, walk, k);
      }
    } else if walk != [] && walk[0] in done {
      var j := Position(done, walk[0]);
      assert Finished(g, done, j);
    }
  }

  /** The first symbol of a walk finished no later than the last one, so the last does not depend on it. */
  lemma FirstBeforeLast(g: Graph, done: seq<Id>, walk: seq<Id>, k: nat)
    requires DoneOk(g, done) && walk != [] && k < |done| && walk[|walk| - 1] !in done[..k]
    requires walk[0] in done[..k + 1]
    ensures !Edge(g, walk[0], walk[|walk| - 1])
  {
    var j := Position(done[..k + 1], walk[0]);
    assert Finished(g, done, j) && done[j] == walk[0];
    assert done[..j] <= done[..k];
  }

  // ---------------------------------------------------------------- the search

  /** What a call returns: nothing, the loop so far on the way back to where it closes, or the error
      raised there. */
  datatype Outcome = Clear | OnTheWay(loop: seq<Id>) | Raised(loop: seq<Id>)

  class LoopCheck {
    const g: Graph
    /** _visited: absent is 0 */
    var visited: map<Id, int>
    /** The symbols on the call stack, those finished, and those expanded, in order. */
    ghost var path: seq<Id>
    ghost var done: seq<Id>
    ghost var expanded: seq<Id>

    ghost predicate Valid()
      reads this
    {
      && Closed(g) && DoneOk(g, done) && Distinct(path) && Distinct(expanded)
      && (forall x :: x in visited <==> x in path || x in done)
      && (forall x :: x in path ==> x in g && visited[x] == 1 && x !in done)
      && (forall x :: x in done ==> x in g && visited[x] == 2)
      && (forall x :: x in expanded <==> x in visited)
    }

    constructor (graph: Graph)
      requires Closed(graph)
      ensures Valid() && g == graph && path == [] && done == [] && expanded == []
    {
      g := graph;
      visited := map[];
      path, done, expanded := [], [], [];
    }

    /** What the outcome of checking sym says, sym being reached from the top of the stack. */
    ghost predicate Outcomes(out: Outcome, sym: Id)
      reads this`path, this`done
    {
      match out
      case Clear => sym in done
      case OnTheWay(loop) =>
        && loop != [] && Distinct(loop) && Backwards(g, loop) && loop[|loop| - 1] == sym
        && loop[0] in path && forall i :: 1 <= i < |loop| ==> loop[i] !in path
      case Raised(loop) => IsLoop(g, loop)
    }

    /** _check_dep_loop_sym */
    method CheckSym(sym: Id) returns (out: Outcome)
      requires Valid() && sym in g
      modifies this
      ensures out.Clear? ==> Valid()
      ensures path == old(path) && Outcomes(out, sym)
      ensures Distinct(expanded) && old(expanded) <= expanded
      ensures out.Clear? ==> old(done) <= done
      decreases g.Keys - visited.Keys
    {
      hide Distinct, IsLoop, Backwards, DoneOk;
      if sym !in visited {
        Enter(sym);
        var todo := g[sym];
        while todo != {}
          invariant Valid() && path == old(path) + [sym] && todo <= g[sym]
          invariant old(expanded) <= expanded && old(done) <= done && old(visited).Keys + {sym} <= visited.Keys
          invariant forall y :: y in g[sym] && y !in todo ==> y in done
        {
          var dep :| dep in todo;
          var inner := CheckSym(dep);
          if !inner.Clear? {
            out := FoundLoop(inner, sym, dep, old(path));
            path := old(path);
            return;
          }
          todo := todo - {dep};
        }
        Leave(sym, old(path));
        return Clear;
      }
      if visited[sym] == 2 {
        return Clear;
      }
      SingleLoop(sym);
      out := OnTheWay([sym]);
    }

    /** The symbol is marked as being on the stack. */
    method Enter(sym: Id)
      requires Valid() && sym in g && sym !in visited
      modifies this
      ensures Valid() && path == old(path) + [sym] && done == old(done) && expanded == old(expanded) + [sym]
      ensures visited == old(visited)[sym := 1]
    {
      visited := visited[sym := 1];
      AppendDistinct(path, sym);
      AppendDistinct(expanded, sym);
      path := path + [sym];
      expanded := expanded + [sym];
    }

    /** The symbol is marked as no part of a loop. */
    method Leave(sym: Id, ghost below: seq<Id>)
      requires Valid() && path == below + [sym] && forall y :: y in g[sym] ==> y in done
      modifies this`visited, this`path, this`done
      ensures Valid() && path == below && done == old(done) + [sym]
    {
      assert sym in path;
      DoneMore(g, done, sym);
      DistinctTop(below, sym);
      visited := visited[sym := 2];
      path := below;
      done := done + [sym];
    }

    static lemma DistinctTop(below: seq<Id>, sym: Id)
      requires Distinct(below + [sym])
      ensures Distinct(below) && sym !in below
    {
      var s := below + [sym];
      forall i, j | 0 <= i < j < |below| ensures below[i] != below[j] {
        assert s[i] != s[j];
      }
      forall i | 0 <= i < |below| ensures below[i] != sym {
        assert s[i] != s[|below|];
      }
    }

    lemma SingleLoop(sym: Id)
      ensures Distinct([sym]) && Backwards(g, [sym])
    {
    }

    /** _found_dep_loop: one more item on the way back, or the whole loop. */
    method FoundLoop(inner: Outcome, cur: Id, ghost dep: Id, ghost below: seq<Id>) returns (out: Outcome)
      requires !inner.Clear? && Outcomes(inner, dep) && path == below + [cur] && Distinct(path) && Edge(g, cur, dep)
      ensures match out
              case Clear => false
              case OnTheWay(loop) =>
                && loop != [] && Distinct(loop) && Backwards(g, loop) && loop[|loop| - 1] == cur
                && loop[0] in below && forall i :: 1 <= i < |loop| ==> loop[i] !in below
              case Raised(loop) => IsLoop(g, loop)
    {
      if inner.Raised? {
        return inner;
      }
      DistinctTop(below, cur);
      if cur != inner.loop[0] {
        Longer(inner.loop, cur);
        AppendDistinct(inner.loop, cur);
        return OnTheWay(inner.loop + [cur]);
      }
      return Raised(inner.loop);
    }

    lemma Longer(loop: seq<Id>, cur: Id)
      requires loop != [] && Backwards(g, loop) && Edge(g, cur, loop[|loop| - 1])
      ensures Backwards(g, loop + [cur])
    {
      var l := loop + [cur];
      forall i | 0 <= i < |l| - 1 ensures StepBack(g, l, i) {
        if i < |loop| - 1 {
          assert StepBack(g, loop, i);
        }
      }
    }

    /** The startup pass: it raises the error exactly when the dependencies have a cycle, what it reports
        is a loop, and it expands no symbol twice. */
    method CheckAll() returns (raised: Option<seq<Id>>)
      requires Valid() && path == [] && done == [] && expanded == []
      modifies this
      ensures raised.Some? <==> HasCycle(g)
      ensures raised.Some? ==> IsLoop(g, raised.value)
      ensures Distinct(expanded) && (raised.None? ==> forall x :: x in g <==> x in expanded)
      ensures raised.None? ==> DoneOk(g, done) && forall x :: x in g ==> x in done
    {
      hide Distinct, DoneOk;
      var todo := g.Keys;
      while todo != {}
        invariant Valid() && path == [] && todo <= g.Keys
        invariant forall y :: y in g && y !in todo ==> y in done
      {
        var sym :| sym in todo;
        var out := CheckSym(sym);
        if !out.Clear? {
          assert out.Raised?;
          assert IsCycle(g, out.loop);
          return Some(out.loop);
        }
        todo := todo - {sym};
      }
      forall walk ensures !IsCycle(g, walk) {
        AllDoneNoCycle(g, done, walk);
      }
      raised := None;
    }
  }
}
