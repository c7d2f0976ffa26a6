/** The skip list of src/timer.c: one ring of timer rows per level, relinked in place, proved to be
    the plain timer queue. */
module TimerSkipList {
  import opened Basics
  import opened IntrusiveList
  import TQ = TimerQueue

  type Id = TQ.Id
  type Tick = TQ.Tick
  type Timers = TQ.Timers

  /** A list node: the head of a level, or the row member of a timer at a level. */
  datatype Node = Head(level: nat) | Row(timer: Id, level: nat)

  /** row_head + 1: the node one level down */
  function Below(n: Node): Node {
    match n case Head(l) => Head(l + 1) case Row(t, l) => Row(t, l + 1)
  }

  // ---------------------------------------------------------------- one level

  function Nodes(l: nat, row: seq<Id>): seq<Node> {
    [Head(l)] + seq(|row|, i requires 0 <= i < |row| => Row(row[i], l))
  }

  lemma NodesInsert(l: nat, row: seq<Id>, j: nat, t: Id)
    requires j <= |row|
    ensures Nodes(l, InsertAt(row, j, t)) == InsertAt(Nodes(l, row), j + 1, Row(t, l))
  {
  }

  lemma NodesRemove(l: nat, row: seq<Id>, j: nat)
    requires j < |row|
    ensures Nodes(l, RemoveAt(row, j)) == RemoveAt(Nodes(l, row), j + 1)
  {
  }

  lemma NodesHas(l: nat, row: seq<Id>, n: Node)
    ensures n in Nodes(l, row) <==> n == Head(l) || (n.Row? && n.level == l && n.timer in row)
  {
    if n.Row? && n.level == l && n.timer in row {
      var i :| 0 <= i < |row| && row[i] == n.timer;
      assert Nodes(l, row)[i + 1] == n;
    }
    assert Nodes(l, row)[0] == Head(l);
  }

  ghost predicate Loose(next: map<Node, Node>, prev: map<Node, Node>, n: Node) {
    n in next && n in prev && next[n] == n && prev[n] == n
  }

  /** The ring of level l holds the timers of row in order; other timers' rows point at themselves. */
  ghost predicate RowOk(next: map<Node, Node>, prev: map<Node, Node>, ids: set<Id>, l: nat, row: seq<Id>) {
    && Ring(next, prev, Nodes(l, row))
    && (forall t :: t in row ==> t in ids)
    && (forall t :: t in ids && t !in row ==> Loose(next, prev, Row(t, l)))
  }

  ghost predicate Structure(next: map<Node, Node>, prev: map<Node, Node>, ids: set<Id>, rows: seq<seq<Id>>) {
    forall l :: 0 <= l < |rows| ==> RowOk(next, prev, ids, l, rows[l])
  }

  /** Nothing changes outside level l. */
  ghost predicate OnlyLevel(next: map<Node, Node>, next': map<Node, Node>, l: nat) {
    forall n :: n in next && n.level != l ==> n in next' && next'[n] == next[n]
  }

  lemma RowFrame(next: map<Node, Node>, prev: map<Node, Node>, next': map<Node, Node>, prev': map<Node, Node>,
                 ids: set<Id>, l: nat, row: seq<Id>, other: nat)
    requires RowOk(next, prev, ids, l, row) && l != other
    requires OnlyLevel(next, next', other) && OnlyLevel(prev, prev', other)
    ensures RowOk(next', prev', ids, l, row)
  {
    hide Ring;
    RingInMemory(next, prev, Nodes(l, row));
    RingFrame(next, prev, next', prev', Nodes(l, row));
    forall t | t in ids && t !in row ensures Loose(next', prev', Row(t, l)) {
      assert Loose(next, prev, Row(t, l)) && Row(t, l).level == l;
    }
  }

  lemma StructureUpdate(next: map<Node, Node>, prev: map<Node, Node>, next': map<Node, Node>, prev': map<Node, Node>,
                        ids: set<Id>, rows: seq<seq<Id>>, l: nat, row: seq<Id>)
    requires Structure(next, prev, ids, rows) && l < |rows|
    requires OnlyLevel(next, next', l) && OnlyLevel(prev, prev', l)
    requires RowOk(next', prev', ids, l, row)
    ensures Structure(next', prev', ids, rows[l := row])
  {
    hide RowOk, OnlyLevel;
    var rows' := rows[l := row];
    forall m | 0 <= m < |rows'| ensures RowOk(next', prev', ids, m, rows'[m]) {
      if m != l {
        RowFrame(next, prev, next', prev', ids, m, rows[m], l);
      }
    }
  }

  lemma LinkRowStep(next: map<Node, Node>, prev: map<Node, Node>, ids: set<Id>, l: nat, row: seq<Id>, j: nat, t: Id)
    requires RowOk(next, prev, ids, l, row) && j <= |row| && t in ids && t !in row
    ensures Nodes(l, row)[j] in next
    ensures var a, x := Nodes(l, row)[j], Row(t, l);
            var next', prev' := LinkedNext(next, a, x), LinkedPrev(next, prev, a, x);
            && RowOk(next', prev', ids, l, InsertAt(row, j, t))
            && OnlyLevel(next, next', l) && OnlyLevel(prev, prev', l)
  {
    hide Ring, InsertAt, Nodes;
    var s, x := Nodes(l, row), Row(t, l);
    NodesHas(l, row, x);
    assert |s| == |row| + 1 by { NodesSize(l, row); }
    LinkAfter(next, prev, s, j, x);
    NodesInsert(l, row, j, t);
    var a := s[j];
    RingNeighbours(next, prev, s, j);
    NodesHas(l, row, a);
    NodesHas(l, row, next[a]);
    var next', prev' := LinkedNext(next, a, x), LinkedPrev(next, prev, a, x);
    forall u | u in InsertAt(row, j, t) ensures u in ids {
      InsertMembers(row, j, t, u);
    }
    forall u | u in ids && u !in InsertAt(row, j, t) ensures Loose(next', prev', Row(u, l)) {
      InsertMembers(row, j, t, u);
      assert Loose(next, prev, Row(u, l));
    }
  }

  lemma NodesSize(l: nat, row: seq<Id>)
    ensures |Nodes(l, row)| == |row| + 1 && Nodes(l, row)[0] == Head(l)
    ensures forall i :: 0 <= i < |row| ==> Nodes(l, row)[i + 1] == Row(row[i], l)
  {
  }

  lemma SingleRingLoose(next: map<Node, Node>, prev: map<Node, Node>, n: Node)
    requires Ring(next, prev, [n])
    ensures Loose(next, prev, n)
  {
    RingNeighbours(next, prev, [n], 0);
  }

  lemma RowAt(next: map<Node, Node>, prev: map<Node, Node>, ids: set<Id>, rows: seq<seq<Id>>, l: nat)
    requires Structure(next, prev, ids, rows) && l < |rows|
    ensures RowOk(next, prev, ids, l, rows[l])
  {
  }

  /** The ring that timer t's row member is in: its level's, or its own. */
  lemma RingOf(next: map<Node, Node>, prev: map<Node, Node>, ids: set<Id>, l: nat, row: seq<Id>, t: Id)
    returns (s: seq<Node>, i: nat)
    requires RowOk(next, prev, ids, l, row) && t in ids && Distinct(row)
    ensures Ring(next, prev, s) && i < |s| && s[i] == Row(t, l)
    ensures t in row ==> s == Nodes(l, row) && |s| > 1 && RemoveAt(s, i) == Nodes(l, Erase(row, t))
    ensures t !in row ==> s == [Row(t, l)] && i == 0
  {
    hide Ring, Nodes, RemoveAt, Distinct;
    NodesSize(l, row);
    if t in row {
      var j :| 0 <= j < |row| && row[j] == t;
      s, i := Nodes(l, row), j + 1;
      EraseAt(row, j);
      NodesRemove(l, row, j);
    } else {
      s, i := [Row(t, l)], 0;
      assert Loose(next, prev, Row(t, l));
      SingleRing(next, prev, Row(t, l));
    }
  }

  /** What rt_list_remove of timer t's row member leaves on its level. */
  lemma UnlinkRowOk(next: map<Node, Node>, prev: map<Node, Node>, next': map<Node, Node>, prev': map<Node, Node>,
                    ids: set<Id>, l: nat, row: seq<Id>, t: Id, s: seq<Node>, i: nat)
    requires RowOk(next, prev, ids, l, row) && i < |s| && t in ids
    requires t in row ==> s == Nodes(l, row) && |s| > 1 && RemoveAt(s, i) == Nodes(l, Erase(row, t))
    requires t !in row ==> s == [Row(t, l)]
    requires Ring(next', prev', [Row(t, l)]) && (|s| > 1 ==> Ring(next', prev', RemoveAt(s, i)))
    requires next'.Keys == next.Keys && prev'.Keys == prev.Keys
    requires forall x :: x !in s && x in next' ==> next'[x] == next[x]
    requires forall x :: x !in s && x in prev' ==> prev'[x] == prev[x]
    ensures RowOk(next', prev', ids, l, Erase(row, t))
    ensures OnlyLevel(next, next', l) && OnlyLevel(prev, prev', l)
  {
    hide Ring, Nodes, RemoveAt, Erase;
    EraseProps(row, t);
    SingleRingLoose(next', prev', Row(t, l));
    forall n: Node ensures n in s ==> n.level == l {
      NodesHas(l, row, n);
    }
    forall u | u in ids && u !in row && u != t ensures Loose(next', prev', Row(u, l)) {
      assert Loose(next, prev, Row(u, l));
      NodesHas(l, row, Row(u, l));
    }
    if t !in row {
      RingInMemory(next, prev, Nodes(l, row));
      NodesHas(l, row, Row(t, l));
      RingFrame(next, prev, next', prev', Nodes(l, row));
    }
  }

  // ---------------------------------------------------------------- a new timer

  /** The row member of a timer that is new on level l points at itself; the level's ring does not change. */
  lemma RowJoins(next: map<Node, Node>, prev: map<Node, Node>, ids: set<Id>, l: nat, row: seq<Id>, t: Id)
    requires RowOk(next, prev, ids, l, row) && t !in ids
    ensures var n := Row(t, l);
            && RowOk(next[n := n], prev[n := n], ids + {t}, l, row)
            && OnlyLevel(next, next[n := n], l) && OnlyLevel(prev, prev[n := n], l)
  {
    hide Ring, Nodes;
    var n := Row(t, l);
    var next', prev' := next[n := n], prev[n := n];
    NodesHas(l, row, n);
    RingInMemory(next, prev, Nodes(l, row));
    RingFrame(next, prev, next', prev', Nodes(l, row));
    forall u | u in ids + {t} && u !in row ensures Loose(next', prev', Row(u, l)) {
      assert u != t ==> Loose(next, prev, Row(u, l));
    }
  }

  /** The levels below l know timer t, the others do not yet. */
  ghost predicate Joining(next: map<Node, Node>, prev: map<Node, Node>, ids: set<Id>, t: Id, rows: seq<seq<Id>>, l: nat) {
    forall m :: 0 <= m < |rows| ==> RowOk(next, prev, if m < l then ids + {t} else ids, m, rows[m])
  }

  lemma JoinLevel(next: map<Node, Node>, prev: map<Node, Node>, ids: set<Id>, t: Id, rows: seq<seq<Id>>, l: nat)
    requires Joining(next, prev, ids, t, rows, l) && l < |rows| && t !in ids
    ensures var n := Row(t, l); Joining(next[n := n], prev[n := n], ids, t, rows, l + 1)
  {
    hide RowOk, OnlyLevel;
    var n := Row(t, l);
    RowJoins(next, prev, ids, l, rows[l], t);
    forall m | 0 <= m < |rows| ensures RowOk(next[n := n], prev[n := n], if m < l + 1 then ids + {t} else ids, m, rows[m]) {
      if m != l {
        RowFrame(next, prev, next[n := n], prev[n := n], if m < l then ids + {t} else ids, m, rows[m], l);
      }
    }
  }

  // ---------------------------------------------------------------- all levels

  function HeightOf(height: map<Id, nat>, t: Id): nat {
    if t in height then height[t] else 0
  }

  /** The timers at least m rows tall, in list order. */
  function Tall(s: seq<Id>, height: map<Id, nat>, m: nat): seq<Id> {
    if s == [] then []
    else if HeightOf(height, s[0]) >= m then [s[0]] + Tall(s[1..], height, m)
    else Tall(s[1..], height, m)
  }

  /** Level l links the timers at least levels - l rows tall. */
  function Rows(s: seq<Id>, height: map<Id, nat>, levels: nat): seq<seq<Id>> {
    seq(levels, l requires 0 <= l < levels => Tall(s, height, levels - l))
  }

  lemma RowsEmpty(levels: nat)
    ensures forall l :: 0 <= l < levels ==> Rows([], map[], levels)[l] == []
  {
    forall l | 0 <= l < levels ensures Rows([], map[], levels)[l] == [] {
      assert Tall([], map[], levels - l) == [];
    }
  }

  ghost predicate Subsequence(a: seq<Id>, b: seq<Id>) {
    a == [] || (b != [] && if a[0] == b[0] then Subsequence(a[1..], b[1..]) else Subsequence(a, b[1..]))
  }

  lemma {:induction false} TallHas(s: seq<Id>, height: map<Id, nat>, m: nat)
    ensures forall t :: t in Tall(s, height, m) <==> t in s && HeightOf(height, t) >= m
  {
    if s != [] {
      TallHas(s[1..], height, m);
      assert s == [s[0]] + s[1..];
    }
  }

  /** Each row is a subsequence of the rows below it. */
  lemma {:induction false} UpperRowSubsequence(s: seq<Id>, height: map<Id, nat>, m: nat, m': nat)
    requires Distinct(s) && m' <= m
    ensures Subsequence(Tall(s, height, m), Tall(s, height, m'))
  {
    if s != [] {
      Behead(s);
      UpperRowSubsequence(s[1..], height, m, m');
      TallHas(s[1..], height, m);
      var a := Tall(s[1..], height, m);
      assert a != [] ==> a[0] in s[1..];
    }
  }

  lemma {:induction false} TallConcat(a: seq<Id>, b: seq<Id>, height: map<Id, nat>, m: nat)
    ensures Tall(a + b, height, m) == Tall(a, height, m) + Tall(b, height, m)
  {
    if a == [] {
      assert a + b == b;
    } else {
      assert (a + b)[1..] == a[1..] + b;
      TallConcat(a[1..], b, height, m);
    }
  }

  lemma {:induction false} TallSame(s: seq<Id>, height: map<Id, nat>, height': map<Id, nat>, m: nat)
    requires forall i :: 0 <= i < |s| ==> HeightOf(height, s[i]) == HeightOf(height', s[i])
    ensures Tall(s, height, m) == Tall(s, height', m)
  {
    if s != [] {
      TallSame(s[1..], height, height', m);
    }
  }

  /** A new timer of height h enters the rows it is tall enough for, at the place that belongs to p. */
  lemma TallInsert(s: seq<Id>, height: map<Id, nat>, m: nat, p: nat, t: Id, h: nat)
    requires p <= |s| && t !in s
    ensures |Tall(s[..p], height, m)| <= |Tall(s, height, m)|
    ensures Tall(InsertAt(s, p, t), height[t := h], m) ==
            if h >= m then InsertAt(Tall(s, height, m), |Tall(s[..p], height, m)|, t) else Tall(s, height, m)
  {
    var a, b, height' := s[..p], s[p..], height[t := h];
    assert a + b == s;
    TallConcat(a, b, height, m);
    TallConcat(a + [t], b, height', m);
    TallConcat(a, [t], height', m);
    TallSame(a, height, height', m);
    TallSame(b, height, height', m);
    assert InsertAt(s, p, t) == (a + [t]) + b;
    assert Tall([t], height', m) == if h >= m then [t] else [];
  }

  lemma {:induction false} TallErase(s: seq<Id>, height: map<Id, nat>, m: nat, t: Id)
    ensures Tall(Erase(s, t), height, m) == Erase(Tall(s, height, m), t)
  {
    if s != [] {
      TallErase(s[1..], height, m, t);
    }
  }

  /** Erasing a timer erases it from every row. */
  lemma RowsErase(s: seq<Id>, height: map<Id, nat>, levels: nat, t: Id)
    ensures |Rows(s, height, levels)| == |Rows(Erase(s, t), height, levels)| == levels
    ensures forall l :: 0 <= l < levels ==>
              Rows(Erase(s, t), height, levels)[l] == Erase(Rows(s, height, levels)[l], t)
  {
    forall l | 0 <= l < levels
      ensures Rows(Erase(s, t), height, levels)[l] == Erase(Rows(s, height, levels)[l], t)
    {
      TallErase(s, height, levels - l, t);
    }
  }

  lemma RowsSame(s: seq<Id>, height: map<Id, nat>, height': map<Id, nat>, levels: nat)
    requires forall i :: 0 <= i < |s| ==> HeightOf(height, s[i]) == HeightOf(height', s[i])
    ensures Rows(s, height, levels) == Rows(s, height', levels)
  {
    forall l | 0 <= l < levels ensures Rows(s, height, levels)[l] == Rows(s, height', levels)[l] {
      TallSame(s, height, height', levels - l);
    }
  }

  /** Removing a timer that was just inserted gives back every row. */
  lemma RemoveUndoesInsert(s: seq<Id>, height: map<Id, nat>, levels: nat, p: nat, t: Id, h: nat)
    requires p <= |s| && Distinct(s) && t !in s
    ensures Rows(Erase(InsertAt(s, p, t), t), height[t := h], levels) == Rows(s, height, levels)
  {
    TQ.EraseInsert(s, p, t);
    RowsSame(s, height[t := h], height, levels);
  }

  lemma {:induction false} TallSorted(s: seq<Id>, height: map<Id, nat>, m: nat, ts: Timers)
    requires TQ.Known(s, ts) && TQ.Sorted(s, ts) && Distinct(s)
    ensures TQ.Known(Tall(s, height, m), ts) && TQ.Sorted(Tall(s, height, m), ts) && Distinct(Tall(s, height, m))
  {
    hide TQ.Ahead;
    if s != [] {
      Behead(s);
      TallSorted(s[1..], height, m, ts);
      TallHas(s[1..], height, m);
      var r := Tall(s[1..], height, m);
      forall i | 0 <= i < |r| ensures r[i] != s[0] && TQ.Ahead(ts[r[i]].timeout, ts[s[0]].timeout) < TQ.HALF {
        assert r[i] in s[1..];
        var j :| 0 <= j < |s| - 1 && s[1..][j] == r[i];
        assert s[j + 1] == r[i];
      }
    }
  }

  /** The place of a timeout in a row is where the list's place cuts the row. */
  lemma TallSplits(s: seq<Id>, height: map<Id, nat>, m: nat, ts: Timers, k: Tick, p: nat)
    requires TQ.Known(s, ts) && TQ.Splits(s, ts, k, p)
    ensures TQ.Known(Tall(s, height, m), ts)
    ensures TQ.Splits(Tall(s, height, m), ts, k, |Tall(s[..p], height, m)|)
  {
    hide TQ.Ahead, TQ.Later, Tall;
    var a, b := s[..p], s[p..];
    assert a + b == s;
    TallConcat(a, b, height, m);
    TallHas(a, height, m);
    TallHas(b, height, m);
    var ta, tb, r := Tall(a, height, m), Tall(b, height, m), Tall(s, height, m);
    forall i | 0 <= i < |r| ensures r[i] in ts && (if i < |ta| then TQ.Ahead(k, ts[r[i]].timeout) < TQ.HALF
                                                   else TQ.Later(ts[r[i]].timeout, k)) {
      if i < |ta| {
        assert ta[i] in a;
        var j :| 0 <= j < p && a[j] == ta[i];
        assert s[j] == r[i];
      } else {
        assert tb[i - |ta|] in b;
        var j :| 0 <= j < |b| && b[j] == tb[i - |ta|];
        assert s[p + j] == r[i];
      }
    }
  }

  // ---------------------------------------------------------------- searching

  /** The place of timeout k on every level. */
  ghost predicate Places(rows: seq<seq<Id>>, ts: Timers, k: Tick, heads: seq<Node>, pos: seq<nat>) {
    && |heads| == |pos| <= |rows|
    && forall l :: 0 <= l < |pos| ==> PlaceOn(rows[l], ts, k, l, heads[l], pos[l])
  }

  ghost predicate PlaceOn(row: seq<Id>, ts: Timers, k: Tick, l: nat, head: Node, j: nat) {
    TQ.Known(row, ts) && TQ.Splits(row, ts, k, j) && head == Nodes(l, row)[j]
  }

  /** Everything before position j of the row is due no later than k. */
  ghost predicate DueBefore(row: seq<Id>, ts: Timers, k: Tick, j: nat)
    requires TQ.Known(row, ts) && j <= |row|
  {
    forall i :: 0 <= i < j ==> TQ.Ahead(k, ts[row[i]].timeout) < TQ.HALF
  }

  /** The search of level l can start from position j. */
  ghost predicate SearchFrom(row: seq<Id>, ts: Timers, k: Tick, l: nat, head: Node, j: nat) {
    TQ.Known(row, ts) && j <= |row| && DueBefore(row, ts, k, j) && head == Nodes(l, row)[j]
  }

  lemma SearchStep(row: seq<Id>, ts: Timers, k: Tick, j: nat, base: Tick)
    requires TQ.Known(row, ts) && TQ.Sorted(row, ts) && TQ.Windowed(base, row, ts) && TQ.InWindow(base, k)
    requires j < |row| && DueBefore(row, ts, k, j)
    ensures TQ.Later(ts[row[j]].timeout, k) ==> TQ.Splits(row, ts, k, j)
    ensures !TQ.Later(ts[row[j]].timeout, k) ==> DueBefore(row, ts, k, j + 1)
  {
    TQ.WindowOrder(base, ts[row[j]].timeout, k);
    TQ.WindowOrder(base, k, ts[row[j]].timeout);
    if TQ.Later(ts[row[j]].timeout, k) {
      forall i | j <= i < |row| ensures TQ.Later(ts[row[i]].timeout, k) {
        TQ.WindowOrder(base, ts[row[i]].timeout, ts[row[j]].timeout);
        TQ.WindowOrder(base, ts[row[i]].timeout, k);
      }
    }
  }

  /** Everything up to a timer due no later than k is due no later than k. */
  lemma DueUpTo(row: seq<Id>, ts: Timers, k: Tick, i: nat, base: Tick)
    requires TQ.Known(row, ts) && TQ.Sorted(row, ts) && TQ.Windowed(base, row, ts) && TQ.InWindow(base, k)
    requires i < |row| && TQ.Ahead(k, ts[row[i]].timeout) < TQ.HALF
    ensures DueBefore(row, ts, k, i + 1)
  {
    forall x | 0 <= x < i + 1 ensures TQ.Ahead(k, ts[row[x]].timeout) < TQ.HALF {
      TQ.WindowOrder(base, k, ts[row[i]].timeout);
      TQ.WindowOrder(base, ts[row[i]].timeout, ts[row[x]].timeout);
      TQ.WindowOrder(base, k, ts[row[x]].timeout);
    }
  }

  lemma TallWindowed(s: seq<Id>, height: map<Id, nat>, m: nat, ts: Timers, base: Tick)
    requires TQ.Known(s, ts) && TQ.Windowed(base, s, ts)
    ensures TQ.Known(Tall(s, height, m), ts) && TQ.Windowed(base, Tall(s, height, m), ts)
  {
    TallHas(s, height, m);
    var row := Tall(s, height, m);
    hide Tall, TQ.InWindow;
    forall i | 0 <= i < |row| ensures row[i] in ts && TQ.InWindow(base, ts[row[i]].timeout) {
      assert row[i] in s;
    }
  }

  lemma TallBelow(s: seq<Id>, height: map<Id, nat>, m: nat, t: Id)
    requires m > 0 && t in Tall(s, height, m)
    ensures t in Tall(s, height, m - 1)
  {
    TallHas(s, height, m);
    TallHas(s, height, m - 1);
  }

  /** A node where the search of one level ends is a node where the next level's search can begin. */
  lemma DescendStep(s: seq<Id>, height: map<Id, nat>, m: nat, ts: Timers, k: Tick, l: nat, j: nat, head: Node, base: Tick)
    returns (j': nat)
    requires TQ.Known(s, ts) && TQ.Sorted(s, ts) && Distinct(s) && TQ.Windowed(base, s, ts) && TQ.InWindow(base, k)
    requires m > 0 && PlaceOn(Tall(s, height, m), ts, k, l, head, j)
    ensures SearchFrom(Tall(s, height, m - 1), ts, k, l + 1, Below(head), j')
  {
    hide Tall, TQ.Sorted, TQ.Ahead, TQ.Later, Distinct, TQ.Windowed, TQ.Known, Nodes;
    var upper, row := Tall(s, height, m), Tall(s, height, m - 1);
    TallSorted(s, height, m - 1, ts);
    TallWindowed(s, height, m - 1, ts, base);
    NodesSize(l, upper);
    NodesSize(l + 1, row);
    if j == 0 {
      return 0;
    }
    var t := upper[j - 1];
    TallBelow(s, height, m, t);
    var i :| 0 <= i < |row| && row[i] == t;
    DueUpTo(row, ts, k, i, base);
    j' := i + 1;
  }

  /** Which rows have the new timer when it has been linked on the levels from `from` on. */
  ghost predicate PartlyLinked(rows: seq<seq<Id>>, rows': seq<seq<Id>>, t: Id, pos: seq<nat>, from: nat) {
    && |rows'| == |rows| == |pos| && from <= |rows|
    && (forall m :: 0 <= m < from ==> rows'[m] == rows[m])
    && (forall m :: from <= m < |rows| ==> pos[m] <= |rows[m]| && rows'[m] == InsertAt(rows[m], pos[m], t))
  }

  /** Rows found by the search and linked up to some level are the rows of the longer list. */
  lemma RowsInsert(s: seq<Id>, height: map<Id, nat>, levels: nat, ts: Timers, k: Tick, p: nat, t: Id,
                   heads: seq<Node>, pos: seq<nat>, from: nat, rows': seq<seq<Id>>, base: Tick)
    requires TQ.Known(s, ts) && TQ.Windowed(base, s, ts) && TQ.InWindow(base, k) && t !in s && from <= levels
    requires p <= |s| && TQ.Splits(s, ts, k, p) && |pos| == levels && Places(Rows(s, height, levels), ts, k, heads, pos)
    requires PartlyLinked(Rows(s, height, levels), rows', t, pos, from)
    ensures rows' == Rows(InsertAt(s, p, t), height[t := levels - from], levels)
  {
    hide Tall, TQ.Splits, TQ.Windowed, TQ.InWindow, InsertAt;
    var rows := Rows(s, height, levels);
    forall l | 0 <= l < levels
      ensures rows'[l] == Tall(InsertAt(s, p, t), height[t := levels - from], levels - l)
    {
      TallSplits(s, height, levels - l, ts, k, p);
      TallInsert(s, height, levels - l, p, t, levels - from);
      TallWindowed(s, height, levels - l, ts, base);
      assert PlaceOn(rows[l], ts, k, l, heads[l], pos[l]);
      TQ.SplitsUnique(rows[l], ts, k, pos[l], |Tall(s[..p], height, levels - l)|, base);
    }
  }

  function Shifted(x: bv32, mask: bv32): bv32 {
    var d := (mask + 1) >> 1;
    if d < 32 then x >> d else 0
  }

  lemma WindowedFrame(base: Tick, s: seq<Id>, ts: Timers, ts': Timers)
    requires TQ.Known(s, ts) && TQ.Known(s, ts') && forall i :: 0 <= i < |s| ==> ts'[s[i]] == ts[s[i]]
    ensures TQ.Windowed(base, s, ts) ==> TQ.Windowed(base, s, ts')
    ensures TQ.Sorted(s, ts) ==> TQ.Sorted(s, ts')
    ensures forall k, p :: TQ.Splits(s, ts, k, p) ==> TQ.Splits(s, ts', k, p)
  {
    hide TQ.Ahead, TQ.Later, TQ.InWindow;
  }

  // ---------------------------------------------------------------- the timer list

  class TimerList {
    /** RT_TIMER_SKIP_LIST_LEVEL and RT_TIMER_SKIP_LIST_MASK */
    const levels: nat
    const mask: bv32
    const mem: ListMemory<Node>
    var timers: Timers
    var tick: Tick
    var randomNr: bv32
    ghost var list: seq<Id>
    ghost var height: map<Id, nat>

    /** The plain queue this is. */
    ghost function Abs(): TQ.Queue
      reads this`list, this`timers
    {
      TQ.Queue(list, timers)
    }

    ghost predicate Linked(rows: seq<seq<Id>>)
      reads this`timers, mem
    {
      Structure(mem.next, mem.prev, timers.Keys, rows)
    }

    ghost predicate HeightsOk()
      reads this`list, this`height
    {
      forall t :: t in list ==> 1 <= HeightOf(height, t) <= levels
    }

    ghost predicate Valid()
      reads this, mem
    {
      levels >= 1 && TQ.Valid(Abs()) && HeightsOk() && Linked(Rows(list, height, levels))
    }

    constructor (levels: nat, mask: bv32)
      requires levels >= 1
      ensures Valid() && fresh(mem) && this.levels == levels && this.mask == mask
      ensures Abs() == TQ.Queue([], map[]) && tick == 0
    {
      this.levels, this.mask := levels, mask;
      mem := new ListMemory();
      timers, tick, randomNr := map[], 0, 0;
      list, height := [], map[];
      new;
      for l := 0 to levels
        invariant fresh(mem) && forall m :: 0 <= m < l ==> RowOk(mem.next, mem.prev, {}, m, [])
        invariant timers == map[] && list == [] && height == map[] && tick == 0
      {
        InitLevel(l);
      }
      RowsEmpty(levels);
      assert timers.Keys == {};
    }

    method InitLevel(l: nat)
      modifies mem
      ensures forall m :: 0 <= m < l && old(RowOk(mem.next, mem.prev, {}, m, [])) ==> RowOk(mem.next, mem.prev, {}, m, [])
      ensures RowOk(mem.next, mem.prev, {}, l, [])
    {
      ghost var next0, prev0 := mem.next, mem.prev;
      mem.Init(Head(l));
      assert Nodes(l, []) == [Head(l)];
      forall m | 0 <= m < l && RowOk(next0, prev0, {}, m, []) ensures RowOk(mem.next, mem.prev, {}, m, []) {
        RowFrame(next0, prev0, mem.next, mem.prev, {}, m, [], l);
      }
    }

    /** _rt_timer_init, of a timer that is not in use */
    method InitTimer(t: Id, time: Tick, periodic: bool)
      requires Valid() && t !in timers
      modifies this`timers, mem
      ensures Valid() && Abs() == TQ.Init(old(Abs()), t, time, periodic)
    {
      hide Structure, TQ.Sorted, HeightsOk;
      TQ.InitValid(Abs(), t, time, periodic);
      ghost var rows, ids := Rows(list, height, levels), timers.Keys;
      assert |rows| == levels;
      hide Rows;
      JoiningEnds(mem.next, mem.prev, ids, t, rows);
      for i := 0 to levels
        invariant Joining(mem.next, mem.prev, ids, t, rows, i) && |rows| == levels
        modifies mem
      {
        JoinLevel(mem.next, mem.prev, ids, t, rows, i);
        hide Joining;
        mem.Init(Row(t, i));
      }
      JoiningEnds(mem.next, mem.prev, ids, t, rows);
      timers := timers[t := TQ.Timer(0, time, periodic, false)];
      assert timers.Keys == ids + {t};
    }

    static lemma JoiningEnds(next: map<Node, Node>, prev: map<Node, Node>, ids: set<Id>, t: Id, rows: seq<seq<Id>>)
      ensures Joining(next, prev, ids, t, rows, 0) <==> Structure(next, prev, ids, rows)
      ensures Joining(next, prev, ids, t, rows, |rows|) <==> Structure(next, prev, ids + {t}, rows)
    {
      hide RowOk;
    }

    // -------------------------------------------------------------- removing

    /** rt_list_remove of one row member; nothing happens when the timer is not on that level. */
    method UnlinkRow(t: Id, l: nat, ghost rows: seq<seq<Id>>)
      requires Linked(rows) && l < |rows| && t in timers && Distinct(rows[l])
      modifies mem
      ensures Linked(rows[l := Erase(rows[l], t)])
    {
      hide Ring, Nodes, RowOk, Structure, Erase, Distinct, OnlyLevel, RemoveAt;
      ghost var row, next0, prev0 := rows[l], mem.next, mem.prev;
      RowAt(next0, prev0, timers.Keys, rows, l);
      ghost var s, i := RingOf(next0, prev0, timers.Keys, l, row, t);
      mem.Remove(Row(t, l), s, i);
      UnlinkRowOk(next0, prev0, mem.next, mem.prev, timers.Keys, l, row, t, s, i);
      StructureUpdate(next0, prev0, mem.next, mem.prev, timers.Keys, rows, l, Erase(row, t));
    }

    /** Which rows have lost timer t when the levels below l are done. */
    ghost predicate PartlyErased(rows: seq<seq<Id>>, rows': seq<seq<Id>>, t: Id, l: nat) {
      |rows'| == |rows| && forall m :: 0 <= m < |rows| ==> rows'[m] == if m < l then Erase(rows[m], t) else rows[m]
    }

    /** _rt_timer_remove */
    method Remove(t: Id)
      requires levels >= 1 && t in timers && TQ.Known(list, timers) && TQ.Sorted(list, timers) && Distinct(list)
      requires HeightsOk() && Linked(Rows(list, height, levels))
      modifies mem, this`list
      ensures list == Erase(old(list), t) && Linked(Rows(list, height, levels)) && HeightsOk()
    {
      hide Tall, Erase, Structure, Distinct;
      ghost var first := Rows(list, height, levels);
      ghost var rows := first;
      for l := 0 to levels
        invariant timers == old(timers) && list == old(list) && height == old(height)
        invariant Linked(rows) && PartlyErased(first, rows, t, l)
      {
        TallSorted(list, height, levels - l, timers);
        UnlinkRow(t, l, rows);
        rows := rows[l := Erase(rows[l], t)];
      }
      RowsErase(list, height, levels, t);
      assert rows == Rows(Erase(list, t), height, levels);
      EraseProps(list, t);
      list := Erase(list, t);
    }

    // -------------------------------------------------------------- starting

    /** The search along one level, from a node that is no later than k. */
    method Search(l: nat, start: Node, k: Tick, ghost row: seq<Id>, ghost j0: nat, ghost base: Tick)
      returns (head: Node, ghost j: nat)
      requires RowOk(mem.next, mem.prev, timers.Keys, l, row)
      requires TQ.Known(row, timers) && TQ.Sorted(row, timers) && TQ.Windowed(base, row, timers) && TQ.InWindow(base, k)
      requires SearchFrom(row, timers, k, l, start, j0)
      ensures PlaceOn(row, timers, k, l, head, j)
    {
      hide TQ.Ahead, TQ.Sorted, TQ.Windowed, Nodes;
      head, j := start, j0;
      NodesSize(l, row);
      RingNeighbours(mem.next, mem.prev, Nodes(l, row), 0);
      while head != mem.prev[Head(l)]
        invariant j <= |row| && DueBefore(row, timers, k, j) && head == Nodes(l, row)[j]
        decreases |row| - j
      {
        RingNeighbours(mem.next, mem.prev, Nodes(l, row), j);
        SearchStep(row, timers, k, j, base);
        var p := mem.next[head];
        var ahead := TQ.Ahead(timers[p.timer].timeout, k);
        if ahead != 0 {
          if ahead < TQ.HALF {
            break;
          }
        }
        head := mem.next[head];
        j := j + 1;
      }
    }

    /** The search through all levels: on each from where it ended on the one above. */
    method FindPlaces(k: Tick, ghost base: Tick) returns (heads: seq<Node>, ghost pos: seq<nat>)
      requires levels >= 1 && Linked(Rows(list, height, levels)) && Distinct(list)
      requires TQ.Known(list, timers) && TQ.Sorted(list, timers)
      requires TQ.Windowed(base, list, timers) && TQ.InWindow(base, k)
      ensures |heads| == |pos| == levels && Places(Rows(list, height, levels), timers, k, heads, pos)
    {
      hide TQ.Ahead, Tall, TQ.Sorted, TQ.Windowed, Ring, Nodes, RowOk, TQ.Splits;
      heads, pos := [], [];
      ghost var rows := Rows(list, height, levels);
      var head := Head(0);
      ghost var j: nat := 0;
      FirstStart(list, height, levels, timers, k);
      for l := 0 to levels
        invariant |heads| == |pos| == l && Places(rows, timers, k, heads, pos)
        invariant l < levels ==> SearchFrom(rows[l], timers, k, l, head, j)
      {
        ghost var row := rows[l];
        TallSorted(list, height, levels - l, timers);
        TallWindowed(list, height, levels - l, timers, base);
        head, j := Search(l, head, k, row, j, base);
        heads, pos := heads + [head], pos + [j];
        if l + 1 < levels {
          j := DescendStep(list, height, levels - l, timers, k, l, j, head, base);
          head := Below(head);
        }
      }
    }

    static lemma FirstStart(list: seq<Id>, height: map<Id, nat>, levels: nat, timers: Timers, k: Tick)
      requires levels >= 1 && TQ.Known(list, timers) && TQ.Sorted(list, timers) && Distinct(list)
      ensures SearchFrom(Rows(list, height, levels)[0], timers, k, 0, Head(0), 0)
    {
      TallSorted(list, height, levels, timers);
    }

    /** rt_list_insert_after on one level */
    method LinkRow(t: Id, l: nat, head: Node, ghost rows: seq<seq<Id>>, ghost j: nat)
      requires Linked(rows) && l < |rows| && t in timers && t !in rows[l] && j <= |rows[l]| && head == Nodes(l, rows[l])[j]
      modifies mem
      ensures Linked(rows[l := InsertAt(rows[l], j, t)])
    {
      hide Ring, Nodes, RowOk, Structure, Distinct, OnlyLevel, InsertAt;
      ghost var next0, prev0 := mem.next, mem.prev;
      RowAt(next0, prev0, timers.Keys, rows, l);
      NodesSize(l, rows[l]);
      LinkRowStep(next0, prev0, timers.Keys, l, rows[l], j, t);
      mem.InsertAfter(head, Row(t, l));
      StructureUpdate(next0, prev0, mem.next, mem.prev, timers.Keys, rows, l, InsertAt(rows[l], j, t));
    }

    /** Linking a timer on the bottom level, and on more levels as long as the counter's bits say so. */
    method LinkRows(t: Id, heads: seq<Node>, k: Tick, ghost pos: seq<nat>) returns (ghost from: nat, ghost rows: seq<seq<Id>>)
      requires levels >= 1 && t in timers && t !in list && Linked(Rows(list, height, levels))
      requires |heads| == |pos| == levels && Places(Rows(list, height, levels), timers, k, heads, pos)
      modifies mem, this`randomNr
      ensures from < levels && Linked(rows) && PartlyLinked(Rows(list, height, levels), rows, t, pos, from)
      ensures randomNr == old(randomNr) + 1
    {
      hide TQ.Ahead, Tall, TQ.Sorted, Ring, Nodes, RowOk, TQ.Splits, Structure;
      randomNr := randomNr + 1;
      var tst := randomNr;
      ghost var first := Rows(list, height, levels);
      RowsLack(list, height, levels, t);
      LinkableRow(first, timers, k, heads, pos, levels - 1);
      LinkRow(t, levels - 1, heads[levels - 1], first, pos[levels - 1]);
      rows := first[levels - 1 := InsertAt(first[levels - 1], pos[levels - 1], t)];
      from := levels - 1;
      var rowLvl := 2;
      while rowLvl <= levels
        invariant 2 <= rowLvl <= levels + 1 && from == levels - (rowLvl - 1)
        invariant Linked(rows) && PartlyLinked(first, rows, t, pos, from) && randomNr == old(randomNr) + 1
      {
        if tst & mask != 0 {
          break;
        }
        LinkableRow(first, timers, k, heads, pos, levels - rowLvl);
        LinkRow(t, levels - rowLvl, heads[levels - rowLvl], rows, pos[levels - rowLvl]);
        from := levels - rowLvl;
        rows := rows[from := InsertAt(rows[from], pos[from], t)];
        tst := Shifted(tst, mask);
        rowLvl := rowLvl + 1;
      }
    }

    static lemma RowsLack(list: seq<Id>, height: map<Id, nat>, levels: nat, t: Id)
      requires t !in list
      ensures forall l :: 0 <= l < levels ==> t !in Rows(list, height, levels)[l]
    {
      forall l | 0 <= l < levels ensures t !in Rows(list, height, levels)[l] {
        TallHas(list, height, levels - l);
      }
    }

    static lemma LinkableRow(rows: seq<seq<Id>>, ts: Timers, k: Tick, heads: seq<Node>, pos: seq<nat>, l: nat)
      requires l < |pos| && Places(rows, ts, k, heads, pos)
      ensures pos[l] <= |rows[l]| && heads[l] == Nodes(l, rows[l])[pos[l]]
    {
      assert PlaceOn(rows[l], ts, k, l, heads[l], pos[l]);
    }

    /** The part of rt_timer_start that links the timer into the list. */
    method Insert(t: Id, k: Tick, ghost p: nat, ghost base: Tick)
      requires levels >= 1 && t in timers && t !in list && p <= |list| && HeightsOk() && Linked(Rows(list, height, levels))
      requires TQ.Known(list, timers) && TQ.Sorted(list, timers) && Distinct(list) && TQ.Splits(list, timers, k, p)
      requires TQ.Windowed(base, list, timers) && TQ.InWindow(base, k)
      modifies this`list, this`height, this`randomNr, mem
      ensures list == InsertAt(old(list), p, t) && HeightsOk() && Linked(Rows(list, height, levels))
      ensures randomNr == old(randomNr) + 1 && height == old(height)[t := HeightOf(height, t)]
    {
      hide Tall, TQ.Sorted, Structure, TQ.Splits, Distinct, TQ.InWindow, TQ.Windowed, Places, PartlyLinked;
      var heads; ghost var pos;
      heads, pos := FindPlaces(k, base);
      ghost var from, rows := LinkRows(t, heads, k, pos);
      RowsInsert(list, height, levels, timers, k, p, t, heads, pos, from, rows, base);
      HeightsInsert(list, height, levels, p, t, levels - from);
      list, height := InsertAt(list, p, t), height[t := levels - from];
    }

    /** rt_timer_start: whatever the levels and the counter, the plain list's start. */
    method Start(t: Id, ghost base: Tick)
      requires Valid() && t in timers && TQ.StartReady(Abs(), t, tick, base)
      modifies this`list, this`height, this`timers, this`randomNr, mem
      ensures Valid() && Abs() == TQ.Start(old(Abs()), t, tick)
      ensures randomNr == old(randomNr) + 1 && height == old(height)[t := HeightOf(height, t)]
    {
      hide TQ.Ahead, Tall, TQ.Sorted, Structure, TQ.Splits, Distinct, TQ.Place, TQ.InWindow, InsertAt;
      ghost var q := Abs();
      TQ.StartValid(q, t, tick, base);
      TQ.EraseValid(list, timers, t);
      EraseProps(list, t);
      Remove(t);
      var k := TQ.Timeout(tick, timers[t].initTick);
      timers := timers[t := timers[t].(timeout := k, active := true)];
      assert timers.Keys == q.timers.Keys;
      WindowedFrame(base, list, q.timers, timers);
      Insert(t, k, TQ.Place(list, q.timers, k), base);
    }

    static lemma HeightsInsert(s: seq<Id>, height: map<Id, nat>, levels: nat, p: nat, t: Id, h: nat)
      requires p <= |s| && 1 <= h <= levels && forall x :: x in s ==> 1 <= HeightOf(height, x) <= levels
      ensures forall x :: x in InsertAt(s, p, t) ==> 1 <= HeightOf(height[t := h], x) <= levels
    {
      forall x | x in InsertAt(s, p, t) ensures 1 <= HeightOf(height[t := h], x) <= levels {
        InsertMembers(s, p, t, x);
      }
    }

    /** rt_timer_stop; false is -RT_ERROR */
    method Stop(t: Id) returns (ok: bool)
      requires Valid() && t in timers
      modifies this`list, this`timers, mem
      ensures Valid() && Abs() == TQ.Stop(old(Abs()), t) && ok == old(timers[t].active)
    {
      hide TQ.Ahead, Tall, TQ.Sorted, Structure, Distinct;
      if !timers[t].active {
        return false;
      }
      TQ.StopValid(Abs(), t);
      Remove(t);
      timers := timers[t := timers[t].(active := false)];
      assert timers.Keys == old(timers.Keys);
      ok := true;
    }

    // -------------------------------------------------------------- checking

    /** The first node of the bottom level. */
    method Bottom() returns (n: Node)
      requires Valid()
      ensures if list == [] then n == Head(levels - 1) else n == Row(list[0], levels - 1)
    {
      hide TQ.Valid, Ring, Nodes, Tall;
      BottomRow(list, height);
      RowAt(mem.next, mem.prev, timers.Keys, Rows(list, height, levels), levels - 1);
      NodesSize(levels - 1, list);
      RingNeighbours(mem.next, mem.prev, Nodes(levels - 1, list), 0);
      n := mem.next[Head(levels - 1)];
    }

    static lemma {:induction false} BottomRow(s: seq<Id>, height: map<Id, nat>)
      requires forall t :: t in s ==> 1 <= HeightOf(height, t)
      ensures Tall(s, height, 1) == s
    {
      if s != [] {
        BottomRow(s[1..], height);
      }
    }

    /** rt_timer_list_next_timeout: the timeout no started timer is before, RT_TICK_MAX when there is none */
    method NextTimeout() returns (k: Tick)
      requires Valid()
      ensures list == [] ==> k == 0xffff_ffff
      ensures forall t :: t in list ==> TQ.Ahead(timers[t].timeout, k) < TQ.HALF
      ensures list != [] ==> exists t :: t in list && timers[t].timeout == k
    {
      var n := Bottom();
      if n == Head(levels - 1) {
        return 0xffff_ffff;
      }
      k := timers[n.timer].timeout;
      assert n.timer == list[0] && list[0] in list;
    }

    /** One round of rt_timer_check's loop: the callback runs between the removal and the restart. */
    method Fire(t: Id, ghost base: Tick)
      requires Valid() && list != [] && t == list[0] && TQ.CheckReady(Abs(), tick, base) && TQ.Expired(timers[t], tick)
      modifies this`list, this`height, this`timers, this`randomNr, mem
      ensures Valid() && Abs() == TQ.FireHead(old(Abs()), tick)
    {
      hide TQ.Ahead, Tall, TQ.Sorted, Structure, Distinct, TQ.Place, TQ.InWindow, Erase, TQ.Due;
      ghost var q := Abs();
      TQ.HeadOff(q, tick, base);
      EraseAt(list, 0);
      assert RemoveAt(list, 0) == list[1..];
      Remove(t);
      if timers[t].periodic && timers[t].active {
        timers := timers[t := timers[t].(active := false)];
        assert timers.Keys == q.timers.Keys && Abs() == TQ.WithoutHead(q);
        assert t in q.list;
        TQ.Restarted(tick, timers[t].initTick, base);
        Start(t, base);
      } else {
        timers := timers[t := timers[t].(active := false)];
        assert timers.Keys == q.timers.Keys && Abs() == TQ.WithoutHead(q);
      }
    }

    /** rt_timer_check.  The result lists the callbacks made, in order; they leave timers alone. */
    method Check(ghost base: Tick) returns (fired: seq<Id>)
      requires Valid() && TQ.CheckReady(Abs(), tick, base)
      modifies this`list, this`height, this`timers, this`randomNr, mem
      ensures Valid() && TQ.CheckReady(Abs(), tick, base)
      ensures Abs() == TQ.FireN(old(Abs()), TQ.Due(old(list), old(timers), tick), tick)
      ensures fired == old(list)[..TQ.Due(old(list), old(timers), tick)]
      ensures forall t :: t in fired <==> t in old(list) && TQ.Expired(old(timers)[t], tick)
      ensures TQ.CheckResult(old(Abs()), Abs(), tick)
      ensures forall t :: t in list ==> !TQ.Expired(timers[t], tick)
    {
      hide TQ.Due, TQ.FireHead, TQ.CheckResult, TQ.Valid, TQ.Expired, Structure, TQ.CheckReady, TQ.Sorted;
      ghost var q := Abs();
      ghost var n := DueCount(q, tick, base);
      fired := [];
      while true
        invariant Valid() && |fired| <= n && fired == q.list[..|fired|] && TQ.Known(q.list, q.timers)
        invariant Abs() == TQ.FireN(q, |fired|, tick)
        decreases n - |fired|
      {
        var node := Bottom();
        LoopState(q, |fired|, tick, base);
        if node == Head(levels - 1) {
          break;
        }
        if !(TQ.Ahead(tick, timers[node.timer].timeout) < TQ.HALF) {
          break;
        }
        Fire(node.timer, base);
        fired := fired + [node.timer];
      }
      TQ.FireAll(q, tick, base);
      FiredExact(q, tick, base);
    }

    static lemma DueCount(q: TQ.Queue, now: Tick, base: Tick) returns (n: nat)
      requires TQ.Valid(q) && TQ.CheckReady(q, now, base)
      ensures TQ.Known(q.list, q.timers) && n == TQ.Due(q.list, q.timers, now) <= |q.list|
    {
      n := TQ.Due(q.list, q.timers, now);
    }

    static lemma LoopState(q: TQ.Queue, i: nat, now: Tick, base: Tick)
      requires TQ.Valid(q) && TQ.CheckReady(q, now, base) && i <= TQ.Due(q.list, q.timers, now)
      ensures var q', n := TQ.FireN(q, i, now), TQ.Due(q.list, q.timers, now);
              && TQ.Known(q'.list, q'.timers) && TQ.CheckReady(q', now, base)
              && (q'.list != [] && TQ.Ahead(now, q'.timers[q'.list[0]].timeout) < TQ.HALF <==> i < n)
              && (i < n ==> q'.list[0] == q.list[i] && TQ.FireN(q, i + 1, now) == TQ.FireHead(q', now)
                            && TQ.Expired(q'.timers[q'.list[0]], now))
    {
      hide TQ.FireHead, TQ.FireN, TQ.Sorted, TQ.Ahead;
      TQ.FireSome(q, i, now, base);
      var q' := TQ.FireN(q, i, now);
      TQ.DueFront(q'.list, q'.timers, now);
      if i < TQ.Due(q.list, q.timers, now) {
        TQ.FireOneMore(q, i, now, base);
      }
    }

    static lemma FiredExact(q: TQ.Queue, now: Tick, base: Tick)
      requires TQ.Valid(q) && TQ.CheckReady(q, now, base)
      ensures forall t :: t in q.list[..TQ.Due(q.list, q.timers, now)] <==> t in q.list && TQ.Expired(q.timers[t], now)
    {
      hide TQ.Sorted, TQ.Expired, TQ.Due;
      TQ.DueExact(q.list, q.timers, now, base);
      var n := TQ.Due(q.list, q.timers, now);
      forall t ensures t in q.list[..n] <==> t in q.list && TQ.Expired(q.timers[t], now) {
        if t in q.list && TQ.Expired(q.timers[t], now) {
          var i :| 0 <= i < |q.list| && q.list[i] == t;
          assert q.list[..n][i] == t;
        }
      }
    }

    /** rt_tick_increase, as far as timers go: while every started timer is due between the next tick
        and half the range from now, each tick fires exactly the timers due at it, wrapping or not. */
    method TickIncrease() returns (fired: seq<Id>)
      requires Valid() && TQ.Armed(Abs(), tick)
      modifies this`list, this`height, this`timers, this`randomNr, this`tick, mem
      ensures Valid() && TQ.Armed(Abs(), tick)
      ensures tick == (old(tick) + 1) % TQ.WORD
      ensures forall t :: t in fired <==> t in old(list) && old(timers)[t].timeout == tick
      ensures Distinct(fired) && fired <= old(list) && TQ.CheckResult(old(Abs()), Abs(), tick)
    {
      hide TQ.CheckResult, TQ.Valid, Structure, TQ.Armed, TQ.CheckReady, TQ.Due, TQ.FireN, TQ.Expired, HeightsOk, Linked, TQ.Timeout;
      TQ.ArmedTick(Abs(), tick);
      tick := TQ.Timeout(tick, 1);
      ghost var q := Abs();
      fired := Check(tick);
      TQ.ArmedAgain(q, Abs(), tick);
      TQ.PrefixDistinct(q, |fired|);
    }
  }
}
