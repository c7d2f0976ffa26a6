/** What the dependency loop check of tools/kconfiglib.py is for: when it finds no loop, the values of all symbols
    can be computed, each from values that come before it. */
module KconfigRank {
  import opened Basics
  import opened KconfigModel
  import opened KconfigDeps
  import DL = DepLoop

  /** _dependents of the defined symbols, in a configuration without choices */
  function GraphOf(k: Config): DL.Graph {
    map x | x in k.syms && Defined(k, x) :: set y | y in k.syms && DependsOn(k, y, x)
  }

  lemma GraphClosed(k: Config)
    ensures DL.Closed(GraphOf(k))
  {
  }

  /** What MODULES depends on, directly or not: the symbols whose own type must not wait for MODULES.  This is what
      the loop check does not look at, since no symbol is a dependent of MODULES for its type's sake. */
  ghost predicate ModulesFirst(k: Config, low: set<Id>) {
    && (Defined(k, k.modules) ==> k.modules in low)
    && (forall x, y :: y in low && DependsOn(k, y, x) && Defined(k, x) ==> x in low)
    && (forall y :: y in low && IsSym(k, y) ==> k.syms[y].kind != TRISTATE)
  }

  // ---------------------------------------------------------------- the order of finishing

  /** Where x was finished first */
  ghost function Pos(done: seq<Id>, x: Id): (i: nat)
    requires x in done
    ensures i < |done| && done[i] == x
  {
    if done[0] == x then 0 else 1 + Pos(done[1..], x)
  }

  lemma {:induction false} PosFirst(done: seq<Id>, x: Id, k: nat)
    requires k <= |done| && x in done[..k]
    ensures x in done && Pos(done, x) < k
  {
    if done[0] != x {
      assert done[..k] == [done[0]] + done[1..][..k - 1];
      PosFirst(done[1..], x, k - 1);
    }
  }

  /** What depends on a symbol is finished before it. */
  lemma DependentsFirst(g: DL.Graph, done: seq<Id>, x: Id, y: Id)
    requires DL.DoneOk(g, done) && x in done && DL.Edge(g, x, y)
    ensures y in done && Pos(done, y) < Pos(done, x)
  {
    assert DL.Finished(g, done, Pos(done, x));
    PosFirst(done, y, Pos(done, x));
  }

  ghost predicate Checked(k: Config, done: seq<Id>) {
    DL.DoneOk(GraphOf(k), done) && forall x :: x in GraphOf(k) ==> x in done
  }

  /** The later finished, the lower; what MODULES needs comes before all the rest. */
  ghost function Level(k: Config, done: seq<Id>, low: set<Id>, i: Id): nat {
    if !Defined(k, i) || i !in done then 0
    else if i in low then |done| - Pos(done, i)
    else 2 * |done| - Pos(done, i)
  }

  ghost function RankAt(k: Config, done: seq<Id>, low: set<Id>, c: Cell): nat {
    if c.Vis? && Constant(k, c.id) then 6 * |done| + 3
    else 3 * Level(k, done, low, c.id) + if c.TriVal? then 1 else if c.StrVal? then 2 else 0
  }

  ghost function RankOf(k: Config, done: seq<Id>, low: set<Id>): Cell -> nat {
    c => RankAt(k, done, low, c)
  }

  // ---------------------------------------------------------------- every attribute comes after what it looks at

  /** The attribute of the same symbol that comes before */
  predicate Own(c: Cell, d: Cell) {
    d.id == c.id && ((d.Vis? && (c.TriVal? || c.StrVal?)) || (d.TriVal? && c.StrVal?))
  }

  lemma LooksAt(k: Config, c: Cell, d: Cell)
    requires Parsed(k) && k.choices == map[] && d in MayRead(k, c) && IsSym(k, c.id) && k.syms[c.id].defined
    ensures Own(c, d) || (k.syms[c.id].kind == TRISTATE && d == TriVal(k.modules)) || (!d.Vis? && d.id in Mentions(k, c.id))
  {
    var s := k.syms[c.id];
    assert SymOk(k, c.id);
    PromptsCellsItems(k, s.prompts);
    DefaultsCellsItems(k, s.defaults, s.defaults, 0);
    RangesCellsItems(k, s.ranges, s.ranges, 0);
    ExprCellsItems(k, s.weakRevDep);
    ExprCellsItems(k, s.directDep);
    ExprCellsItems(k, s.revDep);
    hide PromptsCells, DefaultsCells, RangesCells, ExprCells, AllItems, DefaultsItems, RangesItems, Items;
  }

  lemma MentionedBelow(k: Config, done: seq<Id>, low: set<Id>, i: Id, x: Id)
    requires Parsed(k) && k.choices == map[] && Checked(k, done) && ModulesFirst(k, low)
    requires IsSym(k, i) && k.syms[i].defined && x in Mentions(k, i)
    ensures Level(k, done, low, x) < Level(k, done, low, i)
  {
    hide Mentions;
    assert SymOk(k, i) && i in GraphOf(k);
    if Defined(k, x) {
      assert SymOk(k, x);
      assert DependsOn(k, i, x) && DL.Edge(GraphOf(k), x, i);
      DependentsFirst(GraphOf(k), done, x, i);
    }
  }

  lemma TypeBelow(k: Config, done: seq<Id>, low: set<Id>, i: Id)
    requires Parsed(k) && k.choices == map[] && Checked(k, done) && ModulesFirst(k, low)
    requires IsSym(k, i) && k.syms[i].defined && k.syms[i].kind == TRISTATE
    ensures Level(k, done, low, k.modules) < Level(k, done, low, i)
  {
    hide Mentions;
    assert i in GraphOf(k);
  }

  lemma RankBelow(k: Config, done: seq<Id>, low: set<Id>, c: Cell, d: Cell)
    requires Parsed(k) && k.choices == map[] && Checked(k, done) && ModulesFirst(k, low) && d in MayRead(k, c)
    ensures RankAt(k, done, low, d) < RankAt(k, done, low, c)
  {
    assert IsSym(k, c.id) && SymOk(k, c.id);
    if k.syms[c.id].defined {
      LooksAt(k, c, d);
      if !Own(c, d) {
        if d.id in Mentions(k, c.id) && !d.Vis? {
          MentionedBelow(k, done, low, c.id, d.id);
        } else {
          TypeBelow(k, done, low, c.id);
        }
      }
    }
    hide Mentions;
  }

  /** When the loop check has finished every symbol of a choice-free configuration, and nothing that MODULES
      depends on is a tristate symbol, the order of finishing ranks all attributes. */
  lemma CheckRanks(k: Config, done: seq<Id>, low: set<Id>)
    requires Parsed(k) && k.choices == map[] && Checked(k, done) && ModulesFirst(k, low)
    ensures Ranked(k, RankOf(k, done, low))
  {
    forall c, d | d in MayRead(k, c) ensures RankOf(k, done, low)(d) < RankOf(k, done, low)(c) {
      RankBelow(k, done, low, c, d);
    }
  }

  /** The startup check, on a choice-free configuration: it raises exactly when there is a loop, and otherwise all
      values can be computed. */
  method CheckStartup(k: Config, ghost low: set<Id>) returns (loop: Option<seq<Id>>, ghost rank: Cell -> nat)
    requires Parsed(k) && k.choices == map[] && ModulesFirst(k, low)
    ensures loop.Some? <==> DL.HasCycle(GraphOf(k))
    ensures loop.Some? ==> DL.IsLoop(GraphOf(k), loop.value)
    ensures loop.None? ==> Ranked(k, rank)
  {
    GraphClosed(k);
    var check := new DL.LoopCheck(GraphOf(k));
    loop := check.CheckAll();
    rank := RankOf(k, check.done, low);
    if loop.None? {
      CheckRanks(k, check.done, low);
    }
  }

  /** The condition on MODULES is needed: when MODULES looks at a tristate symbol, that symbol's type looks back at
      MODULES, and no rank exists, whatever the loop check says. */
  lemma ModulesOnTristate(k: Config, x: Id, rank: Cell -> nat)
    requires TriVal(x) in MayRead(k, TriVal(k.modules))
    requires IsSym(k, x) && k.syms[x].kind == TRISTATE && !k.syms[x].isConstant && k.syms[x].choice.None?
    ensures !Ranked(k, rank)
  {
    assert TriVal(k.modules) in MayRead(k, TriVal(x));
    hide MayRead;
    if Ranked(k, rank) {
      LooksBelow(k, rank, TriVal(k.modules), TriVal(x));
      LooksBelow(k, rank, TriVal(x), TriVal(k.modules));
    }
  }

  lemma LooksBelow(k: Config, rank: Cell -> nat, c: Cell, d: Cell)
    requires Ranked(k, rank) && d in MayRead(k, c)
    ensures rank(d) < rank(c)
  {
  }
}
