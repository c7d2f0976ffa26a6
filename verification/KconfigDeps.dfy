/** What each attribute can look at, as a fact about the configuration alone: locality of every
    computation, the static dependencies, and the _dependents sets of _build_dep and _add_choice_deps. */
module KconfigDeps {
  import opened Basics
  import opened KconfigModel

  // ---------------------------------------------------------------- locality

  ghost predicate SameAt<T(!new)>(m: map<Id, T>, m': map<Id, T>, i: Id) {
    (i in m <==> i in m') && (i in m ==> m[i] == m'[i])
  }

  /** Two evaluations see the same on the cells cs. */
  ghost predicate Same(k: Config, u: User, env: Env, u': User, env': Env, cs: set<Cell>) {
    forall c :: c in cs ==> env(c) == env'(c) && (IsChoice(k, c.id) ==> SameAt(u.tri, u'.tri, c.id))
  }

  lemma ModeLocal(k: Config, u: User, env: Env, u': User, env': Env, c: Id)
    requires IsChoice(k, c) && Same(k, u, env, u', env', ModeReads(k, u, env, c))
    ensures Mode(k, u, env, c) == Mode(k, u', env', c) && ModeReads(k, u, env, c) == ModeReads(k, u', env', c)
  {
    assert Vis(c) in ModeReads(k, u, env, c) && Vis(c).id == c;
  }

  lemma SymTypeLocal(k: Config, u: User, env: Env, u': User, env': Env, i: Id)
    requires IsSym(k, i) && Same(k, u, env, u', env', SymTypeReads(k, u, env, i))
    ensures SymIsTristate(k, u, env, i) == SymIsTristate(k, u', env', i)
    ensures SymTypeReads(k, u, env, i) == SymTypeReads(k, u', env', i)
  {
    var s := k.syms[i];
    if s.kind == TRISTATE && s.choice.Some? && IsChoice(k, s.choice.value) {
      ModeLocal(k, u, env, u', env', s.choice.value);
    }
  }

  lemma ComparisonLocal(k: Config, u: User, env: Env, u': User, env': Env, a: Id, b: Id)
    requires Same(k, u, env, u', env', ComparisonReads(k, env, a, b))
    ensures Comparison(k, env, a, b) == Comparison(k, env', a, b)
    ensures ComparisonReads(k, env, a, b) == ComparisonReads(k, env', a, b)
  {
    assert NumCell(k, a) in ComparisonReads(k, env, a, b) || StrVal(a) in ComparisonReads(k, env, a, b);
  }

  lemma {:induction false} ExprLocal(k: Config, u: User, env: Env, u': User, env': Env, e: Expr)
    requires Same(k, u, env, u', env', ExprReads(k, u, env, e))
    ensures ExprVal(k, u, env, e) == ExprVal(k, u', env', e)
    ensures ExprReads(k, u, env, e) == ExprReads(k, u', env', e)
  {
    match e
    case Leaf(i) => if IsChoice(k, i) { ModeLocal(k, u, env, u', env', i); }
    case And(a, b) =>
      ExprLocal(k, u, env, u', env', a);
      if ExprVal(k, u, env, a) != 0 { ExprLocal(k, u, env, u', env', b); }
    case Or(a, b) =>
      ExprLocal(k, u, env, u', env', a);
      if ExprVal(k, u, env, a) != 2 { ExprLocal(k, u, env, u', env', b); }
    case Not(a) => ExprLocal(k, u, env, u', env', a);
    case Rel(_, a, b) => ComparisonLocal(k, u, env, u', env', a, b);
  }

  lemma {:induction false} PromptsLocal(k: Config, u: User, env: Env, u': User, env': Env, es: seq<Expr>)
    requires Same(k, u, env, u', env', PromptsReads(k, u, env, es))
    ensures PromptsVal(k, u, env, es) == PromptsVal(k, u', env', es)
    ensures PromptsReads(k, u, env, es) == PromptsReads(k, u', env', es)
  {
    if es != [] {
      PromptsLocal(k, u, env, u', env', es[..|es| - 1]);
      ExprLocal(k, u, env, u', env', es[|es| - 1]);
    }
  }

  lemma SymVisLocal(k: Config, u: User, env: Env, u': User, env': Env, i: Id)
    requires IsSym(k, i) && Same(k, u, env, u', env', SymVisReads(k, u, env, i))
    ensures SymVis(k, u, env, i) == SymVis(k, u', env', i) && SymVisReads(k, u, env, i) == SymVisReads(k, u', env', i)
  {
    var s := k.syms[i];
    PromptsLocal(k, u, env, u', env', s.prompts);
    var vis := PromptsVal(k, u, env, s.prompts);
    if HiddenReads(k, u, env, i, vis) != {} {
      ModeLocal(k, u, env, u', env', s.choice.value);
    }
    if !HiddenByChoice(k, u, env, i, vis) && vis == 1 {
      SymTypeLocal(k, u, env, u', env', i);
    }
  }

  lemma ChoiceVisLocal(k: Config, u: User, env: Env, u': User, env': Env, c: Id)
    requires IsChoice(k, c) && Same(k, u, env, u', env', ChoiceVisReads(k, u, env, c))
    ensures ChoiceVis(k, u, env, c) == ChoiceVis(k, u', env', c)
    ensures ChoiceVisReads(k, u, env, c) == ChoiceVisReads(k, u', env', c)
  {
    PromptsLocal(k, u, env, u', env', k.choices[c].prompts);
  }

  lemma {:induction false} DefaultTriLocal(k: Config, u: User, env: Env, u': User, env': Env, ds: seq<Default>)
    requires Same(k, u, env, u', env', DefaultTriReads(k, u, env, ds))
    ensures DefaultTri(k, u, env, ds) == DefaultTri(k, u', env', ds)
    ensures DefaultTriReads(k, u, env, ds) == DefaultTriReads(k, u', env', ds)
  {
    if ds != [] {
      ExprLocal(k, u, env, u', env', ds[0].cond);
      if ExprVal(k, u, env, ds[0].cond) != 0 {
        ExprLocal(k, u, env, u', env', ds[0].value);
      } else {
        DefaultTriLocal(k, u, env, u', env', ds[1..]);
      }
    }
  }

  /** The user's own setting is the same, or out of sight. */
  ghost predicate OwnSame(u: User, env: Env, u': User, i: Id) {
    V(env, i) == 0 || (SameAt(u.tri, u'.tri, i) && SameAt(u.str, u'.str, i))
  }

  lemma PlainBaseLocal(k: Config, u: User, env: Env, u': User, env': Env, i: Id)
    requires IsSym(k, i) && env(Vis(i)) == env'(Vis(i)) && OwnSame(u, env, u', i)
    requires Same(k, u, env, u', env', PlainBaseReads(k, u, env, i))
    ensures PlainBase(k, u, env, i) == PlainBase(k, u', env', i)
    ensures PlainBaseReads(k, u, env, i) == PlainBaseReads(k, u', env', i)
  {
    var s := k.syms[i];
    if !(V(env, i) != 0 && i in u.tri) {
      DefaultTriLocal(k, u, env, u', env', s.defaults);
      ExprLocal(k, u, env, u', env', s.weakRevDep);
      if ExprVal(k, u, env, s.weakRevDep) != 0 {
        ExprLocal(k, u, env, u', env', s.directDep);
      }
    }
  }

  lemma PlainTriLocal(k: Config, u: User, env: Env, u': User, env': Env, i: Id)
    requires IsSym(k, i) && OwnSame(u, env, u', i)
    requires Same(k, u, env, u', env', PlainTriReads(k, u, env, i))
    ensures PlainTri(k, u, env, i) == PlainTri(k, u', env', i)
    ensures PlainTriReads(k, u, env, i) == PlainTriReads(k, u', env', i)
  {
    var s := k.syms[i];
    assert Vis(i) in PlainTriReads(k, u, env, i);
    PlainBaseLocal(k, u, env, u', env', i);
    ExprLocal(k, u, env, u', env', s.revDep);
    if ExprVal(k, u, env, s.revDep) != 0 {
      ExprLocal(k, u, env, u', env', s.directDep);
    }
    if Max(ExprVal(k, u, env, s.revDep), PlainBase(k, u, env, i)) == 1 {
      SymTypeLocal(k, u, env, u', env', i);
      if SymIsTristate(k, u, env, i) {
        ExprLocal(k, u, env, u', env', s.weakRevDep);
      }
    }
  }

  lemma SymTriLocal(k: Config, u: User, env: Env, u': User, env': Env, i: Id)
    requires IsSym(k, i) && OwnSame(u, env, u', i)
    requires Same(k, u, env, u', env', SymTriReads(k, u, env, i))
    ensures SymTri(k, u, env, i) == SymTri(k, u', env', i)
    ensures SymTriReads(k, u, env, i) == SymTriReads(k, u', env', i)
  {
    var s := k.syms[i];
    if !s.isConstant && Logical(s.kind) {
      if s.choice.None? {
        PlainTriLocal(k, u, env, u', env', i);
      } else {
        assert Vis(i) in SymTriReads(k, u, env, i);
      }
    }
  }

  lemma {:induction false} RangeLocal(k: Config, u: User, env: Env, u': User, env': Env, i: Id, rs: seq<Range>)
    requires IsSym(k, i) && Same(k, u, env, u', env', ActiveRangeReads(k, u, env, rs))
    ensures ActiveRange(k, u, env, i, rs) == ActiveRange(k, u', env', i, rs)
    ensures ActiveRangeReads(k, u, env, rs) == ActiveRangeReads(k, u', env', rs)
  {
    if rs != [] {
      ExprLocal(k, u, env, u', env', rs[0].cond);
      if ExprVal(k, u, env, rs[0].cond) != 0 {
        assert StrVal(rs[0].low) in ActiveRangeReads(k, u, env, rs) && StrVal(rs[0].high) in ActiveRangeReads(k, u, env, rs);
      } else {
        RangeLocal(k, u, env, u', env', i, rs[1..]);
      }
    }
  }

  lemma {:induction false} DefaultStrLocal(k: Config, u: User, env: Env, u': User, env': Env, ds: seq<Default>)
    requires Same(k, u, env, u', env', DefaultStrReads(k, u, env, ds))
    ensures DefaultStr(k, u, env, ds) == DefaultStr(k, u', env', ds)
    ensures DefaultStrReads(k, u, env, ds) == DefaultStrReads(k, u', env', ds)
  {
    if ds != [] {
      ExprLocal(k, u, env, u', env', ds[0].cond);
      if ExprVal(k, u, env, ds[0].cond) == 0 {
        DefaultStrLocal(k, u, env, u', env', ds[1..]);
      } else if ds[0].value.Leaf? {
        assert StrVal(ds[0].value.id) in DefaultStrReads(k, u, env, ds);
      }
    }
  }

  lemma SymStrLocal(k: Config, u: User, env: Env, u': User, env': Env, i: Id)
    requires IsSym(k, i) && OwnSame(u, env, u', i)
    requires Same(k, u, env, u', env', SymStrReads(k, u, env, i))
    ensures SymStr(k, u, env, i) == SymStr(k, u', env', i)
    ensures SymStrReads(k, u, env, i) == SymStrReads(k, u', env', i)
  {
    var s := k.syms[i];
    if Logical(s.kind) {
      assert TriVal(i) in SymStrReads(k, u, env, i);
    } else if s.kind != UNKNOWN {
      assert Vis(i) in SymStrReads(k, u, env, i);
      if s.kind == STRING {
        if !(V(env, i) != 0 && i in u.str) {
          DefaultStrLocal(k, u, env, u', env', s.defaults);
        }
      } else {
        RangeLocal(k, u, env, u', env', i, s.ranges);
        if !UserNumberUsable(k, u, env, i) {
          DefaultStrLocal(k, u, env, u', env', s.defaults);
        }
      }
    }
  }

  lemma {:induction false} DefaultSelLocal(k: Config, u: User, env: Env, u': User, env': Env, ds: seq<SymDefault>)
    requires Same(k, u, env, u', env', DefaultSelReads(k, u, env, ds))
    ensures DefaultSel(k, u, env, ds) == DefaultSel(k, u', env', ds)
    ensures DefaultSelReads(k, u, env, ds) == DefaultSelReads(k, u', env', ds)
  {
    if ds != [] {
      ExprLocal(k, u, env, u', env', ds[0].cond);
      if ExprVal(k, u, env, ds[0].cond) != 0 {
        assert Vis(ds[0].sym) in DefaultSelReads(k, u, env, ds);
      }
      if !(ExprVal(k, u, env, ds[0].cond) != 0 && V(env, ds[0].sym) != 0) {
        DefaultSelLocal(k, u, env, u', env', ds[1..]);
      }
    }
  }

  lemma {:induction false} FirstVisibleLocal(k: Config, u: User, env: Env, u': User, env': Env, syms: seq<Id>)
    requires Same(k, u, env, u', env', FirstVisibleReads(env, syms))
    ensures FirstVisible(env, syms) == FirstVisible(env', syms)
    ensures FirstVisibleReads(env, syms) == FirstVisibleReads(env', syms)
  {
    if syms != [] {
      assert Vis(syms[0]) in FirstVisibleReads(env, syms);
      if V(env, syms[0]) == 0 {
        FirstVisibleLocal(k, u, env, u', env', syms[1..]);
      }
    }
  }

  lemma SelectionLocal(k: Config, u: User, env: Env, u': User, env': Env, c: Id)
    requires IsChoice(k, c) && SameAt(u.sel, u'.sel, c)
    requires Same(k, u, env, u', env', SelectionReads(k, u, env, c))
    ensures Selection(k, u, env, c) == Selection(k, u', env', c)
    ensures SelectionReads(k, u, env, c) == SelectionReads(k, u', env', c)
  {
    ModeLocal(k, u, env, u', env', c);
    if Mode(k, u, env, c) == 2 {
      if c in u.sel {
        assert Vis(u.sel[c]) in SelectionReads(k, u, env, c);
      }
      if !(c in u.sel && V(env, u.sel[c]) != 0) {
        DefaultSelLocal(k, u, env, u', env', k.choices[c].defaults);
        if DefaultSel(k, u, env, k.choices[c].defaults).None? {
          FirstVisibleLocal(k, u, env, u', env', k.choices[c].syms);
        }
      }
    }
  }

  /** An attribute depends on nothing but what its evaluation looks at. */
  lemma ComputeLocal(k: Config, u: User, env: Env, u': User, env': Env, c: Cell)
    requires Same(k, u, env, u', env', Reads(k, u, env, c))
    requires (c.TriVal? || c.StrVal?) ==> OwnSame(u, env, u', c.id)
    requires c.Sel? ==> SameAt(u.sel, u'.sel, c.id)
    ensures Compute(k, u, env, c) == Compute(k, u', env', c) && Reads(k, u, env, c) == Reads(k, u', env', c)
  {
    match c
    case Vis(i) =>
      if IsChoice(k, i) {
        ChoiceVisLocal(k, u, env, u', env', i);
      } else if IsSym(k, i) {
        SymVisLocal(k, u, env, u', env', i);
      }
    case TriVal(i) => if IsSym(k, i) { SymTriLocal(k, u, env, u', env', i); }
    case StrVal(i) => if IsSym(k, i) { SymStrLocal(k, u, env, u', env', i); }
    case Sel(i) => if IsChoice(k, i) { SelectionLocal(k, u, env, u', env', i); }
  }

  // ---------------------------------------------------------------- static dependencies

  function ModeCells(k: Config, c: Id): set<Cell> {
    {Vis(c)} + if IsChoice(k, c) then TypeReads(k, k.choices[c].kind) else {}
  }

  function ExprCells(k: Config, e: Expr): set<Cell> {
    match e
    case Leaf(i) => if IsChoice(k, i) then ModeCells(k, i) else {TriVal(i)}
    case And(a, b) => ExprCells(k, a) + ExprCells(k, b)
    case Or(a, b) => ExprCells(k, a) + ExprCells(k, b)
    case Not(a) => ExprCells(k, a)
    case Rel(_, a, b) => {NumCell(k, a), NumCell(k, b), StrVal(a), StrVal(b)}
  }

  function PromptsCells(k: Config, es: seq<Expr>): set<Cell> {
    if es == [] then {} else PromptsCells(k, es[..|es| - 1]) + ExprCells(k, es[|es| - 1])
  }

  function DefaultsCells(k: Config, ds: seq<Default>): set<Cell> {
    if ds == [] then {}
    else ExprCells(k, ds[0].cond) + ExprCells(k, ds[0].value)
         + (if ds[0].value.Leaf? then {StrVal(ds[0].value.id)} else {}) + DefaultsCells(k, ds[1..])
  }

  function RangesCells(k: Config, rs: seq<Range>): set<Cell> {
    if rs == [] then {}
    else ExprCells(k, rs[0].cond) + {StrVal(rs[0].low), StrVal(rs[0].high)} + RangesCells(k, rs[1..])
  }

  function SymDefaultsCells(k: Config, ds: seq<SymDefault>): set<Cell> {
    if ds == [] then {} else ExprCells(k, ds[0].cond) + {Vis(ds[0].sym)} + SymDefaultsCells(k, ds[1..])
  }

  function VisCells(ids: seq<Id>): set<Cell> {
    set i | i in ids :: Vis(i)
  }

  /** All the attributes that attribute c can look at, whatever the user's settings are. */
  function MayRead(k: Config, c: Cell): set<Cell> {
    var i := c.id;
    match c
    case Vis(_) =>
      if IsChoice(k, i) then PromptsCells(k, k.choices[i].prompts) + TypeReads(k, k.choices[i].kind)
      else if IsSym(k, i) then
        PromptsCells(k, k.syms[i].prompts) + TypeReads(k, k.syms[i].kind)
        + if k.syms[i].choice.Some? then ModeCells(k, k.syms[i].choice.value) else {}
      else {}
    case TriVal(_) =>
      if !IsSym(k, i) || k.syms[i].isConstant || !Logical(k.syms[i].kind) then {}
      else if k.syms[i].choice.Some? then {Vis(i), Sel(k.syms[i].choice.value)}
      else
        {Vis(i)} + TypeReads(k, k.syms[i].kind) + DefaultsCells(k, k.syms[i].defaults) + ExprCells(k, k.syms[i].weakRevDep)
        + ExprCells(k, k.syms[i].directDep) + ExprCells(k, k.syms[i].revDep)
    case StrVal(_) =>
      if !IsSym(k, i) || k.syms[i].kind == UNKNOWN then {}
      else if Logical(k.syms[i].kind) then {TriVal(i)}
      else {Vis(i)} + RangesCells(k, k.syms[i].ranges) + DefaultsCells(k, k.syms[i].defaults)
    case Sel(_) =>
      if !IsChoice(k, i) then {}
      else
        ModeCells(k, i) + SymDefaultsCells(k, k.choices[i].defaults) + VisCells(k.choices[i].syms)
  }

  lemma {:induction false} ExprMay(k: Config, u: User, env: Env, e: Expr)
    ensures ExprReads(k, u, env, e) <= ExprCells(k, e)
  {
    match e
    case Leaf(i) =>
    case And(a, b) => ExprMay(k, u, env, a); ExprMay(k, u, env, b);
    case Or(a, b) => ExprMay(k, u, env, a); ExprMay(k, u, env, b);
    case Not(a) => ExprMay(k, u, env, a);
    case Rel(_, a, b) =>
  }

  lemma {:induction false} PromptsMay(k: Config, u: User, env: Env, es: seq<Expr>)
    ensures PromptsReads(k, u, env, es) <= PromptsCells(k, es)
  {
    if es != [] {
      PromptsMay(k, u, env, es[..|es| - 1]);
      ExprMay(k, u, env, es[|es| - 1]);
    }
  }

  lemma {:induction false} DefaultsMay(k: Config, u: User, env: Env, ds: seq<Default>)
    ensures DefaultTriReads(k, u, env, ds) <= DefaultsCells(k, ds)
    ensures DefaultStrReads(k, u, env, ds) <= DefaultsCells(k, ds)
  {
    if ds != [] {
      ExprMay(k, u, env, ds[0].cond);
      ExprMay(k, u, env, ds[0].value);
      DefaultsMay(k, u, env, ds[1..]);
    }
  }

  lemma {:induction false} RangesMay(k: Config, u: User, env: Env, rs: seq<Range>)
    ensures ActiveRangeReads(k, u, env, rs) <= RangesCells(k, rs)
  {
    if rs != [] {
      ExprMay(k, u, env, rs[0].cond);
      RangesMay(k, u, env, rs[1..]);
    }
  }

  lemma {:induction false} SymDefaultsMay(k: Config, u: User, env: Env, ds: seq<SymDefault>)
    ensures DefaultSelReads(k, u, env, ds) <= SymDefaultsCells(k, ds)
  {
    if ds != [] {
      ExprMay(k, u, env, ds[0].cond);
      SymDefaultsMay(k, u, env, ds[1..]);
    }
  }

  lemma {:induction false} FirstVisibleMay(env: Env, syms: seq<Id>)
    ensures FirstVisibleReads(env, syms) <= VisCells(syms)
  {
    if syms != [] {
      FirstVisibleMay(env, syms[1..]);
      assert forall i :: i in syms[1..] ==> i in syms;
    }
  }

  /** The user's selection of a choice is one of its symbols. */
  ghost predicate UserOk(k: Config, u: User) {
    forall c :: c in u.sel && IsChoice(k, c) ==> u.sel[c] in k.choices[c].syms
  }

  lemma ReadsMay(k: Config, u: User, env: Env, c: Cell)
    requires UserOk(k, u)
    ensures Reads(k, u, env, c) <= MayRead(k, c)
  {
    var i := c.id;
    match c
    case Vis(_) =>
      if IsChoice(k, i) {
        PromptsMay(k, u, env, k.choices[i].prompts);
      } else if IsSym(k, i) {
        PromptsMay(k, u, env, k.syms[i].prompts);
      }
    case TriVal(_) =>
      if IsSym(k, i) {
        DefaultsMay(k, u, env, k.syms[i].defaults);
        ExprMay(k, u, env, k.syms[i].weakRevDep);
        ExprMay(k, u, env, k.syms[i].directDep);
        ExprMay(k, u, env, k.syms[i].revDep);
      }
    case StrVal(_) =>
      if IsSym(k, i) {
        RangesMay(k, u, env, k.syms[i].ranges);
        DefaultsMay(k, u, env, k.syms[i].defaults);
      }
    case Sel(_) =>
      if IsChoice(k, i) {
        SymDefaultsMay(k, u, env, k.choices[i].defaults);
        FirstVisibleMay(env, k.choices[i].syms);
      }
  }

  // ---------------------------------------------------------------- recomputation from scratch

  /** No attribute depends on itself: every attribute looks only at attributes of lower rank. */
  ghost predicate Ranked(k: Config, rank: Cell -> nat) {
    forall c, d :: d in MayRead(k, c) ==> rank(d) < rank(c)
  }

  /** The value of an attribute, recomputed from the user's settings alone. */
  ghost function Scratch(k: Config, u: User, rank: Cell -> nat, c: Cell): Value
    decreases rank(c)
  {
    Compute(k, u, d => if rank(d) < rank(c) then Scratch(k, u, rank, d) else Num(0), c)
  }

  ghost function ScratchEnv(k: Config, u: User, rank: Cell -> nat): Env {
    c => Scratch(k, u, rank, c)
  }

  /** Recomputation is consistent: the values solve all the defining equations at once. */
  lemma ScratchSolves(k: Config, u: User, rank: Cell -> nat, c: Cell)
    requires Ranked(k, rank) && UserOk(k, u)
    ensures Scratch(k, u, rank, c) == Compute(k, u, ScratchEnv(k, u, rank), c)
  {
    var low: Env := d => if rank(d) < rank(c) then Scratch(k, u, rank, d) else Num(0);
    var env := ScratchEnv(k, u, rank);
    ReadsMay(k, u, env, c);
    forall d | d in Reads(k, u, env, c) ensures env(d) == low(d) {
      assert d in MayRead(k, c);
    }
    ComputeLocal(k, u, env, u, low, c);
  }

  // ---------------------------------------------------------------- _build_dep

  /** The symbols and choices in an expression. */
  function Items(e: Expr): set<Id> {
    match e
    case Leaf(i) => {i}
    case And(a, b) => Items(a) + Items(b)
    case Or(a, b) => Items(a) + Items(b)
    case Not(a) => Items(a)
    case Rel(_, a, b) => {a, b}
  }

  function AllItems(es: seq<Expr>): set<Id> {
    if es == [] then {} else AllItems(es[..|es| - 1]) + Items(es[|es| - 1])
  }

  function DefaultsItems(ds: seq<Default>): set<Id> {
    if ds == [] then {} else DefaultsItems(ds[..|ds| - 1]) + Items(ds[|ds| - 1].value) + Items(ds[|ds| - 1].cond)
  }

  function RangesItems(rs: seq<Range>): set<Id> {
    if rs == [] then {}
    else RangesItems(rs[..|rs| - 1]) + {rs[|rs| - 1].low, rs[|rs| - 1].high} + Items(rs[|rs| - 1].cond)
  }

  function SymDefaultsItems(ds: seq<SymDefault>): set<Id> {
    if ds == [] then {} else SymDefaultsItems(ds[..|ds| - 1]) + Items(ds[|ds| - 1].cond)
  }

  predicate Constant(k: Config, i: Id) {
    IsSym(k, i) && k.syms[i].isConstant
  }

  predicate Defined(k: Config, i: Id) {
    IsChoice(k, i) || (IsSym(k, i) && k.syms[i].defined)
  }

  /** Everything the properties of an item mention. */
  function Mentions(k: Config, i: Id): set<Id> {
    if IsChoice(k, i) then AllItems(k.choices[i].prompts) + SymDefaultsItems(k.choices[i].defaults)
    else if IsSym(k, i) then
      var s := k.syms[i];
      AllItems(s.prompts) + DefaultsItems(s.defaults) + Items(s.revDep) + Items(s.weakRevDep)
      + RangesItems(s.ranges) + Items(s.directDep)
    else {}
  }

  /** y is in x._dependents once _build_dep and _add_choice_deps are done. */
  predicate DependsOn(k: Config, y: Id, x: Id) {
    && Defined(k, y)
    && ((x in Mentions(k, y) && !Constant(k, x)) || (IsChoice(k, y) && x in k.choices[y].syms))
  }

  /** What parsing guarantees */
  ghost predicate Parsed(k: Config) {
    && k.syms.Keys !! k.choices.Keys
    && IsSym(k, k.modules)
    && (forall i :: IsSym(k, i) ==> SymOk(k, i))
    && (forall c :: IsChoice(k, c) ==> OwnSyms(k, c))
  }

  /** And that the defaults of a choice are tracked, as symbols of the choice are. */
  ghost predicate WellFormed(k: Config) {
    Parsed(k) && forall c :: IsChoice(k, c) ==> ChoiceOk(k, c)
  }

  ghost predicate SymOk(k: Config, i: Id)
    requires IsSym(k, i)
  {
    var s := k.syms[i];
    && (!s.defined ==> s.prompts == [] && s.choice.None? && s.defaults == [] && s.ranges == [])
    && (!s.defined && !s.isConstant ==> s.kind == UNKNOWN)
    && (s.isConstant ==> !s.defined && s.kind in {TRISTATE, UNKNOWN})
    && (s.choice.Some? ==>
          && IsChoice(k, s.choice.value)
          && i in k.choices[s.choice.value].syms
          && (s.choice.value in Mentions(k, i) || NeverVisible(k, i)))
    && (!Logical(s.kind) ==> forall j :: 0 <= j < |s.defaults| ==> s.defaults[j].value.Leaf?)
  }

  /** Every prompt condition is the constant n, as it is for a symbol that depends on n: what else the symbol
      depends on, its choice included, is then not mentioned. */
  predicate NeverVisible(k: Config, i: Id)
    requires IsSym(k, i)
  {
    forall j :: 0 <= j < |k.syms[i].prompts| ==> ConstantN(k, k.syms[i].prompts[j])
  }

  predicate ConstantN(k: Config, e: Expr) {
    e.Leaf? && Constant(k, e.id) && !IsChoice(k, e.id) && k.syms[e.id].constTri == 0
  }

  ghost predicate ChoiceOk(k: Config, c: Id)
    requires IsChoice(k, c)
  {
    OwnSyms(k, c) && DefaultsTracked(k, c)
  }

  predicate OwnSyms(k: Config, c: Id)
    requires IsChoice(k, c)
  {
    forall i :: i in k.choices[c].syms ==> IsSym(k, i) && k.syms[i].choice == Some(c)
  }

  /** Every default of the choice is one whose changes reach the choice: normally, one of its symbols. */
  ghost predicate DefaultsTracked(k: Config, c: Id)
    requires IsChoice(k, c)
  {
    forall j :: 0 <= j < |k.choices[c].defaults| ==> Tracked(k, c, k.choices[c].defaults[j].sym)
  }

  ghost predicate Tracked(k: Config, c: Id, i: Id)
    requires IsChoice(k, c)
  {
    i in k.choices[c].syms || i in Mentions(k, c) + {c, k.modules} || Constant(k, i)
  }

  /** The mode of a choice looks at MODULES. */
  function ModulesToo(k: Config): set<Id> {
    if k.choices == map[] then {} else {k.modules}
  }

  lemma {:induction false} ExprCellsItems(k: Config, e: Expr)
    ensures forall d :: d in ExprCells(k, e) ==> d.id in Items(e) + ModulesToo(k) && (k.choices == map[] ==> !d.Vis?)
  {
    match e
    case Leaf(i) =>
    case And(a, b) => ExprCellsItems(k, a); ExprCellsItems(k, b);
    case Or(a, b) => ExprCellsItems(k, a); ExprCellsItems(k, b);
    case Not(a) => ExprCellsItems(k, a);
    case Rel(_, a, b) =>
  }

  lemma {:induction false} PromptsCellsItems(k: Config, es: seq<Expr>)
    ensures forall d :: d in PromptsCells(k, es) ==> d.id in AllItems(es) + ModulesToo(k) && (k.choices == map[] ==> !d.Vis?)
  {
    if es != [] {
      PromptsCellsItems(k, es[..|es| - 1]);
      ExprCellsItems(k, es[|es| - 1]);
    }
  }

  lemma {:induction false} DefaultsItemsHas(ds: seq<Default>, j: nat)
    requires j < |ds|
    ensures Items(ds[j].value) + Items(ds[j].cond) <= DefaultsItems(ds)
  {
    if j < |ds| - 1 {
      DefaultsItemsHas(ds[..|ds| - 1], j);
    }
  }

  lemma {:induction false} DefaultsCellsItems(k: Config, ds: seq<Default>, all: seq<Default>, from: nat)
    requires from <= |all| && ds == all[from..]
    ensures forall d :: d in DefaultsCells(k, ds) ==> d.id in DefaultsItems(all) + ModulesToo(k) && (k.choices == map[] ==> !d.Vis?)
    decreases |ds|
  {
    if ds != [] {
      ExprCellsItems(k, ds[0].cond);
      ExprCellsItems(k, ds[0].value);
      DefaultsItemsHas(all, from);
      DefaultsCellsItems(k, ds[1..], all, from + 1);
    }
  }

  lemma {:induction false} RangesItemsHas(rs: seq<Range>, j: nat)
    requires j < |rs|
    ensures {rs[j].low, rs[j].high} + Items(rs[j].cond) <= RangesItems(rs)
  {
    if j < |rs| - 1 {
      RangesItemsHas(rs[..|rs| - 1], j);
    }
  }

  lemma {:induction false} RangesCellsItems(k: Config, rs: seq<Range>, all: seq<Range>, from: nat)
    requires from <= |all| && rs == all[from..]
    ensures forall d :: d in RangesCells(k, rs) ==> d.id in RangesItems(all) + ModulesToo(k) && (k.choices == map[] ==> !d.Vis?)
    decreases |rs|
  {
    if rs != [] {
      ExprCellsItems(k, rs[0].cond);
      RangesItemsHas(all, from);
      RangesCellsItems(k, rs[1..], all, from + 1);
    }
  }

  lemma {:induction false} SymDefaultsItemsHas(ds: seq<SymDefault>, j: nat)
    requires j < |ds|
    ensures Items(ds[j].cond) <= SymDefaultsItems(ds)
  {
    if j < |ds| - 1 {
      SymDefaultsItemsHas(ds[..|ds| - 1], j);
    }
  }

  lemma {:induction false} SymDefaultsCellsItems(k: Config, c: Id, ds: seq<SymDefault>, from: nat)
    requires IsChoice(k, c) && from <= |k.choices[c].defaults| && ds == k.choices[c].defaults[from..]
    ensures forall d :: d in SymDefaultsCells(k, ds)
              ==> d.id in SymDefaultsItems(k.choices[c].defaults) + {k.modules}
                  || (d.Vis? && exists j :: 0 <= j < |k.choices[c].defaults| && d.id == k.choices[c].defaults[j].sym)
    decreases |ds|
  {
    if ds != [] {
      ExprCellsItems(k, ds[0].cond);
      SymDefaultsItemsHas(k.choices[c].defaults, from);
      SymDefaultsCellsItems(k, c, ds[1..], from + 1);
    }
  }

  predicate ChoiceMentioned(k: Config, i: Id) {
    IsSym(k, i) && k.syms[i].choice.Some? ==> k.syms[i].choice.value in Mentions(k, i)
  }

  lemma {:induction false} PromptsOff(k: Config, u: User, rank: Cell -> nat, es: seq<Expr>)
    requires Ranked(k, rank) && UserOk(k, u) && forall j :: 0 <= j < |es| ==> ConstantN(k, es[j])
    ensures PromptsVal(k, u, ScratchEnv(k, u, rank), es) == 0
  {
    if es != [] {
      var e := es[|es| - 1];
      PromptsOff(k, u, rank, es[..|es| - 1]);
      ScratchSolves(k, u, rank, TriVal(e.id));
    }
  }

  /** A symbol that is never visible looks at nothing of its choice. */
  lemma NeverVisibleReads(k: Config, u: User, rank: Cell -> nat, i: Id)
    requires Parsed(k) && Ranked(k, rank) && UserOk(k, u) && IsSym(k, i) && NeverVisible(k, i) && k.syms[i].choice.Some?
    ensures var env := ScratchEnv(k, u, rank);
            && V(env, i) == 0
            && Reads(k, u, env, Vis(i)) <= PromptsCells(k, k.syms[i].prompts)
            && Reads(k, u, env, TriVal(i)) <= {Vis(i)}
  {
    hide Mode, SymIsTristate;
    var env := ScratchEnv(k, u, rank);
    PromptsOff(k, u, rank, k.syms[i].prompts);
    PromptsMay(k, u, env, k.syms[i].prompts);
    ScratchSolves(k, u, rank, Vis(i));
  }

  /** A selection looks at the visibility of a default that is not tracked. */
  ghost predicate Escapes(k: Config, c: Cell, d: Cell) {
    c.Sel? && IsChoice(k, c.id) && d.Vis? && !Tracked(k, c.id, d.id)
  }

  /** The _dependents sets cover everything an attribute can look at, except the symbol MODULES
      (whose invalidation clears everything), constants, the item's own attributes, and untracked defaults
      of choices. */
  lemma DependentsCover(k: Config, c: Cell, d: Cell)
    requires Parsed(k) && d in MayRead(k, c)
    requires d.id != c.id && d.id != k.modules && !Constant(k, d.id)
    requires ChoiceMentioned(k, c.id) || c.StrVal?
    ensures DependsOn(k, c.id, d.id) || !Defined(k, c.id) || Escapes(k, c, d)
  {
    var i := c.id;
    if IsChoice(k, i) {
      assert OwnSyms(k, i);
      PromptsCellsItems(k, k.choices[i].prompts);
      SymDefaultsCellsItems(k, i, k.choices[i].defaults, 0);
    } else if IsSym(k, i) {
      assert SymOk(k, i);
      PromptsCellsItems(k, k.syms[i].prompts);
      DefaultsCellsItems(k, k.syms[i].defaults, k.syms[i].defaults, 0);
      RangesCellsItems(k, k.syms[i].ranges, k.syms[i].ranges, 0);
      ExprCellsItems(k, k.syms[i].weakRevDep);
      ExprCellsItems(k, k.syms[i].directDep);
      ExprCellsItems(k, k.syms[i].revDep);
    }
  }

  lemma {:induction false} SymDefaultsHas(k: Config, ds: seq<SymDefault>, j: nat)
    requires j < |ds|
    ensures Vis(ds[j].sym) in SymDefaultsCells(k, ds)
  {
    if j > 0 {
      SymDefaultsHas(k, ds[1..], j - 1);
    }
  }

  /** The _dependents sets cover what a selection may look at directly exactly when every default of its choice
      is tracked. */
  lemma UntrackedDefault(k: Config, c: Id)
    requires IsChoice(k, c)
    ensures DefaultsTracked(k, c) <==>
              forall d :: d in MayRead(k, Sel(c)) && d.id != c && d.id != k.modules && !Constant(k, d.id) ==> DependsOn(k, c, d.id)
  {
    var ds := k.choices[c].defaults;
    if DefaultsTracked(k, c) {
      SymDefaultsCellsItems(k, c, ds, 0);
    } else {
      var j :| 0 <= j < |ds| && !Tracked(k, c, ds[j].sym);
      SymDefaultsHas(k, ds, j);
      assert Vis(ds[j].sym).id == ds[j].sym && Vis(ds[j].sym) in MayRead(k, Sel(c));
    }
  }
}
