/** A Kconfig instance as an object, tools/kconfiglib.py: every attribute getter fills the cache on
    the way, every setter sweeps it.  Each getter is proved against its value from scratch. */
module KconfigObjects {
  import opened Basics
  import opened KconfigModel
  import opened KconfigDeps
  import opened KconfigChoices
  import opened KconfigCache

  ghost predicate Below(rank: Cell -> nat, cs: set<Cell>, b: nat) {
    forall c :: c in cs ==> rank(c) < b
  }

  lemma {:induction false} PromptsBelow(k: Config, rank: Cell -> nat, es: seq<Expr>, b: nat, j: nat)
    requires Below(rank, PromptsCells(k, es), b) && j < |es|
    ensures Below(rank, ExprCells(k, es[j]), b)
  {
    if j < |es| - 1 {
      PromptsBelow(k, rank, es[..|es| - 1], b, j);
    }
  }

  lemma {:induction false} DefaultsBelow(k: Config, rank: Cell -> nat, ds: seq<Default>, b: nat, j: nat)
    requires Below(rank, DefaultsCells(k, ds), b) && j < |ds|
    ensures Below(rank, ExprCells(k, ds[j].cond), b) && Below(rank, ExprCells(k, ds[j].value), b)
    ensures ds[j].value.Leaf? ==> rank(StrVal(ds[j].value.id)) < b
  {
    if j > 0 {
      DefaultsBelow(k, rank, ds[1..], b, j - 1);
    }
  }

  lemma {:induction false} RangesBelow(k: Config, rank: Cell -> nat, rs: seq<Range>, b: nat, j: nat)
    requires Below(rank, RangesCells(k, rs), b) && j < |rs|
    ensures Below(rank, ExprCells(k, rs[j].cond), b)
    ensures rank(StrVal(rs[j].low)) < b && rank(StrVal(rs[j].high)) < b
  {
    if j > 0 {
      RangesBelow(k, rank, rs[1..], b, j - 1);
    }
  }

  lemma {:induction false} SymDefaultsBelow(k: Config, rank: Cell -> nat, ds: seq<SymDefault>, b: nat, j: nat)
    requires Below(rank, SymDefaultsCells(k, ds), b) && j < |ds|
    ensures Below(rank, ExprCells(k, ds[j].cond), b) && rank(Vis(ds[j].sym)) < b
  {
    if j > 0 {
      SymDefaultsBelow(k, rank, ds[1..], b, j - 1);
    }
  }

  lemma SymFacts(k: Config, i: Id)
    requires WellFormed(k) && IsSym(k, i)
    ensures SymOk(k, i) && !IsChoice(k, i)
  {
  }

  // What the rank says about the parts of each attribute.

  lemma RankSymVis(k: Config, rank: Cell -> nat, i: Id)
    requires WellFormed(k) && Ranked(k, rank) && IsSym(k, i)
    ensures Below(rank, PromptsCells(k, k.syms[i].prompts), rank(Vis(i)))
    ensures Below(rank, TypeReads(k, k.syms[i].kind), rank(Vis(i)))
    ensures k.syms[i].choice.Some? ==>
              IsChoice(k, k.syms[i].choice.value) && Below(rank, ModeCells(k, k.syms[i].choice.value), rank(Vis(i)))
  {
    hide PromptsCells, ModeCells, TypeReads;
    assert SymOk(k, i) && !IsChoice(k, i);
    assert forall d :: d in MayRead(k, Vis(i)) ==> rank(d) < rank(Vis(i));
  }

  lemma RankChoiceVis(k: Config, rank: Cell -> nat, c: Id)
    requires Ranked(k, rank) && IsChoice(k, c)
    ensures Below(rank, PromptsCells(k, k.choices[c].prompts), rank(Vis(c)))
    ensures Below(rank, TypeReads(k, k.choices[c].kind), rank(Vis(c)))
  {
    hide PromptsCells, TypeReads;
    assert forall d :: d in MayRead(k, Vis(c)) ==> rank(d) < rank(Vis(c));
  }

  lemma RankTri(k: Config, rank: Cell -> nat, i: Id)
    requires WellFormed(k) && Ranked(k, rank) && IsSym(k, i) && !k.syms[i].isConstant && Logical(k.syms[i].kind)
    ensures rank(Vis(i)) < rank(TriVal(i))
    ensures k.syms[i].choice.Some? ==> rank(Sel(k.syms[i].choice.value)) < rank(TriVal(i))
    ensures k.syms[i].choice.None? ==>
              var s, b := k.syms[i], rank(TriVal(i));
              && Below(rank, TypeReads(k, s.kind), b) && Below(rank, DefaultsCells(k, s.defaults), b)
              && Below(rank, ExprCells(k, s.weakRevDep), b) && Below(rank, ExprCells(k, s.directDep), b)
              && Below(rank, ExprCells(k, s.revDep), b)
  {
    hide DefaultsCells, ExprCells, TypeReads;
    assert forall d :: d in MayRead(k, TriVal(i)) ==> rank(d) < rank(TriVal(i));
    assert Vis(i) in MayRead(k, TriVal(i));
    if k.syms[i].choice.Some? {
      assert Sel(k.syms[i].choice.value) in MayRead(k, TriVal(i));
    }
  }

  lemma RankStr(k: Config, rank: Cell -> nat, i: Id)
    requires WellFormed(k) && Ranked(k, rank) && IsSym(k, i) && k.syms[i].kind != UNKNOWN
    ensures Logical(k.syms[i].kind) ==> rank(TriVal(i)) < rank(StrVal(i))
    ensures !Logical(k.syms[i].kind) ==>
              && rank(Vis(i)) < rank(StrVal(i))
              && Below(rank, RangesCells(k, k.syms[i].ranges), rank(StrVal(i)))
              && Below(rank, DefaultsCells(k, k.syms[i].defaults), rank(StrVal(i)))
              && forall j :: 0 <= j < |k.syms[i].defaults| ==> k.syms[i].defaults[j].value.Leaf?
  {
    hide DefaultsCells, RangesCells;
    assert SymOk(k, i);
    assert forall d :: d in MayRead(k, StrVal(i)) ==> rank(d) < rank(StrVal(i));
    if Logical(k.syms[i].kind) {
      assert TriVal(i) in MayRead(k, StrVal(i));
    } else {
      assert Vis(i) in MayRead(k, StrVal(i));
    }
  }

  lemma RankSel(k: Config, rank: Cell -> nat, u: User, c: Id)
    requires Ranked(k, rank) && UserOk(k, u) && IsChoice(k, c)
    ensures Below(rank, ModeCells(k, c), rank(Sel(c)))
    ensures Below(rank, SymDefaultsCells(k, k.choices[c].defaults), rank(Sel(c)))
    ensures Below(rank, VisCells(k.choices[c].syms), rank(Sel(c)))
    ensures c in u.sel ==> rank(Vis(u.sel[c])) < rank(Sel(c))
  {
    hide SymDefaultsCells, ModeCells;
    assert forall d :: d in MayRead(k, Sel(c)) ==> rank(d) < rank(Sel(c));
    if c in u.sel {
      assert Vis(u.sel[c]) in VisCells(k.choices[c].syms);
    }
  }

  // ---------------------------------------------------------------- _build_dep

  function AllIds(k: Config): set<Id> {
    k.syms.Keys + k.choices.Keys
  }

  type Dependents = map<Id, set<Id>>

  function At(deps: Dependents, x: Id): set<Id> {
    if x in deps then deps[x] else {}
  }

  /** deps is before with y added to the dependents of all of xs, constants excepted. */
  ghost predicate Added(k: Config, before: Dependents, deps: Dependents, y: Id, xs: set<Id>) {
    forall x :: At(deps, x) == At(before, x) + if x in xs && !Constant(k, x) then {y} else {}
  }

  lemma AddedTwice(k: Config, d0: Dependents, d1: Dependents, d2: Dependents, y: Id, a: set<Id>, b: set<Id>)
    requires Added(k, d0, d1, y, a) && Added(k, d1, d2, y, b)
    ensures Added(k, d0, d2, y, a + b)
  {
    hide Constant;
  }

  /** _make_depend_on for a symbol or choice */
  method AddDependent(k: Config, before: Dependents, y: Id, x: Id) returns (deps: Dependents)
    ensures Added(k, before, deps, y, {x})
  {
    deps := before;
    if !Constant(k, x) {
      deps := deps[x := At(deps, x) + {y}];
    }
  }

  /** _make_depend_on */
  method MakeDependOn(k: Config, before: Dependents, y: Id, e: Expr) returns (deps: Dependents)
    ensures Added(k, before, deps, y, Items(e))
    decreases e
  {
    match e {
      case Leaf(i) => deps := AddDependent(k, before, y, i);
      case And(a, b) =>
        deps := MakeDependOn(k, before, y, a);
        deps := MakeDependOn(k, deps, y, b);
      case Or(a, b) =>
        deps := MakeDependOn(k, before, y, a);
        deps := MakeDependOn(k, deps, y, b);
      case Not(a) => deps := MakeDependOn(k, before, y, a);
      case Rel(_, a, b) =>
        deps := AddDependent(k, before, y, a);
        deps := AddDependent(k, deps, y, b);
    }
  }

  method DependOnPrompts(k: Config, before: Dependents, y: Id, es: seq<Expr>) returns (deps: Dependents)
    ensures Added(k, before, deps, y, AllItems(es))
  {
    deps := before;
    for j := 0 to |es|
      invariant Added(k, before, deps, y, AllItems(es[..j]))
    {
      assert es[..j + 1][..j] == es[..j];
      deps := MakeDependOn(k, deps, y, es[j]);
    }
    assert es[..|es|] == es;
  }

  method DependOnDefaults(k: Config, before: Dependents, y: Id, ds: seq<Default>) returns (deps: Dependents)
    ensures Added(k, before, deps, y, DefaultsItems(ds))
  {
    deps := before;
    for j := 0 to |ds|
      invariant Added(k, before, deps, y, DefaultsItems(ds[..j]))
    {
      assert ds[..j + 1][..j] == ds[..j];
      deps := MakeDependOn(k, deps, y, ds[j].value);
      deps := MakeDependOn(k, deps, y, ds[j].cond);
    }
    assert ds[..|ds|] == ds;
  }

  method DependOnRanges(k: Config, before: Dependents, y: Id, rs: seq<Range>) returns (deps: Dependents)
    ensures Added(k, before, deps, y, RangesItems(rs))
  {
    deps := before;
    for j := 0 to |rs|
      invariant Added(k, before, deps, y, RangesItems(rs[..j]))
    {
      assert rs[..j + 1][..j] == rs[..j];
      hide Added;
      var d1 := AddDependent(k, deps, y, rs[j].low);
      var d2 := AddDependent(k, d1, y, rs[j].high);
      var d3 := MakeDependOn(k, d2, y, rs[j].cond);
      AddedTwice(k, before, deps, d1, y, RangesItems(rs[..j]), {rs[j].low});
      AddedTwice(k, before, d1, d2, y, RangesItems(rs[..j]) + {rs[j].low}, {rs[j].high});
      AddedTwice(k, before, d2, d3, y, RangesItems(rs[..j]) + {rs[j].low} + {rs[j].high}, Items(rs[j].cond));
      assert RangesItems(rs[..j + 1]) == RangesItems(rs[..j]) + {rs[j].low} + {rs[j].high} + Items(rs[j].cond);
      deps := d3;
    }
    assert rs[..|rs|] == rs;
  }

  method DependOnSymDefaults(k: Config, before: Dependents, y: Id, ds: seq<SymDefault>) returns (deps: Dependents)
    ensures Added(k, before, deps, y, SymDefaultsItems(ds))
  {
    deps := before;
    for j := 0 to |ds|
      invariant Added(k, before, deps, y, SymDefaultsItems(ds[..j]))
    {
      assert ds[..j + 1][..j] == ds[..j];
      deps := MakeDependOn(k, deps, y, ds[j].cond);
    }
    assert ds[..|ds|] == ds;
  }

  /** What _build_dep does for one item. */
  method DependOnMentions(k: Config, before: Dependents, y: Id) returns (deps: Dependents)
    requires WellFormed(k) && Defined(k, y)
    ensures Added(k, before, deps, y, Mentions(k, y))
  {
    hide AllItems, DefaultsItems, Items, RangesItems, SymDefaultsItems, WellFormed, Added;
    if IsChoice(k, y) {
      var d1 := DependOnPrompts(k, before, y, k.choices[y].prompts);
      deps := DependOnSymDefaults(k, d1, y, k.choices[y].defaults);
      AddedTwice(k, before, d1, deps, y, AllItems(k.choices[y].prompts), SymDefaultsItems(k.choices[y].defaults));
    } else {
      var s := k.syms[y];
      var d1 := DependOnPrompts(k, before, y, s.prompts);
      ghost var all := AllItems(s.prompts);
      var d2 := DependOnDefaults(k, d1, y, s.defaults);
      AddedTwice(k, before, d1, d2, y, all, DefaultsItems(s.defaults));
      all := all + DefaultsItems(s.defaults);
      d1 := MakeDependOn(k, d2, y, s.revDep);
      AddedTwice(k, before, d2, d1, y, all, Items(s.revDep));
      all := all + Items(s.revDep);
      d2 := MakeDependOn(k, d1, y, s.weakRevDep);
      AddedTwice(k, before, d1, d2, y, all, Items(s.weakRevDep));
      all := all + Items(s.weakRevDep);
      d1 := DependOnRanges(k, d2, y, s.ranges);
      AddedTwice(k, before, d2, d1, y, all, RangesItems(s.ranges));
      all := all + RangesItems(s.ranges);
      deps := MakeDependOn(k, d1, y, s.directDep);
      AddedTwice(k, before, d1, deps, y, all, Items(s.directDep));
    }
  }

  /** What _build_dep and _add_choice_deps do for one item. */
  method DependOnAll(k: Config, before: Dependents, y: Id) returns (deps: Dependents)
    requires WellFormed(k) && Defined(k, y)
    ensures forall x :: At(deps, x) == At(before, x) + if DependsOn(k, y, x) then {y} else {}
  {
    hide Mentions, WellFormed;
    deps := DependOnMentions(k, before, y);
    if IsChoice(k, y) {
      var syms := k.choices[y].syms;
      ghost var mid := deps;
      for j := 0 to |syms|
        invariant forall x :: At(deps, x) == At(mid, x) + if x in syms[..j] then {y} else {}
      {
        deps := deps[syms[j] := At(deps, syms[j]) + {y}];
      }
    }
  }

  /** _build_dep followed by _add_choice_deps */
  method BuildDep(k: Config) returns (deps: Dependents)
    requires WellFormed(k)
    ensures forall x, y :: y in At(deps, x) <==> DependsOn(k, y, x)
  {
    deps := map[];
    var todo := set y | y in AllIds(k) && Defined(k, y);
    while todo != {}
      invariant forall y :: y in todo ==> Defined(k, y)
      invariant forall x, y :: y in At(deps, x) <==> DependsOn(k, y, x) && y !in todo
    {
      hide DependsOn, WellFormed;
      var y :| y in todo;
      deps := DependOnAll(k, deps, y);
      todo := todo - {y};
    }
  }

  // ---------------------------------------------------------------- sweeping

  lemma DependentDefined(k: Config, y: Id, x: Id)
    requires DependsOn(k, y, x)
    ensures Defined(k, y)
  {
  }

  /** What has been swept when the dependents todo of i are still to be looked at. */
  ghost predicate SweptBut(k: Config, cached: Cache, gone: set<Id>, i: Id, todo: set<Id>) {
    && (forall x :: x in gone ==> Defined(k, x))
    && (forall x, y :: x in gone && x != i && DependsOn(k, y, x) ==> Vis(y) !in cached)
    && (forall y :: DependsOn(k, y, i) && y !in todo ==> Vis(y) !in cached)
    && (k.modules in gone ==> forall y :: Defined(k, y) ==> Vis(y) !in cached)
  }

  lemma SweepMore(k: Config, before: Cache, now: Cache, gone: set<Id>, more: set<Id>, i: Id, y: Id, todo: set<Id>)
    requires SweptBut(k, before, gone, i, todo)
    requires now == Without(before, more) && Swept(k, now, more) && y in more
    ensures SweptBut(k, now, gone + more, i, todo - {y})
  {
    hide DependsOn, Defined;
    assert Vis(y).id == y && Vis(y) !in now;
    forall z | DependsOn(k, z, i) && z !in todo - {y} ensures Vis(z) !in now {
      if z != y {
        assert Vis(z) !in before;
      }
    }
  }

  lemma AllSwept(k: Config, now: Cache, before: Cache, gone: set<Id>)
    requires now == Without(before, gone) && forall x :: x in gone <==> Defined(k, x)
    ensures Swept(k, now, gone)
  {
    forall y | Defined(k, y) ensures Vis(y) !in now {
      assert y in gone && Vis(y).id == y;
    }
    forall x, y | x in gone && DependsOn(k, y, x) ensures Vis(y) !in now {
      DependentDefined(k, y, x);
    }
  }

  lemma WithoutTwice(cached: Cache, a: set<Id>, b: set<Id>)
    ensures Without(Without(cached, a), b) == Without(cached, a + b)
  {
  }

  lemma Fewer(first: Cache, now: Cache, i: Id, y: Id)
    requires now.Keys <= first.Keys && Vis(y) in now && y != i
    requires forall c :: c in now ==> c.id != i
    ensures (set c | c in now && c.id != y) < (set c | c in first && c.id != i)
  {
    var a, b := set c | c in now && c.id != y, set c | c in first && c.id != i;
    assert Vis(y) in b && Vis(y) !in a;
  }

  // ---------------------------------------------------------------- user values

  /** The argument of set_value: a number or a string. */
  datatype Setting = Number(t: Tri) | Word(s: string)

  /** set_value takes this value for this type. */
  predicate Accepts(k: Config, kind: Kind, v: Setting) {
    match kind
    case BOOL => v in {Number(0), Number(2), Word("n"), Word("y")}
    case TRISTATE => v.Number? || v in {Word("n"), Word("m"), Word("y")}
    case INT => v.Word? && k.parse(INT, v.s).Some?
    case HEX => v.Word? && k.parse(HEX, v.s).Some? && k.parse(HEX, v.s).value >= 0
    case STRING => v.Word?
    case UNKNOWN => false
  }

  /** STR_TO_TRI, for accepted words */
  function ToTri(v: Setting): Tri {
    match v case Number(t) => t case Word(s) => if s == "n" then 0 else if s == "m" then 1 else 2
  }

  /** user_value */
  function UserValue(k: Config, u: User, i: Id): Option<Setting> {
    if Logical(KindOf(k, i)) || IsChoice(k, i) then (if i in u.tri then Some(Number(u.tri[i])) else None)
    else if i in u.str then Some(Word(u.str[i])) else None
  }

  /** The settings after symbol i takes an accepted value. */
  function Assigned(k: Config, u: User, i: Id, v: Setting): User
    requires IsSym(k, i)
  {
    var s := k.syms[i];
    if Logical(s.kind) then
      User(u.tri[i := ToTri(v)], u.str, if s.choice.Some? && ToTri(v) == 2 then u.sel[s.choice.value := i] else u.sel)
    else if v.Word? then u.(str := u.str[i := v.s]) else u
  }

  /** The settings without the value of symbol i, or the mode and selection of choice i. */
  function Unassigned(k: Config, u: User, i: Id): User {
    User(u.tri - {i}, u.str - (if IsChoice(k, i) then {} else {i}), u.sel - if IsChoice(k, i) then {i} else {})
  }

  /** The settings differ in the value of the symbol i at most. */
  ghost predicate OnlySym(k: Config, u: User, u': User, i: Id) {
    && IsSym(k, i) && u'.sel == u.sel
    && (forall j :: j != i ==> SameAt(u.tri, u'.tri, j) && SameAt(u.str, u'.str, j))
  }

  /** Swept with its own symbol: the new value of a symbol is not seen by what is left. */
  lemma UnseenSym(k: Config, rank: Cell -> nat, u: User, u': User, cached: Cache, gone: set<Id>, i: Id)
    requires WellFormed(k) && OnlySym(k, u, u', i) && i in gone
    ensures Unseen(k, rank, u, u', Without(cached, gone), gone)
  {
    hide ScratchEnv;
    SymFacts(k, i);
  }

  /** A symbol without a prompt is never visible: nothing sees its user value. */
  lemma UnseenPromptless(k: Config, rank: Cell -> nat, u: User, u': User, cached: Cache, i: Id)
    requires WellFormed(k) && Ranked(k, rank) && UserOk(k, u) && OnlySym(k, u, u', i) && k.syms[i].prompts == []
    ensures Unseen(k, rank, u, u', cached, {})
  {
    hide SymIsTristate, Mode;
    SymFacts(k, i);
    ScratchSolves(k, u, rank, Vis(i));
    assert V(ScratchEnv(k, u, rank), i) == 0;
  }

  /** The settings differ in the mode and selection of choice c, and the value of its symbol i. */
  ghost predicate OnlyChoice(k: Config, u: User, u': User, c: Id, i: Id) {
    && IsChoice(k, c) && (i == c || i in k.choices[c].syms)
    && (forall j :: j != c && j != i ==> SameAt(u.tri, u'.tri, j))
    && (forall j :: j != i ==> SameAt(u.str, u'.str, j))
    && (forall j :: j != c ==> SameAt(u.sel, u'.sel, j))
  }

  /** Swept with the choice: the choice and its symbols have nothing cached that saw the change. */
  lemma UnseenChoice(k: Config, rank: Cell -> nat, u: User, u': User, cached: Cache, gone: set<Id>, c: Id, i: Id)
    requires WellFormed(k) && Ranked(k, rank) && UserOk(k, u)
    requires OnlyChoice(k, u, u', c, i) && c in gone && Flagged(k, cached)
    requires i == c || SameAt(u.tri, u'.tri, i) || Logical(KindOf(k, i))
    requires SameAt(u.str, u'.str, i)
    requires Swept(k, Without(cached, gone), gone)
    ensures Unseen(k, rank, u, u', Without(cached, gone), gone)
  {
    hide ScratchEnv, Mentions;
    var left := Without(cached, gone);
    assert ChoiceOk(k, c);
    if i != c {
      SymFacts(k, i);
      if ChoiceMentioned(k, i) {
        assert DependsOn(k, i, c);
        assert Vis(i) !in left;
      } else {
        NeverVisibleReads(k, u, rank, i);
      }
    }
    forall d | d in left ensures d.id != c && (d.id == i && ChoiceMentioned(k, i) ==> Inert(k, d)) {
      assert Vis(d.id).id == d.id;
      assert Vis(d.id) in cached ==> Vis(d.id) in left;
    }
  }

  /** A Kconfig instance after parsing: the user's settings and all cached values. */
  class Kconfig {
    const k: Config
    ghost const rank: Cell -> nat
    var dependents: Dependents
    var user: User
    var cached: Cache

    ghost function Env(): Env
      reads this`user
    {
      ScratchEnv(k, user, rank)
    }

    ghost predicate Built()
      reads this`dependents
    {
      forall x, y :: y in At(dependents, x) <==> DependsOn(k, y, x)
    }

    ghost predicate Valid()
      reads this
    {
      Built() && WellFormed(k) && Ranked(k, rank) && UserOk(k, user) && CacheOk(k, rank, user, cached)
    }

    /** Reading attributes only ever adds to the cache. */
    ghost predicate Grew(before: Cache)
      reads this`cached
    {
      forall c :: c in before ==> c in cached && cached[c] == before[c]
    }

    lemma CachedValue(c: Cell)
      requires Valid() && c in cached
      ensures match c
              case Vis(i) => cached[c] == Num(V(Env(), i))
              case TriVal(i) => cached[c] == Num(T(Env(), i))
              case StrVal(i) => cached[c] == Text(S(Env(), i))
              case Sel(i) => cached[c] == Pick(P(Env(), i))
    {
      hide SymVis, ChoiceVis, SymTri, SymStr, Selection;
      ScratchSolves(k, user, rank, c);
    }

    /** What the getters return is read off this solution of the defining equations; the laws of its values are
        those of `KconfigLaws`. */
    lemma EnvSolves()
      requires Valid()
      ensures Solves(k, user, Env())
    {
      hide Built, WellFormed, CacheOk, Compute;
      forall c ensures Env()(c) == Compute(k, user, Env(), c) {
        ScratchSolves(k, user, rank, c);
      }
    }

    lemma FlagUp(c: Cell)
      requires Valid() && c in cached && !Inert(k, c)
      ensures Vis(c.id) in cached
    {
    }

    constructor (config: Config, ghost order: Cell -> nat)
      requires WellFormed(config) && Ranked(config, order)
      ensures Valid() && k == config && rank == order
      ensures user == User(map[], map[], map[]) && cached == map[]
    {
      k := config;
      rank := order;
      user := User(map[], map[], map[]);
      cached := map[];
      new;
      dependents := BuildDep(config);
    }

    /** Storing a freshly computed attribute. */
    method Remember(c: Cell, v: Value)
      requires Valid() && v == Compute(k, user, Env(), c) && Reads(k, user, Env(), c) <= cached.Keys
      requires Inert(k, c) || c.Vis? || Vis(c.id) in cached
      modifies this`cached
      ensures Valid() && cached == old(cached)[c := v]
    {
      ScratchSolves(k, user, rank, c);
      cached := cached[c := v];
    }

    /** Choice.type */
    method ChoiceType(c: Id, ghost b: nat) returns (t: Kind)
      requires Valid() && IsChoice(k, c) && Below(rank, ModeCells(k, c), b)
      modifies this`cached
      ensures Valid() && Grew(old(cached)) && TypeReads(k, k.choices[c].kind) <= cached.Keys
      ensures t == if k.choices[c].kind == TRISTATE && T(Env(), k.modules) == 0 then BOOL else k.choices[c].kind
      decreases b, 1
    {
      hide Built, WellFormed, Ranked, UserOk, CacheOk, ScratchEnv, Scratch;
      t := k.choices[c].kind;
      if t == TRISTATE {
        var m := GetTri(k.modules);
        if m == 0 {
          t := BOOL;
        }
      }
    }

    /** Choice.tri_value, which is not cached itself */
    method ChoiceTri(c: Id, ghost b: nat) returns (val: Tri)
      requires Valid() && IsChoice(k, c) && Below(rank, ModeCells(k, c), b)
      modifies this`cached
      ensures Valid() && Grew(old(cached)) && ModeReads(k, user, Env(), c) <= cached.Keys
      ensures val == Mode(k, user, Env(), c)
      decreases b, 2
    {
      hide Built, WellFormed, Ranked, UserOk, CacheOk, ScratchEnv, Scratch;
      val := if k.choices[c].isOptional then 0 else 1;
      if c in user.tri {
        val := Max(val, user.tri[c]);
      }
      var vis := GetVis(c);
      val := Min(val, vis);
      if val == 1 {
        var t := ChoiceType(c, b);
        if t == BOOL {
          val := 2;
        }
      }
    }

    /** Symbol.type */
    method SymType(i: Id, ghost b: nat) returns (t: Kind)
      requires Valid() && IsSym(k, i) && Below(rank, TypeReads(k, k.syms[i].kind), b)
      requires k.syms[i].choice.Some? ==> Below(rank, ModeCells(k, k.syms[i].choice.value), b)
      modifies this`cached
      ensures Valid() && Grew(old(cached)) && SymTypeReads(k, user, Env(), i) <= cached.Keys
      ensures t == TRISTATE <==> SymIsTristate(k, user, Env(), i)
      ensures t in {k.syms[i].kind, BOOL}
      decreases b, 3
    {
      hide Built, WellFormed, Ranked, UserOk, CacheOk, ScratchEnv, Scratch;
      SymFacts(k, i);
      t := k.syms[i].kind;
      if t == TRISTATE {
        if k.syms[i].choice.Some? {
          var mode := ChoiceTri(k.syms[i].choice.value, b);
          if mode == 2 {
            return BOOL;
          }
        }
        var m := GetTri(k.modules);
        if m == 0 {
          t := BOOL;
        }
      }
    }

    /** _sym_to_num; None is the ValueError */
    method SymToNum(i: Id, ghost b: nat) returns (n: Option<int>)
      requires Valid() && rank(NumCell(k, i)) < b
      modifies this`cached
      ensures Valid() && Grew(old(cached)) && NumCell(k, i) in cached && n == NumOf(k, Env(), i)
      decreases b, 1
    {
      hide Built, WellFormed, Ranked, UserOk, CacheOk, ScratchEnv, Scratch;
      if Logical(KindOf(k, i)) {
        var t := GetTri(i);
        n := Some(t);
      } else {
        var s := GetStr(i);
        n := k.parse(KindOf(k, i), s);
      }
    }

    /** The comparison at the end of expr_value. */
    method Compare(a: Id, c: Id, ghost b: nat) returns (comp: int)
      requires Valid() && Below(rank, {NumCell(k, a), NumCell(k, c), StrVal(a), StrVal(c)}, b)
      modifies this`cached
      ensures Valid() && Grew(old(cached)) && ComparisonReads(k, Env(), a, c) <= cached.Keys
      ensures comp == Comparison(k, Env(), a, c)
      decreases b, 2
    {
      hide Built, WellFormed, Ranked, UserOk, CacheOk, ScratchEnv, Scratch;
      if !(KindOf(k, a) == STRING && KindOf(k, c) == STRING) {
        var n := SymToNum(a, b);
        if n.Some? {
          var m := SymToNum(c, b);
          if m.Some? {
            return n.value - m.value;
          }
        }
      }
      var s := GetStr(a);
      var t := GetStr(c);
      comp := StrCmp(s, t);
    }

    /** expr_value, with its short circuits */
    method ExprValue(e: Expr, ghost b: nat) returns (v: Tri)
      requires Valid() && Below(rank, ExprCells(k, e), b)
      modifies this`cached
      ensures Valid() && Grew(old(cached)) && ExprReads(k, user, Env(), e) <= cached.Keys
      ensures v == ExprVal(k, user, Env(), e)
      decreases b, 4, e
    {
      hide Built, WellFormed, Ranked, UserOk, CacheOk, ScratchEnv, Scratch;
      match e {
        case Leaf(i) =>
          if IsChoice(k, i) {
            v := ChoiceTri(i, b);
          } else {
            v := GetTri(i);
          }
        case And(l, r) =>
          v := ExprValue(l, b);
          if v != 0 {
            var w := ExprValue(r, b);
            v := Min(v, w);
          }
        case Or(l, r) =>
          v := ExprValue(l, b);
          if v != 2 {
            var w := ExprValue(r, b);
            v := Max(v, w);
          }
        case Not(o) =>
          v := ExprValue(o, b);
          v := 2 - v;
        case Rel(r, x, y) =>
          var comp := Compare(x, y, b);
          v := if Holds(r, comp) then 2 else 0;
      }
    }

    /** The loop over the prompts in _visibility. */
    method PromptsValue(es: seq<Expr>, ghost b: nat) returns (vis: Tri)
      requires Valid() && Below(rank, PromptsCells(k, es), b)
      modifies this`cached
      ensures Valid() && Grew(old(cached)) && PromptsReads(k, user, Env(), es) <= cached.Keys
      ensures vis == PromptsVal(k, user, Env(), es)
      decreases b, 5
    {
      hide Built, WellFormed, Ranked, UserOk, CacheOk, ScratchEnv, Scratch;
      vis := 0;
      for j := 0 to |es|
        invariant Valid() && Grew(old(cached))
        invariant vis == PromptsVal(k, user, Env(), es[..j])
        invariant PromptsReads(k, user, Env(), es[..j]) <= cached.Keys
      {
        PromptsBelow(k, rank, es, b, j);
        var v := ExprValue(es[j], b);
        vis := Max(vis, v);
        assert es[..j + 1][..j] == es[..j];
      }
      assert es[..|es|] == es;
    }

    /** _visibility of a symbol */
    method SymVisibility(i: Id) returns (vis: Tri)
      requires Valid() && IsSym(k, i)
      modifies this`cached
      ensures Valid() && Grew(old(cached)) && SymVisReads(k, user, Env(), i) <= cached.Keys
      ensures vis == SymVis(k, user, Env(), i)
      decreases rank(Vis(i)), 8
    {
      hide Built, WellFormed, Ranked, UserOk, CacheOk, ScratchEnv, Scratch;
      var s := k.syms[i];
      ghost var b := rank(Vis(i));
      RankSymVis(k, rank, i);
      vis := PromptsValue(s.prompts, b);
      if s.choice.Some? {
        var c := s.choice.value;
        if k.choices[c].kind == TRISTATE && s.kind != TRISTATE {
          var mode := ChoiceTri(c, b);
          if mode != 2 {
            return 0;
          }
        }
        if s.kind == TRISTATE && vis == 1 {
          var mode := ChoiceTri(c, b);
          if mode == 2 {
            return 0;
          }
        }
      }
      if vis == 1 {
        var t := SymType(i, b);
        if t != TRISTATE {
          vis := 2;
        }
      }
    }

    /** _visibility of a choice */
    method ChoiceVisibility(c: Id) returns (vis: Tri)
      requires Valid() && IsChoice(k, c)
      modifies this`cached
      ensures Valid() && Grew(old(cached)) && ChoiceVisReads(k, user, Env(), c) <= cached.Keys
      ensures vis == ChoiceVis(k, user, Env(), c)
      decreases rank(Vis(c)), 8
    {
      hide Built, WellFormed, Ranked, UserOk, CacheOk, ScratchEnv, Scratch;
      ghost var b := rank(Vis(c));
      RankChoiceVis(k, rank, c);
      vis := PromptsValue(k.choices[c].prompts, b);
      if vis == 1 {
        var t := k.choices[c].kind;
        if t == TRISTATE {
          var m := GetTri(k.modules);
          if m == 0 {
            t := BOOL;
          }
        }
        if t != TRISTATE {
          vis := 2;
        }
      }
    }

    /** The visibility property of symbols and choices. */
    method GetVis(i: Id) returns (vis: Tri)
      requires Valid()
      modifies this`cached
      ensures Valid() && Grew(old(cached)) && Vis(i) in cached && vis == V(Env(), i)
      decreases rank(Vis(i)), 10
    {
      hide Built, WellFormed, Ranked, UserOk, CacheOk, ScratchEnv, Scratch;
      if Vis(i) !in cached {
        if IsChoice(k, i) {
          vis := ChoiceVisibility(i);
        } else if IsSym(k, i) {
          vis := SymVisibility(i);
        } else {
          vis := 0;
        }
        Remember(Vis(i), Num(vis));
      }
      CachedValue(Vis(i));
      vis := cached[Vis(i)].n;
    }

    /** The loop over the defaults in Symbol.tri_value. */
    method DefaultTriValue(ds: seq<Default>, ghost b: nat) returns (val: Tri)
      requires Valid() && Below(rank, DefaultsCells(k, ds), b)
      modifies this`cached
      ensures Valid() && Grew(old(cached)) && DefaultTriReads(k, user, Env(), ds) <= cached.Keys
      ensures val == DefaultTri(k, user, Env(), ds)
      decreases b, 5
    {
      hide Built, WellFormed, Ranked, UserOk, CacheOk, ScratchEnv, Scratch;
      val := 0;
      var j := 0;
      while j < |ds|
        invariant j <= |ds| && Valid() && Grew(old(cached)) && val == 0
        invariant DefaultTri(k, user, Env(), ds) == DefaultTri(k, user, Env(), ds[j..])
        invariant DefaultTriReads(k, user, Env(), ds) <= cached.Keys + DefaultTriReads(k, user, Env(), ds[j..])
      {
        DefaultsBelow(k, rank, ds, b, j);
        assert ds[j..][0] == ds[j] && ds[j..][1..] == ds[j + 1..];
        var cond := ExprValue(ds[j].cond, b);
        if cond != 0 {
          val := ExprValue(ds[j].value, b);
          val := Min(val, cond);
          return;
        }
        j := j + 1;
      }
    }

    /** Symbol.tri_value outside choices, up to the reverse dependencies. */
    method PlainBaseValue(i: Id, ghost b: nat) returns (val: Tri)
      requires Valid() && IsSym(k, i) && b == rank(TriVal(i))
      requires Logical(k.syms[i].kind) && !k.syms[i].isConstant && k.syms[i].choice.None?
      modifies this`cached
      ensures Valid() && Grew(old(cached)) && {Vis(i)} + PlainBaseReads(k, user, Env(), i) <= cached.Keys
      ensures val == PlainBase(k, user, Env(), i)
      decreases b, 7
    {
      hide Built, WellFormed, Ranked, UserOk, CacheOk, ScratchEnv, Scratch;
      var s := k.syms[i];
      RankTri(k, rank, i);
      var vis := GetVis(i);
      if vis != 0 && i in user.tri {
        return Min(user.tri[i], vis);
      }
      val := DefaultTriValue(s.defaults, b);
      var weak := ExprValue(s.weakRevDep, b);
      if weak != 0 {
        var direct := ExprValue(s.directDep, b);
        if direct != 0 {
          val := Max(weak, val);
        }
      }
    }

    /** Symbol.tri_value for a bool or tristate symbol outside choices. */
    method PlainTriValue(i: Id, ghost b: nat) returns (val: Tri)
      requires Valid() && IsSym(k, i) && b == rank(TriVal(i))
      requires Logical(k.syms[i].kind) && !k.syms[i].isConstant && k.syms[i].choice.None?
      modifies this`cached
      ensures Valid() && Grew(old(cached)) && PlainTriReads(k, user, Env(), i) <= cached.Keys
      ensures val == PlainTri(k, user, Env(), i)
      decreases b, 8
    {
      hide Built, WellFormed, Ranked, UserOk, CacheOk, ScratchEnv, Scratch, PlainBase, PlainBaseReads, SymIsTristate, SymTypeReads;
      var s := k.syms[i];
      RankTri(k, rank, i);
      val := PlainBaseValue(i, b);
      var rev := ExprValue(s.revDep, b);
      if rev != 0 {
        var _ := ExprValue(s.directDep, b);
        val := Max(rev, val);
      }
      if val == 1 {
        var t := SymType(i, b);
        if t == BOOL {
          val := 2;
        } else {
          var weak := ExprValue(s.weakRevDep, b);
          if weak == 2 {
            val := 2;
          }
        }
      }
    }

    /** Symbol.tri_value */
    method GetTri(i: Id) returns (val: Tri)
      requires Valid()
      modifies this`cached
      ensures Valid() && Grew(old(cached)) && TriVal(i) in cached && val == T(Env(), i)
      decreases rank(TriVal(i)), 10
    {
      hide Built, WellFormed, Ranked, UserOk, CacheOk, ScratchEnv, Scratch;
      if TriVal(i) !in cached {
        if !IsSym(k, i) {
          val := 0;
        } else if k.syms[i].isConstant {
          SymFacts(k, i);
          val := k.syms[i].constTri;
        } else if !Logical(k.syms[i].kind) {
          val := 0;
        } else if k.syms[i].choice.None? {
          val := PlainTriValue(i, rank(TriVal(i)));
        } else {
          RankTri(k, rank, i);
          var vis := GetVis(i);
          val := 0;
          if vis == 2 {
            var p := GetSel(k.syms[i].choice.value);
            val := if p == Some(i) then 2 else 0;
          } else if vis != 0 && i in user.tri && user.tri[i] != 0 {
            val := 1;
          }
        }
        Remember(TriVal(i), Num(val));
      }
      CachedValue(TriVal(i));
      val := cached[TriVal(i)].n;
    }

    /** The loop over the ranges in Symbol.str_value. */
    method ActiveRangeOf(i: Id, rs: seq<Range>, ghost b: nat) returns (r: Option<(int, int)>)
      requires Valid() && IsSym(k, i) && Below(rank, RangesCells(k, rs), b)
      modifies this`cached
      ensures Valid() && Grew(old(cached)) && ActiveRangeReads(k, user, Env(), rs) <= cached.Keys
      ensures r == ActiveRange(k, user, Env(), i, rs)
      decreases b, 5
    {
      hide Built, WellFormed, Ranked, UserOk, CacheOk, ScratchEnv, Scratch;
      r := None;
      var j := 0;
      while j < |rs|
        invariant j <= |rs| && Valid() && Grew(old(cached)) && r == None
        invariant ActiveRange(k, user, Env(), i, rs) == ActiveRange(k, user, Env(), i, rs[j..])
        invariant ActiveRangeReads(k, user, Env(), rs) <= cached.Keys + ActiveRangeReads(k, user, Env(), rs[j..])
      {
        RangesBelow(k, rank, rs, b, j);
        assert rs[j..][0] == rs[j] && rs[j..][1..] == rs[j + 1..];
        var cond := ExprValue(rs[j].cond, b);
        if cond != 0 {
          var low := GetStr(rs[j].low);
          var high := GetStr(rs[j].high);
          return Some((NumOr0(k, k.syms[i].kind, low), NumOr0(k, k.syms[i].kind, high)));
        }
        j := j + 1;
      }
    }

    /** The loop over the defaults in Symbol.str_value. */
    method DefaultStrValue(ds: seq<Default>, ghost b: nat) returns (val: Option<string>)
      requires Valid() && Below(rank, DefaultsCells(k, ds), b)
      requires forall j :: 0 <= j < |ds| ==> ds[j].value.Leaf?
      modifies this`cached
      ensures Valid() && Grew(old(cached)) && DefaultStrReads(k, user, Env(), ds) <= cached.Keys
      ensures val == DefaultStr(k, user, Env(), ds)
      decreases b, 5
    {
      hide Built, WellFormed, Ranked, UserOk, CacheOk, ScratchEnv, Scratch;
      val := None;
      var j := 0;
      while j < |ds|
        invariant j <= |ds| && Valid() && Grew(old(cached)) && val == None
        invariant DefaultStr(k, user, Env(), ds) == DefaultStr(k, user, Env(), ds[j..])
        invariant DefaultStrReads(k, user, Env(), ds) <= cached.Keys + DefaultStrReads(k, user, Env(), ds[j..])
      {
        DefaultsBelow(k, rank, ds, b, j);
        assert ds[j..][0] == ds[j] && ds[j..][1..] == ds[j + 1..];
        var cond := ExprValue(ds[j].cond, b);
        if cond != 0 {
          var text := GetStr(ds[j].value.id);
          return Some(text);
        }
        j := j + 1;
      }
    }

    /** Symbol.str_value for int and hex symbols without a usable setting of the user. */
    method DefaultNumber(i: Id, r: Option<(int, int)>, ghost b: nat) returns (val: string)
      requires Valid() && IsSym(k, i) && Below(rank, DefaultsCells(k, k.syms[i].defaults), b)
      requires forall j :: 0 <= j < |k.syms[i].defaults| ==> k.syms[i].defaults[j].value.Leaf?
      modifies this`cached
      ensures Valid() && Grew(old(cached)) && DefaultStrReads(k, user, Env(), k.syms[i].defaults) <= cached.Keys
      ensures val == Clamped(k, k.syms[i].kind, r, DefaultStr(k, user, Env(), k.syms[i].defaults))
      decreases b, 6
    {
      hide Built, WellFormed, Ranked, UserOk, CacheOk, ScratchEnv, Scratch, DefaultStr, DefaultStrReads, Below;
      var kind := k.syms[i].kind;
      val := "";
      var num := 0;
      var d := DefaultStrValue(k.syms[i].defaults, b);
      if d.Some? {
        val := d.value;
        num := NumOr0(k, kind, val);
      }
      if r.Some? {
        if num < r.value.0 {
          val := k.render(kind, r.value.0);
        } else if num > r.value.1 {
          val := k.render(kind, r.value.1);
        }
      }
    }

    /** Symbol.str_value for int and hex symbols. */
    method NumberValue(i: Id) returns (val: string)
      requires Valid() && IsSym(k, i) && k.syms[i].kind in {INT, HEX}
      modifies this`cached
      ensures Valid() && Grew(old(cached)) && SymStrReads(k, user, Env(), i) <= cached.Keys
      ensures val == SymStr(k, user, Env(), i)
      decreases rank(StrVal(i)), 8
    {
      hide Built, WellFormed, Ranked, UserOk, CacheOk, ScratchEnv, Scratch;
      hide DefaultStr, DefaultStrReads, ActiveRange, ActiveRangeReads, Clamped, Below;
      var s := k.syms[i];
      ghost var b := rank(StrVal(i));
      RankStr(k, rank, i);
      var vis := GetVis(i);
      var r := ActiveRangeOf(i, s.ranges, b);
      if vis != 0 && i in user.str && user.str[i] != "" {
        var n := NumOr0(k, s.kind, user.str[i]);
        if !(r.Some? && !(r.value.0 <= n <= r.value.1)) {
          return user.str[i];
        }
      }
      val := DefaultNumber(i, r, b);
    }

    /** Symbol.str_value */
    method GetStr(i: Id) returns (val: string)
      requires Valid()
      modifies this`cached
      ensures Valid() && Grew(old(cached)) && StrVal(i) in cached && val == S(Env(), i)
      decreases rank(StrVal(i)), 10
    {
      hide Built, WellFormed, Ranked, UserOk, CacheOk, ScratchEnv, Scratch;
      if StrVal(i) !in cached {
        if !IsSym(k, i) {
          val := "";
        } else {
          var s := k.syms[i];
          SymFacts(k, i);
          if Logical(s.kind) {
            RankStr(k, rank, i);
            var t := GetTri(i);
            if !Inert(k, StrVal(i)) {
              FlagUp(TriVal(i));
            }
            val := TriToStr(t);
          } else if s.kind == UNKNOWN {
            val := s.name;
          } else if s.kind == STRING {
            RankStr(k, rank, i);
            var vis := GetVis(i);
            val := "";
            if vis != 0 && i in user.str {
              val := user.str[i];
            } else {
              var d := DefaultStrValue(s.defaults, rank(StrVal(i)));
              if d.Some? {
                val := d.value;
              }
            }
          } else {
            val := NumberValue(i);
          }
        }
        Remember(StrVal(i), Text(val));
      }
      CachedValue(StrVal(i));
      val := cached[StrVal(i)].s;
    }

    /** The loop over the defaults in Choice._get_selection_from_defaults. */
    method DefaultSelection(ds: seq<SymDefault>, ghost b: nat) returns (p: Option<Id>)
      requires Valid() && Below(rank, SymDefaultsCells(k, ds), b)
      modifies this`cached
      ensures Valid() && Grew(old(cached)) && DefaultSelReads(k, user, Env(), ds) <= cached.Keys
      ensures p == DefaultSel(k, user, Env(), ds)
      decreases b, 5
    {
      hide Built, WellFormed, Ranked, UserOk, CacheOk, ScratchEnv, Scratch;
      p := None;
      var j := 0;
      while j < |ds|
        invariant j <= |ds| && Valid() && Grew(old(cached)) && p == None
        invariant DefaultSel(k, user, Env(), ds) == DefaultSel(k, user, Env(), ds[j..])
        invariant DefaultSelReads(k, user, Env(), ds) <= cached.Keys + DefaultSelReads(k, user, Env(), ds[j..])
      {
        SymDefaultsBelow(k, rank, ds, b, j);
        assert ds[j..][0] == ds[j] && ds[j..][1..] == ds[j + 1..];
        var cond := ExprValue(ds[j].cond, b);
        if cond != 0 {
          var vis := GetVis(ds[j].sym);
          if vis != 0 {
            return Some(ds[j].sym);
          }
        }
        j := j + 1;
      }
    }

    /** The loop over the symbols in Choice._get_selection_from_defaults. */
    method FirstVisibleSym(syms: seq<Id>, ghost b: nat) returns (p: Option<Id>)
      requires Valid() && Below(rank, VisCells(syms), b)
      modifies this`cached
      ensures Valid() && Grew(old(cached)) && FirstVisibleReads(Env(), syms) <= cached.Keys
      ensures p == FirstVisible(Env(), syms)
      decreases b, 5
    {
      hide Built, WellFormed, Ranked, UserOk, CacheOk, ScratchEnv, Scratch;
      p := None;
      var j := 0;
      while j < |syms|
        invariant j <= |syms| && Valid() && Grew(old(cached)) && p == None
        invariant FirstVisible(Env(), syms) == FirstVisible(Env(), syms[j..])
        invariant FirstVisibleReads(Env(), syms) <= cached.Keys + FirstVisibleReads(Env(), syms[j..])
      {
        assert syms[j..][0] == syms[j] && syms[j..][1..] == syms[j + 1..];
        assert Vis(syms[j]) in VisCells(syms);
        var vis := GetVis(syms[j]);
        if vis != 0 {
          return Some(syms[j]);
        }
        j := j + 1;
      }
    }

    /** Choice._selection */
    method SelectionOf(c: Id) returns (p: Option<Id>)
      requires Valid() && IsChoice(k, c)
      modifies this`cached
      ensures Valid() && Grew(old(cached)) && SelectionReads(k, user, Env(), c) <= cached.Keys
      ensures p == Selection(k, user, Env(), c)
      decreases rank(Sel(c)), 8
    {
      hide Built, WellFormed, Ranked, UserOk, CacheOk, ScratchEnv, Scratch;
      ghost var b := rank(Sel(c));
      RankSel(k, rank, user, c);
      var mode := ChoiceTri(c, b);
      if mode != 2 {
        return None;
      }
      if c in user.sel {
        var vis := GetVis(user.sel[c]);
        if vis != 0 {
          return Some(user.sel[c]);
        }
      }
      p := DefaultSelection(k.choices[c].defaults, b);
      if p.None? {
        p := FirstVisibleSym(k.choices[c].syms, b);
      }
    }

    /** Choice.selection */
    method GetSel(c: Id) returns (p: Option<Id>)
      requires Valid()
      modifies this`cached
      ensures Valid() && Grew(old(cached)) && Sel(c) in cached && p == P(Env(), c)
      decreases rank(Sel(c)), 10
    {
      hide Built, WellFormed, Ranked, UserOk, CacheOk, ScratchEnv, Scratch;
      if Sel(c) !in cached {
        if IsChoice(k, c) {
          p := SelectionOf(c);
        } else {
          p := None;
        }
        Remember(Sel(c), Pick(p));
      }
      CachedValue(Sel(c));
      p := cached[Sel(c)].p;
    }

    // ---------------------------------------------------------------- invalidation

    /** _invalidate */
    method Invalidate(i: Id)
      modifies this`cached
      ensures cached == Without(old(cached), {i})
    {
      cached := Without(cached, {i});
    }

    /** _invalidate_all: the defined symbols and the choices */
    method InvalidateAll() returns (ghost gone: set<Id>)
      modifies this`cached
      ensures cached == Without(old(cached), gone) && forall x :: x in gone <==> Defined(k, x)
    {
      gone := set x | x in AllIds(k) && Defined(k, x);
      cached := map c | c in cached && !Defined(k, c.id) :: cached[c];
    }

    /** _rec_invalidate.  Stopping at items without a cached visibility also makes the recursion end
        on the cycles of the dependents: with every call fewer attributes are cached. */
    method RecInvalidate(i: Id) returns (ghost gone: set<Id>)
      requires Built() && WellFormed(k) && Defined(k, i)
      modifies this`cached
      ensures cached == Without(old(cached), gone)
      ensures i in gone && Swept(k, cached, gone)
      decreases set c | c in cached && c.id != i
    {
      hide WellFormed, DependsOn, Defined;
      if i == k.modules {
        gone := InvalidateAll();
        AllSwept(k, cached, old(cached), gone);
        return;
      }
      Invalidate(i);
      gone := {i};
      var todo := At(dependents, i);
      while todo != {}
        invariant cached == Without(old(cached), gone) && i in gone
        invariant todo <= At(dependents, i)
        invariant SweptBut(k, cached, gone, i, todo)
      {
        var y :| y in todo;
        if Vis(y) in cached {
          DependentDefined(k, y, i);
          ghost var before := cached;
          Fewer(old(cached), before, i, y);
          ghost var more := RecInvalidate(y);
          SweepMore(k, before, cached, gone, more, i, y, todo);
          WithoutTwice(old(cached), gone, more);
          gone := gone + more;
        }
        todo := todo - {y};
      }
    }

    // ---------------------------------------------------------------- user values

    /** _rec_invalidate_if_has_prompt, after the user value of symbol i has changed from u to user */
    method RecInvalidateIfHasPrompt(i: Id, ghost u: User)
      requires Built() && WellFormed(k) && Ranked(k, rank) && UserOk(k, u) && CacheOk(k, rank, u, cached)
      requires OnlySym(k, u, user, i)
      modifies this`cached
      ensures Valid()
    {
      hide Ranked, CacheOk;
      if k.syms[i].prompts != [] {
        SymFacts(k, i);
        ghost var gone := RecInvalidate(i);
        UnseenSym(k, rank, u, user, old(cached), gone, i);
        TrackedNoneEscaped(k, rank, u, cached, gone);
        CutOffSound(k, rank, u, user, old(cached), gone);
      } else {
        UnseenPromptless(k, rank, u, user, cached, i);
        assert Without(cached, {}) == cached;
        TrackedNoneEscaped(k, rank, u, cached, {});
        CutOffSound(k, rank, u, user, cached, {});
      }
    }

    /** Choice._rec_invalidate, after settings of choice c, and of its symbol i unless i is c, have
        changed from u to user */
    method RecInvalidateChoice(c: Id, i: Id, ghost u: User)
      requires Built() && WellFormed(k) && Ranked(k, rank) && UserOk(k, u) && CacheOk(k, rank, u, cached)
      requires UserOk(k, user) && OnlyChoice(k, u, user, c, i)
      requires i == c || SameAt(u.tri, user.tri, i) || Logical(KindOf(k, i))
      requires SameAt(u.str, user.str, i)
      modifies this`cached
      ensures Valid()
    {
      ghost var gone := RecInvalidate(c);
      UnseenChoice(k, rank, u, user, old(cached), gone, c, i);
      TrackedNoneEscaped(k, rank, u, cached, gone);
      assert Parsed(k);
      hide WellFormed, Parsed, Ranked, Coherent, Closed, Flagged, UserOk;
      CutOffSound(k, rank, u, user, old(cached), gone);
    }

    /** Symbol.set_value */
    method SetValue(i: Id, value: Setting) returns (ok: bool)
      requires Valid() && IsSym(k, i)
      modifies this`user, this`cached
      ensures Valid()
      ensures ok <==> Accepts(k, k.syms[i].kind, value)
                      || (k.syms[i].choice.None? && old(UserValue(k, user, i)) == Some(value))
      ensures user == if ok then Assigned(k, old(user), i, value) else old(user)
    {
      hide Ranked, CacheOk, WellFormed, Built, Mentions, Inert;
      SymFacts(k, i);
      var s := k.syms[i];
      if UserValue(k, user, i) == Some(value) && s.choice.None? {
        return true;
      }
      if !Accepts(k, s.kind, value) {
        return false;
      }
      ghost var u := user;
      if Logical(s.kind) {
        user := user.(tri := user.tri[i := ToTri(value)]);
      } else {
        user := user.(str := user.str[i := value.s]);
      }
      if s.choice.Some? && Logical(s.kind) && ToTri(value) == 2 {
        user := user.(sel := user.sel[s.choice.value := i]);
        RecInvalidateChoice(s.choice.value, i, u);
      } else {
        RecInvalidateIfHasPrompt(i, u);
      }
      ok := true;
    }

    /** Symbol.unset_value */
    method UnsetValue(i: Id)
      requires Valid() && IsSym(k, i)
      modifies this`user, this`cached
      ensures Valid() && user == Unassigned(k, old(user), i)
    {
      hide Ranked, CacheOk;
      SymFacts(k, i);
      ghost var u := user;
      if i in user.tri || i in user.str {
        user := User(user.tri - {i}, user.str - {i}, user.sel);
        RecInvalidateIfHasPrompt(i, u);
      }
    }

    /** Choice.set_value */
    method ChoiceSetValue(c: Id, value: Setting) returns (ok: bool)
      requires Valid() && IsChoice(k, c)
      modifies this`user, this`cached
      ensures Valid()
      ensures ok <==> (Logical(k.choices[c].kind) && Accepts(k, k.choices[c].kind, value))
                      || old(UserValue(k, user, c)) == Some(value)
      ensures user == if ok then old(user).(tri := old(user).tri[c := ToTri(value)]) else old(user)
    {
      hide Ranked, CacheOk;
      if UserValue(k, user, c) == Some(value) {
        return true;
      }
      if !(Logical(k.choices[c].kind) && Accepts(k, k.choices[c].kind, value)) {
        return false;
      }
      ghost var u := user;
      user := user.(tri := user.tri[c := ToTri(value)]);
      RecInvalidateChoice(c, c, u);
      ok := true;
    }

    /** Choice.unset_value */
    method ChoiceUnsetValue(c: Id)
      requires Valid() && IsChoice(k, c)
      modifies this`user, this`cached
      ensures Valid() && user == Unassigned(k, old(user), c)
    {
      hide Ranked, CacheOk;
      ghost var u := user;
      if c in user.tri || c in user.sel {
        user := User(user.tri - {c}, user.str, user.sel - {c});
        RecInvalidateChoice(c, c, u);
      }
    }
  }
}
