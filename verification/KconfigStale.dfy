/** A choice whose default is a symbol outside the choice, tools/kconfiglib.py: setting a value the default's
    visibility depends on leaves an old selection in the cache. */
module KconfigStale {
  import opened Basics
  import opened KconfigModel
  import opened KconfigDeps
  import opened KconfigCache
  import opened KconfigObjects

  // The items: the constants n and y, MODULES, the choice, its two symbols, the symbol that is its default,
  // and the symbol that one's prompt depends on.

  const N: Id := 0
  const Y: Id := 1
  const MODULES: Id := 2
  const CHOICE: Id := 3
  const FIRST: Id := 4
  const SECOND: Id := 5
  const OUTSIDE: Id := 6
  const SWITCH: Id := 7

  function ConstantSymbol(name: string, value: Tri): Symbol {
    Symbol(name, TRISTATE, false, true, value, [], [], [], Leaf(N), Leaf(N), Leaf(N), None)
  }

  function UndefinedSymbol(name: string): Symbol {
    Symbol(name, UNKNOWN, false, false, 0, [], [], [], Leaf(N), Leaf(N), Leaf(N), None)
  }

  function BoolSymbol(name: string, prompt: Id, choice: Option<Id>): Symbol {
    Symbol(name, BOOL, true, false, 0, [Leaf(prompt)], [], [], Leaf(N), Leaf(N), Leaf(prompt), choice)
  }

  function Sample(): Config {
    Config(
      map[N := ConstantSymbol("n", 0), Y := ConstantSymbol("y", 2),
          MODULES := UndefinedSymbol("MODULES"),
          FIRST := BoolSymbol("FIRST", CHOICE, Some(CHOICE)), SECOND := BoolSymbol("SECOND", CHOICE, Some(CHOICE)),
          OUTSIDE := BoolSymbol("OUTSIDE", SWITCH, None), SWITCH := BoolSymbol("SWITCH", Y, None)],
      map[CHOICE := Choice(BOOL, false, [Leaf(Y)], [SymDefault(OUTSIDE, Leaf(Y))], [FIRST, SECOND])],
      MODULES, (_, _) => None, (_, _) => "")
  }

  /** An order in which all attributes can be computed */
  function Rank(c: Cell): nat {
    match c
    case Vis(i) => if i == N || i == Y then 1 else if i == OUTSIDE then 3 else if i == FIRST || i == SECOND then 2 else if i == MODULES then 0 else 1
    case TriVal(i) => if i == SWITCH then 2 else if i == OUTSIDE then 4 else if i == FIRST || i == SECOND then 5 else 0
    case StrVal(_) => 6
    case Sel(_) => 4
  }

  function Before(): User {
    User(map[], map[], map[])
  }

  function After(): User {
    User(map[SWITCH := 2], map[], map[])
  }

  const ITEMS: set<Id> := {N, Y, MODULES, CHOICE, FIRST, SECOND, OUTSIDE, SWITCH}

  ghost function Cells(): set<Cell> {
    var ids := ITEMS;
    (set i | i in ids :: Vis(i)) + (set i | i in ids :: TriVal(i)) + (set i | i in ids :: StrVal(i)) + (set i | i in ids :: Sel(i))
  }

  /** Every attribute has been read. */
  ghost function Full(): Cache {
    map c | c in Cells() :: Scratch(Sample(), Before(), Rank, c)
  }

  /** What the invalidation reaches from SWITCH */
  const GONE: set<Id> := {SWITCH, OUTSIDE}

  lemma SingleCells(k: Config, i: Id)
    ensures PromptsCells(k, [Leaf(i)]) == ExprCells(k, Leaf(i))
  {
    assert [Leaf(i)][..0] == [];
  }

  lemma Symbols()
    ensures var k := Sample();
            && k.syms.Keys == {N, Y, MODULES, FIRST, SECOND, OUTSIDE, SWITCH} && k.choices.Keys == {CHOICE}
            && k.syms[N] == ConstantSymbol("n", 0) && k.syms[Y] == ConstantSymbol("y", 2)
            && k.syms[MODULES] == UndefinedSymbol("MODULES")
            && k.syms[FIRST] == BoolSymbol("FIRST", CHOICE, Some(CHOICE))
            && k.syms[SECOND] == BoolSymbol("SECOND", CHOICE, Some(CHOICE))
            && k.syms[OUTSIDE] == BoolSymbol("OUTSIDE", SWITCH, None)
            && k.syms[SWITCH] == BoolSymbol("SWITCH", Y, None)
            && k.choices[CHOICE] == Choice(BOOL, false, [Leaf(Y)], [SymDefault(OUTSIDE, Leaf(Y))], [FIRST, SECOND])
            && k.modules == MODULES
  {
  }

  lemma RankVis(i: Id, d: Cell)
    requires d in MayRead(Sample(), Vis(i))
    ensures Rank(d) < Rank(Vis(i)) && d.id in ITEMS
  {
    var k := Sample();
    Symbols();
    hide Sample;
    if i == CHOICE || i == SWITCH {
      SingleCells(k, Y);
    } else if i == FIRST || i == SECOND {
      SingleCells(k, CHOICE);
    } else if i == OUTSIDE {
      SingleCells(k, SWITCH);
    } else {
      assert PromptsCells(k, []) == {};
    }
  }

  lemma RankTriVal(i: Id, d: Cell)
    requires d in MayRead(Sample(), TriVal(i))
    ensures Rank(d) < Rank(TriVal(i)) && d.id in ITEMS
  {
    Symbols();
    hide Sample;
  }

  lemma RankSel(i: Id, d: Cell)
    requires d in MayRead(Sample(), Sel(i))
    ensures Rank(d) < Rank(Sel(i)) && d.id in ITEMS
  {
    var k := Sample();
    Symbols();
    hide Sample;
    var ds := k.choices[CHOICE].defaults;
    assert ds[1..] == [];
    assert SymDefaultsCells(k, ds) == ExprCells(k, Leaf(Y)) + {Vis(OUTSIDE)};
    assert VisCells([FIRST, SECOND]) == {Vis(FIRST), Vis(SECOND)};
  }

  lemma RankStrVal(i: Id, d: Cell)
    requires d in MayRead(Sample(), StrVal(i))
    ensures Rank(d) < Rank(StrVal(i)) && d.id in ITEMS
  {
    Symbols();
    hide Sample;
  }

  lemma RankCell(c: Cell, d: Cell)
    requires d in MayRead(Sample(), c)
    ensures Rank(d) < Rank(c) && d.id in ITEMS
  {
    hide MayRead, Rank;
    match c
    case Vis(i) => RankVis(i, d);
    case TriVal(i) => RankTriVal(i, d);
    case StrVal(i) => RankStrVal(i, d);
    case Sel(i) => RankSel(i, d);
  }

  lemma RankOk()
    ensures Ranked(Sample(), Rank)
  {
    forall c, d | d in MayRead(Sample(), c) ensures Rank(d) < Rank(c) {
      RankCell(c, d);
    }
  }

  // ---------------------------------------------------------------- the values before and after

  ghost function EnvOf(u: User): Env {
    ScratchEnv(Sample(), u, Rank)
  }

  lemma Equation(u: User, c: Cell)
    requires UserOk(Sample(), u)
    ensures EnvOf(u)(c) == Compute(Sample(), u, EnvOf(u), c)
  {
    RankOk();
    ScratchSolves(Sample(), u, Rank, c);
  }

  lemma PromptValue(k: Config, u: User, env: Env, i: Id)
    ensures PromptsVal(k, u, env, [Leaf(i)]) == LeafVal(k, u, env, i)
  {
    assert [Leaf(i)][..0] == [];
  }

  lemma ConstantValues(u: User)
    requires UserOk(Sample(), u)
    ensures var env := EnvOf(u); T(env, N) == 0 && T(env, Y) == 2 && T(env, MODULES) == 0
  {
    Symbols();
    Equation(u, TriVal(N));
    Equation(u, TriVal(Y));
    Equation(u, TriVal(MODULES));
    hide Sample, EnvOf;
  }

  /** SWITCH is what the user says. */
  lemma SwitchValue(u: User)
    requires UserOk(Sample(), u) && (SWITCH in u.tri ==> u.tri[SWITCH] == 2)
    ensures T(EnvOf(u), SWITCH) == if SWITCH in u.tri then 2 else 0
  {
    var k, env := Sample(), EnvOf(u);
    Symbols();
    ConstantValues(u);
    Equation(u, Vis(SWITCH));
    Equation(u, TriVal(SWITCH));
    hide Sample, EnvOf;
    PromptValue(k, u, env, Y);
    assert V(env, SWITCH) == 2;
    assert DefaultTri(k, u, env, []) == 0;
  }

  lemma OutsideVisible(u: User)
    requires UserOk(Sample(), u) && (SWITCH in u.tri ==> u.tri[SWITCH] == 2)
    ensures V(EnvOf(u), OUTSIDE) == if SWITCH in u.tri then 2 else 0
  {
    Symbols();
    SwitchValue(u);
    Equation(u, Vis(OUTSIDE));
    PromptValue(Sample(), u, EnvOf(u), SWITCH);
    hide Sample, EnvOf;
  }

  /** The choice is in y mode, and its symbols are visible. */
  lemma ChoiceMode(u: User)
    requires UserOk(Sample(), u) && CHOICE !in u.tri
    ensures Mode(Sample(), u, EnvOf(u), CHOICE) == 2 && V(EnvOf(u), FIRST) == 2
  {
    var k, env := Sample(), EnvOf(u);
    Symbols();
    ConstantValues(u);
    Equation(u, Vis(CHOICE));
    Equation(u, Vis(FIRST));
    hide Sample, EnvOf;
    PromptValue(k, u, env, Y);
    assert V(env, CHOICE) == 2;
    PromptValue(k, u, env, CHOICE);
  }

  lemma Selected(u: User)
    requires UserOk(Sample(), u) && CHOICE !in u.tri && u.sel == map[] && (SWITCH in u.tri ==> u.tri[SWITCH] == 2)
    ensures EnvOf(u)(Sel(CHOICE)) == Pick(Some(if SWITCH in u.tri then OUTSIDE else FIRST))
  {
    var k, env := Sample(), EnvOf(u);
    Symbols();
    ConstantValues(u);
    OutsideVisible(u);
    ChoiceMode(u);
    Equation(u, Sel(CHOICE));
    hide Sample, EnvOf, Mode;
    var ds := k.choices[CHOICE].defaults;
    assert DefaultSel(k, u, env, ds[1..]) == None;
  }

  // ---------------------------------------------------------------- the stale selection

  lemma SymMentions(i: Id, p: Id)
    requires (i, p) in {(FIRST, CHOICE), (SECOND, CHOICE), (OUTSIDE, SWITCH), (SWITCH, Y)}
    ensures Mentions(Sample(), i) == {p, N}
  {
    Symbols();
    assert [Leaf(p)][..0] == [];
    assert AllItems([Leaf(p)]) == {p};
    hide Sample;
  }

  lemma ChoiceMentions()
    ensures Mentions(Sample(), CHOICE) == {Y}
  {
    Symbols();
    var c := Sample().choices[CHOICE];
    assert c.prompts[..0] == [] && c.defaults[..0] == [];
    assert AllItems(c.prompts) == {Y} && SymDefaultsItems(c.defaults) == {Y};
    hide Sample;
  }

  /** Who mentions what */
  lemma MentionsOf()
    ensures var k := Sample();
            && Mentions(k, CHOICE) == {Y} && Mentions(k, FIRST) == {CHOICE, N} && Mentions(k, SECOND) == {CHOICE, N}
            && Mentions(k, OUTSIDE) == {SWITCH, N} && Mentions(k, SWITCH) == {Y, N}
  {
    ChoiceMentions();
    SymMentions(FIRST, CHOICE);
    SymMentions(SECOND, CHOICE);
    SymMentions(OUTSIDE, SWITCH);
    SymMentions(SWITCH, Y);
  }

  lemma SampleParsed()
    ensures Parsed(Sample()) && !DefaultsTracked(Sample(), CHOICE)
  {
    var k := Sample();
    Symbols();
    MentionsOf();
    hide Sample, Mentions;
    forall i | IsSym(k, i) ensures SymOk(k, i) {
    }
    hide SymOk;
    assert !Tracked(k, CHOICE, k.choices[CHOICE].defaults[0].sym);
  }

  lemma FullOk()
    ensures CacheOk(Sample(), Rank, Before(), Full())
  {
    var k, u := Sample(), Before();
    var env := ScratchEnv(k, u, Rank);
    forall c | c in Full() ensures Reads(k, u, env, c) <= Full().Keys {
      hide MayRead, Reads, Scratch, ScratchEnv, Rank;
      ReadsMay(k, u, env, c);
      forall d | d in Reads(k, u, env, c) ensures d in Full() {
        RankCell(c, d);
      }
    }
    hide MayRead, Reads, Scratch, Rank, Sample;
  }

  lemma SweptOk()
    ensures Swept(Sample(), Without(Full(), GONE), GONE)
    ensures forall x, y :: x in GONE && DependsOn(Sample(), y, x) ==> y in GONE
  {
    var k := Sample();
    Symbols();
    MentionsOf();
    hide Mentions, Sample, Scratch;
    forall x, y | x in GONE && DependsOn(k, y, x) ensures y in GONE {
    }
  }

  lemma UnseenOk()
    ensures Unseen(Sample(), Rank, Before(), After(), Without(Full(), GONE), GONE)
  {
    Symbols();
    hide Sample, Scratch, ScratchEnv;
  }

  lemma Selections()
    ensures Sel(CHOICE) in Without(Full(), GONE) && Without(Full(), GONE)[Sel(CHOICE)] == Pick(Some(FIRST))
    ensures Scratch(Sample(), After(), Rank, Sel(CHOICE)) == Pick(Some(OUTSIDE))
    ensures !CacheOk(Sample(), Rank, After(), Without(Full(), GONE))
  {
    Selected(Before());
    Selected(After());
    hide Sample, Scratch, Rank, Closed, Flagged;
  }

  /** Without a condition on the defaults of choices the cut-off leaves a wrong value: all else that its proof
      asks for holds, the sweep from SWITCH reaches all that depends on what it reaches, and the choice keeps
      its old selection. */
  lemma StaleSelection()
    ensures var k, u, u' := Sample(), Before(), After();
            && Parsed(k) && !DefaultsTracked(k, CHOICE) && Ranked(k, Rank)
            && UserOk(k, u) && UserOk(k, u') && OnlySym(k, u, u', SWITCH)
            && CacheOk(k, Rank, u, Full()) && SWITCH in GONE && Swept(k, Without(Full(), GONE), GONE)
            && (forall x, y :: x in GONE && DependsOn(k, y, x) ==> y in GONE)
            && Unseen(k, Rank, u, u', Without(Full(), GONE), GONE)
            && Sel(CHOICE) in Without(Full(), GONE)
            && Without(Full(), GONE)[Sel(CHOICE)] == Pick(Some(FIRST))
            && Scratch(k, u', Rank, Sel(CHOICE)) == Pick(Some(OUTSIDE))
            && !CacheOk(k, Rank, u', Without(Full(), GONE))
  {
    SampleParsed();
    RankOk();
    FullOk();
    SweptOk();
    UnseenOk();
    Selections();
    Symbols();
    hide Sample, Scratch, Parsed, Ranked, Swept, Unseen, CacheOk, Rank, Without, Full;
  }
}
