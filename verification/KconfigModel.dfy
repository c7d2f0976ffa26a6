/** The values of Kconfig symbols and choices as tools/kconfiglib.py defines them, without caches:
    every attribute as a function of the user's settings and of the attributes it looks at. */
module KconfigModel {
  import opened Basics

  type Id = nat
  /** n, m, y */
  type Tri = x: int | 0 <= x <= 2

  datatype Kind = BOOL | TRISTATE | INT | HEX | STRING | UNKNOWN
  datatype Relation = EQUAL | UNEQUAL | LESS | LESS_EQUAL | GREATER | GREATER_EQUAL

  /** An expression; a leaf is a symbol or a choice, relations compare symbols. */
  datatype Expr =
    | Leaf(id: Id)
    | And(left: Expr, right: Expr)
    | Or(left: Expr, right: Expr)
    | Not(operand: Expr)
    | Rel(oper: Relation, op1: Id, op2: Id)

  datatype Range = Range(low: Id, high: Id, cond: Expr)
  datatype Default = Default(value: Expr, cond: Expr)
  datatype SymDefault = SymDefault(sym: Id, cond: Expr)

  /** What parsing fixed about a symbol: the conditions of its prompts, its properties, the choice
      it is in; `constant` holds the value of n, m and y. */
  datatype Symbol = Symbol(
    name: string, kind: Kind, defined: bool, isConstant: bool, constTri: Tri,
    prompts: seq<Expr>, defaults: seq<Default>, ranges: seq<Range>,
    revDep: Expr, weakRevDep: Expr, directDep: Expr, choice: Option<Id>)

  datatype Choice = Choice(
    kind: Kind, isOptional: bool, prompts: seq<Expr>, defaults: seq<SymDefault>, syms: seq<Id>)

  /** A parsed configuration; number parsing and printing are parameters. */
  datatype Config = Config(
    syms: map<Id, Symbol>, choices: map<Id, Choice>, modules: Id,
    parse: (Kind, string) -> Option<int>, render: (Kind, int) -> string)

  /** user_value of symbols and choices (numbers and strings apart), and user_selection. */
  datatype User = User(tri: map<Id, Tri>, str: map<Id, string>, sel: map<Id, Id>)

  /** The cacheable attributes. */
  datatype Cell = Vis(id: Id) | TriVal(id: Id) | StrVal(id: Id) | Sel(id: Id)
  datatype Value = Num(n: Tri) | Text(s: string) | Pick(p: Option<Id>)
  type Env = Cell -> Value

  function V(env: Env, i: Id): Tri {
    match env(Vis(i)) case Num(n) => n case _ => 0
  }
  function T(env: Env, i: Id): Tri {
    match env(TriVal(i)) case Num(n) => n case _ => 0
  }
  function S(env: Env, i: Id): string {
    match env(StrVal(i)) case Text(s) => s case _ => ""
  }
  function P(env: Env, i: Id): Option<Id> {
    match env(Sel(i)) case Pick(p) => p case _ => None
  }

  function Min(a: Tri, b: Tri): Tri { if a <= b then a else b }
  function Max(a: Tri, b: Tri): Tri { if a >= b then a else b }

  predicate Logical(kind: Kind) {
    kind == BOOL || kind == TRISTATE
  }

  predicate IsSym(k: Config, i: Id) { i in k.syms }
  predicate IsChoice(k: Config, i: Id) { i in k.choices }

  // ---------------------------------------------------------------- choices and types

  /** Choice.type is TRISTATE */
  predicate ChoiceIsTristate(k: Config, env: Env, c: Id)
    requires IsChoice(k, c)
  {
    k.choices[c].kind == TRISTATE && T(env, k.modules) != 0
  }

  /** Choice.tri_value */
  function Mode(k: Config, u: User, env: Env, c: Id): Tri
    requires IsChoice(k, c)
  {
    var floor: Tri := if k.choices[c].isOptional then 0 else 1;
    var wanted := if c in u.tri then Max(floor, u.tri[c]) else floor;
    var val := Min(wanted, V(env, c));
    if val == 1 && !ChoiceIsTristate(k, env, c) && k.choices[c].kind in {BOOL, TRISTATE} then 2 else val
  }

  function TypeReads(k: Config, kind: Kind): set<Cell> {
    if kind == TRISTATE then {TriVal(k.modules)} else {}
  }

  function ModeReads(k: Config, u: User, env: Env, c: Id): set<Cell>
    requires IsChoice(k, c)
  {
    var floor: Tri := if k.choices[c].isOptional then 0 else 1;
    var wanted := if c in u.tri then Max(floor, u.tri[c]) else floor;
    {Vis(c)} + if Min(wanted, V(env, c)) == 1 then TypeReads(k, k.choices[c].kind) else {}
  }

  /** Symbol.type is TRISTATE */
  predicate SymIsTristate(k: Config, u: User, env: Env, i: Id)
    requires IsSym(k, i)
  {
    && k.syms[i].kind == TRISTATE
    && !(k.syms[i].choice.Some? && IsChoice(k, k.syms[i].choice.value) && Mode(k, u, env, k.syms[i].choice.value) == 2)
    && T(env, k.modules) != 0
  }

  function SymTypeReads(k: Config, u: User, env: Env, i: Id): set<Cell>
    requires IsSym(k, i)
  {
    var s := k.syms[i];
    if s.kind != TRISTATE then {}
    else if s.choice.Some? && IsChoice(k, s.choice.value) then
      ModeReads(k, u, env, s.choice.value)
      + if Mode(k, u, env, s.choice.value) == 2 then {} else {TriVal(k.modules)}
    else {TriVal(k.modules)}
  }

  // ---------------------------------------------------------------- expressions

  function KindOf(k: Config, i: Id): Kind {
    if IsSym(k, i) then k.syms[i].kind else UNKNOWN
  }

  function LeafVal(k: Config, u: User, env: Env, i: Id): Tri {
    if IsChoice(k, i) then Mode(k, u, env, i) else T(env, i)
  }

  function LeafReads(k: Config, u: User, env: Env, i: Id): set<Cell> {
    if IsChoice(k, i) then ModeReads(k, u, env, i) else {TriVal(i)}
  }

  /** -1, 0 or 1 */
  function StrCmp(a: string, b: string): int {
    if a == [] then if b == [] then 0 else -1
    else if b == [] then 1
    else if a[0] < b[0] then -1
    else if a[0] > b[0] then 1
    else StrCmp(a[1..], b[1..])
  }

  /** _sym_to_num */
  function NumOf(k: Config, env: Env, i: Id): Option<int> {
    if Logical(KindOf(k, i)) then Some(T(env, i)) else k.parse(KindOf(k, i), S(env, i))
  }

  function NumCell(k: Config, i: Id): Cell {
    if Logical(KindOf(k, i)) then TriVal(i) else StrVal(i)
  }

  /** The comparison two operands are put to: strings and non-numbers as text, others as numbers. */
  function Comparison(k: Config, env: Env, a: Id, b: Id): int {
    if KindOf(k, a) == STRING && KindOf(k, b) == STRING then StrCmp(S(env, a), S(env, b))
    else if NumOf(k, env, a).Some? && NumOf(k, env, b).Some? then NumOf(k, env, a).value - NumOf(k, env, b).value
    else StrCmp(S(env, a), S(env, b))
  }

  function ComparisonReads(k: Config, env: Env, a: Id, b: Id): set<Cell> {
    if KindOf(k, a) == STRING && KindOf(k, b) == STRING then {StrVal(a), StrVal(b)}
    else if NumOf(k, env, a).None? then {NumCell(k, a), StrVal(a), StrVal(b)}
    else if NumOf(k, env, b).None? then {NumCell(k, a), NumCell(k, b), StrVal(a), StrVal(b)}
    else {NumCell(k, a), NumCell(k, b)}
  }

  predicate Holds(r: Relation, comp: int) {
    match r
    case EQUAL => comp == 0
    case UNEQUAL => comp != 0
    case LESS => comp < 0
    case LESS_EQUAL => comp <= 0
    case GREATER => comp > 0
    case GREATER_EQUAL => comp >= 0
  }

  /** expr_value: conjunction is minimum, disjunction maximum, negation complement. */
  function ExprVal(k: Config, u: User, env: Env, e: Expr): Tri {
    match e
    case Leaf(i) => LeafVal(k, u, env, i)
    case And(a, b) => Min(ExprVal(k, u, env, a), ExprVal(k, u, env, b))
    case Or(a, b) => Max(ExprVal(k, u, env, a), ExprVal(k, u, env, b))
    case Not(a) => 2 - ExprVal(k, u, env, a)
    case Rel(r, a, b) => if Holds(r, Comparison(k, env, a, b)) then 2 else 0
  }

  /** What a short-circuiting evaluation of e looks at. */
  function ExprReads(k: Config, u: User, env: Env, e: Expr): set<Cell> {
    match e
    case Leaf(i) => LeafReads(k, u, env, i)
    case And(a, b) =>
      ExprReads(k, u, env, a) + if ExprVal(k, u, env, a) == 0 then {} else ExprReads(k, u, env, b)
    case Or(a, b) =>
      ExprReads(k, u, env, a) + if ExprVal(k, u, env, a) == 2 then {} else ExprReads(k, u, env, b)
    case Not(a) => ExprReads(k, u, env, a)
    case Rel(_, a, b) => ComparisonReads(k, env, a, b)
  }

  // ---------------------------------------------------------------- visibility

  function PromptsVal(k: Config, u: User, env: Env, es: seq<Expr>): Tri {
    if es == [] then 0
    else Max(PromptsVal(k, u, env, es[..|es| - 1]), ExprVal(k, u, env, es[|es| - 1]))
  }

  function PromptsReads(k: Config, u: User, env: Env, es: seq<Expr>): set<Cell> {
    if es == [] then {}
    else PromptsReads(k, u, env, es[..|es| - 1]) + ExprReads(k, u, env, es[|es| - 1])
  }

  /** The symbol i is hidden by the mode of its choice. */
  predicate HiddenByChoice(k: Config, u: User, env: Env, i: Id, vis: Tri)
    requires IsSym(k, i)
  {
    var s := k.syms[i];
    && s.choice.Some? && IsChoice(k, s.choice.value)
    && var c := k.choices[s.choice.value];
    || (c.kind == TRISTATE && s.kind != TRISTATE && Mode(k, u, env, s.choice.value) != 2)
    || (s.kind == TRISTATE && vis == 1 && Mode(k, u, env, s.choice.value) == 2)
  }

  /** A symbol whose prompts are off anyway stays hidden whatever its choice says. */
  function HiddenReads(k: Config, u: User, env: Env, i: Id, vis: Tri): set<Cell>
    requires IsSym(k, i)
  {
    var s := k.syms[i];
    if vis != 0 && s.choice.Some? && IsChoice(k, s.choice.value) &&
       ((k.choices[s.choice.value].kind == TRISTATE && s.kind != TRISTATE) || (s.kind == TRISTATE && vis == 1))
    then ModeReads(k, u, env, s.choice.value) else {}
  }

  /** _visibility of a symbol */
  function SymVis(k: Config, u: User, env: Env, i: Id): Tri
    requires IsSym(k, i)
  {
    var vis := PromptsVal(k, u, env, k.syms[i].prompts);
    if HiddenByChoice(k, u, env, i, vis) then 0
    else if vis == 1 && !SymIsTristate(k, u, env, i) then 2
    else vis
  }

  function SymVisReads(k: Config, u: User, env: Env, i: Id): set<Cell>
    requires IsSym(k, i)
  {
    var vis := PromptsVal(k, u, env, k.syms[i].prompts);
    PromptsReads(k, u, env, k.syms[i].prompts) + HiddenReads(k, u, env, i, vis)
    + if !HiddenByChoice(k, u, env, i, vis) && vis == 1 then SymTypeReads(k, u, env, i) else {}
  }

  /** _visibility of a choice */
  function ChoiceVis(k: Config, u: User, env: Env, c: Id): Tri
    requires IsChoice(k, c)
  {
    var vis := PromptsVal(k, u, env, k.choices[c].prompts);
    if vis == 1 && !ChoiceIsTristate(k, env, c) then 2 else vis
  }

  function ChoiceVisReads(k: Config, u: User, env: Env, c: Id): set<Cell>
    requires IsChoice(k, c)
  {
    PromptsReads(k, u, env, k.choices[c].prompts)
    + if PromptsVal(k, u, env, k.choices[c].prompts) == 1 then TypeReads(k, k.choices[c].kind) else {}
  }

  // ---------------------------------------------------------------- tristate values

  /** The first default whose condition is not n. */
  function DefaultTri(k: Config, u: User, env: Env, ds: seq<Default>): Tri {
    if ds == [] then 0
    else
      var cond := ExprVal(k, u, env, ds[0].cond);
      if cond != 0 then Min(ExprVal(k, u, env, ds[0].value), cond) else DefaultTri(k, u, env, ds[1..])
  }

  function DefaultTriReads(k: Config, u: User, env: Env, ds: seq<Default>): set<Cell> {
    if ds == [] then {}
    else
      ExprReads(k, u, env, ds[0].cond)
      + if ExprVal(k, u, env, ds[0].cond) != 0 then ExprReads(k, u, env, ds[0].value)
        else DefaultTriReads(k, u, env, ds[1..])
  }

  /** The value of a symbol outside choices before m is promoted. */
  function PlainBase(k: Config, u: User, env: Env, i: Id): Tri
    requires IsSym(k, i)
  {
    var s := k.syms[i];
    var weak := ExprVal(k, u, env, s.weakRevDep);
    if V(env, i) != 0 && i in u.tri then Min(u.tri[i], V(env, i))
    else
      var d := DefaultTri(k, u, env, s.defaults);
      if weak != 0 && ExprVal(k, u, env, s.directDep) != 0 then Max(weak, d) else d
  }

  function PlainBaseReads(k: Config, u: User, env: Env, i: Id): set<Cell>
    requires IsSym(k, i)
  {
    var s := k.syms[i];
    if V(env, i) != 0 && i in u.tri then {}
    else
      DefaultTriReads(k, u, env, s.defaults) + ExprReads(k, u, env, s.weakRevDep)
      + if ExprVal(k, u, env, s.weakRevDep) != 0 then ExprReads(k, u, env, s.directDep) else {}
  }

  /** tri_value of a bool or tristate symbol outside choices */
  function PlainTri(k: Config, u: User, env: Env, i: Id): Tri
    requires IsSym(k, i)
  {
    var s := k.syms[i];
    var val := Max(ExprVal(k, u, env, s.revDep), PlainBase(k, u, env, i));
    if val == 1 && (!SymIsTristate(k, u, env, i) || ExprVal(k, u, env, s.weakRevDep) == 2) then 2 else val
  }

  function PlainTriReads(k: Config, u: User, env: Env, i: Id): set<Cell>
    requires IsSym(k, i)
  {
    var s := k.syms[i];
    var rev := ExprVal(k, u, env, s.revDep);
    {Vis(i)} + PlainBaseReads(k, u, env, i) + ExprReads(k, u, env, s.revDep)
    + (if rev != 0 then ExprReads(k, u, env, s.directDep) else {})
    + if Max(rev, PlainBase(k, u, env, i)) != 1 then {}
      else SymTypeReads(k, u, env, i) + if SymIsTristate(k, u, env, i) then ExprReads(k, u, env, s.weakRevDep) else {}
  }

  /** Symbol.tri_value */
  function SymTri(k: Config, u: User, env: Env, i: Id): Tri
    requires IsSym(k, i)
  {
    var s := k.syms[i];
    if s.isConstant then s.constTri
    else if !Logical(s.kind) then 0
    else if s.choice.None? then PlainTri(k, u, env, i)
    else if V(env, i) == 2 then (if P(env, s.choice.value) == Some(i) then 2 else 0)
    else if V(env, i) != 0 && i in u.tri && u.tri[i] != 0 then 1
    else 0
  }

  function SymTriReads(k: Config, u: User, env: Env, i: Id): set<Cell>
    requires IsSym(k, i)
  {
    var s := k.syms[i];
    if s.isConstant || !Logical(s.kind) then {}
    else if s.choice.None? then PlainTriReads(k, u, env, i)
    else {Vis(i)} + if V(env, i) == 2 then {Sel(s.choice.value)} else {}
  }

  // ---------------------------------------------------------------- string values

  function TriToStr(t: Tri): string {
    if t == 0 then "n" else if t == 1 then "m" else "y"
  }

  /** The first range whose condition is not n, as numbers; a bound that is no number counts as 0. */
  function ActiveRange(k: Config, u: User, env: Env, i: Id, rs: seq<Range>): Option<(int, int)>
    requires IsSym(k, i)
  {
    if rs == [] then None
    else if ExprVal(k, u, env, rs[0].cond) != 0 then
      Some((NumOr0(k, k.syms[i].kind, S(env, rs[0].low)), NumOr0(k, k.syms[i].kind, S(env, rs[0].high))))
    else ActiveRange(k, u, env, i, rs[1..])
  }

  function NumOr0(k: Config, kind: Kind, s: string): int {
    match k.parse(kind, s) case Some(n) => n case None => 0
  }

  function ActiveRangeReads(k: Config, u: User, env: Env, rs: seq<Range>): set<Cell> {
    if rs == [] then {}
    else
      ExprReads(k, u, env, rs[0].cond)
      + if ExprVal(k, u, env, rs[0].cond) != 0 then {StrVal(rs[0].low), StrVal(rs[0].high)}
        else ActiveRangeReads(k, u, env, rs[1..])
  }

  /** The string of the first default whose condition is not n. */
  function DefaultStr(k: Config, u: User, env: Env, ds: seq<Default>): Option<string> {
    if ds == [] then None
    else if ExprVal(k, u, env, ds[0].cond) != 0 then
      Some(if ds[0].value.Leaf? then S(env, ds[0].value.id) else "")
    else DefaultStr(k, u, env, ds[1..])
  }

  function DefaultStrReads(k: Config, u: User, env: Env, ds: seq<Default>): set<Cell> {
    if ds == [] then {}
    else
      ExprReads(k, u, env, ds[0].cond)
      + if ExprVal(k, u, env, ds[0].cond) != 0 then (if ds[0].value.Leaf? then {StrVal(ds[0].value.id)} else {})
        else DefaultStrReads(k, u, env, ds[1..])
  }

  predicate UserNumberUsable(k: Config, u: User, env: Env, i: Id)
    requires IsSym(k, i)
  {
    var r := ActiveRange(k, u, env, i, k.syms[i].ranges);
    && V(env, i) != 0 && i in u.str && u.str[i] != ""
    && (r.Some? ==> r.value.0 <= NumOr0(k, k.syms[i].kind, u.str[i]) <= r.value.1)
  }

  /** A default clamped into the active range, if there is one. */
  function Clamped(k: Config, kind: Kind, r: Option<(int, int)>, d: Option<string>): string {
    var text := if d.Some? then d.value else "";
    var num := if d.Some? then NumOr0(k, kind, d.value) else 0;
    if r.None? then text
    else if num < r.value.0 then k.render(kind, r.value.0)
    else if num > r.value.1 then k.render(kind, r.value.1)
    else text
  }

  /** Symbol.str_value */
  function SymStr(k: Config, u: User, env: Env, i: Id): string
    requires IsSym(k, i)
  {
    var s := k.syms[i];
    if Logical(s.kind) then TriToStr(T(env, i))
    else if s.kind == UNKNOWN then s.name
    else if s.kind == STRING then
      if V(env, i) != 0 && i in u.str then u.str[i]
      else match DefaultStr(k, u, env, s.defaults) case Some(d) => d case None => ""
    else if UserNumberUsable(k, u, env, i) then u.str[i]
    else Clamped(k, s.kind, ActiveRange(k, u, env, i, s.ranges), DefaultStr(k, u, env, s.defaults))
  }

  function SymStrReads(k: Config, u: User, env: Env, i: Id): set<Cell>
    requires IsSym(k, i)
  {
    var s := k.syms[i];
    if Logical(s.kind) then {TriVal(i)}
    else if s.kind == UNKNOWN then {}
    else if s.kind == STRING then
      {Vis(i)} + if V(env, i) != 0 && i in u.str then {} else DefaultStrReads(k, u, env, s.defaults)
    else
      {Vis(i)} + ActiveRangeReads(k, u, env, s.ranges)
      + if UserNumberUsable(k, u, env, i) then {} else DefaultStrReads(k, u, env, s.defaults)
  }

  // ---------------------------------------------------------------- selections

  function DefaultSel(k: Config, u: User, env: Env, ds: seq<SymDefault>): Option<Id> {
    if ds == [] then None
    else if ExprVal(k, u, env, ds[0].cond) != 0 && V(env, ds[0].sym) != 0 then Some(ds[0].sym)
    else DefaultSel(k, u, env, ds[1..])
  }

  function DefaultSelReads(k: Config, u: User, env: Env, ds: seq<SymDefault>): set<Cell> {
    if ds == [] then {}
    else
      var cond := ExprVal(k, u, env, ds[0].cond);
      ExprReads(k, u, env, ds[0].cond) + (if cond != 0 then {Vis(ds[0].sym)} else {})
      + if cond != 0 && V(env, ds[0].sym) != 0 then {} else DefaultSelReads(k, u, env, ds[1..])
  }

  function FirstVisible(env: Env, syms: seq<Id>): Option<Id> {
    if syms == [] then None else if V(env, syms[0]) != 0 then Some(syms[0]) else FirstVisible(env, syms[1..])
  }

  function FirstVisibleReads(env: Env, syms: seq<Id>): set<Cell> {
    if syms == [] then {}
    else {Vis(syms[0])} + if V(env, syms[0]) != 0 then {} else FirstVisibleReads(env, syms[1..])
  }

  /** Choice._selection */
  function Selection(k: Config, u: User, env: Env, c: Id): Option<Id>
    requires IsChoice(k, c)
  {
    if Mode(k, u, env, c) != 2 then None
    else if c in u.sel && V(env, u.sel[c]) != 0 then Some(u.sel[c])
    else
      var d := DefaultSel(k, u, env, k.choices[c].defaults);
      if d.Some? then d else FirstVisible(env, k.choices[c].syms)
  }

  function SelectionReads(k: Config, u: User, env: Env, c: Id): set<Cell>
    requires IsChoice(k, c)
  {
    ModeReads(k, u, env, c) +
    if Mode(k, u, env, c) != 2 then {}
    else
      (if c in u.sel then {Vis(u.sel[c])} else {})
      + if c in u.sel && V(env, u.sel[c]) != 0 then {}
        else DefaultSelReads(k, u, env, k.choices[c].defaults)
             + if DefaultSel(k, u, env, k.choices[c].defaults).Some? then {}
               else FirstVisibleReads(env, k.choices[c].syms)
  }

  // ---------------------------------------------------------------- one attribute

  /** The value of an attribute, given the values of the others. */
  function Compute(k: Config, u: User, env: Env, c: Cell): Value {
    match c
    case Vis(i) =>
      if IsChoice(k, i) then Num(ChoiceVis(k, u, env, i)) else if IsSym(k, i) then Num(SymVis(k, u, env, i)) else Num(0)
    case TriVal(i) => if IsSym(k, i) then Num(SymTri(k, u, env, i)) else Num(0)
    case StrVal(i) => if IsSym(k, i) then Text(SymStr(k, u, env, i)) else Text("")
    case Sel(i) => if IsChoice(k, i) then Pick(Selection(k, u, env, i)) else Pick(None)
  }

  /** The attributes an evaluation of c looks at. */
  function Reads(k: Config, u: User, env: Env, c: Cell): set<Cell> {
    match c
    case Vis(i) =>
      if IsChoice(k, i) then ChoiceVisReads(k, u, env, i) else if IsSym(k, i) then SymVisReads(k, u, env, i) else {}
    case TriVal(i) => if IsSym(k, i) then SymTriReads(k, u, env, i) else {}
    case StrVal(i) => if IsSym(k, i) then SymStrReads(k, u, env, i) else {}
    case Sel(i) => if IsChoice(k, i) then SelectionReads(k, u, env, i) else {}
  }
}
