/** What the values of symbols and choices mean.  Each law holds of every solution of the defining equations,
    and so of what the getters return; it reads a value off thresholds: is it at least m, is it y. */
module KconfigLaws {
  import opened Basics
  import opened KconfigModel
  import opened KconfigDeps
  import opened KconfigChoices

  /** The values that can be reached: m and y. */
  type Level = t: Tri | 1 <= t witness 1

  // ---------------------------------------------------------------- expressions

  /** a comes before b in the order of a dictionary. */
  ghost predicate Before(a: string, b: string) {
    exists n: nat :: FirstDifference(a, b, n)
  }

  ghost predicate FirstDifference(a: string, b: string, n: nat) {
    n <= |a| && n < |b| && a[..n] == b[..n] && (n == |a| || a[n] < b[n])
  }

  lemma {:induction false} StrCmpMeans(a: string, b: string)
    ensures StrCmp(a, b) in {-1, 0, 1}
    ensures StrCmp(a, b) == 0 <==> a == b
    ensures StrCmp(a, b) == -1 <==> Before(a, b)
    ensures StrCmp(a, b) == 1 <==> Before(b, a)
  {
    BeforeHead(a, b);
    BeforeHead(b, a);
    if a != [] && b != [] {
      StrCmpMeans(a[1..], b[1..]);
      assert a == [a[0]] + a[1..] && b == [b[0]] + b[1..];
    }
  }

  lemma BeforeHead(a: string, b: string)
    ensures Before(a, b) <==> b != [] && (a == [] || a[0] < b[0] || (a[0] == b[0] && Before(a[1..], b[1..])))
  {
    if Before(a, b) {
      var n: nat :| FirstDifference(a, b, n);
      if n > 0 {
        assert a[0] == a[..n][0] && b[0] == b[..n][0];
        assert a[1..][..n - 1] == a[..n][1..] && b[1..][..n - 1] == b[..n][1..];
        assert FirstDifference(a[1..], b[1..], n - 1);
      }
    } else if b != [] {
      assert !FirstDifference(a, b, 0);
      if a != [] && a[0] == b[0] && Before(a[1..], b[1..]) {
        var n: nat :| FirstDifference(a[1..], b[1..], n);
        assert a[..n + 1] == [a[0]] + a[1..][..n] && b[..n + 1] == [b[0]] + b[1..][..n];
        assert FirstDifference(a, b, n + 1);
      }
    }
  }

  /** The operand i is the number n: bool and tristate symbols count 0, 1, 2, others by their text. */
  ghost predicate Numeric(k: Config, env: Env, i: Id, n: int) {
    if Logical(KindOf(k, i)) then n == T(env, i) else k.parse(KindOf(k, i), S(env, i)) == Some(n)
  }

  ghost predicate InOrder<X(!new)>(r: Relation, x: X, y: X, less: (X, X) -> bool) {
    match r
    case EQUAL => x == y
    case UNEQUAL => x != y
    case LESS => less(x, y)
    case LESS_EQUAL => less(x, y) || x == y
    case GREATER => less(y, x)
    case GREATER_EQUAL => less(y, x) || x == y
  }

  /** A relation compares numbers if both operands are numbers and not both are strings, and text otherwise. */
  ghost predicate Related(k: Config, env: Env, r: Relation, a: Id, b: Id) {
    if (KindOf(k, a) == STRING && KindOf(k, b) == STRING) || !(exists x, y :: Numeric(k, env, a, x) && Numeric(k, env, b, y))
    then InOrder(r, S(env, a), S(env, b), (x: string, y: string) => Before(x, y))
    else exists x, y :: Numeric(k, env, a, x) && Numeric(k, env, b, y) && InOrder(r, x, y, (x: int, y: int) => x < y)
  }

  lemma RelationMeans(k: Config, u: User, env: Env, r: Relation, a: Id, b: Id)
    ensures ExprVal(k, u, env, Rel(r, a, b)) == if Related(k, env, r, a, b) then 2 else 0
  {
    var s, t := S(env, a), S(env, b);
    StrCmpMeans(s, t);
    hide StrCmp, Before;
    if NumOf(k, env, a).Some? && NumOf(k, env, b).Some? {
      var x, y := NumOf(k, env, a).value, NumOf(k, env, b).value;
      assert Numeric(k, env, a, x) && Numeric(k, env, b, y);
    }
  }

  /** e is at least t, as a condition of two-valued logic: && and || are the connectives, and ! of "at least t"
      is "less than the mirror image of t". */
  ghost predicate AtLeast(k: Config, u: User, env: Env, e: Expr, t: Level) {
    match e
    case Leaf(i) => if IsChoice(k, i) then Mode(k, u, env, i) >= t else T(env, i) >= t
    case And(a, b) => AtLeast(k, u, env, a, t) && AtLeast(k, u, env, b, t)
    case Or(a, b) => AtLeast(k, u, env, a, t) || AtLeast(k, u, env, b, t)
    case Not(a) => !AtLeast(k, u, env, a, 3 - t)
    case Rel(r, a, b) => Related(k, env, r, a, b)
  }

  lemma {:induction false} ExprMeans(k: Config, u: User, env: Env, e: Expr, t: Level)
    ensures ExprVal(k, u, env, e) >= t <==> AtLeast(k, u, env, e, t)
  {
    hide Mode, Related, Comparison;
    match e
    case Leaf(_) =>
    case And(a, b) => ExprMeans(k, u, env, a, t); ExprMeans(k, u, env, b, t);
    case Or(a, b) => ExprMeans(k, u, env, a, t); ExprMeans(k, u, env, b, t);
    case Not(a) => ExprMeans(k, u, env, a, 3 - t);
    case Rel(r, a, b) => RelationMeans(k, u, env, r, a, b);
  }

  // ---------------------------------------------------------------- modes and visibilities

  /** A symbol or choice of this kind can be m. */
  ghost predicate CanBeM(k: Config, env: Env, kind: Kind) {
    kind == TRISTATE && T(env, k.modules) != 0
  }

  /** The mode of a choice of bool or tristate kind: n exactly when it is invisible, or optional and not set; y when
      it is on and cannot be m, or when the user says y and it can be y. */
  lemma ModeMeans(k: Config, u: User, env: Env, c: Id)
    requires IsChoice(k, c) && Logical(k.choices[c].kind)
    ensures Mode(k, u, env, c) != 0 <==> V(env, c) != 0 && (!k.choices[c].isOptional || (c in u.tri && u.tri[c] != 0))
    ensures Mode(k, u, env, c) == 2 <==>
            || (V(env, c) == 2 && c in u.tri && u.tri[c] == 2)
            || (Mode(k, u, env, c) != 0 && !CanBeM(k, env, k.choices[c].kind))
    ensures Mode(k, u, env, c) <= V(env, c) || !CanBeM(k, env, k.choices[c].kind)
  {
  }

  /** Some prompt's condition is at least t. */
  ghost predicate Prompted(k: Config, u: User, env: Env, es: seq<Expr>, t: Level) {
    exists j :: 0 <= j < |es| && ExprVal(k, u, env, es[j]) >= t
  }

  lemma {:induction false} PromptsMean(k: Config, u: User, env: Env, es: seq<Expr>, t: Level)
    ensures PromptsVal(k, u, env, es) >= t <==> Prompted(k, u, env, es, t)
  {
    hide ExprVal;
    if es != [] {
      var rest := es[..|es| - 1];
      PromptsMean(k, u, env, rest, t);
      if Prompted(k, u, env, rest, t) {
        var j :| 0 <= j < |rest| && ExprVal(k, u, env, rest[j]) >= t;
        assert es[j] == rest[j];
      }
      if Prompted(k, u, env, es, t) {
        var j :| 0 <= j < |es| && ExprVal(k, u, env, es[j]) >= t;
        assert j < |rest| ==> rest[j] == es[j];
      }
    }
  }

  lemma ChoiceVisMeans(k: Config, u: User, env: Env, c: Id)
    requires Solves(k, u, env) && IsChoice(k, c)
    ensures var es := k.choices[c].prompts;
            && (V(env, c) != 0 <==> Prompted(k, u, env, es, 1))
            && (V(env, c) == 2 <==> Prompted(k, u, env, es, 2) ||
                                    (Prompted(k, u, env, es, 1) && !CanBeM(k, env, k.choices[c].kind)))
  {
    hide ExprVal, PromptsVal, Prompted;
    assert env(Vis(c)) == Compute(k, u, env, Vis(c));
    PromptsMean(k, u, env, k.choices[c].prompts, 1);
    PromptsMean(k, u, env, k.choices[c].prompts, 2);
  }

  /** The choice hides its symbol: a bool symbol of a tristate choice that is not in y mode, or a tristate symbol
      that could only be m when the choice is in y mode. */
  ghost predicate Hidden(k: Config, u: User, env: Env, i: Id)
    requires IsSym(k, i)
  {
    var s := k.syms[i];
    && s.choice.Some? && IsChoice(k, s.choice.value)
    && if s.kind == TRISTATE then Mode(k, u, env, s.choice.value) == 2 && !Prompted(k, u, env, s.prompts, 2)
       else k.choices[s.choice.value].kind == TRISTATE && Mode(k, u, env, s.choice.value) != 2
  }

  lemma SymVisMeans(k: Config, u: User, env: Env, i: Id)
    requires Solves(k, u, env) && IsSym(k, i) && !IsChoice(k, i)
    ensures var es := k.syms[i].prompts;
            && (V(env, i) != 0 <==> Prompted(k, u, env, es, 1) && !Hidden(k, u, env, i))
            && (V(env, i) == 2 <==> !Hidden(k, u, env, i) &&
                                    (Prompted(k, u, env, es, 2) ||
                                     (Prompted(k, u, env, es, 1) && !CanBeM(k, env, k.syms[i].kind))))
  {
    hide ExprVal, PromptsVal, Prompted, Mode;
    assert env(Vis(i)) == Compute(k, u, env, Vis(i));
    PromptsMean(k, u, env, k.syms[i].prompts, 1);
    PromptsMean(k, u, env, k.syms[i].prompts, 2);
  }

  // ---------------------------------------------------------------- tristate values

  /** Default j is the first whose condition is not n. */
  ghost predicate InEffect(k: Config, u: User, env: Env, ds: seq<Default>, j: nat) {
    && j < |ds| && ExprVal(k, u, env, ds[j].cond) != 0
    && forall h :: 0 <= h < j ==> ExprVal(k, u, env, ds[h].cond) == 0
  }

  lemma InEffectTail(k: Config, u: User, env: Env, ds: seq<Default>, j: nat)
    requires ds != []
    ensures InEffect(k, u, env, ds, j) <==>
            if ExprVal(k, u, env, ds[0].cond) != 0 then j == 0 else j > 0 && InEffect(k, u, env, ds[1..], j - 1)
  {
    hide ExprVal;
    if j > 0 && InEffect(k, u, env, ds[1..], j - 1) && ExprVal(k, u, env, ds[0].cond) == 0 {
      forall h | 0 <= h < j ensures ExprVal(k, u, env, ds[h].cond) == 0 {
        assert h > 0 ==> ds[1..][h - 1] == ds[h];
      }
    }
    if j > 0 && InEffect(k, u, env, ds, j) {
      forall h | 0 <= h < j - 1 ensures ExprVal(k, u, env, ds[1..][h].cond) == 0 {
        assert ds[1..][h] == ds[h + 1];
      }
    }
  }

  /** Default j is in effect, and its condition and its value are at least t. */
  ghost predicate Grants(k: Config, u: User, env: Env, ds: seq<Default>, j: nat, t: Level) {
    InEffect(k, u, env, ds, j) && ExprVal(k, u, env, ds[j].cond) >= t && ExprVal(k, u, env, ds[j].value) >= t
  }

  ghost predicate Granted(k: Config, u: User, env: Env, ds: seq<Default>, t: Level) {
    exists j: nat :: Grants(k, u, env, ds, j, t)
  }

  lemma {:induction false} DefaultTriMeans(k: Config, u: User, env: Env, ds: seq<Default>, t: Level)
    ensures DefaultTri(k, u, env, ds) >= t <==> Granted(k, u, env, ds, t)
  {
    hide ExprVal;
    if ds != [] {
      DefaultTriMeans(k, u, env, ds[1..], t);
      InEffectTail(k, u, env, ds, 0);
      if Granted(k, u, env, ds[1..], t) {
        var j: nat :| Grants(k, u, env, ds[1..], j, t);
        InEffectTail(k, u, env, ds, j + 1);
        assert ExprVal(k, u, env, ds[0].cond) == 0 ==> Grants(k, u, env, ds, j + 1, t);
      }
      if Granted(k, u, env, ds, t) {
        var j: nat :| Grants(k, u, env, ds, j, t);
        InEffectTail(k, u, env, ds, j);
        assert j > 0 ==> Grants(k, u, env, ds[1..], j - 1, t);
      }
      assert ExprVal(k, u, env, ds[0].cond) != 0 && DefaultTri(k, u, env, ds) >= t ==> Grants(k, u, env, ds, 0, t);
    }
  }

  /** A bool or tristate symbol outside choices. */
  ghost predicate Plain(k: Config, i: Id) {
    IsSym(k, i) && Logical(k.syms[i].kind) && !k.syms[i].isConstant && k.syms[i].choice.None?
  }

  /** The user has a say: the symbol is visible and has a user value. */
  ghost predicate UserSet(k: Config, u: User, env: Env, i: Id) {
    V(env, i) != 0 && i in u.tri
  }

  /** The imply of a symbol whose dependencies hold is at least t. */
  ghost predicate Implied(k: Config, u: User, env: Env, i: Id, t: Level)
    requires IsSym(k, i)
  {
    ExprVal(k, u, env, k.syms[i].weakRevDep) >= t && ExprVal(k, u, env, k.syms[i].directDep) != 0
  }

  /** At least t without promotion: by a select, by the user as far as it is visible, or, where the user has no say,
      by the default in effect or an imply. */
  ghost predicate Reaches(k: Config, u: User, env: Env, i: Id, t: Level)
    requires IsSym(k, i)
  {
    || ExprVal(k, u, env, k.syms[i].revDep) >= t
    || if UserSet(k, u, env, i) then u.tri[i] >= t && V(env, i) >= t
       else Granted(k, u, env, k.syms[i].defaults, t) || Implied(k, u, env, i, t)
  }

  lemma PlainBaseMeans(k: Config, u: User, env: Env, i: Id, t: Level)
    requires Plain(k, i)
    ensures Max(ExprVal(k, u, env, k.syms[i].revDep), PlainBase(k, u, env, i)) >= t <==> Reaches(k, u, env, i, t)
  {
    hide ExprVal, DefaultTri, Granted;
    DefaultTriMeans(k, u, env, k.syms[i].defaults, t);
  }

  /** The value of a bool or tristate symbol outside choices: it is on exactly when something reaches m, and y when
      something reaches y, when it is on and cannot be m, or when it is on and has an imply of y. */
  lemma TriMeans(k: Config, u: User, env: Env, i: Id)
    requires Solves(k, u, env) && Plain(k, i)
    ensures T(env, i) != 0 <==> Reaches(k, u, env, i, 1)
    ensures T(env, i) == 2 <==>
            || Reaches(k, u, env, i, 2)
            || (Reaches(k, u, env, i, 1) &&
                (!CanBeM(k, env, k.syms[i].kind) || ExprVal(k, u, env, k.syms[i].weakRevDep) == 2))
  {
    hide ExprVal, PlainBase, Reaches;
    assert env(TriVal(i)) == Compute(k, u, env, TriVal(i));
    PlainBaseMeans(k, u, env, i, 1);
    PlainBaseMeans(k, u, env, i, 2);
  }

  /** m counts as y for a symbol that cannot be m or has an imply of y. */
  ghost predicate Settled(k: Config, u: User, env: Env, i: Id, val: Tri)
    requires IsSym(k, i)
  {
    if val == 1 && (!CanBeM(k, env, k.syms[i].kind) || ExprVal(k, u, env, k.syms[i].weakRevDep) == 2) then T(env, i) == 2
    else T(env, i) == val
  }

  /** A visible symbol with a user value that nothing selects has the smaller of user value and visibility. */
  lemma UserChooses(k: Config, u: User, env: Env, i: Id)
    requires Solves(k, u, env) && Plain(k, i) && UserSet(k, u, env, i)
    requires ExprVal(k, u, env, k.syms[i].revDep) == 0
    ensures Settled(k, u, env, i, if u.tri[i] < V(env, i) then u.tri[i] else V(env, i))
  {
    hide ExprVal, Solves;
    TriMeans(k, u, env, i);
  }

  /** Where the user has no say and nothing selects or implies the symbol, the default in effect decides: the
      smaller of its value and its condition. */
  lemma DefaultChooses(k: Config, u: User, env: Env, i: Id, j: nat)
    requires Solves(k, u, env) && Plain(k, i) && !UserSet(k, u, env, i)
    requires ExprVal(k, u, env, k.syms[i].revDep) == 0 && !Implied(k, u, env, i, 1)
    requires InEffect(k, u, env, k.syms[i].defaults, j)
    ensures var d := k.syms[i].defaults[j];
            var cond, val := ExprVal(k, u, env, d.cond), ExprVal(k, u, env, d.value);
            Settled(k, u, env, i, if val < cond then val else cond)
  {
    GrantedBy(k, u, env, k.syms[i].defaults, j, 1);
    GrantedBy(k, u, env, k.syms[i].defaults, j, 2);
    hide ExprVal, Solves, Granted;
    TriMeans(k, u, env, i);
  }

  lemma GrantedBy(k: Config, u: User, env: Env, ds: seq<Default>, j: nat, t: Level)
    requires InEffect(k, u, env, ds, j)
    ensures Granted(k, u, env, ds, t) <==> ExprVal(k, u, env, ds[j].cond) >= t && ExprVal(k, u, env, ds[j].value) >= t
  {
    hide ExprVal;
    assert Grants(k, u, env, ds, j, t) <==> ExprVal(k, u, env, ds[j].cond) >= t && ExprVal(k, u, env, ds[j].value) >= t;
  }

  /** With no user's say, no select, no imply and no default in effect a symbol is n. */
  lemma NothingChooses(k: Config, u: User, env: Env, i: Id)
    requires Solves(k, u, env) && Plain(k, i) && !UserSet(k, u, env, i)
    requires ExprVal(k, u, env, k.syms[i].revDep) == 0 && !Implied(k, u, env, i, 1)
    requires forall j :: 0 <= j < |k.syms[i].defaults| ==> ExprVal(k, u, env, k.syms[i].defaults[j].cond) == 0
    ensures T(env, i) == 0
  {
    hide ExprVal, Solves;
    TriMeans(k, u, env, i);
  }

  /** A symbol is never below its selects, nor, where the user has no say, below its implies once its dependencies
      hold. */
  lemma SelectsAndImplies(k: Config, u: User, env: Env, i: Id)
    requires Solves(k, u, env) && Plain(k, i)
    ensures T(env, i) >= ExprVal(k, u, env, k.syms[i].revDep)
    ensures !UserSet(k, u, env, i) && ExprVal(k, u, env, k.syms[i].directDep) != 0 ==>
              T(env, i) >= ExprVal(k, u, env, k.syms[i].weakRevDep)
  {
    hide ExprVal, Solves, Granted;
    TriMeans(k, u, env, i);
  }

  /** A symbol of a choice is y if it is selected in y mode, m if the user sets it in m mode, and n otherwise;
      constants have their own value, and no other kind of symbol is anything but n. */
  lemma OtherTriMeans(k: Config, u: User, env: Env, i: Id)
    requires Solves(k, u, env) && IsSym(k, i) && !Plain(k, i)
    ensures k.syms[i].isConstant ==> T(env, i) == k.syms[i].constTri
    ensures !k.syms[i].isConstant && !Logical(k.syms[i].kind) ==> T(env, i) == 0
    ensures !k.syms[i].isConstant && Logical(k.syms[i].kind) ==>
              && (T(env, i) == 2 <==> V(env, i) == 2 && P(env, k.syms[i].choice.value) == Some(i))
              && (T(env, i) == 1 <==> V(env, i) == 1 && i in u.tri && u.tri[i] != 0)
  {
    assert env(TriVal(i)) == Compute(k, u, env, TriVal(i));
  }

  // ---------------------------------------------------------------- string values

  /** Default j is in effect and is a symbol with this text. */
  ghost predicate TextAt(k: Config, u: User, env: Env, ds: seq<Default>, j: nat, text: string) {
    InEffect(k, u, env, ds, j) && ds[j].value.Leaf? && text == S(env, ds[j].value.id)
  }

  /** The text of the default in effect, or none. */
  ghost predicate DefaultText(k: Config, u: User, env: Env, ds: seq<Default>, d: Option<string>) {
    match d
    case Some(text) => exists j: nat :: TextAt(k, u, env, ds, j, text)
    case None => forall j :: 0 <= j < |ds| ==> ExprVal(k, u, env, ds[j].cond) == 0
  }

  lemma {:induction false} DefaultStrMeans(k: Config, u: User, env: Env, ds: seq<Default>)
    requires forall j :: 0 <= j < |ds| ==> ds[j].value.Leaf?
    ensures DefaultText(k, u, env, ds, DefaultStr(k, u, env, ds))
  {
    hide ExprVal;
    if ds != [] {
      InEffectTail(k, u, env, ds, 0);
      if ExprVal(k, u, env, ds[0].cond) != 0 {
        assert TextAt(k, u, env, ds, 0, S(env, ds[0].value.id));
      } else {
        assert forall j :: 1 <= j < |ds| ==> ds[1..][j - 1] == ds[j];
        DefaultStrMeans(k, u, env, ds[1..]);
        var d := DefaultStr(k, u, env, ds[1..]);
        if d.Some? {
          var j: nat :| TextAt(k, u, env, ds[1..], j, d.value);
          InEffectTail(k, u, env, ds, j + 1);
          assert TextAt(k, u, env, ds, j + 1, d.value);
        }
      }
    }
  }

  lemma DefaultTextUnique(k: Config, u: User, env: Env, ds: seq<Default>, d: Option<string>, d': Option<string>)
    requires DefaultText(k, u, env, ds, d) && DefaultText(k, u, env, ds, d')
    ensures d == d'
  {
    hide ExprVal;
  }

  /** What the string value of a symbol is that is not a number. */
  lemma StrMeans(k: Config, u: User, env: Env, i: Id)
    requires Solves(k, u, env) && WellFormed(k) && IsSym(k, i) && k.syms[i].kind !in {INT, HEX}
    ensures Logical(k.syms[i].kind) ==>
              S(env, i) == match T(env, i) { case 0 => "n" case 1 => "m" case _ => "y" }
    ensures k.syms[i].kind == UNKNOWN ==> S(env, i) == k.syms[i].name
    ensures k.syms[i].kind == STRING && V(env, i) != 0 && i in u.str ==> S(env, i) == u.str[i]
    ensures k.syms[i].kind == STRING && !(V(env, i) != 0 && i in u.str) ==>
              || DefaultText(k, u, env, k.syms[i].defaults, Some(S(env, i)))
              || (DefaultText(k, u, env, k.syms[i].defaults, None) && S(env, i) == "")
  {
    hide ExprVal, DefaultStr, InEffect;
    assert env(StrVal(i)) == Compute(k, u, env, StrVal(i));
    assert SymOk(k, i);
    if !Logical(k.syms[i].kind) {
      DefaultStrMeans(k, u, env, k.syms[i].defaults);
    }
  }

  /** s reads as the number n; what is no number reads as 0. */
  ghost predicate ReadsAs(k: Config, kind: Kind, s: string, n: int) {
    k.parse(kind, s) == Some(n) || (k.parse(kind, s).None? && n == 0)
  }

  /** low and high are the bounds of the first range whose condition is not n. */
  ghost predicate Bounds(k: Config, u: User, env: Env, kind: Kind, rs: seq<Range>, low: int, high: int) {
    exists j :: BoundsAt(k, u, env, kind, rs, j, low, high)
  }

  ghost predicate BoundsAt(k: Config, u: User, env: Env, kind: Kind, rs: seq<Range>, j: int, low: int, high: int) {
    RangeInEffect(k, u, env, rs, j) && ReadsAs(k, kind, S(env, rs[j].low), low) && ReadsAs(k, kind, S(env, rs[j].high), high)
  }

  ghost predicate RangeInEffect(k: Config, u: User, env: Env, rs: seq<Range>, j: int) {
    && 0 <= j < |rs| && ExprVal(k, u, env, rs[j].cond) != 0
    && forall h :: 0 <= h < j ==> ExprVal(k, u, env, rs[h].cond) == 0
  }

  lemma {:induction false} ActiveRangeMeans(k: Config, u: User, env: Env, i: Id, rs: seq<Range>, j: int)
    requires IsSym(k, i) && RangeInEffect(k, u, env, rs, j)
    ensures var kind, r := k.syms[i].kind, ActiveRange(k, u, env, i, rs);
            r.Some? && ReadsAs(k, kind, S(env, rs[j].low), r.value.0) && ReadsAs(k, kind, S(env, rs[j].high), r.value.1)
  {
    hide ExprVal;
    if j > 0 {
      assert forall h :: 1 <= h < |rs| ==> rs[1..][h - 1] == rs[h];
      assert ExprVal(k, u, env, rs[0].cond) == 0;
      ActiveRangeMeans(k, u, env, i, rs[1..], j - 1);
    }
  }

  lemma {:induction false} NoActiveRange(k: Config, u: User, env: Env, i: Id, rs: seq<Range>)
    requires IsSym(k, i) && forall j :: 0 <= j < |rs| ==> ExprVal(k, u, env, rs[j].cond) == 0
    ensures ActiveRange(k, u, env, i, rs) == None
  {
    hide ExprVal;
    if rs != [] {
      assert forall h :: 1 <= h < |rs| ==> rs[1..][h - 1] == rs[h];
      NoActiveRange(k, u, env, i, rs[1..]);
    }
  }

  /** The number the user asks for, if the symbol is visible and the setting is not empty. */
  ghost predicate UserNumber(k: Config, u: User, env: Env, i: Id, n: int)
    requires IsSym(k, i)
  {
    V(env, i) != 0 && i in u.str && u.str[i] != "" && ReadsAs(k, k.syms[i].kind, u.str[i], n)
  }

  /** The default's text, and the number it is compared as. */
  ghost predicate DefaultNumber(k: Config, u: User, env: Env, i: Id, text: string, n: int)
    requires IsSym(k, i)
  {
    || (DefaultText(k, u, env, k.syms[i].defaults, Some(text)) && ReadsAs(k, k.syms[i].kind, text, n))
    || (DefaultText(k, u, env, k.syms[i].defaults, None) && text == "" && n == 0)
  }

  ghost predicate NumberSym(k: Config, u: User, env: Env, i: Id) {
    Solves(k, u, env) && WellFormed(k) && IsSym(k, i) && k.syms[i].kind in {INT, HEX}
  }

  /** With a range in effect, a user's number inside it is taken as the user wrote it. */
  lemma UserNumberChooses(k: Config, u: User, env: Env, i: Id, low: int, high: int, n: int)
    requires NumberSym(k, u, env, i) && Bounds(k, u, env, k.syms[i].kind, k.syms[i].ranges, low, high)
    requires UserNumber(k, u, env, i, n) && low <= n <= high
    ensures S(env, i) == u.str[i]
  {
    NumberForm(k, u, env, i);
    BoundsMean(k, u, env, i, low, high);
    hide NumberSym, Bounds, ActiveRange, DefaultStr;
  }

  /** With a range in effect and no user's number inside it, the default is taken as it is written if its number is
      inside, and otherwise replaced by the bound it is beyond. */
  lemma DefaultNumberChooses(k: Config, u: User, env: Env, i: Id, low: int, high: int, text: string, n: int)
    requires NumberSym(k, u, env, i) && Bounds(k, u, env, k.syms[i].kind, k.syms[i].ranges, low, high)
    requires forall m :: UserNumber(k, u, env, i, m) ==> m < low || m > high
    requires DefaultNumber(k, u, env, i, text, n)
    ensures n < low ==> S(env, i) == k.render(k.syms[i].kind, low)
    ensures low <= n && high < n ==> S(env, i) == k.render(k.syms[i].kind, high)
    ensures low <= n <= high ==> S(env, i) == text
  {
    NumberForm(k, u, env, i);
    BoundsMean(k, u, env, i, low, high);
    UserNumberOut(k, u, env, i, low, high);
    DefaultNumberForm(k, u, env, i, text, n);
    hide NumberSym, Bounds, ActiveRange, DefaultStr, DefaultNumber, UserNumber, UserNumberUsable, NumOr0;
  }

  lemma UserNumberOut(k: Config, u: User, env: Env, i: Id, low: int, high: int)
    requires IsSym(k, i) && ActiveRange(k, u, env, i, k.syms[i].ranges) == Some((low, high))
    requires forall m :: UserNumber(k, u, env, i, m) ==> m < low || m > high
    ensures !UserNumberUsable(k, u, env, i)
  {
    hide ActiveRange;
    if i in u.str {
      var n := NumOr0(k, k.syms[i].kind, u.str[i]);
      assert V(env, i) != 0 && u.str[i] != "" ==> UserNumber(k, u, env, i, n);
    }
  }

  /** With no range in effect the user's text is taken if there is one, and otherwise the default's. */
  lemma UnrangedMeans(k: Config, u: User, env: Env, i: Id, text: string, n: int)
    requires NumberSym(k, u, env, i) && DefaultNumber(k, u, env, i, text, n)
    requires forall j :: 0 <= j < |k.syms[i].ranges| ==> ExprVal(k, u, env, k.syms[i].ranges[j].cond) == 0
    ensures S(env, i) == if V(env, i) != 0 && i in u.str && u.str[i] != "" then u.str[i] else text
  {
    NumberForm(k, u, env, i);
    NoActiveRange(k, u, env, i, k.syms[i].ranges);
    DefaultNumberForm(k, u, env, i, text, n);
    hide NumberSym, ActiveRange, DefaultStr, DefaultNumber;
  }

  lemma NumberForm(k: Config, u: User, env: Env, i: Id)
    requires NumberSym(k, u, env, i)
    ensures S(env, i) ==
            if UserNumberUsable(k, u, env, i) then u.str[i]
            else Clamped(k, k.syms[i].kind, ActiveRange(k, u, env, i, k.syms[i].ranges), DefaultStr(k, u, env, k.syms[i].defaults))
  {
    hide ActiveRange, DefaultStr;
    assert env(StrVal(i)) == Compute(k, u, env, StrVal(i));
  }

  lemma BoundsMean(k: Config, u: User, env: Env, i: Id, low: int, high: int)
    requires IsSym(k, i) && Bounds(k, u, env, k.syms[i].kind, k.syms[i].ranges, low, high)
    ensures ActiveRange(k, u, env, i, k.syms[i].ranges) == Some((low, high))
  {
    hide ActiveRange;
    var kind, rs := k.syms[i].kind, k.syms[i].ranges;
    var j :| BoundsAt(k, u, env, kind, rs, j, low, high);
    ActiveRangeMeans(k, u, env, i, rs, j);
  }

  lemma DefaultNumberForm(k: Config, u: User, env: Env, i: Id, text: string, n: int)
    requires NumberSym(k, u, env, i) && DefaultNumber(k, u, env, i, text, n)
    ensures var d := DefaultStr(k, u, env, k.syms[i].defaults);
            if d.Some? then d.value == text && NumOr0(k, k.syms[i].kind, text) == n else text == "" && n == 0
  {
    assert SymOk(k, i);
    hide DefaultStr;
    var ds := k.syms[i].defaults;
    DefaultStrMeans(k, u, env, ds);
    hide DefaultText;
    var d := DefaultStr(k, u, env, ds);
    if DefaultText(k, u, env, ds, None) {
      DefaultTextUnique(k, u, env, ds, d, None);
    } else {
      DefaultTextUnique(k, u, env, ds, d, Some(text));
    }
  }

  /** With a range in effect whose bounds are in order, the value is a number inside it. */
  lemma NumberInRange(k: Config, u: User, env: Env, i: Id, low: int, high: int)
    requires NumberSym(k, u, env, i) && Bounds(k, u, env, k.syms[i].kind, k.syms[i].ranges, low, high) && low <= high
    requires k.parse(k.syms[i].kind, "").None? && forall n :: k.parse(k.syms[i].kind, k.render(k.syms[i].kind, n)) == Some(n)
    ensures exists n :: ReadsAs(k, k.syms[i].kind, S(env, i), n) && low <= n <= high
  {
    NumberForm(k, u, env, i);
    BoundsMean(k, u, env, i, low, high);
    hide NumberSym, Bounds, ActiveRange, DefaultStr;
    assert ReadsAs(k, k.syms[i].kind, S(env, i), NumOr0(k, k.syms[i].kind, S(env, i)));
  }

  // ---------------------------------------------------------------- selections

  /** Default j has a condition and a symbol that are both not n. */
  ghost predicate Available(k: Config, u: User, env: Env, d: SymDefault) {
    ExprVal(k, u, env, d.cond) != 0 && V(env, d.sym) != 0
  }

  /** Default j of a choice is the first that is available. */
  ghost predicate SelInEffect(k: Config, u: User, env: Env, ds: seq<SymDefault>, j: nat) {
    j < |ds| && Available(k, u, env, ds[j]) && forall h :: 0 <= h < j ==> !Available(k, u, env, ds[h])
  }

  lemma {:induction false} DefaultSelMeans(k: Config, u: User, env: Env, ds: seq<SymDefault>, j: nat)
    requires SelInEffect(k, u, env, ds, j)
    ensures DefaultSel(k, u, env, ds) == Some(ds[j].sym)
  {
    hide ExprVal;
    if j > 0 {
      assert forall h :: 1 <= h < |ds| ==> ds[1..][h - 1] == ds[h];
      assert !Available(k, u, env, ds[0]);
      DefaultSelMeans(k, u, env, ds[1..], j - 1);
    }
  }

  lemma {:induction false} NoDefaultSel(k: Config, u: User, env: Env, ds: seq<SymDefault>)
    requires forall j :: 0 <= j < |ds| ==> !Available(k, u, env, ds[j])
    ensures DefaultSel(k, u, env, ds) == None
  {
    hide ExprVal;
    if ds != [] {
      assert forall h :: 1 <= h < |ds| ==> ds[1..][h - 1] == ds[h];
      assert !Available(k, u, env, ds[0]);
      NoDefaultSel(k, u, env, ds[1..]);
    }
  }

  lemma {:induction false} FirstVisibleMeans(env: Env, syms: seq<Id>, j: nat)
    requires j < |syms| && V(env, syms[j]) != 0 && forall h :: 0 <= h < j ==> V(env, syms[h]) == 0
    ensures FirstVisible(env, syms) == Some(syms[j])
  {
    if j > 0 {
      assert forall h :: 1 <= h < |syms| ==> syms[1..][h - 1] == syms[h];
      assert V(env, syms[0]) == 0;
      FirstVisibleMeans(env, syms[1..], j - 1);
    }
  }

  /** The user's selection, if it is visible. */
  ghost predicate UserPicks(u: User, env: Env, c: Id, i: Id) {
    c in u.sel && u.sel[c] == i && V(env, i) != 0
  }

  lemma SelForm(k: Config, u: User, env: Env, c: Id)
    requires Solves(k, u, env) && IsChoice(k, c)
    ensures P(env, c) == Selection(k, u, env, c)
  {
    assert env(Sel(c)) == Compute(k, u, env, Sel(c));
  }

  /** Only a choice in y mode has a selection; a visible selection of the user counts first. */
  lemma UserSelects(k: Config, u: User, env: Env, c: Id)
    requires Solves(k, u, env) && IsChoice(k, c)
    ensures Mode(k, u, env, c) != 2 ==> P(env, c) == None
    ensures Mode(k, u, env, c) == 2 ==> forall i: Id :: UserPicks(u, env, c, i) ==> P(env, c) == Some(i)
  {
    SelForm(k, u, env, c);
    hide Mode, DefaultSel, FirstVisible, Solves;
  }

  /** Without one the first available default counts. */
  lemma DefaultSelects(k: Config, u: User, env: Env, c: Id, j: nat)
    requires Solves(k, u, env) && IsChoice(k, c) && Mode(k, u, env, c) == 2
    requires (forall i: Id :: !UserPicks(u, env, c, i)) && SelInEffect(k, u, env, k.choices[c].defaults, j)
    ensures P(env, c) == Some(k.choices[c].defaults[j].sym)
  {
    SelForm(k, u, env, c);
    DefaultSelMeans(k, u, env, k.choices[c].defaults, j);
    hide Mode, DefaultSel, FirstVisible, Solves;
    assert c in u.sel ==> !UserPicks(u, env, c, u.sel[c]);
  }

  /** Without any of them the first visible symbol counts, and there is no selection only when none is visible. */
  lemma FirstVisibleSelects(k: Config, u: User, env: Env, c: Id)
    requires Solves(k, u, env) && IsChoice(k, c) && Mode(k, u, env, c) == 2
    requires forall i: Id :: !UserPicks(u, env, c, i)
    requires forall j :: 0 <= j < |k.choices[c].defaults| ==> !Available(k, u, env, k.choices[c].defaults[j])
    ensures var syms := k.choices[c].syms;
            forall j :: 0 <= j < |syms| && V(env, syms[j]) != 0 && (forall h :: 0 <= h < j ==> V(env, syms[h]) == 0) ==>
              P(env, c) == Some(syms[j])
    ensures P(env, c) == None <==> forall i :: i in k.choices[c].syms ==> V(env, i) == 0
  {
    SelForm(k, u, env, c);
    NoDefaultSel(k, u, env, k.choices[c].defaults);
    var syms := k.choices[c].syms;
    FirstVisibleIn(env, syms);
    hide Mode, DefaultSel, FirstVisible, Solves;
    assert c in u.sel ==> !UserPicks(u, env, c, u.sel[c]);
    forall j | 0 <= j < |syms| && V(env, syms[j]) != 0 && forall h :: 0 <= h < j ==> V(env, syms[h]) == 0
      ensures P(env, c) == Some(syms[j])
    {
      FirstVisibleMeans(env, syms, j);
    }
  }
}
