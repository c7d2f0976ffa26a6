/** What setting a value does: which values are taken, what they change, and what is read back. */
module KconfigSettings {
  import opened Basics
  import opened KconfigModel
  import opened KconfigDeps
  import opened KconfigChoices
  import opened KconfigLaws
  import opened KconfigObjects

  /** The argument of set_value says n, m or y: as a number or as a letter. */
  ghost predicate Says(v: Setting, t: Tri) {
    match v
    case Number(n) => n == t
    case Word(s) => s == match t { case 0 => "n" case 1 => "m" case _ => "y" }
  }

  /** The text spells the number n. */
  ghost predicate Spells(k: Config, kind: Kind, s: string, n: int) {
    k.parse(kind, s) == Some(n)
  }

  /** The values each type takes. */
  lemma AcceptsMeans(k: Config, v: Setting)
    ensures Accepts(k, BOOL, v) <==> Says(v, 0) || Says(v, 2)
    ensures Accepts(k, TRISTATE, v) <==> exists t :: Says(v, t)
    ensures Accepts(k, INT, v) <==> v.Word? && exists n :: Spells(k, INT, v.s, n)
    ensures Accepts(k, HEX, v) <==> v.Word? && exists n :: Spells(k, HEX, v.s, n) && n >= 0
    ensures Accepts(k, STRING, v) <==> v.Word?
    ensures !Accepts(k, UNKNOWN, v)
  {
    if v.Word? {
      assert k.parse(INT, v.s).Some? ==> Spells(k, INT, v.s, k.parse(INT, v.s).value);
      assert k.parse(HEX, v.s).Some? ==> Spells(k, HEX, v.s, k.parse(HEX, v.s).value);
    }
    assert Says(v, 0) || Says(v, 1) || Says(v, 2) <==> exists t :: Says(v, t);
  }

  /** A bool or tristate symbol has the value said as its user value; in a choice, y makes it the user's selection. */
  lemma AssignedMeans(k: Config, u: User, i: Id, v: Setting, t: Tri)
    requires IsSym(k, i) && Logical(k.syms[i].kind) && Says(v, t)
    ensures var u' := Assigned(k, u, i, v);
            && u'.tri == u.tri[i := t] && u'.str == u.str
            && u'.sel == if t == 2 && k.syms[i].choice.Some? then u.sel[k.syms[i].choice.value := i] else u.sel
  {
  }

  /** Any other symbol has the text, and nothing else changes. */
  lemma AssignedText(k: Config, u: User, i: Id, v: Setting)
    requires IsSym(k, i) && !Logical(k.syms[i].kind) && Accepts(k, k.syms[i].kind, v)
    ensures v.Word? && Assigned(k, u, i, v) == User(u.tri, u.str[i := v.s], u.sel)
  {
  }

  /** Unsetting removes the value of the symbol, or the mode and the selection of the choice, and nothing else. */
  lemma UnassignedMeans(k: Config, u: User, i: Id)
    ensures var u' := Unassigned(k, u, i);
            && i !in u'.tri && (forall j :: j != i ==> SameAt(u.tri, u'.tri, j) && SameAt(u.str, u'.str, j) && SameAt(u.sel, u'.sel, j))
            && (if IsChoice(k, i) then i !in u'.sel && SameAt(u.str, u'.str, i) else i !in u'.str && SameAt(u.sel, u'.sel, i))
  {
  }

  /** Set and read: a visible symbol outside choices that nothing selects has the smaller of the value it was set to
      and its visibility. */
  lemma SetThenRead(k: Config, u: User, env: Env, i: Id, v: Setting, t: Tri)
    requires Plain(k, i) && Says(v, t) && Solves(k, Assigned(k, u, i, v), env)
    requires V(env, i) != 0 && ExprVal(k, Assigned(k, u, i, v), env, k.syms[i].revDep) == 0
    ensures Settled(k, Assigned(k, u, i, v), env, i, if t < V(env, i) then t else V(env, i))
  {
    AssignedMeans(k, u, i, v, t);
    hide Assigned, Solves, Settled, ExprVal;
    UserChooses(k, Assigned(k, u, i, v), env, i);
  }

  /** Setting a symbol of a choice to y makes it the symbol the choice has chosen, when the choice is in y mode and the
      symbol is visible. */
  lemma SetThenChosen(k: Config, u: User, env: Env, i: Id, v: Setting)
    requires IsSym(k, i) && Logical(k.syms[i].kind) && !k.syms[i].isConstant && k.syms[i].choice.Some? && Says(v, 2)
    requires Solves(k, Assigned(k, u, i, v), env)
    requires var c := k.syms[i].choice.value; IsChoice(k, c) && Mode(k, Assigned(k, u, i, v), env, c) == 2
    requires V(env, i) == 2
    ensures P(env, k.syms[i].choice.value) == Some(i) && T(env, i) == 2
  {
    AssignedMeans(k, u, i, v, 2);
    hide Assigned, Solves, Mode;
    UserSelects(k, Assigned(k, u, i, v), env, k.syms[i].choice.value);
    assert UserPicks(Assigned(k, u, i, v), env, k.syms[i].choice.value, i);
    OtherTriMeans(k, Assigned(k, u, i, v), env, i);
  }

  /** Set and read, for a string symbol that is visible. */
  lemma SetThenReadText(k: Config, u: User, env: Env, i: Id, v: Setting)
    requires WellFormed(k) && IsSym(k, i) && k.syms[i].kind == STRING && Accepts(k, STRING, v)
    requires Solves(k, Assigned(k, u, i, v), env) && V(env, i) != 0
    ensures v.Word? && S(env, i) == v.s
  {
    AssignedText(k, u, i, v);
    hide Assigned, Solves;
    StrMeans(k, Assigned(k, u, i, v), env, i);
  }

  /** Set and read, for an int or hex symbol that is visible and whose range in effect holds the number. */
  lemma SetThenReadNumber(k: Config, u: User, env: Env, i: Id, v: Setting, low: int, high: int, n: int)
    requires IsSym(k, i) && NumberSym(k, Assigned(k, u, i, v), env, i) && Accepts(k, k.syms[i].kind, v) && V(env, i) != 0
    requires Bounds(k, Assigned(k, u, i, v), env, k.syms[i].kind, k.syms[i].ranges, low, high)
    requires v.Word? && v.s != "" && k.parse(k.syms[i].kind, v.s) == Some(n) && low <= n <= high
    ensures S(env, i) == v.s
  {
    AssignedText(k, u, i, v);
    hide Assigned, Bounds;
    UserNumberChooses(k, Assigned(k, u, i, v), env, i, low, high, n);
  }
}
