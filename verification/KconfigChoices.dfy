/** What the values of a configuration amount to: recomputation has one solution, and a choice in y
    mode has exactly one symbol set. */
module KconfigChoices {
  import opened Basics
  import opened KconfigModel
  import opened KconfigDeps

  /** env gives every attribute the value its definition asks for. */
  ghost predicate Solves(k: Config, u: User, env: Env) {
    forall c :: env(c) == Compute(k, u, env, c)
  }

  /** The values from scratch are the only ones that satisfy all the definitions at once; the rank
      they are computed along does not matter. */
  lemma {:induction false} ScratchUnique(k: Config, u: User, rank: Cell -> nat, env: Env, c: Cell)
    requires Ranked(k, rank) && UserOk(k, u) && Solves(k, u, env)
    ensures env(c) == Scratch(k, u, rank, c)
    decreases rank(c)
  {
    hide Compute, Reads, MayRead, Scratch;
    var scratch := ScratchEnv(k, u, rank);
    ReadsMay(k, u, env, c);
    forall d | d in Reads(k, u, env, c) ensures env(d) == scratch(d) {
      assert d in MayRead(k, c);
      ScratchUnique(k, u, rank, env, d);
    }
    ComputeLocal(k, u, env, u, scratch, c);
    ScratchSolves(k, u, rank, c);
  }

  /** A choice of bool and tristate symbols, in y mode. */
  ghost predicate YMode(k: Config, u: User, env: Env, c: Id) {
    && IsChoice(k, c) && ChoiceOk(k, c) && Mode(k, u, env, c) == 2
    && (forall i :: i in k.choices[c].syms ==> Logical(k.syms[i].kind) && !k.syms[i].isConstant)
    && (forall j :: 0 <= j < |k.choices[c].defaults| ==> k.choices[c].defaults[j].sym in k.choices[c].syms)
  }

  /** In y mode every symbol of the choice is either invisible or can be y. */
  lemma YModeVisibility(k: Config, u: User, env: Env, c: Id, i: Id)
    requires YMode(k, u, env, c) && Solves(k, u, env) && i in k.choices[c].syms && !IsChoice(k, i)
    ensures V(env, i) in {0, 2}
  {
    hide Mode, PromptsVal;
    assert env(Vis(i)) == Compute(k, u, env, Vis(i));
  }

  lemma {:induction false} DefaultSelIn(k: Config, u: User, env: Env, ds: seq<SymDefault>, syms: seq<Id>)
    requires forall j :: 0 <= j < |ds| ==> ds[j].sym in syms
    ensures var p := DefaultSel(k, u, env, ds); p.Some? ==> p.value in syms && V(env, p.value) != 0
  {
    if ds != [] {
      assert ds[0].sym in syms;
      assert forall j :: 0 <= j < |ds| - 1 ==> ds[1..][j] == ds[j + 1];
      DefaultSelIn(k, u, env, ds[1..], syms);
    }
  }

  lemma {:induction false} FirstVisibleIn(env: Env, syms: seq<Id>)
    ensures var p := FirstVisible(env, syms);
            if p.Some? then p.value in syms && V(env, p.value) != 0 else forall i :: i in syms ==> V(env, i) == 0
  {
    if syms != [] {
      FirstVisibleIn(env, syms[1..]);
      assert syms == [syms[0]] + syms[1..];
    }
  }

  /** A choice in y mode with a visible symbol selects one of its visible symbols, and sets that
      symbol to y and all its other symbols to n. */
  lemma ExactlyOneSet(k: Config, u: User, env: Env, c: Id, seen: Id)
    requires WellFormed(k) && UserOk(k, u) && YMode(k, u, env, c) && Solves(k, u, env)
    requires seen in k.choices[c].syms && V(env, seen) != 0
    ensures P(env, c).Some? && P(env, c).value in k.choices[c].syms && V(env, P(env, c).value) != 0
    ensures forall i :: i in k.choices[c].syms ==> T(env, i) == if P(env, c) == Some(i) then 2 else 0
  {
    hide Mode, SymVis, PlainTri, DefaultSel, FirstVisible;
    assert env(Sel(c)) == Compute(k, u, env, Sel(c));
    DefaultSelIn(k, u, env, k.choices[c].defaults, k.choices[c].syms);
    FirstVisibleIn(env, k.choices[c].syms);
    forall i | i in k.choices[c].syms ensures T(env, i) == if P(env, c) == Some(i) then 2 else 0 {
      YModeVisibility(k, u, env, c, i);
      assert env(TriVal(i)) == Compute(k, u, env, TriVal(i));
    }
  }
}
