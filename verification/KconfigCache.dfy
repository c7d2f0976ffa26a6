/** Memoised attribute values and their invalidation, tools/kconfiglib.py.  The _cached_* members of
    all symbols and choices are one map: an attribute is a key exactly when its member is not None. */
module KconfigCache {
  import opened KconfigModel
  import opened KconfigDeps

  type Cache = map<Cell, Value>

  /** Attributes that are computed without the visibility: constants of the configuration. */
  ghost predicate Inert(k: Config, c: Cell) {
    || !Defined(k, c.id)
    || (c.TriVal? && !(IsSym(k, c.id) && Logical(k.syms[c.id].kind)))
    || (c.StrVal? && !(IsSym(k, c.id) && k.syms[c.id].kind != UNKNOWN))
    || (c.Sel? && !IsChoice(k, c.id))
  }

  /** Every cached value is what recomputation from scratch would give. */
  ghost predicate Coherent(k: Config, rank: Cell -> nat, u: User, cached: Cache) {
    forall c :: c in cached ==> cached[c] == Scratch(k, u, rank, c)
  }

  /** Whatever a cached value was computed from is cached too. */
  ghost predicate Closed(k: Config, rank: Cell -> nat, u: User, cached: Cache) {
    forall c :: c in cached ==> Reads(k, u, ScratchEnv(k, u, rank), c) <= cached.Keys
  }

  /** _cached_vis tells whether an item has cached values. */
  ghost predicate Flagged(k: Config, cached: Cache) {
    forall c :: c in cached && !Inert(k, c) ==> Vis(c.id) in cached
  }

  ghost predicate CacheOk(k: Config, rank: Cell -> nat, u: User, cached: Cache) {
    Coherent(k, rank, u, cached) && Closed(k, rank, u, cached) && Flagged(k, cached)
  }

  function Without(cached: Cache, gone: set<Id>): Cache {
    map c | c in cached && c.id !in gone :: cached[c]
  }

  /** The invalidated items: everything that depends on one of them has no cached visibility left. */
  ghost predicate Swept(k: Config, cached: Cache, gone: set<Id>) {
    && (forall x :: x in gone ==> Defined(k, x))
    && (forall x, y :: x in gone && DependsOn(k, y, x) ==> Vis(y) !in cached)
    && (k.modules in gone ==> forall y :: Defined(k, y) ==> Vis(y) !in cached)
  }

  /** The two settings differ only where no surviving attribute looks directly. */
  ghost predicate Unseen(k: Config, rank: Cell -> nat, u: User, u': User, cached: Cache, gone: set<Id>) {
    && (forall c :: c in cached && (c.TriVal? || c.StrVal?) ==> OwnSame(u, ScratchEnv(k, u, rank), u', c.id))
    && (forall c :: c in cached && c.Sel? ==> SameAt(u.sel, u'.sel, c.id))
    && (forall x :: IsChoice(k, x) && x !in gone ==> SameAt(u.tri, u'.tri, x))
  }

  /** No surviving selection was computed from an untracked default that the sweep reached. */
  ghost predicate NoneEscaped(k: Config, rank: Cell -> nat, u: User, left: Cache, gone: set<Id>) {
    forall c, d :: c in left && d in Reads(k, u, ScratchEnv(k, u, rank), c) && Escapes(k, c, d) ==> d.id !in gone
  }

  /** When all defaults are tracked none can. */
  lemma TrackedNoneEscaped(k: Config, rank: Cell -> nat, u: User, left: Cache, gone: set<Id>)
    requires WellFormed(k) && UserOk(k, u)
    ensures NoneEscaped(k, rank, u, left, gone)
  {
    var env := ScratchEnv(k, u, rank);
    forall c, d | c in left && d in Reads(k, u, env, c) ensures !Escapes(k, c, d) {
      ReadsMay(k, u, env, c);
      if c.Sel? && IsChoice(k, c.id) {
        SelectionLooks(k, c.id, d);
      }
    }
  }

  lemma SelectionLooks(k: Config, c: Id, d: Cell)
    requires WellFormed(k) && IsChoice(k, c) && d in MayRead(k, Sel(c))
    ensures Tracked(k, c, d.id)
  {
    assert ChoiceOk(k, c);
    SymDefaultsCellsItems(k, c, k.choices[c].defaults, 0);
  }

  /** What a surviving attribute was computed from survived as well. */
  lemma ReadsSurvive(k: Config, rank: Cell -> nat, u: User, cached: Cache, gone: set<Id>, c: Cell, d: Cell)
    requires Parsed(k) && Ranked(k, rank) && UserOk(k, u) && CacheOk(k, rank, u, cached)
    requires Swept(k, Without(cached, gone), gone) && (Escapes(k, c, d) ==> d.id !in gone)
    requires c in Without(cached, gone) && d in Reads(k, u, ScratchEnv(k, u, rank), c)
    ensures d in Without(cached, gone)
  {
    var env := ScratchEnv(k, u, rank);
    ReadsMay(k, u, env, c);
    if d.id in gone {
      assert d in MayRead(k, c);
      if !Inert(k, c) {
        assert Vis(c.id) in Without(cached, gone);
      } else {
        InertReads(k, u, env, c, d);
      }
      if d.id != k.modules && d.id != c.id {
        assert Defined(k, d.id);
        NotConstant(k, d.id);
        if ChoiceMentioned(k, c.id) || c.StrVal? {
          DependentsCover(k, c, d);
        } else {
          UnmentionedCover(k, rank, u, c, d);
        }
      }
    }
  }

  /** A symbol that does not mention its choice looks at its own attributes and at constants only. */
  lemma UnmentionedCover(k: Config, rank: Cell -> nat, u: User, c: Cell, d: Cell)
    requires Parsed(k) && Ranked(k, rank) && UserOk(k, u) && !ChoiceMentioned(k, c.id) && !c.StrVal?
    requires d in Reads(k, u, ScratchEnv(k, u, rank), c)
    ensures d.id == c.id || d.id == k.modules || Constant(k, d.id)
  {
    hide Mentions;
    assert SymOk(k, c.id);
    NeverVisibleReads(k, u, rank, c.id);
    PromptsCellsItems(k, k.syms[c.id].prompts);
    PromptsConstant(k, k.syms[c.id].prompts);
  }

  lemma {:induction false} PromptsConstant(k: Config, es: seq<Expr>)
    requires forall j :: 0 <= j < |es| ==> ConstantN(k, es[j])
    ensures forall i :: i in AllItems(es) ==> Constant(k, i)
  {
    if es != [] {
      PromptsConstant(k, es[..|es| - 1]);
    }
  }

  lemma NotConstant(k: Config, i: Id)
    requires Parsed(k) && Defined(k, i)
    ensures !Constant(k, i)
  {
    if IsSym(k, i) {
      assert SymOk(k, i);
    }
  }

  /** An inert attribute looks at nothing but inert attributes of its own item. */
  lemma InertReads(k: Config, u: User, env: Env, c: Cell, d: Cell)
    requires Parsed(k) && Inert(k, c) && d in Reads(k, u, env, c)
    ensures d.id == c.id && !Defined(k, c.id)
  {
    if IsSym(k, c.id) {
      assert SymOk(k, c.id);
    }
  }

  lemma {:induction false} Survives(k: Config, rank: Cell -> nat, u: User, u': User, cached: Cache, gone: set<Id>, c: Cell)
    requires Parsed(k) && Ranked(k, rank) && UserOk(k, u) && UserOk(k, u') && CacheOk(k, rank, u, cached)
    requires Swept(k, Without(cached, gone), gone) && Unseen(k, rank, u, u', Without(cached, gone), gone)
    requires NoneEscaped(k, rank, u, Without(cached, gone), gone)
    requires c in Without(cached, gone)
    ensures Scratch(k, u', rank, c) == Scratch(k, u, rank, c)
    ensures Reads(k, u', ScratchEnv(k, u', rank), c) == Reads(k, u, ScratchEnv(k, u, rank), c)
    decreases rank(c)
  {
    var env, env' := ScratchEnv(k, u, rank), ScratchEnv(k, u', rank);
    ReadsMay(k, u, env, c);
    forall d | d in Reads(k, u, env, c)
      ensures env(d) == env'(d) && (IsChoice(k, d.id) ==> SameAt(u.tri, u'.tri, d.id))
    {
      ReadsSurvive(k, rank, u, cached, gone, c, d);
      assert d in MayRead(k, c);
      Survives(k, rank, u, u', cached, gone, d);
    }
    ComputeLocal(k, u, env, u', env', c);
    ScratchSolves(k, u, rank, c);
    ScratchSolves(k, u', rank, c);
  }

  /** Stopping the invalidation at items without a cached visibility is sound: after a change of
      the user's settings, what the sweep left in the cache is still right, and still closed. */
  lemma CutOffSound(k: Config, rank: Cell -> nat, u: User, u': User, cached: Cache, gone: set<Id>)
    requires Parsed(k) && Ranked(k, rank) && UserOk(k, u) && UserOk(k, u') && CacheOk(k, rank, u, cached)
    requires Swept(k, Without(cached, gone), gone) && Unseen(k, rank, u, u', Without(cached, gone), gone)
    requires NoneEscaped(k, rank, u, Without(cached, gone), gone)
    ensures CacheOk(k, rank, u', Without(cached, gone))
  {
    var left := Without(cached, gone);
    forall c | c in left
      ensures left[c] == Scratch(k, u', rank, c) && Reads(k, u', ScratchEnv(k, u', rank), c) <= left.Keys
    {
      Survives(k, rank, u, u', cached, gone, c);
      forall d | d in Reads(k, u, ScratchEnv(k, u, rank), c) ensures d in left {
        ReadsSurvive(k, rank, u, cached, gone, c, d);
      }
    }
  }

  /** The condition is exact: the sweep drops all that was computed from what it drops if and only if no
      selection that stays was computed from an untracked default that it drops. */
  lemma SweepComplete(k: Config, rank: Cell -> nat, u: User, cached: Cache, gone: set<Id>)
    requires Parsed(k) && Ranked(k, rank) && UserOk(k, u) && CacheOk(k, rank, u, cached)
    requires Swept(k, Without(cached, gone), gone)
    ensures Closed(k, rank, u, Without(cached, gone)) <==> NoneEscaped(k, rank, u, Without(cached, gone), gone)
  {
    hide Reads;
    var left := Without(cached, gone);
    if NoneEscaped(k, rank, u, left, gone) {
      forall c | c in left ensures Reads(k, u, ScratchEnv(k, u, rank), c) <= left.Keys {
        forall d | d in Reads(k, u, ScratchEnv(k, u, rank), c) ensures d in left {
          ReadsSurvive(k, rank, u, cached, gone, c, d);
        }
      }
    }
  }
}
