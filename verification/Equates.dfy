/** Equates: the in-place sweeps reach the one solution of an acyclic system, in whatever order it is
    written (assembler/asm_pass.c, resolve_constants). */
module Equates {
  import opened Support
  import opened Expressions
  import opened Program
  import opened Layout
  import opened Agreement
  import opened Labels

  /** The entry equate `i` defines. */
  function EquateKey(cfg: Config, p: seq<Stmt>, i: nat): Key
    requires i < |p| && Deferred(p[i])
  {
    StorageKey(cfg, p[i], p[i].kind.name)
  }

  /** Every equate has its own declared entry. */
  predicate OwnEntries(cfg: Config, p: seq<Stmt>, w: Symtab) {
    (forall i :: 0 <= i < |p| && Deferred(p[i]) ==> EquateKey(cfg, p, i) in w) &&
    forall i, j :: 0 <= i < j < |p| && Deferred(p[i]) && Deferred(p[j]) ==> EquateKey(cfg, p, i) != EquateKey(cfg, p, j)
  }

  /** `k` is the entry of an equate ranked below `r`. */
  predicate EquateBelow(cfg: Config, p: seq<Stmt>, rank: seq<nat>, r: nat, k: Key) {
    |rank| == |p| && exists j :: 0 <= j < |p| && Deferred(p[j]) && EquateKey(cfg, p, j) == k && rank[j] < r
  }

  predicate IsEquateKey(cfg: Config, p: seq<Stmt>, k: Key) {
    exists j :: 0 <= j < |p| && Deferred(p[j]) && EquateKey(cfg, p, j) == k
  }

  /** Acyclic of depth at most `depth`: an equate mentions defined leaves and lower-ranked equates. */
  predicate Acyclic(cfg: Config, p: seq<Stmt>, w: Symtab, rank: seq<nat>, depth: nat) {
    |rank| == |p| && forall i :: 0 <= i < |p| && Deferred(p[i]) ==>
      1 <= rank[i] <= depth &&
      forall k :: k in Mentions(w.Keys, p[i].scope, p[i].file, p[i].kind.expr) ==>
        EquateBelow(cfg, p, rank, rank[i], k) || (k in w && w[k].defined && !IsEquateKey(cfg, p, k))
  }

  /** The table in which every equate has the value `sol` gives it. */
  function Solved(cfg: Config, p: seq<Stmt>, w: Symtab, sol: map<Key, int>): Symtab {
    map k | k in w :: if IsEquateKey(cfg, p, k) && k in sol then Assigned(w[k], sol[k]) else w[k]
  }

  /** `sol` satisfies every equate, without faults. */
  predicate IsSolution(cfg: Config, p: seq<Stmt>, w: Symtab, sol: map<Key, int>) {
    forall i :: 0 <= i < |p| && Deferred(p[i]) ==>
      EquateKey(cfg, p, i) in sol &&
      Eval(p[i].kind.expr, Solved(cfg, p, w, sol), p[i].scope, p[i].file, p[i].address) == Ok(sol[EquateKey(cfg, p, i)])
  }

  /** Leaves are as in `w`; equates ranked up to `r` have their solution. */
  predicate RightUpTo(cfg: Config, p: seq<Stmt>, w: Symtab, rank: seq<nat>, sol: map<Key, int>, r: nat, t: Symtab)
    requires |rank| == |p|
  {
    t.Keys == w.Keys && (forall k :: k in w && !IsEquateKey(cfg, p, k) ==> t[k] == w[k]) &&
    forall i :: 0 <= i < |p| && Deferred(p[i]) && rank[i] <= r ==> RightAt(cfg, p, sol, i, t)
  }

  predicate RightAt(cfg: Config, p: seq<Stmt>, sol: map<Key, int>, i: nat, t: Symtab)
    requires i < |p| && Deferred(p[i])
  {
    var k := EquateKey(cfg, p, i);
    k in sol && SymbolValue(t, k) == Ok(sol[k])
  }

  /** Enough is known to evaluate an equate correctly. */
  lemma EvaluatesRight(cfg: Config, p: seq<Stmt>, w: Symtab, rank: seq<nat>, depth: nat, sol: map<Key, int>, r: nat,
      t: Symtab, i: nat)
    requires Acyclic(cfg, p, w, rank, depth) && IsSolution(cfg, p, w, sol) && OwnEntries(cfg, p, w)
    requires RightUpTo(cfg, p, w, rank, sol, r, t) && i < |p| && Deferred(p[i]) && rank[i] <= r + 1
    ensures EquateKey(cfg, p, i) in sol
    ensures Eval(p[i].kind.expr, t, p[i].scope, p[i].file, p[i].address) == Ok(sol[EquateKey(cfg, p, i)])
  {
    var s := p[i];
    var u := Solved(cfg, p, w, sol);
    forall k | k in Mentions(t.Keys, s.scope, s.file, s.kind.expr)
      ensures SymbolValue(t, k) == SymbolValue(u, k)
    {
      if EquateBelow(cfg, p, rank, rank[i], k) {
        var j :| 0 <= j < |p| && Deferred(p[j]) && EquateKey(cfg, p, j) == k && rank[j] < rank[i];
        assert RightAt(cfg, p, sol, j, t);
        assert IsEquateKey(cfg, p, k);
      }
    }
    EvalMentions(s.kind.expr, t, u, s.scope, s.file, s.address);
  }

  lemma SettleRight(cfg: Config, p: seq<Stmt>, w: Symtab, rank: seq<nat>, depth: nat, sol: map<Key, int>, r: nat,
      t: Symtab, i: nat)
    requires Acyclic(cfg, p, w, rank, depth) && IsSolution(cfg, p, w, sol) && OwnEntries(cfg, p, w)
    requires RightUpTo(cfg, p, w, rank, sol, r, t) && i < |p|
    ensures var t' := Settle(cfg, t, p[i]);
            RightUpTo(cfg, p, w, rank, sol, r, t') &&
            (Deferred(p[i]) && rank[i] <= r + 1 ==> RightAt(cfg, p, sol, i, t')) &&
            forall j :: 0 <= j < |p| && j != i && Deferred(p[j]) && RightAt(cfg, p, sol, j, t) ==> RightAt(cfg, p, sol, j, t')
  {
    hide *;
    if Deferred(p[i]) {
      AcyclicRanks(cfg, p, w, rank, depth);
      if rank[i] <= r + 1 { EvaluatesRight(cfg, p, w, rank, depth, sol, r, t, i); }
      OthersApart(cfg, p, w, i);
      SettleOwn(cfg, p, w, rank, sol, r, t, i);
    } else {
      SettleNothing(cfg, t, p[i]);
    }
  }

  lemma AcyclicRanks(cfg: Config, p: seq<Stmt>, w: Symtab, rank: seq<nat>, depth: nat)
    requires Acyclic(cfg, p, w, rank, depth)
    ensures |rank| == |p|
  {
    hide Mentions, IsEquateKey, EquateBelow;
  }

  lemma SettleNothing(cfg: Config, t: Symtab, s: Stmt)
    requires !Deferred(s)
    ensures Settle(cfg, t, s) == t
  {
    hide Eval, StorageKey;
  }

  /** Different equates own different entries. */
  lemma OthersApart(cfg: Config, p: seq<Stmt>, w: Symtab, i: nat)
    requires OwnEntries(cfg, p, w) && i < |p| && Deferred(p[i])
    ensures EquateKey(cfg, p, i) in w
    ensures forall j :: 0 <= j < |p| && j != i && Deferred(p[j]) ==> EquateKey(cfg, p, j) != EquateKey(cfg, p, i)
  {
    hide StorageKey;
    forall j | 0 <= j < |p| && j != i && Deferred(p[j])
      ensures EquateKey(cfg, p, j) != EquateKey(cfg, p, i)
    {
      assert i < j || j < i;
    }
  }

  /** Settling an equate touches its own entry only, and gives it the solution once its level is reached. */
  lemma SettleOwn(cfg: Config, p: seq<Stmt>, w: Symtab, rank: seq<nat>, sol: map<Key, int>, r: nat, t: Symtab, i: nat)
    requires |rank| == |p| && RightUpTo(cfg, p, w, rank, sol, r, t) && i < |p| && Deferred(p[i])
    requires EquateKey(cfg, p, i) in w
    requires forall j :: 0 <= j < |p| && j != i && Deferred(p[j]) ==> EquateKey(cfg, p, j) != EquateKey(cfg, p, i)
    requires rank[i] <= r + 1 ==> EquateKey(cfg, p, i) in sol
    requires rank[i] <= r + 1 ==>
               Eval(p[i].kind.expr, t, p[i].scope, p[i].file, p[i].address) == Ok(sol[EquateKey(cfg, p, i)])
    ensures var t' := Settle(cfg, t, p[i]);
            RightUpTo(cfg, p, w, rank, sol, r, t') &&
            (rank[i] <= r + 1 ==> RightAt(cfg, p, sol, i, t')) &&
            forall j :: 0 <= j < |p| && j != i && Deferred(p[j]) && RightAt(cfg, p, sol, j, t) ==> RightAt(cfg, p, sol, j, t')
  {
    hide Eval, StorageKey;
    assert IsEquateKey(cfg, p, EquateKey(cfg, p, i));
  }

  lemma {:induction false} SweepRight(cfg: Config, p: seq<Stmt>, w: Symtab, rank: seq<nat>, depth: nat,
      sol: map<Key, int>, r: nat, t: Symtab, n: nat)
    requires Acyclic(cfg, p, w, rank, depth) && IsSolution(cfg, p, w, sol) && OwnEntries(cfg, p, w)
    requires RightUpTo(cfg, p, w, rank, sol, r, t) && n <= |p|
    ensures var t' := Sweep(cfg, t, p, n);
            RightUpTo(cfg, p, w, rank, sol, r, t') &&
            forall j :: 0 <= j < n && Deferred(p[j]) && rank[j] <= r + 1 ==> RightAt(cfg, p, sol, j, t')
  {
    hide Eval, Acyclic, IsSolution, Solved, OwnEntries, RightUpTo, RightAt, Settle;
    if n > 0 {
      SweepRight(cfg, p, w, rank, depth, sol, r, t, n - 1);
      SettleRight(cfg, p, w, rank, depth, sol, r, Sweep(cfg, t, p, n - 1), n - 1);
    }
  }

  /** Each sweep settles one more level. */
  lemma SweepRaises(cfg: Config, p: seq<Stmt>, w: Symtab, rank: seq<nat>, depth: nat, sol: map<Key, int>, r: nat,
      t: Symtab)
    requires Acyclic(cfg, p, w, rank, depth) && IsSolution(cfg, p, w, sol) && OwnEntries(cfg, p, w)
    requires RightUpTo(cfg, p, w, rank, sol, r, t)
    ensures RightUpTo(cfg, p, w, rank, sol, r + 1, Sweep(cfg, t, p, |p|))
  {
    hide Eval, Acyclic, IsSolution, Solved, OwnEntries, RightAt, Settle;
    SweepRight(cfg, p, w, rank, depth, sol, r, t, |p|);
  }

  /** A table a sweep does not change is right at every level. */
  lemma {:induction false} FixpointRight(cfg: Config, p: seq<Stmt>, w: Symtab, rank: seq<nat>, depth: nat,
      sol: map<Key, int>, r: nat, t: Symtab, more: nat)
    requires Acyclic(cfg, p, w, rank, depth) && IsSolution(cfg, p, w, sol) && OwnEntries(cfg, p, w)
    requires RightUpTo(cfg, p, w, rank, sol, r, t) && Sweep(cfg, t, p, |p|) == t
    ensures RightUpTo(cfg, p, w, rank, sol, r + more, t)
    decreases more
  {
    hide Acyclic, IsSolution, OwnEntries, RightUpTo, Sweep;
    if more > 0 {
      SweepRaises(cfg, p, w, rank, depth, sol, r, t);
      FixpointRight(cfg, p, w, rank, depth, sol, r + 1, t, more - 1);
    }
  }

  lemma {:induction false} SweepsRight(cfg: Config, p: seq<Stmt>, w: Symtab, rank: seq<nat>, depth: nat,
      sol: map<Key, int>, r: nat, t: Symtab, fuel: nat)
    requires Acyclic(cfg, p, w, rank, depth) && IsSolution(cfg, p, w, sol) && OwnEntries(cfg, p, w)
    requires RightUpTo(cfg, p, w, rank, sol, r, t)
    ensures RightUpTo(cfg, p, w, rank, sol, r + fuel, Sweeps(cfg, t, p, fuel))
    decreases fuel
  {
    hide Acyclic, IsSolution, OwnEntries, RightUpTo, Sweep;
    if fuel > 0 {
      var t1 := Sweep(cfg, t, p, |p|);
      if t1 == t {
        FixpointRight(cfg, p, w, rank, depth, sol, r, t, fuel);
      } else {
        SweepRaises(cfg, p, w, rank, depth, sol, r, t);
        SweepsRight(cfg, p, w, rank, depth, sol, r + 1, t1, fuel - 1);
      }
    }
  }

  /** Equates in any order: an acyclic system of depth at most 64 ends at its solution. */
  lemma SweepsSolve(cfg: Config, p: seq<Stmt>, w: Symtab, rank: seq<nat>, sol: map<Key, int>, i: nat)
    requires Acyclic(cfg, p, w, rank, SWEEP_LIMIT) && IsSolution(cfg, p, w, sol) && OwnEntries(cfg, p, w)
    requires i < |p| && Deferred(p[i])
    ensures RightAt(cfg, p, sol, i, Sweeps(cfg, w, p, SWEEP_LIMIT))
  {
    hide IsSolution, OwnEntries, RightAt, Sweeps, EquateKey, Mentions;
    SweepsRight(cfg, p, w, rank, SWEEP_LIMIT, sol, 0, w, SWEEP_LIMIT);
  }

  /** The solution is unique. */
  lemma {:induction false} SolutionUnique(cfg: Config, p: seq<Stmt>, w: Symtab, rank: seq<nat>, depth: nat,
      sol: map<Key, int>, sol': map<Key, int>, i: nat)
    requires Acyclic(cfg, p, w, rank, depth) && OwnEntries(cfg, p, w)
    requires IsSolution(cfg, p, w, sol) && IsSolution(cfg, p, w, sol')
    requires i < |p| && Deferred(p[i])
    ensures sol[EquateKey(cfg, p, i)] == sol'[EquateKey(cfg, p, i)]
    decreases rank[i]
  {
    var u, u' := Solved(cfg, p, w, sol), Solved(cfg, p, w, sol');
    var s := p[i];
    forall k | k in Mentions(u.Keys, s.scope, s.file, s.kind.expr)
      ensures SymbolValue(u, k) == SymbolValue(u', k)
    {
      assert u.Keys == w.Keys;
      if EquateBelow(cfg, p, rank, rank[i], k) {
        var j :| 0 <= j < |p| && Deferred(p[j]) && EquateKey(cfg, p, j) == k && rank[j] < rank[i];
        SolutionUnique(cfg, p, w, rank, depth, sol, sol', j);
        assert IsEquateKey(cfg, p, k);
      }
    }
    EvalMentions(s.kind.expr, u, u', s.scope, s.file, s.address);
  }

  // ---- when there is a solution

  /** The equate among the first `n` statements that owns entry `k`. */
  function EquateOf(cfg: Config, p: seq<Stmt>, k: Key, n: nat): (r: Option<nat>)
    requires n <= |p|
    ensures r.Some? ==> r.value < n && Deferred(p[r.value]) && EquateKey(cfg, p, r.value) == k
    ensures r.None? ==> forall i :: 0 <= i < n && Deferred(p[i]) ==> EquateKey(cfg, p, i) != k
  {
    if n == 0 then None
    else if Deferred(p[n - 1]) && EquateKey(cfg, p, n - 1) == k then Some(n - 1)
    else EquateOf(cfg, p, k, n - 1)
  }

  /** The table in which the equates ranked up to `r` have been worked out, lowest rank first. */
  function Level(cfg: Config, p: seq<Stmt>, w: Symtab, rank: seq<nat>, r: nat): Symtab
    requires |rank| == |p|
  {
    if r == 0 then w
    else
      var t := Level(cfg, p, w, rank, r - 1);
      map k | k in t :: LevelEntry(cfg, p, rank, r, t, k)
  }

  function LevelEntry(cfg: Config, p: seq<Stmt>, rank: seq<nat>, r: nat, t: Symtab, k: Key): Symbol
    requires |rank| == |p| && k in t
  {
    match EquateOf(cfg, p, k, |p|)
    case None => t[k]
    case Some(i) => if rank[i] == r then AssignIfKnown(t[k], ValueIn(p, i, t)) else t[k]
  }

  function ValueIn(p: seq<Stmt>, i: nat, t: Symtab): EvalResult
    requires i < |p| && p[i].kind.Const?
  {
    Eval(p[i].kind.expr, t, p[i].scope, p[i].file, p[i].address)
  }

  /** Working the equates out by rank meets no fault. */
  predicate FaultFree(cfg: Config, p: seq<Stmt>, w: Symtab, rank: seq<nat>)
    requires |rank| == |p|
  {
    forall i :: 0 <= i < |p| && Deferred(p[i]) && rank[i] >= 1 ==> ValueIn(p, i, Level(cfg, p, w, rank, rank[i] - 1)).Ok?
  }

  lemma {:induction false} LevelKeys(cfg: Config, p: seq<Stmt>, w: Symtab, rank: seq<nat>, r: nat)
    requires |rank| == |p|
    ensures Level(cfg, p, w, rank, r).Keys == w.Keys
  {
    hide LevelEntry;
    if r > 0 { LevelKeys(cfg, p, w, rank, r - 1); }
  }

  lemma LevelStep(cfg: Config, p: seq<Stmt>, w: Symtab, rank: seq<nat>, r: nat, k: Key)
    requires |rank| == |p| && k in w && r > 0
    ensures k in Level(cfg, p, w, rank, r - 1) && k in Level(cfg, p, w, rank, r)
    ensures Level(cfg, p, w, rank, r)[k] == LevelEntry(cfg, p, rank, r, Level(cfg, p, w, rank, r - 1), k)
  {
    hide LevelEntry;
    LevelKeys(cfg, p, w, rank, r - 1);
  }

  /** Entries of no equate stay, and the entry of an equate changes at its own rank only. */
  lemma {:induction false} LevelStays(cfg: Config, p: seq<Stmt>, w: Symtab, rank: seq<nat>, q: nat, r: nat, k: Key)
    requires |rank| == |p| && k in w && q <= r
    requires EquateOf(cfg, p, k, |p|).Some? ==> rank[EquateOf(cfg, p, k, |p|).value] <= q
    ensures k in Level(cfg, p, w, rank, q) && k in Level(cfg, p, w, rank, r)
    ensures Level(cfg, p, w, rank, r)[k] == Level(cfg, p, w, rank, q)[k]
    decreases r
  {
    hide Level, EquateOf;
    LevelKeys(cfg, p, w, rank, q);
    LevelKeys(cfg, p, w, rank, r);
    if q < r {
      LevelStays(cfg, p, w, rank, q, r - 1, k);
      LevelStep(cfg, p, w, rank, r, k);
    }
  }

  lemma OwnerIs(cfg: Config, p: seq<Stmt>, w: Symtab, i: nat)
    requires OwnEntries(cfg, p, w) && i < |p| && Deferred(p[i])
    ensures EquateKey(cfg, p, i) in w && EquateOf(cfg, p, EquateKey(cfg, p, i), |p|) == Some(i)
  {
    OthersApart(cfg, p, w, i);
    hide StorageKey, EquateKey;
  }

  /** At its own rank an equate gets the value it evaluates to one rank lower. */
  lemma LevelValue(cfg: Config, p: seq<Stmt>, w: Symtab, rank: seq<nat>, depth: nat, i: nat, r: nat)
    requires Acyclic(cfg, p, w, rank, depth) && OwnEntries(cfg, p, w) && i < |p| && Deferred(p[i]) && |rank| == |p|
    requires 1 <= rank[i] <= r
    requires ValueIn(p, i, Level(cfg, p, w, rank, rank[i] - 1)).Ok?
    ensures SymbolValue(Level(cfg, p, w, rank, r), EquateKey(cfg, p, i)) ==
              ValueIn(p, i, Level(cfg, p, w, rank, rank[i] - 1))
  {
    hide Acyclic, Level, ValueIn, EquateKey, OwnEntries;
    OwnerIs(cfg, p, w, i);
    LevelStep(cfg, p, w, rank, rank[i], EquateKey(cfg, p, i));
    LevelStays(cfg, p, w, rank, rank[i], r, EquateKey(cfg, p, i));
  }

  /** What an equate mentions is final one rank below it. */
  lemma MentionsFinal(cfg: Config, p: seq<Stmt>, w: Symtab, rank: seq<nat>, depth: nat, i: nat)
    requires Acyclic(cfg, p, w, rank, depth) && OwnEntries(cfg, p, w) && i < |p| && Deferred(p[i])
    ensures |rank| == |p| && 1 <= rank[i] <= depth && p[i].kind.Const?
    ensures ValueIn(p, i, Level(cfg, p, w, rank, depth)) == ValueIn(p, i, Level(cfg, p, w, rank, rank[i] - 1))
  {
    hide *;
    RankIn(cfg, p, w, rank, depth, i);
    var s, u, t := p[i], Level(cfg, p, w, rank, rank[i] - 1), Level(cfg, p, w, rank, depth);
    LevelKeys(cfg, p, w, rank, rank[i] - 1);
    LevelKeys(cfg, p, w, rank, depth);
    forall k | k in Mentions(w.Keys, s.scope, s.file, s.kind.expr)
      ensures SymbolValue(u, k) == SymbolValue(t, k)
    {
      MentionFinal(cfg, p, w, rank, depth, i, k);
    }
    SameValueIn(p, i, u, t);
  }

  lemma SameValueIn(p: seq<Stmt>, i: nat, u: Symtab, t: Symtab)
    requires i < |p| && p[i].kind.Const? && u.Keys == t.Keys
    requires forall k :: k in Mentions(u.Keys, p[i].scope, p[i].file, p[i].kind.expr) ==>
               SymbolValue(u, k) == SymbolValue(t, k)
    ensures ValueIn(p, i, u) == ValueIn(p, i, t)
  {
    hide Mentions, SymbolValue;
    EvalMentions(p[i].kind.expr, u, t, p[i].scope, p[i].file, p[i].address);
  }

  lemma MentionFinal(cfg: Config, p: seq<Stmt>, w: Symtab, rank: seq<nat>, depth: nat, i: nat, k: Key)
    requires Acyclic(cfg, p, w, rank, depth) && OwnEntries(cfg, p, w) && i < |p| && Deferred(p[i])
    requires k in Mentions(w.Keys, p[i].scope, p[i].file, p[i].kind.expr)
    ensures |rank| == |p| && 1 <= rank[i] <= depth && k in w
    ensures SymbolValue(Level(cfg, p, w, rank, rank[i] - 1), k) == SymbolValue(Level(cfg, p, w, rank, depth), k)
  {
    hide Level, EquateKey, OwnEntries, Mentions;
    if EquateBelow(cfg, p, rank, rank[i], k) {
      var j :| 0 <= j < |p| && Deferred(p[j]) && EquateKey(cfg, p, j) == k && rank[j] < rank[i];
      OwnerIs(cfg, p, w, j);
    }
    LevelStays(cfg, p, w, rank, rank[i] - 1, depth, k);
  }

  /** The values of the last level. */
  function LevelSolution(cfg: Config, p: seq<Stmt>, w: Symtab, rank: seq<nat>, depth: nat): map<Key, int>
    requires |rank| == |p|
  {
    var t := Level(cfg, p, w, rank, depth);
    map k | k in t :: t[k].value
  }

  /** Without faults the last level is a solution. */
  lemma FaultFreeSolves(cfg: Config, p: seq<Stmt>, w: Symtab, rank: seq<nat>, depth: nat)
    requires Acyclic(cfg, p, w, rank, depth) && OwnEntries(cfg, p, w) && |rank| == |p| && FaultFree(cfg, p, w, rank)
    ensures IsSolution(cfg, p, w, LevelSolution(cfg, p, w, rank, depth))
  {
    hide *;
    forall i | 0 <= i < |p| && Deferred(p[i])
      ensures SolvedAt(cfg, p, w, LevelSolution(cfg, p, w, rank, depth), i)
    {
      EquateFinal(cfg, p, w, rank, depth, i);
      SolvedSame(cfg, p, w, rank, depth, i);
      DeferredConst(p[i]);
      SolvedFrom(cfg, p, w, rank, depth, i);
    }
    SolutionFrom(cfg, p, w, LevelSolution(cfg, p, w, rank, depth));
  }

  lemma DeferredConst(s: Stmt)
    requires Deferred(s)
    ensures s.kind.Const?
  {
  }

  predicate SolvedAt(cfg: Config, p: seq<Stmt>, w: Symtab, sol: map<Key, int>, i: nat)
    requires i < |p| && Deferred(p[i])
  {
    EquateKey(cfg, p, i) in sol && ValueIn(p, i, Solved(cfg, p, w, sol)) == Ok(sol[EquateKey(cfg, p, i)])
  }

  lemma SolutionFrom(cfg: Config, p: seq<Stmt>, w: Symtab, sol: map<Key, int>)
    requires forall i :: 0 <= i < |p| && Deferred(p[i]) ==> SolvedAt(cfg, p, w, sol, i)
    ensures IsSolution(cfg, p, w, sol)
  {
    hide Eval, Solved, EquateKey;
    forall i | 0 <= i < |p| && Deferred(p[i])
      ensures EquateKey(cfg, p, i) in sol
      ensures Eval(p[i].kind.expr, Solved(cfg, p, w, sol), p[i].scope, p[i].file, p[i].address) ==
                Ok(sol[EquateKey(cfg, p, i)])
    {
      assert SolvedAt(cfg, p, w, sol, i);
    }
  }

  /** Equate `i` has its own value at the last level. */
  lemma EquateFinal(cfg: Config, p: seq<Stmt>, w: Symtab, rank: seq<nat>, depth: nat, i: nat)
    requires Acyclic(cfg, p, w, rank, depth) && OwnEntries(cfg, p, w) && |rank| == |p| && FaultFree(cfg, p, w, rank)
    requires i < |p| && Deferred(p[i])
    ensures p[i].kind.Const?
    ensures var t := Level(cfg, p, w, rank, depth);
            ValueIn(p, i, t).Ok? && SymbolValue(t, EquateKey(cfg, p, i)) == ValueIn(p, i, t)
  {
    hide Acyclic, Level, ValueIn, EquateKey, OwnEntries;
    MentionsFinal(cfg, p, w, rank, depth, i);
    LevelValue(cfg, p, w, rank, depth, i, depth);
  }

  /** The solved table and the last level say the same about what an equate mentions. */
  lemma SolvedSame(cfg: Config, p: seq<Stmt>, w: Symtab, rank: seq<nat>, depth: nat, i: nat)
    requires Acyclic(cfg, p, w, rank, depth) && OwnEntries(cfg, p, w) && |rank| == |p| && FaultFree(cfg, p, w, rank)
    requires i < |p| && Deferred(p[i])
    ensures ValueIn(p, i, Solved(cfg, p, w, LevelSolution(cfg, p, w, rank, depth))) ==
              ValueIn(p, i, Level(cfg, p, w, rank, depth))
  {
    var t := Level(cfg, p, w, rank, depth);
    var u := Solved(cfg, p, w, LevelSolution(cfg, p, w, rank, depth));
    LevelKeys(cfg, p, w, rank, depth);
    SolvedKeys(cfg, p, w, LevelSolution(cfg, p, w, rank, depth));
    hide Level, LevelSolution, Solved, Acyclic, FaultFree;
    var s := p[i];
    forall k | k in Mentions(u.Keys, s.scope, s.file, s.kind.expr)
      ensures SymbolValue(u, k) == SymbolValue(t, k)
    {
      SolvedEntry(cfg, p, w, rank, depth, i, k);
    }
    EvalMentions(s.kind.expr, u, t, s.scope, s.file, s.address);
  }

  lemma SolvedKeys(cfg: Config, p: seq<Stmt>, w: Symtab, sol: map<Key, int>)
    ensures Solved(cfg, p, w, sol).Keys == w.Keys
  {
    hide IsEquateKey;
  }

  lemma SolvedEntry(cfg: Config, p: seq<Stmt>, w: Symtab, rank: seq<nat>, depth: nat, i: nat, k: Key)
    requires Acyclic(cfg, p, w, rank, depth) && OwnEntries(cfg, p, w) && |rank| == |p| && FaultFree(cfg, p, w, rank)
    requires i < |p| && Deferred(p[i]) && k in Mentions(w.Keys, p[i].scope, p[i].file, p[i].kind.expr)
    ensures SymbolValue(Solved(cfg, p, w, LevelSolution(cfg, p, w, rank, depth)), k) ==
              SymbolValue(Level(cfg, p, w, rank, depth), k)
  {
    LevelKeys(cfg, p, w, rank, depth);
    hide Level, EquateKey, OwnEntries, Mentions, FaultFree;
    MentionFinal(cfg, p, w, rank, depth, i, k);
    if EquateBelow(cfg, p, rank, rank[i], k) {
      var j :| 0 <= j < |p| && Deferred(p[j]) && EquateKey(cfg, p, j) == k && rank[j] < rank[i];
      EquateFinal(cfg, p, w, rank, depth, j);
      assert IsEquateKey(cfg, p, k);
    } else {
      assert EquateOf(cfg, p, k, |p|).None?;
      LevelStays(cfg, p, w, rank, 0, depth, k);
      LevelZero(cfg, p, w, rank);
    }
  }

  lemma LevelZero(cfg: Config, p: seq<Stmt>, w: Symtab, rank: seq<nat>)
    requires |rank| == |p|
    ensures Level(cfg, p, w, rank, 0) == w
  {
  }

  lemma SolvedFrom(cfg: Config, p: seq<Stmt>, w: Symtab, rank: seq<nat>, depth: nat, i: nat)
    requires |rank| == |p| && i < |p| && Deferred(p[i]) && p[i].kind.Const?
    requires var t := Level(cfg, p, w, rank, depth);
             ValueIn(p, i, t).Ok? && SymbolValue(t, EquateKey(cfg, p, i)) == ValueIn(p, i, t)
    requires ValueIn(p, i, Solved(cfg, p, w, LevelSolution(cfg, p, w, rank, depth))) ==
               ValueIn(p, i, Level(cfg, p, w, rank, depth))
    ensures SolvedAt(cfg, p, w, LevelSolution(cfg, p, w, rank, depth), i)
  {
    hide Level, Solved, EquateKey, ValueIn;
  }

  /** Where a solution is given, every level is right as far as it goes. */
  lemma {:induction false} LevelRight(cfg: Config, p: seq<Stmt>, w: Symtab, rank: seq<nat>, depth: nat,
      sol: map<Key, int>, r: nat)
    requires Acyclic(cfg, p, w, rank, depth) && IsSolution(cfg, p, w, sol) && OwnEntries(cfg, p, w) && |rank| == |p|
    ensures RightUpTo(cfg, p, w, rank, sol, r, Level(cfg, p, w, rank, r))
  {
    hide *;
    LevelKeys(cfg, p, w, rank, r);
    if r == 0 {
      LevelZero(cfg, p, w, rank);
      NothingRanked(cfg, p, w, rank, depth, sol);
    } else {
      LevelRight(cfg, p, w, rank, depth, sol, r - 1);
      forall i | 0 <= i < |p| && Deferred(p[i]) && rank[i] <= r
        ensures RightAt(cfg, p, sol, i, Level(cfg, p, w, rank, r))
      {
        RankIn(cfg, p, w, rank, depth, i);
        LevelRightAt(cfg, p, w, rank, depth, sol, r, i);
      }
      forall k | k in w && !IsEquateKey(cfg, p, k)
        ensures k in Level(cfg, p, w, rank, r) && Level(cfg, p, w, rank, r)[k] == w[k]
      {
        LeafStays(cfg, p, w, rank, r, k);
      }
      RightFrom(cfg, p, w, rank, sol, r, Level(cfg, p, w, rank, r));
    }
  }

  lemma RightFrom(cfg: Config, p: seq<Stmt>, w: Symtab, rank: seq<nat>, sol: map<Key, int>, r: nat, t: Symtab)
    requires |rank| == |p| && t.Keys == w.Keys
    requires forall k :: k in w && !IsEquateKey(cfg, p, k) ==> k in t && t[k] == w[k]
    requires forall i :: 0 <= i < |p| && Deferred(p[i]) && rank[i] <= r ==> RightAt(cfg, p, sol, i, t)
    ensures RightUpTo(cfg, p, w, rank, sol, r, t)
  {
    hide IsEquateKey, RightAt;
  }

  lemma NothingRanked(cfg: Config, p: seq<Stmt>, w: Symtab, rank: seq<nat>, depth: nat, sol: map<Key, int>)
    requires Acyclic(cfg, p, w, rank, depth) && |rank| == |p|
    ensures RightUpTo(cfg, p, w, rank, sol, 0, w)
  {
    hide Mentions, IsEquateKey, EquateBelow, RightAt;
  }

  lemma RankIn(cfg: Config, p: seq<Stmt>, w: Symtab, rank: seq<nat>, depth: nat, i: nat)
    requires Acyclic(cfg, p, w, rank, depth) && i < |p| && Deferred(p[i])
    ensures |rank| == |p| && 1 <= rank[i] <= depth && p[i].kind.Const?
  {
    hide Mentions, IsEquateKey, EquateBelow;
  }

  lemma LeafStays(cfg: Config, p: seq<Stmt>, w: Symtab, rank: seq<nat>, r: nat, k: Key)
    requires |rank| == |p| && k in w && !IsEquateKey(cfg, p, k)
    ensures k in Level(cfg, p, w, rank, r) && Level(cfg, p, w, rank, r)[k] == w[k]
  {
    hide Level, EquateKey;
    assert EquateOf(cfg, p, k, |p|).None?;
    LevelStays(cfg, p, w, rank, 0, r, k);
    LevelZero(cfg, p, w, rank);
  }

  lemma LevelRightAt(cfg: Config, p: seq<Stmt>, w: Symtab, rank: seq<nat>, depth: nat, sol: map<Key, int>, r: nat,
      i: nat)
    requires Acyclic(cfg, p, w, rank, depth) && IsSolution(cfg, p, w, sol) && OwnEntries(cfg, p, w) && |rank| == |p|
    requires r > 0
    requires RightUpTo(cfg, p, w, rank, sol, r - 1, Level(cfg, p, w, rank, r - 1))
    requires i < |p| && Deferred(p[i]) && 1 <= rank[i] <= r && p[i].kind.Const?
    ensures RightAt(cfg, p, sol, i, Level(cfg, p, w, rank, r))
    ensures rank[i] == r ==> ValueIn(p, i, Level(cfg, p, w, rank, r - 1)).Ok?
  {
    hide Acyclic, IsSolution, OwnEntries, Level, EquateKey, Eval;
    OwnerIs(cfg, p, w, i);
    var k := EquateKey(cfg, p, i);
    LevelStep(cfg, p, w, rank, r, k);
    if rank[i] == r {
      EvaluatesRight(cfg, p, w, rank, depth, sol, r - 1, Level(cfg, p, w, rank, r - 1), i);
    } else {
      LevelStays(cfg, p, w, rank, r - 1, r, k);
    }
  }

  lemma SolvedFaultFree(cfg: Config, p: seq<Stmt>, w: Symtab, rank: seq<nat>, depth: nat, sol: map<Key, int>)
    requires Acyclic(cfg, p, w, rank, depth) && OwnEntries(cfg, p, w) && IsSolution(cfg, p, w, sol) && |rank| == |p|
    ensures FaultFree(cfg, p, w, rank)
  {
    hide Acyclic, OwnEntries, IsSolution, Level, ValueIn, RightUpTo, RightAt;
    forall i | 0 <= i < |p| && Deferred(p[i]) && rank[i] >= 1
      ensures ValueIn(p, i, Level(cfg, p, w, rank, rank[i] - 1)).Ok?
    {
      DeferredConst(p[i]);
      LevelRight(cfg, p, w, rank, depth, sol, rank[i] - 1);
      LevelRightAt(cfg, p, w, rank, depth, sol, rank[i], i);
    }
  }

  /** An acyclic system has a solution exactly when working it out by rank meets no fault. */
  lemma SolvableExact(cfg: Config, p: seq<Stmt>, w: Symtab, rank: seq<nat>, depth: nat)
    requires Acyclic(cfg, p, w, rank, depth) && OwnEntries(cfg, p, w)
    ensures |rank| == |p|
    ensures (exists sol :: IsSolution(cfg, p, w, sol)) <==> FaultFree(cfg, p, w, rank)
  {
    hide *;
    AcyclicRanks(cfg, p, w, rank, depth);
    if FaultFree(cfg, p, w, rank) { FaultFreeSolves(cfg, p, w, rank, depth); }
    if sol :| IsSolution(cfg, p, w, sol) { SolvedFaultFree(cfg, p, w, rank, depth, sol); }
  }

  /** In an error-free pass every applied equate really has an entry of its own. */
  lemma PassOwnEntries(cfg: Config, c: Context)
    requires Pass1(cfg, c).errors == c.errors
    ensures OwnEntries(cfg, LaidProg(cfg, c), Republished(cfg, c))
  {
    hide Pass1, Start, Step, At, StorageKey, Publish;
    var p := LaidProg(cfg, c);
    forall i | 0 <= i < |p| && Deferred(p[i])
      ensures EquateKey(cfg, p, i) in Republished(cfg, c)
    {
      EquateDeclared(cfg, c, i);
      AtGrows(cfg, Start(cfg, c), c.prog, i + 1, |c.prog|);
      PublishGrows(cfg.order, |cfg.order|, Snapshot(Walked(cfg, c).segs), Walked(cfg, c).syms);
    }
    forall i, j | 0 <= i < j < |p| && Deferred(p[i]) && Deferred(p[j])
      ensures EquateKey(cfg, p, i) != EquateKey(cfg, p, j)
    {
      EquateDeclared(cfg, c, i);
      EquateDeclared(cfg, c, j);
      AtGrows(cfg, Start(cfg, c), c.prog, i + 1, j);
    }
  }

  lemma {:induction false} PublishGrows(order: seq<string>, n: nat, segs: map<string, Segment>, syms: Symtab)
    requires n <= |order|
    ensures syms.Keys <= Publish(order, n, segs, syms).Keys
  {
    if n > 0 { PublishGrows(order, n - 1, segs, syms); }
  }

  /** An applied equate's entry appears exactly at its statement. */
  lemma EquateDeclared(cfg: Config, c: Context, i: nat)
    requires Pass1(cfg, c).errors == c.errors && i < |c.prog| && Deferred(LaidProg(cfg, c)[i])
    ensures var k := EquateKey(cfg, LaidProg(cfg, c), i);
            k !in At(cfg, Start(cfg, c), c.prog, i).syms && k in At(cfg, Start(cfg, c), c.prog, i + 1).syms
  {
    hide Pass1, Step, Start, AfterNames, StorageKey, At;
    NoErrorsOnTheWay(cfg, c, i);
    NoErrorsOnTheWay(cfg, c, i + 1);
    UnknownSegment(cfg, c, i);
    LaidAt(cfg, c, i);
    var st := At(cfg, Start(cfg, c), c.prog, i);
    LaidShape(cfg, st, c.prog[i]);
    EquateStep(cfg, st, c.prog[i]);
    NamesGrow(cfg, st, c.prog[i]);
    StorageKeyShape(cfg, c.prog[i], LaidProg(cfg, c)[i], c.prog[i].kind.name);
  }

  /** The equates of an error-free pass end at the unique solution of their system, which exists when working them out
      by rank meets no fault; so in the final table every equate has the value of its own expression. */
  lemma PassSolvesEquates(cfg: Config, c: Context, rank: seq<nat>, i: nat)
    requires Pass1(cfg, c).errors == c.errors
    requires Acyclic(cfg, LaidProg(cfg, c), Republished(cfg, c), rank, SWEEP_LIMIT)
    requires |rank| == |LaidProg(cfg, c)| && FaultFree(cfg, LaidProg(cfg, c), Republished(cfg, c), rank)
    requires i < |c.prog| && Deferred(LaidProg(cfg, c)[i])
    ensures exists sol :: IsSolution(cfg, LaidProg(cfg, c), Republished(cfg, c), sol)
    ensures var p := LaidProg(cfg, c); var t := Pass1(cfg, c).syms;
            p[i].kind.Const? && ValueIn(p, i, t).Ok? && SymbolValue(t, EquateKey(cfg, p, i)) == ValueIn(p, i, t)
    ensures forall sol :: IsSolution(cfg, LaidProg(cfg, c), Republished(cfg, c), sol) ==>
              EquateKey(cfg, LaidProg(cfg, c), i) in sol &&
              SymbolValue(Pass1(cfg, c).syms, EquateKey(cfg, LaidProg(cfg, c), i)) == Ok(sol[EquateKey(cfg, LaidProg(cfg, c), i)])
  {
    hide *;
    PassSymsAre(cfg, c);
    LaidLength(cfg, c);
    PassOwnEntries(cfg, c);
    var p, w := LaidProg(cfg, c), Republished(cfg, c);
    FaultFreeSolves(cfg, p, w, rank, SWEEP_LIMIT);
    var known := LevelSolution(cfg, p, w, rank, SWEEP_LIMIT);
    RankIn(cfg, p, w, rank, SWEEP_LIMIT, i);
    FinalRight(cfg, p, w, rank, known, i);
    forall sol | IsSolution(cfg, p, w, sol)
      ensures EquateKey(cfg, p, i) in sol
      ensures SymbolValue(Pass1(cfg, c).syms, EquateKey(cfg, p, i)) == Ok(sol[EquateKey(cfg, p, i)])
    {
      FinalRight(cfg, p, w, rank, sol, i);
    }
  }

  /** The swept table against a solution. */
  lemma FinalRight(cfg: Config, p: seq<Stmt>, w: Symtab, rank: seq<nat>, sol: map<Key, int>, i: nat)
    requires Acyclic(cfg, p, w, rank, SWEEP_LIMIT) && IsSolution(cfg, p, w, sol) && OwnEntries(cfg, p, w)
    requires i < |p| && Deferred(p[i]) && p[i].kind.Const?
    ensures var t := Sweeps(cfg, w, p, SWEEP_LIMIT); var k := EquateKey(cfg, p, i);
            k in sol && ValueIn(p, i, t) == Ok(sol[k]) && SymbolValue(t, k) == Ok(sol[k])
  {
    SweepsSolve(cfg, p, w, rank, sol, i);
    AcyclicRanks(cfg, p, w, rank, SWEEP_LIMIT);
    RankIn(cfg, p, w, rank, SWEEP_LIMIT, i);
    StartRight(cfg, p, w, rank, sol);
    hide IsSolution, OwnEntries, Sweeps, EquateKey, Mentions, Acyclic, RightUpTo, Eval;
    SweepsRight(cfg, p, w, rank, SWEEP_LIMIT, sol, 0, w, SWEEP_LIMIT);
    EvaluatesRight(cfg, p, w, rank, SWEEP_LIMIT, sol, SWEEP_LIMIT, Sweeps(cfg, w, p, SWEEP_LIMIT), i);
  }

  lemma StartRight(cfg: Config, p: seq<Stmt>, w: Symtab, rank: seq<nat>, sol: map<Key, int>)
    requires Acyclic(cfg, p, w, rank, SWEEP_LIMIT) && |rank| == |p|
    ensures RightUpTo(cfg, p, w, rank, sol, 0, w)
  {
    NothingRanked(cfg, p, w, rank, SWEEP_LIMIT, sol);
  }

  lemma PassSymsAre(cfg: Config, c: Context)
    ensures Pass1(cfg, c).syms == Sweeps(cfg, Republished(cfg, c), LaidProg(cfg, c), SWEEP_LIMIT)
  {
    hide Sweeps, Republished, LaidProg, Walked, CheckErrors;
  }
}
