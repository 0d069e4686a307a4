/** Expansion of `.repeat` blocks, done once on the parsed program before any pass (assembler/ir.c). */
module Repeat {
  import opened Support
  import opened Expressions
  import opened Opcodes
  import opened Program
  import opened Layout

  datatype Line =
    | RepeatLine(labelled: bool, str: Option<string>, args: seq<Expr>)
    | EndLine(labelled: bool, str: Option<string>, args: seq<Expr>)
    | Plain(stmt: Stmt)

  const ROOT := "__root__"

  /** Evaluation in front of all passes: no scope, no file, program counter zero. */
  function EarlyEval(e: Expr, syms: Symtab): EvalResult { Eval(e, syms, ROOT, "", 0) }

  /** repeat_eval_count. */
  function Count(syms: Symtab, l: Line): Option<nat>
    requires l.RepeatLine?
  {
    if l.labelled || l.str.Some? || |l.args| != 1 then None
    else match EarlyEval(l.args[0], syms)
      case Ok(v) => if v < 0 then None else Some(v)
      case _ => None
  }

  /** repeat_note_const. */
  function Note(syms: Symtab, s: Stmt): Option<Symtab> {
    if !s.kind.Const? then Some(syms)
    else
      var k := Global(s.kind.name);
      if s.kind.assign == Default && k in syms then Some(syms)
      else
        match EarlyEval(s.kind.expr, syms)
        case Ok(v) =>
          if s.kind.assign == SetVar && k in syms && !syms[k].mutable then None
          else
            var sym := if k in syms then syms[k] else Declared;
            Some(syms[k := Assigned(if s.kind.assign == SetVar then sym.(mutable := true) else sym, v)])
        case _ => Some(syms)
  }

  /** `body` appended `n` times. */
  function Times<T>(body: seq<T>, n: nat): seq<T> {
    if n == 0 then [] else Times(body, n - 1) + body
  }

  datatype Expansion = Expansion(out: seq<Stmt>, next: nat, syms: Symtab)

  function Behind(front: seq<Stmt>, r: Option<Expansion>): Option<Expansion> {
    match r case None => None case Some(x) => Some(x.(out := front + x.out))
  }

  /** repeat_expand_block from line `at`; `inner` inside an open block. */
  function Expand(lines: seq<Line>, at: nat, inner: bool, syms: Symtab): (r: Option<Expansion>)
    requires at <= |lines|
    ensures r.Some? ==> at <= r.value.next <= |lines| && (inner ==> at < r.value.next)
    decreases |lines| - at
  {
    if at == |lines| then if inner then None else Some(Expansion([], at, syms))
    else
      match lines[at]
      case EndLine(labelled, str, args) =>
        if !inner || labelled || str.Some? || args != [] then None else Some(Expansion([], at + 1, syms))
      case RepeatLine(_, _, _) =>
        (match Count(syms, lines[at])
         case None => None
         case Some(n) =>
           (match Expand(lines, at + 1, true, syms)
            case None => None
            case Some(b) => Behind(Times(b.out, n), Expand(lines, b.next, inner, b.syms))))
      case Plain(s) =>
        (match Note(syms, s) case None => None case Some(t) => Behind([s], Expand(lines, at + 1, inner, t)))
  }

  /** program_ir_expand_repeats. */
  function ExpandAll(lines: seq<Line>): Option<seq<Stmt>> {
    match Expand(lines, 0, false, map[]) case None => None case Some(r) => Some(r.out)
  }

  // ---- the nesting tree

  datatype Tree = Empty | Leaf(stmt: Stmt, rest: Tree) | Group(count: Expr, body: Tree, after: Tree)

  function Flatten(t: Tree): seq<Line> {
    match t
    case Empty => []
    case Leaf(s, r) => [Plain(s)] + Flatten(r)
    case Group(e, b, r) => [RepeatLine(false, None, [e])] + Flatten(b) + [EndLine(false, None, [])] + Flatten(r)
  }

  datatype Unrolled = Unrolled(out: seq<Stmt>, syms: Symtab)

  /** How often a body is repeated: as often as its count says, read without a scope, a file or a program counter. */
  function Count1(syms: Symtab, e: Expr): Option<nat> {
    match Eval(e, syms, ROOT, "", 0)
    case Ok(v) => if v >= 0 then Some(v) else None
    case _ => None
  }

  /** A well-formed count line is refused or repeats exactly so often. */
  lemma CountExact(syms: Symtab, e: Expr)
    ensures Count(syms, RepeatLine(false, None, [e])) == Count1(syms, e)
  {
    hide Eval;
  }

  /** The entry a recorded constant has. */
  predicate NotedAs(t: Symtab, s: Stmt, v: int, mutable: bool)
    requires s.kind.Const?
  {
    var k := Global(s.kind.name);
    k in t && t[k].defined && t[k].value == v && (t[k].mutable <==> mutable)
  }

  /** Recording a constant gives its name the value of its expression and touches nothing else. Only `.set` on a name
      that is not a variable is refused; an expression without a value, and `?=` on a known name, record nothing. */
  lemma NoteExact(syms: Symtab, s: Stmt)
    ensures !s.kind.Const? ==> Note(syms, s) == Some(syms)
    ensures s.kind.Const? ==>
              var k := Global(s.kind.name); var v := Eval(s.kind.expr, syms, ROOT, "", 0);
              if !v.Ok? || (s.kind.assign == Default && k in syms) then Note(syms, s) == Some(syms)
              else
                (Note(syms, s).None? <==> s.kind.assign == SetVar && k in syms && !syms[k].mutable) &&
                (Note(syms, s).Some? ==>
                   var t := Note(syms, s).value;
                   t.Keys == syms.Keys + {k} && (forall o :: o in syms && o != k ==> t[o] == syms[o]) &&
                   NotedAs(t, s, v.value, s.kind.assign == SetVar || (k in syms && syms[k].mutable)))
  {
    hide Eval;
  }

  /** What the expander makes of a tree: each body once, then copied. */
  function Once(t: Tree, syms: Symtab): Option<Unrolled> {
    match t
    case Empty => Some(Unrolled([], syms))
    case Leaf(s, r) =>
      (match Note(syms, s)
       case None => None
       case Some(u) => (match Once(r, u) case None => None case Some(x) => Some(x.(out := [s] + x.out))))
    case Group(e, b, r) =>
      (match Count1(syms, e)
       case None => None
       case Some(n) =>
         (match Once(b, syms)
          case None => None
          case Some(x) => (match Once(r, x.syms) case None => None case Some(y) => Some(y.(out := Times(x.out, n) + y.out)))))
  }

  /** The meaning of nested repetition: the body is gone through `n` times, one pass after the other. */
  function Unroll(t: Tree, syms: Symtab): Option<Unrolled>
    decreases t, 0
  {
    match t
    case Empty => Some(Unrolled([], syms))
    case Leaf(s, r) =>
      (match Note(syms, s)
       case None => None
       case Some(u) => (match Unroll(r, u) case None => None case Some(x) => Some(x.(out := [s] + x.out))))
    case Group(e, b, r) =>
      (match Count1(syms, e)
       case None => None
       case Some(n) =>
         (match UnrollTimes(b, n, syms)
          case None => None
          case Some(x) => (match Unroll(r, x.syms) case None => None case Some(y) => Some(y.(out := x.out + y.out)))))
  }

  function UnrollTimes(b: Tree, n: nat, syms: Symtab): Option<Unrolled>
    decreases b, n + 1
  {
    if n == 0 then Some(Unrolled([], syms))
    else match UnrollTimes(b, n - 1, syms)
      case None => None
      case Some(x) => (match Unroll(b, x.syms) case None => None case Some(y) => Some(y.(out := x.out + y.out)))
  }

  // ---- flat list and tree agree

  lemma PlainStep(lines: seq<Line>, at: nat, inner: bool, syms: Symtab, s: Stmt)
    requires at < |lines| && lines[at] == Plain(s)
    ensures Expand(lines, at, inner, syms) ==
              match Note(syms, s) { case None => None case Some(t) => Behind([s], Expand(lines, at + 1, inner, t)) }
  {
    hide Note;
  }

  lemma GroupStep(lines: seq<Line>, at: nat, inner: bool, syms: Symtab, e: Expr)
    requires at < |lines| && lines[at] == RepeatLine(false, None, [e])
    ensures Count1(syms, e).None? || Expand(lines, at + 1, true, syms).None? ==> Expand(lines, at, inner, syms).None?
    ensures Count1(syms, e).Some? && Expand(lines, at + 1, true, syms).Some? ==>
              Expand(lines, at, inner, syms) ==
                Behind(Times(Expand(lines, at + 1, true, syms).value.out, Count1(syms, e).value),
                       Expand(lines, Expand(lines, at + 1, true, syms).value.next, inner, Expand(lines, at + 1, true, syms).value.syms))
  {
    hide Count, Count1, Times;
    CountExact(syms, e);
  }

  lemma EndStep(lines: seq<Line>, at: nat, syms: Symtab)
    requires at < |lines| && lines[at] == EndLine(false, None, [])
    ensures Expand(lines, at, true, syms) == Some(Expansion([], at + 1, syms))
  {
  }

  lemma BlockParts<T>(s: seq<T>, at: nat, x: T, b: seq<T>, y: T, r: seq<T>)
    requires at + 2 + |b| + |r| <= |s| && s[at..at + 2 + |b| + |r|] == [x] + b + [y] + r
    ensures s[at] == x && s[at + 1..at + 1 + |b|] == b && s[at + 1 + |b|] == y
    ensures s[at + 2 + |b|..at + 2 + |b| + |r|] == r
  {
    var f := [x] + b + [y] + r;
    assert f[0] == x && f[1..1 + |b|] == b && f[1 + |b|] == y && f[2 + |b|..|f|] == r;
    SubSlice(s, at, |f|, 0, 1);
    SubSlice(s, at, |f|, 1, 1 + |b|);
    SubSlice(s, at, |f|, 1 + |b|, 2 + |b|);
    SubSlice(s, at, |f|, 2 + |b|, |f|);
  }

  lemma SubSlice<T>(s: seq<T>, a: nat, n: nat, i: nat, j: nat)
    requires i <= j <= n && a + n <= |s|
    ensures s[a..a + n][i..j] == s[a + i..a + j]
    ensures i < j ==> s[a..a + n][i] == s[a + i]
  {
    var l, r := s[a..a + n][i..j], s[a + i..a + j];
    assert |l| == |r|;
    forall k | 0 <= k < |l| ensures l[k] == r[k] { assert s[a..a + n][i + k] == s[a + i + k]; }
  }

  /** The flat expander treats the lines of `t` as the tree says and goes on behind them. */
  predicate Walks(lines: seq<Line>, at: nat, t: Tree, inner: bool, syms: Symtab)
    requires at + |Flatten(t)| <= |lines|
  {
    Expand(lines, at, inner, syms) ==
      match Once(t, syms) {
        case None => None
        case Some(x) => Behind(x.out, Expand(lines, at + |Flatten(t)|, inner, x.syms))
      }
  }

  lemma {:induction false} FlatIsTree(lines: seq<Line>, at: nat, t: Tree, inner: bool, syms: Symtab)
    requires at + |Flatten(t)| <= |lines| && lines[at..at + |Flatten(t)|] == Flatten(t)
    ensures Walks(lines, at, t, inner, syms)
    decreases t
  {
    hide Note, Count1, Times, Expand, Behind, Once, Walks, Flatten;
    FlattenParts(t);
    match t
    case Empty =>
      WalksEmpty(lines, at, inner, syms);
    case Leaf(s, r) =>
      SubSlice(lines, at, |Flatten(t)|, 0, 1);
      SubSlice(lines, at, |Flatten(t)|, 1, |Flatten(t)|);
      if Note(syms, s).Some? { FlatIsTree(lines, at + 1, r, inner, Note(syms, s).value); }
      WalksLeaf(lines, at, inner, syms, s, r);
    case Group(e, b, r) =>
      BlockParts(lines, at, RepeatLine(false, None, [e]), Flatten(b), EndLine(false, None, []), Flatten(r));
      FlatIsTree(lines, at + 1, b, true, syms);
      if Once(b, syms).Some? { FlatIsTree(lines, at + 2 + |Flatten(b)|, r, inner, Once(b, syms).value.syms); }
      WalksGroup(lines, at, inner, syms, e, b, r);
  }

  lemma FlattenParts(t: Tree)
    ensures t.Empty? ==> Flatten(t) == []
    ensures t.Leaf? ==>
              |Flatten(t)| == 1 + |Flatten(t.rest)| && Flatten(t)[0] == Plain(t.stmt) &&
              Flatten(t)[1..] == Flatten(t.rest)
    ensures t.Group? ==> |Flatten(t)| == 2 + |Flatten(t.body)| + |Flatten(t.after)| &&
                         Flatten(t) == [RepeatLine(false, None, [t.count])] + Flatten(t.body) + [EndLine(false, None, [])] + Flatten(t.after)
  {
  }

  lemma WalksEmpty(lines: seq<Line>, at: nat, inner: bool, syms: Symtab)
    requires at <= |lines|
    ensures Walks(lines, at, Empty, inner, syms)
  {
    hide Expand;
    BehindNothing(Expand(lines, at, inner, syms));
  }

  lemma WalksLeaf(lines: seq<Line>, at: nat, inner: bool, syms: Symtab, s: Stmt, r: Tree)
    requires at + 1 + |Flatten(r)| <= |lines| && lines[at] == Plain(s)
    requires Note(syms, s).Some? ==> Walks(lines, at + 1, r, inner, Note(syms, s).value)
    ensures Walks(lines, at, Leaf(s, r), inner, syms)
  {
    hide Note, Expand, Behind;
    PlainStep(lines, at, inner, syms, s);
    if Note(syms, s).Some? {
      var x := Once(r, Note(syms, s).value);
      if x.Some? { BehindBehind([s], x.value.out, Expand(lines, at + 1 + |Flatten(r)|, inner, x.value.syms)); } else { BehindFailure([s]); }
    }
  }

  lemma WalksGroup(lines: seq<Line>, at: nat, inner: bool, syms: Symtab, e: Expr, b: Tree, r: Tree)
    requires at + 2 + |Flatten(b)| + |Flatten(r)| <= |lines| && lines[at] == RepeatLine(false, None, [e])
    requires lines[at + 1 + |Flatten(b)|] == EndLine(false, None, []) && Walks(lines, at + 1, b, true, syms)
    requires Once(b, syms).Some? ==> Walks(lines, at + 2 + |Flatten(b)|, r, inner, Once(b, syms).value.syms)
    ensures Walks(lines, at, Group(e, b, r), inner, syms)
  {
    hide Note, Count1, Times, Expand, Behind, Flatten, Once;
    FlattenParts(Group(e, b, r));
    GroupStep(lines, at, inner, syms, e);
    OnceGroup(syms, e, b, r);
    if Once(b, syms).Some? {
      var x := Once(b, syms).value;
      EndStep(lines, at + 1 + |Flatten(b)|, x.syms);
      BehindEnd(x.out, at + 2 + |Flatten(b)|, x.syms);
      if Count1(syms, e).Some? {
        CopiesThenRest(Times(x.out, Count1(syms, e).value), Once(r, x.syms), lines, at + 2 + |Flatten(b)| + |Flatten(r)|, inner);
      }
    } else {
      assert Expand(lines, at + 1, true, syms).None?;
    }
  }

  lemma CopiesThenRest(copies: seq<Stmt>, y: Option<Unrolled>, lines: seq<Line>, to: nat, inner: bool)
    requires to <= |lines|
    ensures Behind(copies, match y { case None => None case Some(z) => Behind(z.out, Expand(lines, to, inner, z.syms)) }) ==
              match y { case None => None case Some(z) => Behind(copies + z.out, Expand(lines, to, inner, z.syms)) }
  {
    hide Expand, Behind;
    if y.Some? { BehindBehind(copies, y.value.out, Expand(lines, to, inner, y.value.syms)); } else { BehindFailure(copies); }
  }

  lemma BehindFailure(front: seq<Stmt>)
    ensures Behind(front, None) == None
  {
  }

  lemma BehindEnd(front: seq<Stmt>, next: nat, syms: Symtab)
    ensures Behind(front, Some(Expansion([], next, syms))) == Some(Expansion(front, next, syms))
  {
    assert front + [] == front;
  }

  lemma BehindNothing(r: Option<Expansion>)
    ensures Behind([], r) == r
  {
    if r.Some? { assert [] + r.value.out == r.value.out; }
  }

  lemma BehindBehind(a: seq<Stmt>, b: seq<Stmt>, r: Option<Expansion>)
    ensures Behind(a, Behind(b, r)) == Behind(a + b, r)
  {
    if r.Some? { assert a + (b + r.value.out) == a + b + r.value.out; }
  }

  /** A list that expands is balanced: it flattens some tree, and its expansion is that tree's. */
  lemma {:induction false} SuccessBalanced(lines: seq<Line>, at: nat, inner: bool, syms: Symtab) returns (t: Tree)
    requires at <= |lines| && Expand(lines, at, inner, syms).Some?
    ensures Spells(lines, at, inner, syms, t)
    decreases |lines| - at
  {
    hide Note, Times, Count, Spells;
    if at == |lines| || lines[at].EndLine? {
      t := Empty;
      EmptySpells(lines, at, inner, syms);
    } else {
      match lines[at]
      case Plain(s) =>
        var r := SuccessBalanced(lines, at + 1, inner, Note(syms, s).value);
        t := Leaf(s, r);
        LeafSpells(lines, at, inner, syms, s, r);
      case RepeatLine(labelled, str, args) =>
        var b := Expand(lines, at + 1, true, syms).value;
        var body := SuccessBalanced(lines, at + 1, true, syms);
        var after := SuccessBalanced(lines, b.next, inner, b.syms);
        CountShape(syms, lines[at]);
        t := Group(args[0], body, after);
        GroupSpells(lines, at, inner, syms, args[0], body, after);
    }
  }

  /** The lines from `at` to the end of this block flatten `t`, and expand as `t` does. */
  predicate Spells(lines: seq<Line>, at: nat, inner: bool, syms: Symtab, t: Tree)
    requires at <= |lines| && Expand(lines, at, inner, syms).Some?
  {
    var r := Expand(lines, at, inner, syms).value;
    var end := if inner then r.next - 1 else r.next;
    at <= end && lines[at..end] == Flatten(t) && Once(t, syms) == Some(Unrolled(r.out, r.syms)) &&
    (if inner then lines[end] == EndLine(false, None, []) else end == |lines|)
  }

  lemma EmptySpells(lines: seq<Line>, at: nat, inner: bool, syms: Symtab)
    requires at <= |lines| && Expand(lines, at, inner, syms).Some? && (at == |lines| || lines[at].EndLine?)
    ensures Spells(lines, at, inner, syms, Empty)
  {
  }

  lemma LeafSpells(lines: seq<Line>, at: nat, inner: bool, syms: Symtab, s: Stmt, r: Tree)
    requires at < |lines| && lines[at] == Plain(s) && Expand(lines, at, inner, syms).Some?
    requires Note(syms, s).Some? && Expand(lines, at + 1, inner, Note(syms, s).value).Some?
    requires Spells(lines, at + 1, inner, Note(syms, s).value, r)
    ensures Spells(lines, at, inner, syms, Leaf(s, r))
  {
    hide Note, Count, Times;
    SplitHead(lines, at, (if inner then Expand(lines, at, inner, syms).value.next - 1 else |lines|));
  }

  lemma CountShape(syms: Symtab, l: Line)
    requires l.RepeatLine? && Count(syms, l).Some?
    ensures |l.args| == 1 && l == RepeatLine(false, None, [l.args[0]])
  {
    hide EarlyEval;
  }

  lemma GroupSpells(lines: seq<Line>, at: nat, inner: bool, syms: Symtab, e: Expr, body: Tree, after: Tree)
    requires at < |lines| && lines[at] == RepeatLine(false, None, [e]) && Expand(lines, at, inner, syms).Some?
    requires Expand(lines, at + 1, true, syms).Some? && Spells(lines, at + 1, true, syms, body)
    requires var b := Expand(lines, at + 1, true, syms).value;
             Expand(lines, b.next, inner, b.syms).Some? && Spells(lines, b.next, inner, b.syms, after)
    ensures Spells(lines, at, inner, syms, Group(e, body, after))
  {
    hide Note, Count1, Times, Expand, Once, Flatten, Behind;
    var b := Expand(lines, at + 1, true, syms).value;
    GroupStep(lines, at, inner, syms, e);
    GroupSucceeds(lines, at, inner, syms, e);
    OnceGroup(syms, e, body, after);
    FlattenParts(Group(e, body, after));
    BehindSome(Times(b.out, Count1(syms, e).value), Expand(lines, b.next, inner, b.syms));
    var end := if inner then Expand(lines, at, inner, syms).value.next - 1 else |lines|;
    SplitBlock(lines, at, b.next - 1, end);
  }

  lemma BehindSome(front: seq<Stmt>, r: Option<Expansion>)
    requires r.Some?
    ensures Behind(front, r) == Some(Expansion(front + r.value.out, r.value.next, r.value.syms))
  {
  }

  lemma GroupSucceeds(lines: seq<Line>, at: nat, inner: bool, syms: Symtab, e: Expr)
    requires at < |lines| && lines[at] == RepeatLine(false, None, [e]) && Expand(lines, at, inner, syms).Some?
    ensures Count1(syms, e).Some?
  {
    hide Count, Count1;
    CountExact(syms, e);
  }

  lemma OnceGroup(syms: Symtab, e: Expr, b: Tree, r: Tree)
    ensures Once(Group(e, b, r), syms) ==
              (if Count1(syms, e).None? || Once(b, syms).None? then None
               else match Once(r, Once(b, syms).value.syms)
                 case None => None
                 case Some(y) => Some(Unrolled(Times(Once(b, syms).value.out, Count1(syms, e).value) + y.out, y.syms)))
  {
    hide Count1, Times, Note;
  }

  lemma SplitBlock<T>(s: seq<T>, i: nat, k: nat, j: nat)
    requires i < k < j <= |s|
    ensures s[i..j] == [s[i]] + s[i + 1..k] + [s[k]] + s[k + 1..j]
  {
  }

  lemma SplitHead<T>(s: seq<T>, i: nat, j: nat)
    requires i < j <= |s|
    ensures s[i..j] == [s[i]] + s[i + 1..j]
  {
  }

  /** Exactly the balanced programs whose tree expands are accepted, and they expand as their tree does. */
  lemma ExpansionExact(lines: seq<Line>)
    ensures ExpandAll(lines).Some? <==> exists t :: Flatten(t) == lines && Once(t, map[]).Some?
    ensures forall t :: Flatten(t) == lines ==>
              ExpandAll(lines) == match Once(t, map[]) { case None => None case Some(x) => Some(x.out) }
  {
    hide Expand, Once, Flatten, Spells;
    forall t | Flatten(t) == lines
      ensures ExpandAll(lines) == match Once(t, map[]) { case None => None case Some(x) => Some(x.out) }
    {
      TreeExpands(lines, t);
    }
    if t :| Flatten(t) == lines && Once(t, map[]).Some? { TreeExpands(lines, t); }
    if ExpandAll(lines).Some? {
      var t := SuccessBalanced(lines, 0, false, map[]);
      assert Flatten(t) == lines && Once(t, map[]).Some? by { SpellsAll(lines, t); }
    }
  }

  lemma SpellsAll(lines: seq<Line>, t: Tree)
    requires Expand(lines, 0, false, map[]).Some? && Spells(lines, 0, false, map[], t)
    ensures Flatten(t) == lines && Once(t, map[]).Some?
  {
    hide Expand, Once, Flatten;
    assert lines[0..|lines|] == lines;
  }

  lemma TreeExpands(lines: seq<Line>, t: Tree)
    requires Flatten(t) == lines
    ensures ExpandAll(lines) == match Once(t, map[]) { case None => None case Some(x) => Some(x.out) }
  {
    hide Once, Flatten;
    assert lines[0..0 + |Flatten(t)|] == lines;
    FlatIsTree(lines, 0, t, false, map[]);
    if Once(t, map[]).Some? {
      var x := Once(t, map[]).value;
      assert Expand(lines, |lines|, false, x.syms) == Some(Expansion([], |lines|, x.syms));
      assert x.out + [] == x.out;
    }
  }

  // ---- expanding once is unrolling

  /** Which names `.set` makes mutable; no name is assigned both ways. */
  predicate KindsConsistent(t: Tree, m: set<string>) {
    match t
    case Empty => true
    case Leaf(s, r) => (s.kind.Const? ==> (s.kind.assign == SetVar <==> s.kind.name in m)) && KindsConsistent(r, m)
    case Group(_, b, r) => KindsConsistent(b, m) && KindsConsistent(r, m)
  }

  predicate Kinds(syms: Symtab, m: set<string>) {
    forall k :: k in syms ==> (syms[k].mutable <==> k.name in m)
  }

  /** No statement assigns a name in `d`. */
  predicate Avoids(t: Tree, d: set<Key>) {
    match t
    case Empty => true
    case Leaf(s, r) => (s.kind.Const? ==> Global(s.kind.name) !in d) && Avoids(r, d)
    case Group(_, b, r) => Avoids(b, d) && Avoids(r, d)
  }

  /** Every count looks only at names in `d`; bodies assign no such name, and outside bodies such names are assigned
      only from one another. */
  predicate CountsFree(t: Tree, d: set<Key>) {
    match t
    case Empty => true
    case Leaf(s, r) =>
      (s.kind.Const? && Global(s.kind.name) in d ==> Over(d, ROOT, "", s.kind.expr)) && CountsFree(r, d)
    case Group(e, b, r) => Over(d, ROOT, "", e) && Avoids(b, d) && CountsFree(b, d) && CountsFree(r, d)
  }

  predicate SameOn(d: set<Key>, s: Symtab, t: Symtab) {
    forall k :: k in d ==> (k in s <==> k in t) && (k in s ==> s[k] == t[k])
  }

  lemma {:induction false} EvalSame(d: set<Key>, e: Expr, s: Symtab, t: Symtab)
    requires Over(d, ROOT, "", e) && SameOn(d, s, t)
    ensures EarlyEval(e, s) == EarlyEval(e, t)
  {
    match e
    case Unary(_, c) => EvalSame(d, c, s, t);
    case Binary(_, l, r) =>
      EvalSame(d, l, s, t);
      EvalSame(d, r, s, t);
    case _ =>
  }

  /** With consistent kinds noting a constant never fails and keeps the kinds. */
  lemma NoteKinds(syms: Symtab, s: Stmt, m: set<string>)
    requires Kinds(syms, m) && (s.kind.Const? ==> (s.kind.assign == SetVar <==> s.kind.name in m))
    ensures Note(syms, s).Some? && Kinds(Note(syms, s).value, m)
  {
    hide EarlyEval;
  }

  lemma NoteSame(d: set<Key>, s: Stmt, x: Symtab, y: Symtab)
    requires SameOn(d, x, y) && (s.kind.Const? && Global(s.kind.name) in d ==> Over(d, ROOT, "", s.kind.expr))
    requires Note(x, s).Some? && Note(y, s).Some?
    ensures SameOn(d, Note(x, s).value, Note(y, s).value)
  {
    if s.kind.Const? && Global(s.kind.name) in d { EvalSame(d, s.kind.expr, x, y); }
    hide EarlyEval;
  }

  lemma NoteAvoids(d: set<Key>, s: Stmt, x: Symtab)
    requires (s.kind.Const? ==> Global(s.kind.name) !in d) && Note(x, s).Some?
    ensures SameOn(d, x, Note(x, s).value)
  {
    hide EarlyEval;
  }

  lemma SameThrough(d: set<Key>, x: Symtab, y: Symtab, z: Symtab)
    requires SameOn(d, x, y) && SameOn(d, y, z)
    ensures SameOn(d, x, z)
  {
  }

  lemma CountSame(d: set<Key>, e: Expr, x: Symtab, y: Symtab)
    requires Over(d, ROOT, "", e) && SameOn(d, x, y)
    ensures Count1(x, e) == Count1(y, e)
  {
    EvalSame(d, e, x, y);
    hide EarlyEval;
  }

  /** Expanding a body leaves the names the counts look at alone. */
  lemma {:induction false} BodyLeavesAlone(t: Tree, d: set<Key>, x: Symtab)
    requires Avoids(t, d)
    ensures Once(t, x).Some? ==> SameOn(d, x, Once(t, x).value.syms)
    decreases t
  {
    hide SameOn, Note, Count, Times;
    match t
    case Empty => SameSelf(d, x);
    case Leaf(s, r) =>
      if Note(x, s).Some? {
        NoteAvoids(d, s, x);
        BodyLeavesAlone(r, d, Note(x, s).value);
        if Once(t, x).Some? { SameThrough(d, x, Note(x, s).value, Once(t, x).value.syms); }
      }
    case Group(e, b, r) =>
      if Once(b, x).Some? {
        BodyLeavesAlone(b, d, x);
        BodyLeavesAlone(r, d, Once(b, x).value.syms);
        if Once(t, x).Some? { SameThrough(d, x, Once(b, x).value.syms, Once(t, x).value.syms); }
      }
  }

  lemma SameSelf(d: set<Key>, x: Symtab)
    ensures SameOn(d, x, x)
  {
  }

  lemma SameBack(d: set<Key>, x: Symtab, y: Symtab)
    requires SameOn(d, x, y)
    ensures SameOn(d, y, x)
  {
  }

  /** The expander's single pass over a body gives what every pass of the unrolling gives. */
  lemma {:induction false} OnceIsUnroll(t: Tree, d: set<Key>, m: set<string>, x: Symtab, y: Symtab)
    requires CountsFree(t, d) && KindsConsistent(t, m) && Kinds(x, m) && Kinds(y, m) && SameOn(d, x, y)
    requires Once(t, x).Some?
    ensures Unroll(t, y).Some? && Unroll(t, y).value.out == Once(t, x).value.out
    ensures SameOn(d, Once(t, x).value.syms, Unroll(t, y).value.syms)
    ensures Kinds(Once(t, x).value.syms, m) && Kinds(Unroll(t, y).value.syms, m)
    decreases t, 0
  {
    hide SameOn, Note, Count1, Times, Over, Kinds, UnrollTimes;
    match t
    case Empty =>
    case Leaf(s, r) =>
      NoteKinds(x, s, m);
      NoteKinds(y, s, m);
      NoteSame(d, s, x, y);
      OnceIsUnroll(r, d, m, Note(x, s).value, Note(y, s).value);
    case Group(e, b, r) =>
      CountSame(d, e, x, y);
      var n := Count1(x, e).value;
      TimesIsUnroll(b, d, m, x, y, n);
      OnceIsUnroll(r, d, m, Once(b, x).value.syms, UnrollTimes(b, n, y).value.syms);
  }

  lemma {:induction false} TimesIsUnroll(b: Tree, d: set<Key>, m: set<string>, x: Symtab, y: Symtab, n: nat)
    requires CountsFree(b, d) && Avoids(b, d) && KindsConsistent(b, m) && Kinds(x, m) && Kinds(y, m) && SameOn(d, x, y)
    requires Once(b, x).Some?
    ensures UnrollTimes(b, n, y).Some? && UnrollTimes(b, n, y).value.out == Times(Once(b, x).value.out, n)
    ensures SameOn(d, Once(b, x).value.syms, UnrollTimes(b, n, y).value.syms)
    ensures Kinds(Once(b, x).value.syms, m) && Kinds(UnrollTimes(b, n, y).value.syms, m)
    decreases b, n + 1
  {
    hide SameOn, Note, Count1, Over, Kinds, Once, Unroll, CountsFree, KindsConsistent, Avoids;
    BodyLeavesAlone(b, d, x);
    if n == 0 {
      OnceIsUnroll(b, d, m, x, y);
      SameBack(d, x, Once(b, x).value.syms);
      SameThrough(d, Once(b, x).value.syms, x, y);
    } else {
      TimesIsUnroll(b, d, m, x, y, n - 1);
      var z := UnrollTimes(b, n - 1, y).value.syms;
      SameThrough(d, x, Once(b, x).value.syms, z);
      OnceIsUnroll(b, d, m, x, z);
    }
  }

  // ---- when expansion succeeds

  /** Every count of the tree evaluates, in blocks repeated no times too. */
  predicate AllCount(t: Tree, syms: Symtab) {
    match t
    case Empty => true
    case Leaf(s, r) => Note(syms, s).Some? && AllCount(r, Note(syms, s).value)
    case Group(e, b, r) => Count1(syms, e).Some? && AllCount(b, syms) && AllCount(r, syms)
  }

  /** Every count that unrolling meets evaluates. */
  predicate MetCount(t: Tree, syms: Symtab) {
    match t
    case Empty => true
    case Leaf(s, r) => Note(syms, s).Some? && MetCount(r, Note(syms, s).value)
    case Group(e, b, r) =>
      Count1(syms, e).Some? && (Count1(syms, e).value > 0 ==> MetCount(b, syms)) && MetCount(r, syms)
  }

  /** Every count inside a block repeated no times evaluates. */
  predicate DormantCount(t: Tree, syms: Symtab) {
    match t
    case Empty => true
    case Leaf(s, r) => Note(syms, s).Some? ==> DormantCount(r, Note(syms, s).value)
    case Group(e, b, r) =>
      (Count1(syms, e).Some? ==> if Count1(syms, e).value > 0 then DormantCount(b, syms) else AllCount(b, syms)) &&
      DormantCount(r, syms)
  }

  lemma {:induction false} AllIsMetAndDormant(t: Tree, syms: Symtab)
    ensures AllCount(t, syms) <==> MetCount(t, syms) && DormantCount(t, syms)
  {
    hide Note, Count1;
    match t
    case Empty =>
    case Leaf(s, r) => if Note(syms, s).Some? { AllIsMetAndDormant(r, Note(syms, s).value); }
    case Group(_, b, r) =>
      AllIsMetAndDormant(b, syms);
      AllIsMetAndDormant(r, syms);
  }

  /** The counts of a tree look at the names in `d` only. */
  lemma {:induction false} CountsSame(t: Tree, d: set<Key>, m: set<string>, x: Symtab, y: Symtab)
    requires CountsFree(t, d) && KindsConsistent(t, m) && Kinds(x, m) && Kinds(y, m) && SameOn(d, x, y)
    ensures AllCount(t, x) == AllCount(t, y) && MetCount(t, x) == MetCount(t, y)
  {
    hide Note, Count1, Over, Kinds, SameOn;
    match t
    case Empty =>
    case Leaf(s, r) =>
      NoteKinds(x, s, m);
      NoteKinds(y, s, m);
      NoteSame(d, s, x, y);
      CountsSame(r, d, m, Note(x, s).value, Note(y, s).value);
    case Group(e, b, r) =>
      CountSame(d, e, x, y);
      CountsSame(b, d, m, x, y);
      CountsSame(r, d, m, x, y);
  }

  /** The expander goes through every body once, so it needs every count. */
  lemma {:induction false} OnceSucceeds(t: Tree, d: set<Key>, m: set<string>, x: Symtab)
    requires CountsFree(t, d) && KindsConsistent(t, m) && Kinds(x, m)
    ensures Once(t, x).Some? <==> AllCount(t, x)
    ensures Once(t, x).Some? ==> Kinds(Once(t, x).value.syms, m)
    decreases t
  {
    hide Note, Count1, Over, Kinds, SameOn, Times;
    match t
    case Empty =>
    case Leaf(s, r) =>
      NoteKinds(x, s, m);
      OnceSucceeds(r, d, m, Note(x, s).value);
    case Group(e, b, r) =>
      OnceSucceeds(b, d, m, x);
      if Once(b, x).Some? {
        BodyLeavesAlone(b, d, x);
        OnceSucceeds(r, d, m, Once(b, x).value.syms);
        CountsSame(r, d, m, x, Once(b, x).value.syms);
      }
  }

  /** Unrolling leaves the names the counts look at alone, and the kinds. */
  lemma {:induction false} UnrollKeeps(t: Tree, d: set<Key>, m: set<string>, y: Symtab)
    requires KindsConsistent(t, m) && Kinds(y, m) && Unroll(t, y).Some?
    ensures Kinds(Unroll(t, y).value.syms, m) && (Avoids(t, d) ==> SameOn(d, y, Unroll(t, y).value.syms))
    decreases t, 0
  {
    hide Note, Count1, Kinds, SameOn, UnrollTimes;
    match t
    case Empty => SameSelf(d, y);
    case Leaf(s, r) =>
      NoteKinds(y, s, m);
      UnrollKeeps(r, d, m, Note(y, s).value);
      if Avoids(t, d) {
        NoteAvoids(d, s, y);
        SameThrough(d, y, Note(y, s).value, Unroll(t, y).value.syms);
      }
    case Group(e, b, r) =>
      var n := Count1(y, e).value;
      TimesKeeps(b, d, m, y, n);
      UnrollKeeps(r, d, m, UnrollTimes(b, n, y).value.syms);
      if Avoids(t, d) { SameThrough(d, y, UnrollTimes(b, n, y).value.syms, Unroll(t, y).value.syms); }
  }

  lemma {:induction false} TimesKeeps(b: Tree, d: set<Key>, m: set<string>, y: Symtab, n: nat)
    requires KindsConsistent(b, m) && Kinds(y, m) && UnrollTimes(b, n, y).Some?
    ensures Kinds(UnrollTimes(b, n, y).value.syms, m)
    ensures (Avoids(b, d) ==> SameOn(d, y, UnrollTimes(b, n, y).value.syms))
    decreases b, n + 1
  {
    hide Note, Count1, Kinds, SameOn, Unroll, Avoids, KindsConsistent;
    if n == 0 {
      SameSelf(d, y);
    } else {
      TimesKeeps(b, d, m, y, n - 1);
      var z := UnrollTimes(b, n - 1, y).value.syms;
      UnrollKeeps(b, d, m, z);
      if Avoids(b, d) { SameThrough(d, y, z, UnrollTimes(b, n, y).value.syms); }
    }
  }

  /** Unrolling needs the counts it meets. */
  lemma {:induction false} UnrollSucceeds(t: Tree, d: set<Key>, m: set<string>, y: Symtab)
    requires CountsFree(t, d) && KindsConsistent(t, m) && Kinds(y, m)
    ensures Unroll(t, y).Some? <==> MetCount(t, y)
    decreases t, 0
  {
    hide Note, Count1, Over, Kinds, SameOn, UnrollTimes;
    match t
    case Empty =>
    case Leaf(s, r) =>
      NoteKinds(y, s, m);
      UnrollSucceeds(r, d, m, Note(y, s).value);
    case Group(e, b, r) =>
      if Count1(y, e).Some? {
        var n := Count1(y, e).value;
        TimesSucceed(b, d, m, y, n);
        if UnrollTimes(b, n, y).Some? {
          TimesKeeps(b, d, m, y, n);
          UnrollSucceeds(r, d, m, UnrollTimes(b, n, y).value.syms);
          CountsSame(r, d, m, y, UnrollTimes(b, n, y).value.syms);
        }
      }
  }

  lemma {:induction false} TimesSucceed(b: Tree, d: set<Key>, m: set<string>, y: Symtab, n: nat)
    requires CountsFree(b, d) && Avoids(b, d) && KindsConsistent(b, m) && Kinds(y, m)
    ensures UnrollTimes(b, n, y).Some? <==> n == 0 || MetCount(b, y)
    decreases b, n + 1
  {
    hide Note, Count1, Over, Kinds, SameOn, Unroll, MetCount, Avoids, KindsConsistent, CountsFree;
    if n > 0 {
      TimesSucceed(b, d, m, y, n - 1);
      if UnrollTimes(b, n - 1, y).Some? {
        var z := UnrollTimes(b, n - 1, y).value.syms;
        TimesKeeps(b, d, m, y, n - 1);
        UnrollSucceeds(b, d, m, z);
        CountsSame(b, d, m, y, z);
      }
    }
  }

  /** For counts that no repeat body can influence, the flat list expands exactly when its nesting tree unrolls and the
      counts inside blocks repeated no times evaluate too, and then to what the unrolling gives. */
  lemma ExpansionIsUnrolling(lines: seq<Line>, t: Tree, d: set<Key>, m: set<string>)
    requires Flatten(t) == lines && CountsFree(t, d) && KindsConsistent(t, m)
    ensures ExpandAll(lines).Some? <==> Unroll(t, map[]).Some? && DormantCount(t, map[])
    ensures ExpandAll(lines).Some? ==> Unroll(t, map[]).value.out == ExpandAll(lines).value
  {
    hide Once, Unroll, Flatten, CountsFree, KindsConsistent, Expand, MetCount, DormantCount, AllCount;
    TreeExpands(lines, t);
    OnceSucceeds(t, d, m, map[]);
    UnrollSucceeds(t, d, m, map[]);
    AllIsMetAndDormant(t, map[]);
    if ExpandAll(lines).Some? { OnceIsUnroll(t, d, m, map[], map[]); }
  }

  // ---- how often a statement occurs

  /** Occurrences of `s` in the expansion of `t` inside blocks whose counts multiply to `factor`. */
  function Occurrences(t: Tree, syms: Symtab, s: Stmt, factor: nat): nat
    requires Once(t, syms).Some?
  {
    match t
    case Empty => 0
    case Leaf(u, r) => (if u == s then factor else 0) + Occurrences(r, Note(syms, u).value, s, factor)
    case Group(e, b, r) =>
      Occurrences(b, syms, s, factor * Count1(syms, e).value) + Occurrences(r, Once(b, syms).value.syms, s, factor)
  }

  lemma {:induction false} TimesCount<T>(body: seq<T>, n: nat, s: T)
    ensures multiset(Times(body, n))[s] == n * multiset(body)[s]
  {
    if n > 0 {
      TimesCount(body, n - 1, s);
      assert n * multiset(body)[s] == (n - 1) * multiset(body)[s] + multiset(body)[s];
    }
  }

  /** Every statement occurs the product of its enclosing counts often. */
  lemma {:induction false} OccursProduct(t: Tree, syms: Symtab, s: Stmt, factor: nat)
    requires Once(t, syms).Some?
    ensures Occurrences(t, syms, s, factor) == factor * multiset(Once(t, syms).value.out)[s]
    decreases t
  {
    hide Note, Count1, Times, Once;
    OnceParts(t, syms);
    match t
    case Empty =>
    case Leaf(u, r) =>
      OccursProduct(r, Note(syms, u).value, s, factor);
      HeadCount(u, Once(r, Note(syms, u).value).value.out, s, factor);
    case Group(e, b, r) =>
      var n := Count1(syms, e).value;
      var x := Once(b, syms).value;
      var y := Once(r, x.syms).value;
      OccursProduct(b, syms, s, factor * n);
      OccursProduct(r, x.syms, s, factor);
      TimesCount(x.out, n, s);
      GroupCount(Times(x.out, n), y.out, s);
      ProductSplits(factor, n, multiset(x.out)[s], multiset(y.out)[s]);
  }

  lemma OnceParts(t: Tree, syms: Symtab)
    requires Once(t, syms).Some?
    ensures t.Empty? ==> Once(t, syms).value.out == []
    ensures t.Leaf? ==> Note(syms, t.stmt).Some? && Once(t.rest, Note(syms, t.stmt).value).Some? &&
                        Once(t, syms).value.out == [t.stmt] + Once(t.rest, Note(syms, t.stmt).value).value.out
    ensures t.Group? ==>
              Count1(syms, t.count).Some? && Once(t.body, syms).Some? &&
              Once(t.after, Once(t.body, syms).value.syms).Some? &&
                         Once(t, syms).value.out == Times(Once(t.body, syms).value.out, Count1(syms, t.count).value) +
                                                    Once(t.after, Once(t.body, syms).value.syms).value.out
  {
    hide Note, Count1, Times;
  }

  lemma GroupCount(a: seq<Stmt>, b: seq<Stmt>, s: Stmt)
    ensures multiset(a + b)[s] == multiset(a)[s] + multiset(b)[s]
  {
  }

  lemma HeadCount(u: Stmt, rest: seq<Stmt>, s: Stmt, factor: nat)
    ensures factor * multiset([u] + rest)[s] == (if u == s then factor else 0) + factor * multiset(rest)[s]
  {
    assert multiset([u] + rest)[s] == (if u == s then 1 else 0) + multiset(rest)[s];
    if u == s { assert factor * (1 + multiset(rest)[s]) == factor + factor * multiset(rest)[s]; }
  }

  lemma ProductSplits(f: nat, n: nat, a: nat, b: nat)
    ensures (f * n) * a + f * b == f * (n * a + b)
  {
  }

  // ---- the expander as it walks the list

  /** repeat_expand_block: cursor, output list and symbol table move together. */
  method ExpandBlock(lines: seq<Line>, cursor: nat, inner: bool, table: Symtab)
    returns (ok: bool, out: seq<Stmt>, next: nat, syms: Symtab)
    requires cursor <= |lines|
    ensures var r := Expand(lines, cursor, inner, table);
            ok == r.Some? && (ok ==> r.value == Expansion(out, next, syms))
    decreases |lines| - cursor
  {
    hide Note, Count;
    out, next, syms := [], cursor, table;
    BehindNothing(Expand(lines, cursor, inner, table));
    while next < |lines|
      invariant cursor <= next <= |lines|
      invariant Expand(lines, cursor, inner, table) == Behind(out, Expand(lines, next, inner, syms))
      decreases |lines| - next
    {
      ghost var rest := Expand(lines, next, inner, syms);
      match lines[next]
      case EndLine(labelled, str, args) =>
        if !inner || labelled || str.Some? || args != [] { return false, out, next, syms; }
        next := next + 1;
        assert out + [] == out;
        return true, out, next, syms;
      case RepeatLine(_, _, _) =>
        var n := Count(syms, lines[next]);
        if n.None? { return false, out, next, syms; }
        var fine, body, after, t := ExpandBlock(lines, next + 1, true, syms);
        if !fine { return false, out, next, syms; }
        var copies := AppendCopies(body, n.value);
        BehindBehind(out, copies, Expand(lines, after, inner, t));
        out, next, syms := out + copies, after, t;
      case Plain(s) =>
        var t := Note(syms, s);
        if t.None? { return false, out, next, syms; }
        BehindBehind(out, [s], Expand(lines, next + 1, inner, t.value));
        out, next, syms := out + [s], next + 1, t.value;
    }
    ok := !inner;
    assert out + [] == out;
  }

  /** The copying loop behind a closed block. */
  method AppendCopies(body: seq<Stmt>, n: nat) returns (out: seq<Stmt>)
    ensures out == Times(body, n)
  {
    out := [];
    for i := 0 to n
      invariant out == Times(body, i)
    {
      out := out + body;
    }
  }
}
