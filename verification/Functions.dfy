/**
 * What function definitions mean: the splicing compiler of
 * src/compiler/parser.rs against an interpreter that really makes the calls.
 */
module Functions {
  import opened Wrappers
  import opened Machine
  import opened Lexing
  import opened Exec
  import opened Simulation
  import opened Program
  import opened Registry
  import opened Grammar

  // ---- a big-step interpreter over source statements ----

  /** The slot a call inside the function at slot `k` refers to: always an earlier one. */
  function Callee(fns: seq<Fn>, k: nat, name: string): Option<nat>
    requires k <= |fns|
  {
    FindFn(fns[..k], name)
  }

  /** Statements in order; a call runs the callee's own statements. */
  function BigStep(bus: Bus, fns: seq<Fn>, k: nat, src: seq<Stmt>, trace: Trace): Trace
    requires k <= |fns|
    decreases k, |src|
  {
    if src == [] then trace
    else
      var before := BigStep(bus, fns, k, src[..|src| - 1], trace);
      match src[|src| - 1]
      case PokeStmt(addr, value) => AfterWrite(before, addr, value)
      case PeekStmt(addr) => AfterRead(bus, before, addr)
      case CallStmt(name) =>
        (match Callee(fns, k, name)
         case Some(j) => BigStep(bus, fns, j, fns[j].src, before)
         case None => before)
      case ExprStmt(_) => before
  }

  // ---- splicing ----

  /** The accesses of a function with all calls replaced by what they do. */
  function Inline(fns: seq<Fn>, k: nat, src: seq<Stmt>): seq<Item>
    requires k <= |fns|
    decreases k, |src|
  {
    if src == [] then []
    else
      Inline(fns, k, src[..|src| - 1]) +
      match src[|src| - 1]
      case PokeStmt(addr, value) => [Poke(addr, value)]
      case PeekStmt(addr) => [Peek(addr)]
      case CallStmt(name) =>
        (match Callee(fns, k, name)
         case Some(j) => Inline(fns, j, fns[j].src)
         case None => [])
      case ExprStmt(_) => []
  }

  lemma {:induction false} MeaningAppend(bus: Bus, a: seq<Item>, b: seq<Item>, vm: Vm)
    ensures Meaning(bus, a + b, vm) == Meaning(bus, b, Meaning(bus, a, vm))
    decreases |a|
  {
    if a == [] {
      assert a + b == b;
    } else {
      assert (a + b)[1..] == a[1..] + b;
      MeaningAppend(bus, a[1..], b, ItemMeaning(bus, a[0], vm));
    }
  }

  lemma {:induction false} WordsAppend(a: seq<Item>, b: seq<Item>)
    ensures Words(a + b) == Words(a) + Words(b)
    decreases |a|
  {
    if a == [] {
      assert a + b == b;
    } else {
      assert (a + b)[1..] == a[1..] + b;
      WordsAppend(a[1..], b);
    }
  }

  lemma {:induction false} OneItem(bus: Bus, i: Item, vm: Vm)
    ensures Meaning(bus, [i], vm) == ItemMeaning(bus, i, vm)
    ensures Words([i]) == ItemWords(i)
  {
    assert [i][1..] == [];
    assert Meaning(bus, [], ItemMeaning(bus, i, vm)) == ItemMeaning(bus, i, vm);
  }

  /** Replacing calls by what they do changes no access. */
  lemma {:induction false} InlineKeepsMeaning(bus: Bus, fns: seq<Fn>, k: nat, src: seq<Stmt>, vm: Vm)
    requires k <= |fns|
    ensures Meaning(bus, Inline(fns, k, src), vm).trace == BigStep(bus, fns, k, src, vm.trace)
    ensures Blocks(Inline(fns, k, src))
    decreases k, |src|
  {
    if src != [] {
      var front, last := src[..|src| - 1], src[|src| - 1];
      var items := Inline(fns, k, front);
      var mid := Meaning(bus, items, vm);
      InlineKeepsMeaning(bus, fns, k, front, vm);
      match last
      case PokeStmt(addr, value) =>
        MeaningAppend(bus, items, [Poke(addr, value)], vm);
        OneItem(bus, Poke(addr, value), mid);
      case PeekStmt(addr) =>
        MeaningAppend(bus, items, [Peek(addr)], vm);
        OneItem(bus, Peek(addr), mid);
      case CallStmt(name) =>
        match Callee(fns, k, name) {
          case Some(j) =>
            MeaningAppend(bus, items, Inline(fns, j, fns[j].src), vm);
            InlineKeepsMeaning(bus, fns, j, fns[j].src, mid);
          case None =>
            assert items + [] == items;
        }
      case ExprStmt(_) =>
        assert items + [] == items;
    }
  }

  /** A function's meaning depends on the slots before it only. */
  lemma {:induction false} InlineStable(fns: seq<Fn>, other: seq<Fn>, k: nat, src: seq<Stmt>)
    requires k <= |fns| && k <= |other| && fns[..k] == other[..k]
    ensures Inline(fns, k, src) == Inline(other, k, src)
    decreases k, |src|
  {
    if src != [] {
      InlineStable(fns, other, k, src[..|src| - 1]);
      var last := src[|src| - 1];
      if last.CallStmt? && Callee(fns, k, last.name).Some? {
        var j := Callee(fns, k, last.name).value;
        assert fns[..k][j] == fns[j] && other[..k][j] == other[j];
        assert fns[..j] == fns[..k][..j] && other[..j] == other[..k][..j];
        InlineStable(fns, other, j, fns[j].src);
      }
    }
  }

  // ---- the invariant of the function table ----

  /** How many slots are taken when they form a prefix. */
  predicate Prefix(fns: seq<Fn>, n: nat) {
    n <= |fns| && (forall i | 0 <= i < n :: fns[i].name != "") && (forall i | n <= i < |fns| :: fns[i] == FREE_FN)
  }

  predicate Distinct(fns: seq<Fn>) {
    forall i, j | 0 <= i < j < |fns| && fns[i].name != "" && fns[j].name != "" :: fns[i].name != fns[j].name
  }

  /** A stored body is the code of the inlined statements and fits the slot. */
  predicate Compiled(fns: seq<Fn>, i: nat)
    requires i < |fns|
  {
    |fns[i].name| <= NAME_MAX && |fns[i].body| <= FN_BODY_WORDS && fns[i].body == Words(Inline(fns, i, fns[i].src))
  }

  predicate FnInv(fns: seq<Fn>, n: nat) {
    |fns| == MAX_FNS && Prefix(fns, n) && Distinct(fns) && forall i | 0 <= i < n :: Compiled(fns, i)
  }

  lemma {:induction false} FindInPrefix(fns: seq<Fn>, n: nat, name: string)
    requires Prefix(fns, n)
    ensures FindFn(fns, name) == FindFn(fns[..n], name)
    decreases |fns|
  {
    if n < |fns| {
      var m := |fns| - 1;
      assert fns[..m][..n] == fns[..n];
      FindInPrefix(fns[..m], n, name);
    } else {
      assert fns[..n] == fns;
    }
  }

  lemma {:induction false} FindFreeIs(fns: seq<Fn>, n: nat)
    requires Prefix(fns, n)
    ensures FindFree(fns) == if n < |fns| then Some(n) else None
    decreases |fns|
  {
    var m := |fns| - 1;
    if n < m {
      assert fns[..m][n] == fns[n];
      FindFreeIs(fns[..m], n);
    } else if fns != [] {
      FindFreeIs(fns[..m], m);
    }
  }

  /** What is compiled so far is the inlining of what has been read so far. */
  predicate Faithful(fns: seq<Fn>, n: nat, body: Body)
    requires n <= |fns|
  {
    body.stream == Words(Inline(fns, n, body.src))
  }

  /** Compiling one statement behind a faithful body leaves a faithful body. */
  lemma EmittedFaithful(g: Guard, fns: seq<Fn>, n: nat, body: Body, stmt: Stmt)
    requires FnInv(fns, n) && Faithful(fns, n, body)
    requires Emitted(g, fns, stmt, body.stream).Ok?
    ensures Faithful(fns, n, Body(body.src + [stmt], Emitted(g, fns, stmt, body.stream).value))
  {
    hide CheckAccess, FindFn, Words;
    var after := body.src + [stmt];
    assert after[..|body.src|] == body.src && after[|after| - 1] == stmt;
    var items := Inline(fns, n, body.src);
    match stmt
    case PokeStmt(addr, value) => OneMore(items, Poke(addr, value));
    case PeekStmt(addr) => OneMore(items, Peek(addr));
    case CallStmt(name) =>
      FindInPrefix(fns, n, name);
      var j := Callee(fns, n, name).value;
      assert fns[..n][j] == fns[j] && Compiled(fns, j);
      WordsAppend(items, Inline(fns, j, fns[j].src));
    case ExprStmt(_) =>
      assert items + [] == items;
  }

  lemma {:induction false} OneMore(items: seq<Item>, i: Item)
    ensures Words(items + [i]) == Words(items) + ItemWords(i)
  {
    WordsAppend(items, [i]);
    assert [i][1..] == [];
  }

  lemma NextStmtFaithful(sc: Scope, g: Guard, fns: seq<Fn>, n: nat, toks: seq<Token>, body: Body, trace: Trace)
    requires FnInv(fns, n) && Faithful(fns, n, body)
    requires NextStmt(sc, g, fns, toks, body, trace).Good?
    ensures Faithful(fns, n, NextStmt(sc, g, fns, toks, body, trace).value)
    ensures var after := NextStmt(sc, g, fns, toks, body, trace).value.src;
            |after| == |body.src| + 1 && after[..|body.src|] == body.src && StmtAdmitted(g, after[|body.src|])
  {
    hide CheckAccess, BodyStmt, Inline, FindFn, Words, FnInv;
    var stmt := BodyStmt(sc, toks, trace).value;
    EmittedFaithful(g, fns, n, body, stmt);
  }

  /** The access a statement asks for passed the check. */
  predicate StmtAdmitted(g: Guard, stmt: Stmt) {
    match stmt
    case PokeStmt(addr, _) => Admits(g, addr)
    case PeekStmt(addr) => Admits(g, addr)
    case _ => true
  }

  predicate AllAdmitted(g: Guard, src: seq<Stmt>) {
    forall i | 0 <= i < |src| :: StmtAdmitted(g, src[i])
  }

  lemma {:induction false} BodyFaithful(sc: Scope, g: Guard, fns: seq<Fn>, n: nat, toks: seq<Token>, body: Body,
                                        trace: Trace)
    requires FnInv(fns, n) && Faithful(fns, n, body) && AllAdmitted(g, body.src)
    requires BodyStmts(sc, g, fns, toks, body, trace).Good?
    ensures var r := BodyStmts(sc, g, fns, toks, body, trace).value;
            Faithful(fns, n, r) && AllAdmitted(g, r.src)
    decreases |toks|
  {
    if Head(toks) != RBrace {
      hide NextStmt;
      NextStmtFaithful(sc, g, fns, n, toks, body, trace);
      var next := NextStmt(sc, g, fns, toks, body, trace);
      assert forall i | 0 <= i < |body.src| :: next.value.src[i] == next.value.src[..|body.src|][i];
      BodyFaithful(sc, g, fns, n, next.toks, next.value, next.trace);
    }
  }

  /** Filing a faithful body in the first free slot keeps the invariant and all earlier functions. */
  lemma DefineKeepsInv(st: State, n: nat, name: string, body: Body)
    requires FnInv(st.fns, n) && Faithful(st.fns, n, body) && name != "" && |name| <= NAME_MAX
    requires DefineFn(st, name, body).0.Ok?
    ensures n < MAX_FNS
    ensures var fns := DefineFn(st, name, body).1.fns;
            FnInv(fns, n + 1) && fns == st.fns[n := Fn(name, body.stream, body.src)]
  {
    FindFreeIs(st.fns, n);
    var fns := st.fns[n := Fn(name, body.stream, body.src)];
    assert fns == DefineFn(st, name, body).1.fns;
    forall i | 0 <= i < n + 1
      ensures Compiled(fns, i)
    {
      hide Inline;
      assert i < n ==> fns[i] == st.fns[i] && Compiled(st.fns, i);
      assert fns[..i] == st.fns[..i];
      InlineStable(st.fns, fns, i, fns[i].src);
    }
  }

  // ---- the theorem ----

  /**
   * Running a stored body on the threaded engine makes exactly the accesses of
   * the interpreter over its source, calls being run as calls.
   */
  lemma {:induction false} StoredBodyMeansSource(bus: Bus, fns: seq<Fn>, n: nat, i: nat, trace: Trace)
    requires FnInv(fns, n) && i < n
    ensures var r := Threaded(bus, fns[i].body + [HALT], Vm([], trace));
            r.Halted? && r.vm.trace == BigStep(bus, fns, i, fns[i].src, trace)
  {
    hide Inline, BigStep, Threaded;
    assert Compiled(fns, i);
    var items := Inline(fns, i, fns[i].src);
    InlineKeepsMeaning(bus, fns, i, fns[i].src, Vm([], trace));
    BlocksAreFragment(items, false, false);
    ThreadedMeaning(bus, items, [HALT], trace);
  }
}
