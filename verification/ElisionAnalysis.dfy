/**
 Exactly when the analysis leaves a check in, told by what occurs in the text.

 An expression or statement occurs in another when a chain leads down to it, each link standing
 directly inside the one before. The forms the analysis does not look into have nothing inside.
 */
module ElisionAnalysis {
  import opened InvariantElision

  // ---- what stands directly inside what ----

  ghost predicate AmongArgs(x: Expr, args: Exprs) { args.MoreExprs? && (x == args.head || AmongArgs(x, args.tail)) }

  ghost predicate DirectlyIn(x: Expr, e: Expr)
  {
    || (e.Member? && x == e.receiver)
    || (e.Index? && (x == e.indexed || x == e.index))
    || (e.Binary? && (x == e.lhs || x == e.rhs))
    || ((e.Unary? || e.Cast?) && x == e.operand)
    || (e.Ternary? && (x == e.cond || x == e.thenExpr || x == e.elseExpr))
    || (e.CallExpr? && (x == e.callee || AmongArgs(x, e.args)))
  }

  ghost predicate Leads(chain: seq<Expr>, e: Expr, x: Expr)
  {
    && chain != [] && chain[0] == e && chain[|chain| - 1] == x
    && forall i :: 0 < i < |chain| ==> DirectlyIn(chain[i], chain[i - 1])
  }

  ghost predicate Occurs(x: Expr, e: Expr) { exists chain :: Leads(chain, e, x) }

  /** The expression mentions field `f` of the object: `this.f` occurs in it. */
  ghost predicate Mentions(e: Expr, f: string) { Occurs(Member(This, f), e) }

  ghost predicate InBlock(s: Stmt, b: Block) { b.Then? && (s == b.first || InBlock(s, b.rest)) }

  ghost predicate DirectlyInside(s: Stmt, t: Stmt)
  {
    || (t.BlockStmt? && InBlock(s, t.block))
    || (t.IfStmt? && (InBlock(s, t.thenBlock) || InBlock(s, t.elseBlock)))
    || (t.ForStmt? && (s == t.init || s == t.update || InBlock(s, t.body)))
    || ((t.WhileStmt? || t.DoWhileStmt?) && InBlock(s, t.body))
  }

  ghost predicate LeadsTo(chain: seq<Stmt>, t: Stmt, s: Stmt)
  {
    && chain != [] && chain[0] == t && chain[|chain| - 1] == s
    && forall i :: 0 < i < |chain| ==> DirectlyInside(chain[i], chain[i - 1])
  }

  ghost predicate Within(s: Stmt, t: Stmt) { exists chain :: LeadsTo(chain, t, s) }

  /** The statement occurs in the body, at whatever depth of blocks, branches and loops. */
  ghost predicate OccursIn(s: Stmt, b: Block) { exists t :: InBlock(t, b) && Within(s, t) }

  /** It assigns or steps a target that mentions one of these fields, or is of no known form. */
  ghost predicate MayWrite(s: Stmt, fields: set<string>)
  {
    || ((s.Assign? || s.IncDec?) && exists f :: f in fields && Mentions(s.target, f))
    || s.Unrecognised?
  }

  // ---- chains ----

  lemma OccursHere(e: Expr)
    ensures Occurs(e, e)
  {
    assert Leads([e], e, e);
  }

  lemma OccursBelow(x: Expr, y: Expr, e: Expr)
    requires DirectlyIn(y, e) && Occurs(x, y)
    ensures Occurs(x, e)
  {
    var chain :| Leads(chain, y, x);
    var longer := [e] + chain;
    assert forall i :: 0 < i < |longer| ==> DirectlyIn(longer[i], longer[i - 1]);
    assert Leads(longer, e, x);
  }

  /** What occurs in an expression is the expression, or occurs in something directly inside it. */
  lemma OccursWhere(x: Expr, e: Expr)
    requires Occurs(x, e) && x != e
    ensures exists y :: DirectlyIn(y, e) && Occurs(x, y)
  {
    var chain :| Leads(chain, e, x);
    var rest := chain[1..];
    assert Leads(rest, chain[1], x) by {
      assert forall i :: 0 < i < |rest| ==> DirectlyIn(chain[i + 1], chain[i]);
    }
  }

  lemma WithinHere(s: Stmt)
    ensures Within(s, s)
  {
    assert LeadsTo([s], s, s);
  }

  lemma WithinBelow(s: Stmt, u: Stmt, t: Stmt)
    requires DirectlyInside(u, t) && Within(s, u)
    ensures Within(s, t)
  {
    var chain :| LeadsTo(chain, u, s);
    var longer := [t] + chain;
    assert forall i :: 0 < i < |longer| ==> DirectlyInside(longer[i], longer[i - 1]);
    assert LeadsTo(longer, t, s);
  }

  lemma WithinWhere(s: Stmt, t: Stmt)
    requires Within(s, t) && s != t
    ensures exists u :: DirectlyInside(u, t) && Within(s, u)
  {
    var chain :| LeadsTo(chain, t, s);
    var rest := chain[1..];
    assert LeadsTo(rest, chain[1], s) by {
      assert forall i :: 0 < i < |rest| ==> DirectlyInside(chain[i + 1], chain[i]);
    }
  }

  // ---- what the analysis collects ----

  /** The collected fields are exactly those whose `this.f` occurs. */
  lemma {:induction false} CollectsWhatOccurs(e: Expr, f: string)
    ensures f in ThisFields(e) <==> Mentions(e, f)
    decreases e, 1
  {
    if f in ThisFields(e) { CollectedOccurs(e, f); }
    if Mentions(e, f) {
      var chain :| Leads(chain, e, Member(This, f));
      OccurringIsCollected(chain, e, f);
    }
  }

  lemma {:induction false} CollectedOccurs(e: Expr, f: string)
    requires f in ThisFields(e)
    ensures Mentions(e, f)
    decreases e
  {
    match e
    case Member(o, m) =>
      if o == This && m == f { OccursHere(e); } else { CollectedOccurs(o, f); OccursBelow(Member(This, f), o, e); }
    case Index(a, i) => CollectedBelow(e, if f in ThisFields(a) then a else i, f);
    case Binary(_, l, r) => CollectedBelow(e, if f in ThisFields(l) then l else r, f);
    case Unary(_, x) => CollectedBelow(e, x, f);
    case Cast(x) => CollectedBelow(e, x, f);
    case Ternary(q, t, s) => CollectedBelow(e, if f in ThisFields(q) then q else if f in ThisFields(t) then t else s, f);
    case CallExpr(c, args) =>
      if f in ThisFields(c) { CollectedBelow(e, c, f); } else { var x := CollectingArg(args, f); CollectedBelow(e, x, f); }
    case _ =>
  }

  lemma {:induction false} CollectedBelow(e: Expr, x: Expr, f: string)
    requires DirectlyIn(x, e) && x < e && f in ThisFields(x)
    ensures Mentions(e, f)
    decreases e, 0
  {
    CollectedOccurs(x, f);
    OccursBelow(Member(This, f), x, e);
  }

  lemma {:induction false} CollectingArg(args: Exprs, f: string) returns (x: Expr)
    requires f in ThisFieldsOf(args)
    ensures AmongArgs(x, args) && x < args && f in ThisFields(x)
  {
    if f in ThisFields(args.head) { x := args.head; } else { x := CollectingArg(args.tail, f); }
  }

  lemma {:induction false} OccurringIsCollected(chain: seq<Expr>, e: Expr, f: string)
    requires Leads(chain, e, Member(This, f))
    ensures f in ThisFields(e)
    decreases |chain|
  {
    if |chain| > 1 {
      var rest := chain[1..];
      assert Leads(rest, chain[1], Member(This, f)) by {
        assert forall i :: 0 < i < |rest| ==> DirectlyIn(chain[i + 1], chain[i]);
      }
      OccurringIsCollected(rest, chain[1], f);
      DirectIsCollected(chain[1], e);
    }
  }

  lemma DirectIsCollected(x: Expr, e: Expr)
    requires DirectlyIn(x, e)
    ensures ThisFields(x) <= ThisFields(e)
  {
    if e.CallExpr? && AmongArgs(x, e.args) { ArgIsCollected(x, e.args); }
  }

  lemma {:induction false} ArgIsCollected(x: Expr, args: Exprs)
    requires AmongArgs(x, args)
    ensures ThisFields(x) <= ThisFieldsOf(args)
  {
    if x != args.head { ArgIsCollected(x, args.tail); }
  }

  // ---- what the analysis answers ----

  lemma TargetMeets(t: Expr, fields: set<string>)
    ensures !(ThisFields(t) !! fields) <==> exists f :: f in fields && Mentions(t, f)
  {
    forall f ensures f in ThisFields(t) <==> Mentions(t, f) { CollectsWhatOccurs(t, f); }
    if !(ThisFields(t) !! fields) {
      var f :| f in ThisFields(t) && f in fields;
      assert Mentions(t, f);
    }
  }

  /** A statement the analysis takes for a write has one within it. */
  lemma {:induction false} WriteIsWithin(t: Stmt, fields: set<string>) returns (s: Stmt)
    requires StmtAssigns(t, fields)
    ensures Within(s, t) && MayWrite(s, fields)
    decreases t
  {
    s := t;
    WithinHere(t);
    match t
    case Assign(x, _) => TargetMeets(x, fields);
    case IncDec(x, _) => TargetMeets(x, fields);
    case BlockStmt(b) => var u; s, u := WriteIsIn(b, fields); WithinBelow(s, u, t);
    case IfStmt(_, a, b) => var u; s, u := WriteIsIn(if BlockAssigns(a, fields) then a else b, fields); WithinBelow(s, u, t);
    case ForStmt(i, _, p, b) =>
      if StmtAssigns(i, fields) {
        s := WriteIsWithin(i, fields);
        WithinBelow(s, i, t);
      } else if StmtAssigns(p, fields) {
        s := WriteIsWithin(p, fields);
        WithinBelow(s, p, t);
      } else {
        var u;
        s, u := WriteIsIn(b, fields);
        WithinBelow(s, u, t);
      }
    case WhileStmt(_, b) => var u; s, u := WriteIsIn(b, fields); WithinBelow(s, u, t);
    case DoWhileStmt(b, _) => var u; s, u := WriteIsIn(b, fields); WithinBelow(s, u, t);
    case _ =>
  }

  lemma {:induction false} WriteIsIn(b: Block, fields: set<string>) returns (s: Stmt, u: Stmt)
    requires BlockAssigns(b, fields)
    ensures InBlock(u, b) && Within(s, u) && MayWrite(s, fields)
    decreases b
  {
    if StmtAssigns(b.first, fields) {
      s := WriteIsWithin(b.first, fields);
      u := b.first;
    } else {
      s, u := WriteIsIn(b.rest, fields);
    }
  }

  /** A statement with a write within it is one the analysis takes for a write. */
  lemma {:induction false} WithinIsSeen(chain: seq<Stmt>, t: Stmt, s: Stmt, fields: set<string>)
    requires LeadsTo(chain, t, s) && MayWrite(s, fields)
    ensures StmtAssigns(t, fields)
    decreases |chain|
  {
    if |chain| == 1 {
      if s.Assign? || s.IncDec? { TargetMeets(s.target, fields); }
    } else {
      var rest := chain[1..];
      assert LeadsTo(rest, chain[1], s) by {
        assert forall i :: 0 < i < |rest| ==> DirectlyInside(chain[i + 1], chain[i]);
      }
      WithinIsSeen(rest, chain[1], s, fields);
      DirectIsSeen(chain[1], t, fields);
    }
  }

  lemma DirectIsSeen(u: Stmt, t: Stmt, fields: set<string>)
    requires DirectlyInside(u, t) && StmtAssigns(u, fields)
    ensures StmtAssigns(t, fields)
  {
    match t
    case BlockStmt(b) => BlockSees(u, b, fields);
    case IfStmt(_, a, b) => if InBlock(u, a) { BlockSees(u, a, fields); } else { BlockSees(u, b, fields); }
    case ForStmt(i, _, p, b) => if u != i && u != p { BlockSees(u, b, fields); }
    case WhileStmt(_, b) => BlockSees(u, b, fields);
    case DoWhileStmt(b, _) => BlockSees(u, b, fields);
    case _ =>
  }

  lemma {:induction false} BlockSees(u: Stmt, b: Block, fields: set<string>)
    requires InBlock(u, b) && StmtAssigns(u, fields)
    ensures BlockAssigns(b, fields)
  {
    if u != b.first { BlockSees(u, b.rest, fields); }
  }

  /** The check is left in exactly when the invariant mentions no field, or a statement that occurs in
      the body assigns or steps a target mentioning a field the invariant mentions, or is of no known form. */
  lemma CanBreakInMeans(invar: Expr, body: Block)
    ensures CanBreakIn(invar, body) <==>
      (forall f :: !Mentions(invar, f)) || exists s :: OccursIn(s, body) && WritesMentioned(s, invar)
  {
    var fields := ThisFields(invar);
    NoFields(invar);
    if BlockAssigns(body, fields) {
      var s, u := WriteIsIn(body, fields);
      MayWriteMeans(s, invar);
      assert OccursIn(s, body) && WritesMentioned(s, invar);
    }
    forall s | OccursIn(s, body) && WritesMentioned(s, invar) ensures BlockAssigns(body, fields) {
      MayWriteMeans(s, invar);
      var t :| InBlock(t, body) && Within(s, t);
      var chain :| LeadsTo(chain, t, s);
      WithinIsSeen(chain, t, s, fields);
      BlockSees(t, body, fields);
    }
  }

  lemma NoFields(invar: Expr)
    ensures ThisFields(invar) == {} <==> forall f :: !Mentions(invar, f)
  {
    forall f ensures f in ThisFields(invar) <==> Mentions(invar, f) { CollectsWhatOccurs(invar, f); }
    if ThisFields(invar) != {} {
      var f :| f in ThisFields(invar);
      assert Mentions(invar, f);
    }
  }

  lemma MayWriteMeans(s: Stmt, invar: Expr)
    ensures MayWrite(s, ThisFields(invar)) <==> WritesMentioned(s, invar)
  {
    forall f ensures f in ThisFields(invar) <==> Mentions(invar, f) { CollectsWhatOccurs(invar, f); }
  }

  ghost predicate WritesMentioned(s: Stmt, invar: Expr)
  {
    || ((s.Assign? || s.IncDec?) && exists f :: Mentions(invar, f) && Mentions(s.target, f))
    || s.Unrecognised?
  }

  // ---- a body that only reads ----

  /** The probe of the library's hash map: two declarations, a loop that returns on a hit and otherwise
      assigns a local, and a return. */
  function Probe(mask: string, masked: Expr, slot: string, start: Expr, going: Expr, hit: Expr, next: Expr): Block
  {
    Then(VarDecl(mask, masked), Then(VarDecl(slot, start), Then(ProbeLoop(slot, going, hit, next), Then(Return(Identifier(slot)), Empty))))
  }

  function ProbeLoop(slot: string, going: Expr, hit: Expr, next: Expr): Stmt
  {
    WhileStmt(going, Then(ProbeHit(slot, hit), Then(Assign(Identifier(slot), next), Empty)))
  }

  function ProbeHit(slot: string, hit: Expr): Stmt { IfStmt(hit, Then(Return(Identifier(slot)), Empty), Empty) }

  /** Its check is left out for every invariant that mentions a field. */
  lemma ProbeKeepsNoCheck(invar: Expr, f: string, mask: string, masked: Expr, slot: string, start: Expr, going: Expr, hit: Expr, next: Expr)
    requires Mentions(invar, f)
    ensures !CanBreakIn(invar, Probe(mask, masked, slot, start, going, hit, next))
  {
    hide BlockAssigns;
    CollectsWhatOccurs(invar, f);
    var fields := ThisFields(invar);
    var back, step := Return(Identifier(slot)), Assign(Identifier(slot), next);
    NothingAssigns(fields);
    assert ThisFields(Identifier(slot)) == {};
    Clears(step, Empty, fields);
    Clears(back, Empty, fields);
    Clears(ProbeHit(slot, hit), Then(step, Empty), fields);
    Clears(ProbeLoop(slot, going, hit, next), Then(back, Empty), fields);
    Clears(VarDecl(slot, start), Then(ProbeLoop(slot, going, hit, next), Then(back, Empty)), fields);
    Clears(VarDecl(mask, masked), Then(VarDecl(slot, start), Then(ProbeLoop(slot, going, hit, next), Then(back, Empty))), fields);
  }

  lemma NothingAssigns(fields: set<string>)
    ensures !BlockAssigns(Empty, fields)
  {
  }

  lemma Clears(s: Stmt, b: Block, fields: set<string>)
    requires !StmtAssigns(s, fields) && !BlockAssigns(b, fields)
    ensures !BlockAssigns(Then(s, b), fields)
  {
  }
}
