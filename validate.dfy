/** What ast.js's `declare` and `validate` methods compute, as functions of the
    node and the `declared` map they start from. A declaration step yields the
    updated map or the error it throws; a validation step passes or fails with
    the error it throws. Validation never changes the map it is given: the only
    maps it writes to are the fresh ones it creates for function scopes. */
module Validation {
  import opened Base
  import opened Syntax
  import opened Scopes

  const InvalidVar := "invalid expression in var statement"
  const VarsTopLevel := "vars may only be declared in the top-level of the program or directly within functions"
  const FunctionsTopLevel := "functions may only be declared in the top-level of the program or directly within other functions"
  const IncludeTopLevel := "#include is only allowed at the top-level of the program"
  const DeclareTopLevel := "#declare is only allowed at the top-level of the program"
  const ArrowParams := "arrow functions connot have @ or ... params"
  const AtExpression := "invalid expression beginning with '@'"
  const DotsExpression := "invalid expression ending with '...'"

  /** The first check that fails, or success when both pass. */
  function Both(a: Outcome<VError>, b: Outcome<VError>): Outcome<VError> {
    if a.Fail? then a else b
  }

  /** `r` is `d` after more declarations: a name declared here stays declared
      here, a visible name stays visible, and the markers stay `1` or `2`. */
  predicate Extends(d: Declared, r: Declared) {
    && (forall x | x in d :: IsHere(d, x) ==> IsHere(r, x))
    && (forall x | x in d :: IsDeclared(d, x) ==> IsDeclared(r, x))
    && (Markers(d) ==> Markers(r))
  }

  // ---------------------------------------------------------------------
  // Declarations (ast.js:205-214, ast.js:307-330, ast.js:393-424, ast.js:104-111)

  /** `declareArgs` on one parameter. A plain parameter is declared; with
      `noPass` (an arrow function) any other form is an error; a rest parameter
      declares its identifier; an `@handler` parameter needs the handler to be
      visible already and then counts it as declared here. */
  function DeclareParam(d: Declared, e: Node, noPass: bool): (r: Result<Declared, VError>)
    ensures r.Success? ==> Extends(d, r.value)
  {
    if e.IdentExpr? then Declare(d, e.tok)
    else if noPass then Failure(VError(Leftmost(e), ArrowParams))
    else if e.YadaExpr? then Declare(d, e.ident)
    else if e.PassExpr? && e.handler.Some? then
      var h := e.handler.value;
      if !IsDeclared(d, h.text) then Failure(VError(e.at, NotDeclared(h.text)))
      else Success(d[h.text := Here])
    else Success(d)
  }

  /** `declareArgs` as written: a rest parameter declares the text of its second
      element, which the parser fills with the `...` token (ast.js:407-413). */
  function DeclareParamAsWritten(d: Declared, e: Node, noPass: bool): (r: Result<Declared, VError>)
    ensures r.Success? ==> Extends(d, r.value)
  {
    if e.YadaExpr? && !noPass then Declare(d, e.dots) else DeclareParam(d, e, noPass)
  }

  /** `declareArgs`: the parameters declared from left to right, stopping at the first error. */
  function DeclareArgs(d: Declared, items: seq<Item>, noPass: bool): (r: Result<Declared, VError>)
    ensures r.Success? ==> Extends(d, r.value)
    decreases |items|
  {
    if items == [] then Success(d)
    else
      var d1 :- DeclareParam(d, items[0].expr, noPass);
      DeclareArgs(d1, items[1..], noPass)
  }

  /** The name a `var` element declares: `x` or `x = …`; anything else is an error
      reported at the element's first token. */
  function VarName(e: Node): (r: Result<Token, VError>)
    ensures r.Success? <==> e.IdentExpr? || (e.BinaryOpExpr? && e.left.IdentExpr? && e.op.kind == "=")
    ensures r.Success? ==> r.value == Leftmost(e)
    ensures r.Failure? ==> r.error == VError(Leftmost(e), InvalidVar)
  {
    if e.IdentExpr? then Success(e.tok)
    else if e.BinaryOpExpr? && e.left.IdentExpr? && e.op.kind == "=" then Success(e.left.tok)
    else Failure(VError(Leftmost(e), InvalidVar))
  }

  /** `VarStatement.declare`: each element's name declared in turn. */
  function DeclareVars(d: Declared, items: seq<Item>): (r: Result<Declared, VError>)
    ensures r.Success? ==> Extends(d, r.value)
    decreases |items|
  {
    if items == [] then Success(d)
    else
      var t :- VarName(items[0].expr);
      var d1 :- Declare(d, t);
      DeclareVars(d1, items[1..])
  }

  /** `declare` of one statement: `var` and function declarations and blocks have
      one, the other statements declare nothing. */
  function DeclareStatement(d: Declared, s: Node): (r: Result<Declared, VError>)
    ensures r.Success? ==> Extends(d, r.value)
    decreases s, 1
  {
    match s
    case VarStatement(_, decls, _) => DeclareVars(d, decls.items)
    case FunctionStatement(_, name, _, _, _, _, _) => Declare(d, name)
    case Block(_, ss, _) => DeclareStatements(d, ss)
    case _ => Success(d)
  }

  /** `Block.declare`, and the declaration pass over the program's statements. */
  function DeclareStatements(d: Declared, ss: seq<Node>): (r: Result<Declared, VError>)
    ensures r.Success? ==> Extends(d, r.value)
    decreases ss, 0
  {
    if ss == [] then Success(d)
    else
      var d1 :- DeclareStatement(d, ss[0]);
      DeclareStatements(d1, ss[1..])
  }

  /** `: name` binds `name` in the function's scope like a declaration. */
  function DeclareThis(d: Declared, tp: Option<ThisPart>): (r: Result<Declared, VError>)
    ensures r.Success? ==> Extends(d, r.value)
    ensures tp.Some? && r.Success? ==> IsHere(r.value, tp.value.name.text)
    ensures tp.Some? ==> (r.Failure? <==> IsHere(d, tp.value.name.text))
  {
    if tp.None? then Success(d) else Declare(d, tp.value.name)
  }

  /** The scope a function body is validated in: the outer names inherited, the
      parameters, the `this` alias and the body's own declarations. */
  function FunctionScope(d: Declared, args: ExprList, tp: Option<ThisPart>, body: Node): (r: Result<Declared, VError>)
    ensures r.Success? ==> Extends(Inherit(d), r.value)
    ensures r.Success? && Markers(d) ==> forall x :: IsDeclared(d, x) ==> IsDeclared(r.value, x)
  {
    var d1 :- DeclareArgs(Inherit(d), args.items, false);
    var d2 :- DeclareThis(d1, tp);
    if body.Block? then DeclareStatements(d2, body.stmts) else Success(d2)
  }

  // ---------------------------------------------------------------------
  // Validation (ast.js:113-870)

  /** `n.validate(ctx)` with `ctx.declared == d` and the two flags of the context:
      `varOk` (a `var` or function declaration may stand here) and `pragmaOk`
      (a pragma may stand here). Contexts built for nested statements and operands
      carry neither flag; a function scope carries `varOk` only. */
  function Valid(n: Node, d: Declared, varOk: bool, pragmaOk: bool): Outcome<VError>
    decreases n, 2
  {
    match n
    case Block(_, ss, _) => ValidNodes(ss, d, varOk, pragmaOk)
    case IfStatement(_, _, t, _, b, e) =>
      Both(Valid(t, d, false, false),
        Both(Valid(b, d, false, false), if e.Some? then Valid(e.value.body, d, false, false) else Pass))
    case WhileStatement(_, _, t, _, b) => Both(Valid(t, d, false, false), Valid(b, d, false, false))
    case ForStatement(_, _, _, _, _, _, _, _, _) => ValidFor(n, d)
    case ExprStatement(e, _) => if e.Some? then Valid(e.value, d, varOk, pragmaOk) else Pass
    case LabeledStatement(_, _, loop) => Valid(loop, d, varOk, pragmaOk)
    case FunctionStatement(f, _, _, _, _, _, _) =>
      if !varOk then Fail(VError(f, FunctionsTopLevel)) else ValidFunction(n, d)
    case VarStatement(v, decls, _) =>
      if !varOk then Fail(VError(v, VarsTopLevel)) else ValidItems(decls.items, d)
    case ReturnStatement(_, e, _) => if e.Some? then Valid(e.value, d, false, false) else Pass
    case ThrowStatement(_, e, _) => Valid(e, d, false, false)
    case StringExpr(_) => Pass
    case NumberExpr(_) => Pass
    case NullExpr(_) => Pass
    case TrueFalseExpr(_) => Pass
    case IdentExpr(t) => if IsDeclared(d, t.text) then Pass else Fail(VError(t, NotDeclared(t.text)))
    case UnaryOpExpr(_, e) => Valid(e, d, false, false)
    case BinaryOpExpr(l, _, r) => Both(Valid(l, d, false, false), Valid(r, d, false, false))
    case TernaryOpExpr(c, _, a, _, b) =>
      Both(Valid(c, d, false, false), Both(Valid(a, d, false, false), Valid(b, d, false, false)))
    case InvokeExpr(e, _, _, _, args, _) => Both(Valid(e, d, false, false), ValidItems(args.items, d))
    case CallExpr(e, _, args, _) => Both(Valid(e, d, false, false), ValidItems(args.items, d))
    case IndexExpr(e, _, i, _) => Both(Valid(e, d, false, false), Valid(i, d, false, false))
    case PropertyExpr(e, _, _) => Valid(e, d, false, false)
    case PrototypePropertyExpr(e, _, _) => Valid(e, d, false, false)
    case NewExpr(_, e, _, args, _) => Both(Valid(e, d, false, false), ValidItems(args.items, d))
    case FunctionExpr(_, _, _, _, _) => ValidFunction(n, d)
    case ArrowFunctionExpr(_, _, _, _, _) => ValidArrow(n, d)
    case SimpleArrowFunctionExpr(_, e) => Valid(e, Inherit(d)["_" := Here], true, false)
    case ArrayExpr(_, elems, _) => ValidItems(elems.items, d)
    case ObjectExpr(_, ps, _) => ValidProps(ps, d)
    case GroupExpr(_, e, _) => Valid(e, d, varOk, pragmaOk)
    case PassExpr(at, _) => Fail(VError(at, AtExpression))
    case YadaExpr(ident, _) => Fail(VError(ident, DotsExpression))
    case IncludePragma(kw, _) => if pragmaOk then Pass else Fail(VError(kw, IncludeTopLevel))
    case DeclarePragma(kw, _) => if pragmaOk then Pass else Fail(VError(kw, DeclareTopLevel))
  }

  /** A function declaration or expression: its body is validated in the scope
      `FunctionScope` builds, where declarations are allowed and pragmas are not. */
  function ValidFunction(n: Node, d: Declared): Outcome<VError>
    requires n.FunctionExpr? || n.FunctionStatement?
    decreases n, 1
  {
    match FunctionScope(d, n.args, n.thisPart, n.block)
    case Failure(err) => Fail(err)
    case Success(d1) => Valid(n.block, d1, true, false)
  }

  /** An arrow function: only plain parameters, and its expression validated in
      the scope they make. */
  function ValidArrow(n: Node, d: Declared): Outcome<VError>
    requires n.ArrowFunctionExpr?
    decreases n, 1
  {
    match DeclareArgs(Inherit(d), n.args.items, true)
    case Failure(err) => Fail(err)
    case Success(d1) => Valid(n.body, d1, true, false)
  }

  /** `ForStatement.validate` as it is written: only the three expression lists are
      validated, the loop's block is not (ast.js:163-168). */
  function ValidForAsWritten(n: Node, d: Declared): Outcome<VError>
    requires n.ForStatement?
    decreases n, 0
  {
    Both(ValidItems(n.inits.items, d), Both(ValidItems(n.tests.items, d), ValidItems(n.updates.items, d)))
  }

  /** The `for` rule the other loops follow: the lists, then the block, in a
      context without the two flags. */
  function ValidFor(n: Node, d: Declared): Outcome<VError>
    requires n.ForStatement?
    decreases n, 1
  {
    Both(ValidForAsWritten(n, d), Valid(n.block, d, false, false))
  }

  /** `Block.validate` and the validation pass over the program's statements. */
  function ValidNodes(ss: seq<Node>, d: Declared, varOk: bool, pragmaOk: bool): Outcome<VError>
    decreases ss, 0
  {
    if ss == [] then Pass else Both(Valid(ss[0], d, varOk, pragmaOk), ValidNodes(ss[1..], d, varOk, pragmaOk))
  }

  /** `ExprList.validate`: every element, in a context without the two flags. */
  function ValidItems(items: seq<Item>, d: Declared): Outcome<VError>
    decreases items, 0
  {
    if items == [] then Pass else Both(ValidItem(items[0], d), ValidItems(items[1..], d))
  }

  function ValidItem(it: Item, d: Declared): Outcome<VError>
    decreases it, 0
  {
    Valid(it.expr, d, false, false)
  }

  /** `ObjectExpr.validate`: every property value; the keys are not names. */
  function ValidProps(ps: seq<Prop>, d: Declared): Outcome<VError>
    decreases ps, 0
  {
    if ps == [] then Pass else Both(ValidProp(ps[0], d), ValidProps(ps[1..], d))
  }

  function ValidProp(p: Prop, d: Declared): Outcome<VError>
    decreases p, 0
  {
    Valid(p.value, d, false, false)
  }

  // ---------------------------------------------------------------------
  // Parameters (ast.js:393-424)

  /** A parameter that binds a name: a plain one, or a rest one where those are allowed. */
  predicate BindsName(e: Node, noPass: bool) {
    e.IdentExpr? || (!noPass && e.YadaExpr?)
  }

  function ParamName(e: Node): string
    requires e.IdentExpr? || e.YadaExpr?
  {
    if e.IdentExpr? then e.tok.text else e.ident.text
  }

  /** Once the parameters are declared, each name a parameter binds is declared here. */
  lemma {:induction false} ArgsDeclared(d: Declared, items: seq<Item>, noPass: bool, i: nat)
    requires DeclareArgs(d, items, noPass).Success?
    requires i < |items| && BindsName(items[i].expr, noPass)
    ensures IsHere(DeclareArgs(d, items, noPass).value, ParamName(items[i].expr))
    decreases |items|
  {
    var d1 := DeclareParam(d, items[0].expr, noPass).value;
    assert DeclareArgs(d, items, noPass) == DeclareArgs(d1, items[1..], noPass);
    if i > 0 {
      ArgsDeclared(d1, items[1..], noPass, i - 1);
    }
  }

  /** A name already declared here cannot be bound by a later parameter. */
  lemma {:induction false} HereBlocksParam(d: Declared, items: seq<Item>, noPass: bool, x: string, j: nat)
    requires IsHere(d, x)
    requires j < |items| && BindsName(items[j].expr, noPass) && ParamName(items[j].expr) == x
    ensures DeclareArgs(d, items, noPass).Failure?
    decreases |items|
  {
    if j > 0 {
      var r := DeclareParam(d, items[0].expr, noPass);
      if r.Success? {
        HereBlocksParam(r.value, items[1..], noPass, x, j - 1);
      }
    }
  }

  /** Two parameters binding the same name are rejected (ast.js:398-400, ast.js:408-410). */
  lemma {:induction false} DuplicateParamRejected(d: Declared, items: seq<Item>, noPass: bool, i: nat, j: nat)
    requires i < j < |items|
    requires BindsName(items[i].expr, noPass) && BindsName(items[j].expr, noPass)
    requires ParamName(items[i].expr) == ParamName(items[j].expr)
    ensures DeclareArgs(d, items, noPass).Failure?
    decreases |items|
  {
    var r := DeclareParam(d, items[0].expr, noPass);
    if r.Success? {
      if i == 0 {
        HereBlocksParam(r.value, items[1..], noPass, ParamName(items[i].expr), j - 1);
      } else {
        DuplicateParamRejected(r.value, items[1..], noPass, i - 1, j - 1);
      }
    }
  }

  /** An arrow function's parameters are accepted only when all of them are plain names. */
  lemma {:induction false} ArrowParamsArePlain(d: Declared, items: seq<Item>, i: nat)
    requires DeclareArgs(d, items, true).Success? && i < |items|
    ensures items[i].expr.IdentExpr?
    decreases |items|
  {
    var d1 := DeclareParam(d, items[0].expr, true).value;
    if i > 0 {
      ArrowParamsArePlain(d1, items[1..], i - 1);
    }
  }

  /** Plain parameters with distinct names none of which is declared here are accepted. */
  lemma {:induction false} DistinctParamsAccepted(d: Declared, items: seq<Item>, noPass: bool)
    requires forall i :: 0 <= i < |items| ==> items[i].expr.IdentExpr? && !IsHere(d, items[i].expr.tok.text)
    requires forall i, j :: 0 <= i < j < |items| ==> items[i].expr.tok.text != items[j].expr.tok.text
    ensures DeclareArgs(d, items, noPass).Success?
    decreases |items|
  {
    if items != [] {
      var d1 := DeclareParam(d, items[0].expr, noPass).value;
      forall i | 1 <= i < |items| ensures !IsHere(d1, items[i].expr.tok.text) {
        assert items[0].expr.tok.text != items[i].expr.tok.text;
      }
      DistinctParamsAccepted(d1, items[1..], noPass);
    }
  }

  /** In the fresh scope of an arrow function the parameters are accepted exactly
      when they are plain names, all different; outer names may be reused. */
  lemma ArrowParamsRule(d: Declared, items: seq<Item>)
    ensures DeclareArgs(Inherit(d), items, true).Success? <==>
      && (forall i :: 0 <= i < |items| ==> items[i].expr.IdentExpr?)
      && (forall i, j :: 0 <= i < j < |items| ==> items[i].expr.tok.text != items[j].expr.tok.text)
  {
    if DeclareArgs(Inherit(d), items, true).Success? {
      forall i | 0 <= i < |items| ensures items[i].expr.IdentExpr? {
        ArrowParamsArePlain(Inherit(d), items, i);
      }
      forall i, j | 0 <= i < j < |items| ensures items[i].expr.tok.text != items[j].expr.tok.text {
        ArrowParamsArePlain(Inherit(d), items, i);
        ArrowParamsArePlain(Inherit(d), items, j);
        if items[i].expr.tok.text == items[j].expr.tok.text {
          DuplicateParamRejected(Inherit(d), items, true, i, j);
        }
      }
    } else if forall i :: 0 <= i < |items| ==> items[i].expr.IdentExpr? {
      if forall i, j :: 0 <= i < j < |items| ==> items[i].expr.tok.text != items[j].expr.tok.text {
        DistinctParamsAccepted(Inherit(d), items, true);
      }
    }
  }

  // ---------------------------------------------------------------------
  // Declarations of a scope (ast.js:104-111, ast.js:205-214, ast.js:307-330)

  /** The names a statement declares in the scope it stands in. */
  function NamesOf(s: Node): set<string>
    decreases s, 1
  {
    match s
    case VarStatement(_, decls, _) =>
      set i | 0 <= i < |decls.items| && VarName(decls.items[i].expr).Success? :: VarName(decls.items[i].expr).value.text
    case FunctionStatement(_, name, _, _, _, _, _) => {name.text}
    case Block(_, ss, _) => NamesOfAll(ss)
    case _ => {}
  }

  function NamesOfAll(ss: seq<Node>): set<string>
    decreases ss, 0
  {
    if ss == [] then {} else NamesOf(ss[0]) + NamesOfAll(ss[1..])
  }

  lemma {:induction false} VarsDeclared(d: Declared, items: seq<Item>, i: nat)
    requires DeclareVars(d, items).Success? && i < |items|
    ensures VarName(items[i].expr).Success?
    ensures IsHere(DeclareVars(d, items).value, VarName(items[i].expr).value.text)
    decreases |items|
  {
    var t := VarName(items[0].expr).value;
    var d1 := Declare(d, t).value;
    assert DeclareVars(d, items) == DeclareVars(d1, items[1..]);
    if i > 0 {
      VarsDeclared(d1, items[1..], i - 1);
    }
  }

  lemma {:induction false} HereBlocksVar(d: Declared, items: seq<Item>, x: string, j: nat)
    requires IsHere(d, x) && j < |items|
    requires VarName(items[j].expr).Success? && VarName(items[j].expr).value.text == x
    ensures DeclareVars(d, items).Failure?
    decreases |items|
  {
    if j > 0 && VarName(items[0].expr).Success? {
      var r := Declare(d, VarName(items[0].expr).value);
      if r.Success? {
        HereBlocksVar(r.value, items[1..], x, j - 1);
      }
    }
  }

  /** After a statement's declarations, each of its names is declared here; and a
      name declared here already makes them fail. */
  lemma {:induction false} StatementDeclares(d: Declared, s: Node, x: string)
    requires x in NamesOf(s)
    ensures DeclareStatement(d, s).Success? ==> IsHere(DeclareStatement(d, s).value, x)
    ensures IsHere(d, x) ==> DeclareStatement(d, s).Failure?
    decreases s, 1
  {
    match s
    case VarStatement(_, decls, _) =>
      var items := decls.items;
      var i :| 0 <= i < |items| && VarName(items[i].expr).Success? && VarName(items[i].expr).value.text == x;
      if DeclareStatement(d, s).Success? {
        VarsDeclared(d, items, i);
      }
      if IsHere(d, x) {
        HereBlocksVar(d, items, x, i);
      }
    case FunctionStatement(_, _, _, _, _, _, _) =>
    case Block(_, ss, _) => StatementsDeclare(d, ss, x);
  }

  /** Once a scope's declarations are made, every name its statements declare is
      declared here (ast.js:104-111); a name declared here already makes them fail. */
  lemma {:induction false} StatementsDeclare(d: Declared, ss: seq<Node>, x: string)
    requires x in NamesOfAll(ss)
    ensures DeclareStatements(d, ss).Success? ==> IsHere(DeclareStatements(d, ss).value, x)
    ensures IsHere(d, x) ==> DeclareStatements(d, ss).Failure?
    decreases ss, 0
  {
    var r := DeclareStatement(d, ss[0]);
    if x in NamesOf(ss[0]) {
      StatementDeclares(d, ss[0], x);
      if r.Success? {
        KeptHere(r.value, ss[1..], x);
      }
    } else if r.Success? {
      StatementsDeclare(r.value, ss[1..], x);
    }
  }

  /** A name declared here stays declared here. */
  lemma KeptHere(d: Declared, ss: seq<Node>, x: string)
    requires IsHere(d, x)
    ensures DeclareStatements(d, ss).Success? ==> IsHere(DeclareStatements(d, ss).value, x)
  {
  }

  /** A name declared by two statements of one scope, by `var` or as a function,
      is rejected as already declared. */
  lemma {:induction false} DuplicateDeclarationRejected(d: Declared, ss: seq<Node>, i: nat, j: nat, x: string)
    requires i < j < |ss| && x in NamesOf(ss[i]) && x in NamesOf(ss[j])
    ensures DeclareStatements(d, ss).Failure?
    decreases |ss|
  {
    var r := DeclareStatement(d, ss[0]);
    if r.Success? {
      if i == 0 {
        StatementDeclares(d, ss[0], x);
        AllNamesIn(ss[1..], j - 1, x);
        StatementsDeclare(r.value, ss[1..], x);
      } else {
        DuplicateDeclarationRejected(r.value, ss[1..], i - 1, j - 1, x);
      }
    }
  }

  lemma {:induction false} AllNamesIn(ss: seq<Node>, j: nat, x: string)
    requires j < |ss| && x in NamesOf(ss[j])
    ensures x in NamesOfAll(ss)
    decreases |ss|
  {
    if j > 0 {
      AllNamesIn(ss[1..], j - 1, x);
    }
  }

  /** A name is rejected exactly when its marker is absent or falsy (ast.js:474-478). */
  lemma IdentRule(t: Token, d: Declared, varOk: bool, pragmaOk: bool)
    ensures Valid(IdentExpr(t), d, varOk, pragmaOk).Fail? <==> !IsDeclared(d, t.text)
    ensures Valid(IdentExpr(t), d, varOk, pragmaOk).Fail? ==>
      Valid(IdentExpr(t), d, varOk, pragmaOk).error == VError(t, NotDeclared(t.text))
  {
  }

  /** An `@handler` parameter needs its handler declared already, and then marks it
      declared in the function's scope (ast.js:414-421). */
  lemma HandlerRule(d: Declared, at: Token, h: Token)
    ensures DeclareParam(d, PassExpr(at, Some(h)), false).Failure? <==> !IsDeclared(d, h.text)
    ensures DeclareParam(d, PassExpr(at, Some(h)), false).Failure? ==>
      DeclareParam(d, PassExpr(at, Some(h)), false).error == VError(at, NotDeclared(h.text))
    ensures DeclareParam(d, PassExpr(at, Some(h)), false).Success? ==>
      IsHere(DeclareParam(d, PassExpr(at, Some(h)), false).value, h.text)
  {
  }

  /** Entering a function, every outer name can be declared again: inherited names
      are shadowed, never clash. */
  lemma InheritedShadowed(d: Declared, t: Token)
    ensures Declare(Inherit(d), t).Success?
    ensures IsHere(Declare(Inherit(d), t).value, t.text)
  {
  }

  // ---------------------------------------------------------------------
  // Validation of lists and of nested statements

  /** A statement list passes exactly when each statement passes, and a failing
      list reports the error of its first failing statement. */
  lemma {:induction false} ValidNodesEach(ss: seq<Node>, d: Declared, varOk: bool, pragmaOk: bool)
    ensures ValidNodes(ss, d, varOk, pragmaOk).Pass? <==> forall i :: 0 <= i < |ss| ==> Valid(ss[i], d, varOk, pragmaOk).Pass?
    ensures ValidNodes(ss, d, varOk, pragmaOk).Fail? ==>
      exists k :: 0 <= k < |ss| && Valid(ss[k], d, varOk, pragmaOk) == ValidNodes(ss, d, varOk, pragmaOk)
        && forall j :: 0 <= j < k ==> Valid(ss[j], d, varOk, pragmaOk).Pass?
    decreases |ss|
  {
    if ss != [] {
      ValidNodesEach(ss[1..], d, varOk, pragmaOk);
      assert forall i :: 1 <= i < |ss| ==> ss[1..][i - 1] == ss[i];
      if Valid(ss[0], d, varOk, pragmaOk).Pass? && ValidNodes(ss, d, varOk, pragmaOk).Fail? {
        var k :| 0 <= k < |ss[1..]| && Valid(ss[1..][k], d, varOk, pragmaOk) == ValidNodes(ss[1..], d, varOk, pragmaOk)
          && forall j :: 0 <= j < k ==> Valid(ss[1..][j], d, varOk, pragmaOk).Pass?;
        assert Valid(ss[k + 1], d, varOk, pragmaOk) == ValidNodes(ss, d, varOk, pragmaOk);
      }
    }
  }

  /** An expression list passes exactly when each element passes. */
  lemma {:induction false} ValidItemsEach(items: seq<Item>, d: Declared)
    ensures ValidItems(items, d).Pass? <==> forall i :: 0 <= i < |items| ==> Valid(items[i].expr, d, false, false).Pass?
    decreases |items|
  {
    if items != [] {
      ValidItemsEach(items[1..], d);
      assert forall i :: 1 <= i < |items| ==> items[1..][i - 1] == items[i];
    }
  }

  /** `n` holds, outside any function, a `var`, a function declaration or a pragma
      where the context of its statement does not allow it. */
  predicate Misplaced(n: Node, varOk: bool, pragmaOk: bool)
    decreases n
  {
    match n
    case VarStatement(_, _, _) => !varOk
    case FunctionStatement(_, _, _, _, _, _, _) => !varOk
    case IncludePragma(_, _) => !pragmaOk
    case DeclarePragma(_, _) => !pragmaOk
    case Block(_, ss, _) => exists i :: 0 <= i < |ss| && Misplaced(ss[i], varOk, pragmaOk)
    case IfStatement(_, _, _, _, b, e) => Misplaced(b, false, false) || (e.Some? && Misplaced(e.value.body, false, false))
    case WhileStatement(_, _, _, _, b) => Misplaced(b, false, false)
    case ForStatement(_, _, _, _, _, _, _, _, b) => Misplaced(b, false, false)
    case LabeledStatement(_, _, loop) => Misplaced(loop, varOk, pragmaOk)
    case _ => false
  }

  /** Declarations and pragmas are rejected inside `if`, `while` and `for` bodies,
      pragmas inside function bodies too (ast.js:129-136, ast.js:217-218,
      ast.js:333-334, ast.js:863-866). */
  lemma {:induction false} MisplacedRejected(n: Node, d: Declared, varOk: bool, pragmaOk: bool)
    requires Misplaced(n, varOk, pragmaOk)
    ensures Valid(n, d, varOk, pragmaOk).Fail?
    decreases n
  {
    match n
    case Block(_, ss, _) =>
      var i :| 0 <= i < |ss| && Misplaced(ss[i], varOk, pragmaOk);
      MisplacedRejected(ss[i], d, varOk, pragmaOk);
      ValidNodesEach(ss, d, varOk, pragmaOk);
    case IfStatement(_, _, _, _, b, e) =>
      if Misplaced(b, false, false) {
        MisplacedRejected(b, d, false, false);
      } else {
        MisplacedRejected(e.value.body, d, false, false);
      }
    case WhileStatement(_, _, _, _, b) => MisplacedRejected(b, d, false, false);
    case ForStatement(_, _, _, _, _, _, _, _, b) => MisplacedRejected(b, d, false, false);
    case LabeledStatement(_, _, loop) => MisplacedRejected(loop, d, varOk, pragmaOk);
    case _ =>
  }

  /** As written, the rest parameter `args...` leaves `args` undeclared in the
      function's scope (declaring `...` instead), so any use of it is reported;
      the model declares `args`. */
  lemma RestParamUndeclaredAsWritten(d: Declared, ident: Token, dots: Token)
    requires dots.text == "..." && ident.text != "..."
    requires !IsDeclared(d, ident.text) && !IsHere(d, "...")
    ensures DeclareParamAsWritten(d, YadaExpr(ident, dots), false).Success?
    ensures !IsDeclared(DeclareParamAsWritten(d, YadaExpr(ident, dots), false).value, ident.text)
    ensures DeclareParam(d, YadaExpr(ident, dots), false).Success?
    ensures IsHere(DeclareParam(d, YadaExpr(ident, dots), false).value, ident.text)
  {
  }

  // ---------------------------------------------------------------------
  // The `for` body (ast.js:163-168)

  /** As written, a `for` loop with empty lists passes whatever its block holds:
      an undeclared name in the block is not reported. */
  lemma ForBlockIgnoredAsWritten(n: Node, d: Declared, x: Token)
    requires n.ForStatement? && n.inits.items == [] && n.tests.items == [] && n.updates.items == []
    requires n.block == Block(n.lparen, [ExprStatement(Some(IdentExpr(x)), n.rparen)], n.rparen)
    requires !IsDeclared(d, x.text)
    ensures ValidForAsWritten(n, d) == Pass
    ensures ValidFor(n, d) == Fail(VError(x, NotDeclared(x.text)))
  {
    var st := ExprStatement(Some(IdentExpr(x)), n.rparen);
    assert [st][1..] == [];
    assert Valid(st, d, false, false) == Fail(VError(x, NotDeclared(x.text)));
    assert ValidNodes([st], d, false, false) == Valid(st, d, false, false);
  }
}
