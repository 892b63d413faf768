/** The validation context `ctx` of ast.js: the `declared` map and the
    `included` names that the `declare` and `pragma` methods of the syntax tree
    update in place, and the two flags saying what may stand in this scope. */
module Contexts {
  import opened Base
  import opened Syntax
  import opened Scopes
  import opened Validation
  import opened Pragmas

  /** A declaration step's result as the thrown-or-not outcome of the code. */
  function Status(r: Result<Declared, VError>): (o: Outcome<VError>)
    ensures o.Pass? <==> r.Success?
    ensures o.Fail? ==> o.error == r.error
  {
    if r.Success? then Pass else Fail(r.error)
  }

  class Context {
    var declared: Declared
    var included: seq<string>
    var varOk: bool
    var pragmaOk: bool

    constructor(declared: Declared, varOk: bool, pragmaOk: bool)
      ensures this.declared == declared && included == []
      ensures this.varOk == varOk && this.pragmaOk == pragmaOk
    {
      this.declared := declared;
      included := [];
      this.varOk := varOk;
      this.pragmaOk := pragmaOk;
    }

    /** `if (ctx.declared[x] === 1) throw …; ctx.declared[x] = 1;` */
    method DeclareName(t: Token) returns (r: Outcome<VError>)
      modifies this
      ensures r == Status(Declare(old(declared), t))
      ensures declared == if r.Pass? then Declare(old(declared), t).value else old(declared)
      ensures included == old(included) && varOk == old(varOk) && pragmaOk == old(pragmaOk)
    {
      if t.text in declared && declared[t.text] == Here {
        return Fail(VError(t, AlreadyDeclared(t.text)));
      }
      declared := declared[t.text := Here];
      return Pass;
    }

    /** `ExprList.declareArgs(ctx, noPassExpr)` (ast.js:395-424). */
    method DeclareArgs(items: seq<Item>, noPass: bool) returns (r: Outcome<VError>)
      modifies this
      ensures r == Status(Validation.DeclareArgs(old(declared), items, noPass))
      ensures r.Pass? ==> declared == Validation.DeclareArgs(old(declared), items, noPass).value
      ensures included == old(included) && varOk == old(varOk) && pragmaOk == old(pragmaOk)
    {
      var i := 0;
      while i < |items|
        invariant 0 <= i <= |items|
        invariant Validation.DeclareArgs(declared, items[i..], noPass) == Validation.DeclareArgs(old(declared), items, noPass)
        invariant included == old(included) && varOk == old(varOk) && pragmaOk == old(pragmaOk)
      {
        assert items[i..][0] == items[i] && items[i..][1..] == items[i + 1..];
        var e := items[i].expr;
        if e.IdentExpr? {
          r := DeclareName(e.tok);
          if r.Fail? {
            return;
          }
        } else if noPass {
          return Fail(VError(Leftmost(e), ArrowParams));
        } else if e.YadaExpr? {
          r := DeclareName(e.ident);
          if r.Fail? {
            return;
          }
        } else if e.PassExpr? && e.handler.Some? {
          var h := e.handler.value;
          if !(h.text in declared && declared[h.text] != 0) {
            return Fail(VError(e.at, NotDeclared(h.text)));
          }
          declared := declared[h.text := Here];
        }
        i := i + 1;
      }
      return Pass;
    }

    /** `VarStatement.declare` (ast.js:307-330). */
    method DeclareVars(items: seq<Item>) returns (r: Outcome<VError>)
      modifies this
      ensures r == Status(Validation.DeclareVars(old(declared), items))
      ensures r.Pass? ==> declared == Validation.DeclareVars(old(declared), items).value
      ensures included == old(included) && varOk == old(varOk) && pragmaOk == old(pragmaOk)
    {
      var i := 0;
      while i < |items|
        invariant 0 <= i <= |items|
        invariant Validation.DeclareVars(declared, items[i..]) == Validation.DeclareVars(old(declared), items)
        invariant included == old(included) && varOk == old(varOk) && pragmaOk == old(pragmaOk)
      {
        assert items[i..][0] == items[i] && items[i..][1..] == items[i + 1..];
        var e := items[i].expr;
        var t := VarName(e);
        if t.Failure? {
          return Fail(t.error);
        }
        r := DeclareName(t.value);
        if r.Fail? {
          return;
        }
        i := i + 1;
      }
      return Pass;
    }

    /** `declare` of a statement: `var`, function declaration, or a block's statements. */
    method DeclareStatement(s: Node) returns (r: Outcome<VError>)
      modifies this
      ensures r == Status(Validation.DeclareStatement(old(declared), s))
      ensures r.Pass? ==> declared == Validation.DeclareStatement(old(declared), s).value
      ensures included == old(included) && varOk == old(varOk) && pragmaOk == old(pragmaOk)
      decreases s, 1
    {
      if s.VarStatement? {
        r := DeclareVars(s.decls.items);
      } else if s.FunctionStatement? {
        r := DeclareName(s.name);
      } else if s.Block? {
        r := DeclareStatements(s.stmts);
      } else {
        r := Pass;
      }
    }

    /** `Block.declare` (ast.js:104-111): each statement's declarations in order. */
    method DeclareStatements(ss: seq<Node>) returns (r: Outcome<VError>)
      modifies this
      ensures r == Status(Validation.DeclareStatements(old(declared), ss))
      ensures r.Pass? ==> declared == Validation.DeclareStatements(old(declared), ss).value
      ensures included == old(included) && varOk == old(varOk) && pragmaOk == old(pragmaOk)
      decreases ss, 0
    {
      var i := 0;
      while i < |ss|
        invariant 0 <= i <= |ss|
        invariant Validation.DeclareStatements(declared, ss[i..]) == Validation.DeclareStatements(old(declared), ss)
        invariant included == old(included) && varOk == old(varOk) && pragmaOk == old(pragmaOk)
      {
        assert ss[i..][0] == ss[i] && ss[i..][1..] == ss[i + 1..];
        r := DeclareStatement(ss[i]);
        if r.Fail? {
          return;
        }
        i := i + 1;
      }
      return Pass;
    }

    /** `IncludePragma.pragma` (ast.js:853-861). */
    method Include(names: seq<PragmaItem>)
      modifies this
      ensures (declared, included) == IncludeNames(old(declared), old(included), names)
      ensures varOk == old(varOk) && pragmaOk == old(pragmaOk)
    {
      var i := 0;
      while i < |names|
        invariant 0 <= i <= |names|
        invariant IncludeNames(declared, included, names[i..]) == IncludeNames(old(declared), old(included), names)
        invariant varOk == old(varOk) && pragmaOk == old(pragmaOk)
      {
        assert names[i..][1..] == names[i + 1..];
        declared := declared[names[i].name.text := Here];
        included := AddOnce(included, names[i].name.text);
        i := i + 1;
      }
    }

    /** The inner loop of `DeclarePragma.pragma`: a group's names declared. */
    method DeclareGroup(group: seq<string>)
      modifies this
      ensures declared == DeclareAll(old(declared), group)
      ensures included == old(included) && varOk == old(varOk) && pragmaOk == old(pragmaOk)
    {
      var j := 0;
      while j < |group|
        invariant 0 <= j <= |group|
        invariant DeclareAll(declared, group[j..]) == DeclareAll(old(declared), group)
        invariant included == old(included) && varOk == old(varOk) && pragmaOk == old(pragmaOk)
      {
        assert group[j..][1..] == group[j + 1..];
        declared := declared[group[j] := Here];
        j := j + 1;
      }
    }

    /** `DeclarePragma.pragma` (ast.js:891-909). */
    method DeclarePragma(names: seq<PragmaItem>) returns (r: Outcome<VError>)
      modifies this
      ensures r == Status(DeclareNames(old(declared), names))
      ensures r.Pass? ==> declared == DeclareNames(old(declared), names).value
      ensures included == old(included) && varOk == old(varOk) && pragmaOk == old(pragmaOk)
    {
      var i := 0;
      while i < |names|
        invariant 0 <= i <= |names|
        invariant DeclareNames(declared, names[i..]) == DeclareNames(old(declared), names)
        invariant included == old(included) && varOk == old(varOk) && pragmaOk == old(pragmaOk)
      {
        assert names[i..][0] == names[i] && names[i..][1..] == names[i + 1..];
        var t := names[i].name;
        if |t.text| > 0 && t.text[0] == ':' {
          var group := DeclareTag(t.text);
          if group.None? {
            return Fail(VError(t, InvalidGroup(t.text)));
          }
          DeclareGroup(group.value);
        } else {
          declared := declared[t.text := Here];
        }
        i := i + 1;
      }
      return Pass;
    }
  }

  /** The context a function body is validated in (ast.js:217-228): the outer
      names inherited, the parameters and the `this` alias declared, then the
      body's own declarations; declarations are allowed, pragmas are not. */
  method FunctionContext(d: Declared, args: ExprList, tp: Option<ThisPart>, body: Node)
    returns (ctx: Context, r: Outcome<VError>)
    ensures r == Status(FunctionScope(d, args, tp, body))
    ensures r.Pass? ==> ctx.declared == FunctionScope(d, args, tp, body).value
    ensures ctx.varOk && !ctx.pragmaOk
  {
    var v := NewDeclaredVars(d);
    ctx := new Context(v, true, false);
    r := ctx.DeclareArgs(args.items, false);
    if r.Fail? {
      return;
    }
    if tp.Some? {
      r := ctx.DeclareName(tp.value.name);
      if r.Fail? {
        return;
      }
    }
    if body.Block? {
      r := ctx.DeclareStatements(body.stmts);
    }
  }

  /** `FunctionExpr.validate` and the part of `FunctionStatement.validate` after its
      placement check: the body validated in the function's own context. */
  method ValidateFunction(n: Node, d: Declared) returns (r: Outcome<VError>)
    requires n.FunctionExpr? || n.FunctionStatement?
    ensures r == ValidFunction(n, d)
  {
    var ctx, s := FunctionContext(d, n.args, n.thisPart, n.block);
    if s.Fail? {
      return s;
    }
    r := Valid(n.block, ctx.declared, ctx.varOk, ctx.pragmaOk);
  }
}
