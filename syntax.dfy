/** The syntax tree of ast.js: tokens and one constructor per node type, with
    named children in the order the node keeps them, operator precedence
    (parser.js:430-471) and the shape the precedence-climbing parser gives to
    the trees it builds. */
module Syntax {
  import opened Base

  /** A scanned token: its type, its literal text, its start offset in the
      original text and the whitespace and comments captured after it. */
  datatype Token = Token(kind: string, text: string, loc: int, ws: string)

  /** `: name` after a parameter list: the name that is bound to `this`. */
  datatype ThisPart = ThisPart(colon: Token, name: Token)

  /** `else` and the block or `if` statement after it. */
  datatype ElsePart = ElsePart(elseTok: Token, body: Node)

  /** An element of a comma-separated list and the comma after it, if any. */
  datatype Item = Item(expr: Node, comma: Option<Token>)

  /** An ExprList node: the list's elements are the even positions, the commas the odd ones. */
  datatype ExprList = ExprList(items: seq<Item>)

  /** `key : value ,` in an object literal; the key is an IDENT or a STRING token. */
  datatype Prop = Prop(key: Token, colon: Token, value: Node, comma: Option<Token>)

  /** A name of a pragma and the `,` or `;` after it. */
  datatype PragmaItem = PragmaItem(name: Token, sep: Token)

  datatype Node =
    | Block(lbrace: Token, stmts: seq<Node>, rbrace: Token)
    | IfStatement(ifTok: Token, lparen: Token, test: Node, rparen: Token, block: Node,
                  elsePart: Option<ElsePart>)
    | WhileStatement(whileTok: Token, lparen: Token, test: Node, rparen: Token, block: Node)
    | ForStatement(forTok: Token, lparen: Token, inits: ExprList, semi1: Token, tests: ExprList,
                   semi2: Token, updates: ExprList, rparen: Token, block: Node)
    | ExprStatement(expr: Option<Node>, semi: Token)
    | LabeledStatement(name: Token, colon: Token, loop: Node)
    | FunctionStatement(funTok: Token, name: Token, lparen: Token, args: ExprList, rparen: Token,
                        thisPart: Option<ThisPart>, block: Node)
    | VarStatement(varTok: Token, decls: ExprList, semi: Token)
    | ReturnStatement(retTok: Token, value: Option<Node>, semi: Token)
    | ThrowStatement(throwTok: Token, thrown: Node, semi: Token)
    | StringExpr(tok: Token)
    | NumberExpr(tok: Token)
    | NullExpr(tok: Token)
    | TrueFalseExpr(tok: Token)
    | IdentExpr(tok: Token)
    | UnaryOpExpr(op: Token, operand: Node)
    | BinaryOpExpr(left: Node, op: Token, right: Node)
    | TernaryOpExpr(cond: Node, qmark: Token, ifTrue: Node, colon: Token, ifFalse: Node)
    | InvokeExpr(target: Node, dot: Token, name: Token, lparen: Token, args: ExprList, rparen: Token)
    | CallExpr(target: Node, lparen: Token, args: ExprList, rparen: Token)
    | IndexExpr(target: Node, lbracket: Token, index: Node, rbracket: Token)
    | PropertyExpr(target: Node, dot: Token, name: Token)
    | PrototypePropertyExpr(target: Node, colons: Token, member: Option<Token>)
    | NewExpr(newTok: Token, target: Node, lparen: Token, args: ExprList, rparen: Token)
    | FunctionExpr(lparen: Token, args: ExprList, rparen: Token, thisPart: Option<ThisPart>, block: Node)
    | ArrowFunctionExpr(lparen: Token, args: ExprList, rparen: Token, arrow: Token, body: Node)
    | SimpleArrowFunctionExpr(arrow: Token, body: Node)
    | ArrayExpr(lbracket: Token, elements: ExprList, rbracket: Token)
    | ObjectExpr(lbrace: Token, props: seq<Prop>, rbrace: Token)
    | GroupExpr(lparen: Token, inner: Node, rparen: Token)
    | PassExpr(at: Token, handler: Option<Token>)
    | YadaExpr(ident: Token, dots: Token)
    | IncludePragma(kw: Token, names: seq<PragmaItem>)
    | DeclarePragma(kw: Token, names: seq<PragmaItem>)

  /** The leaf a validation error is reported at: the node's first child,
      followed down to a token (parser.js:270-273). */
  function Leftmost(n: Node): Token {
    match n
    case Block(t, _, _) => t
    case IfStatement(t, _, _, _, _, _) => t
    case WhileStatement(t, _, _, _, _) => t
    case ForStatement(t, _, _, _, _, _, _, _, _) => t
    case ExprStatement(e, semi) => if e.Some? then Leftmost(e.value) else semi
    case LabeledStatement(t, _, _) => t
    case FunctionStatement(t, _, _, _, _, _, _) => t
    case VarStatement(t, _, _) => t
    case ReturnStatement(t, _, _) => t
    case ThrowStatement(t, _, _) => t
    case StringExpr(t) => t
    case NumberExpr(t) => t
    case NullExpr(t) => t
    case TrueFalseExpr(t) => t
    case IdentExpr(t) => t
    case UnaryOpExpr(t, _) => t
    case BinaryOpExpr(l, _, _) => Leftmost(l)
    case TernaryOpExpr(c, _, _, _, _) => Leftmost(c)
    case InvokeExpr(e, _, _, _, _, _) => Leftmost(e)
    case CallExpr(e, _, _, _) => Leftmost(e)
    case IndexExpr(e, _, _, _) => Leftmost(e)
    case PropertyExpr(e, _, _) => Leftmost(e)
    case PrototypePropertyExpr(e, _, _) => Leftmost(e)
    case NewExpr(t, _, _, _, _) => t
    case FunctionExpr(t, _, _, _, _) => t
    case ArrowFunctionExpr(t, _, _, _, _) => t
    case SimpleArrowFunctionExpr(t, _) => t
    case ArrayExpr(t, _, _) => t
    case ObjectExpr(t, _, _) => t
    case GroupExpr(t, _, _) => t
    case PassExpr(t, _) => t
    case YadaExpr(t, _) => t
    case IncludePragma(t, _) => t
    case DeclarePragma(t, _) => t
  }

  // ---------------------------------------------------------------------
  // Formal parameters (ast.js:380-391)

  /** A list element that may stand in a formal parameter list. */
  predicate IsFormalParam(e: Node) {
    e.IdentExpr? || e.PassExpr? || e.YadaExpr?
  }

  /** `checkFormalParams`: every element of the list is a plain, `@` or `...` parameter. */
  function CheckFormalParams(items: seq<Item>): (ok: bool)
    ensures ok <==> forall i :: 0 <= i < |items| ==> IsFormalParam(items[i].expr)
  {
    if items == [] then true
    else IsFormalParam(items[0].expr) && CheckFormalParams(items[1..])
  }

  // ---------------------------------------------------------------------
  // The grammar the parser's trees follow (parser.js:285-841)

  /** The node types of expressions. */
  predicate IsExpression(n: Node) {
    || n.StringExpr? || n.NumberExpr? || n.NullExpr? || n.TrueFalseExpr? || n.IdentExpr?
    || n.UnaryOpExpr? || n.BinaryOpExpr? || n.TernaryOpExpr? || n.InvokeExpr? || n.CallExpr?
    || n.IndexExpr? || n.PropertyExpr? || n.PrototypePropertyExpr? || n.NewExpr?
    || n.FunctionExpr? || n.ArrowFunctionExpr? || n.SimpleArrowFunctionExpr? || n.ArrayExpr?
    || n.ObjectExpr? || n.GroupExpr? || n.PassExpr? || n.YadaExpr?
  }

  /** The node types of statements. */
  predicate IsStatement(n: Node) {
    || n.IfStatement? || n.WhileStatement? || n.ForStatement? || n.ExprStatement?
    || n.LabeledStatement? || n.FunctionStatement? || n.VarStatement? || n.ReturnStatement?
    || n.ThrowStatement? || n.IncludePragma? || n.DeclarePragma?
  }

  predicate IsUnaryOp(kind: string) {
    kind in {"!", "-", "+", "typeof", "delete"}
  }

  /** An optional token of type `kind`. */
  predicate OptKind(t: Option<Token>, kind: string) {
    t.Some? ==> t.value.kind == kind
  }

  /** Every element but the last is followed by a comma; the last may be too. */
  predicate CommaSeparated(items: seq<Item>) {
    forall i :: 0 <= i < |items| ==>
      OptKind(items[i].comma, ",") && (i < |items| - 1 ==> items[i].comma.Some?)
  }

  /** The properties of an object literal: a name or string key, `:`, and the commas
      between them, a trailing one allowed. */
  predicate PropsShape(props: seq<Prop>) {
    forall i :: 0 <= i < |props| ==>
      && (props[i].key.kind == "IDENT" || props[i].key.kind == "STRING")
      && props[i].colon.kind == ":"
      && OptKind(props[i].comma, ",") && (i < |props| - 1 ==> props[i].comma.Some?)
  }

  /** The names of a pragma: at least one, separated by commas and ended by `;`. */
  predicate PragmaShape(names: seq<PragmaItem>) {
    && |names| >= 1
    && forall i :: 0 <= i < |names| ==>
         names[i].name.kind == "IDENT" && names[i].sep.kind == (if i < |names| - 1 then "," else ";")
  }

  /** The target of `new`: a name, or a property of a target. */
  predicate IsNewTarget(n: Node) {
    match n
    case IdentExpr(t) => t.kind == "IDENT"
    case PropertyExpr(e, dot, name) => dot.kind == "." && name.kind == "IDENT" && IsNewTarget(e)
    case _ => false
  }

  predicate ThisOk(t: Option<ThisPart>) {
    t.Some? ==> t.value.colon.kind == ":" && t.value.name.kind == "IDENT"
  }

  /** A well-formed expression list: comma-separated well-formed expressions. */
  predicate ListOk(l: ExprList)
    decreases l, 3
  {
    && CommaSeparated(l.items)
    && forall i :: 0 <= i < |l.items| ==> IsExpression(l.items[i].expr) && WellFormed(l.items[i].expr)
  }

  /** The shape every tree the parser builds has: the token types each node's tokens
      have, and the kinds of nodes its children are, one production per node type
      with children. The parser never builds a FunctionStatement (parser.js:784), so
      none is well formed. */
  predicate WellFormed(n: Node)
    decreases n, 2
  {
    match n
    case Block(_, _, _) => BlockFormed(n)
    case IfStatement(_, _, _, _, _, _) => IfFormed(n)
    case WhileStatement(_, _, _, _, _) => WhileFormed(n)
    case ForStatement(_, _, _, _, _, _, _, _, _) => ForFormed(n)
    case ExprStatement(_, _) => ExprStatementFormed(n)
    case LabeledStatement(_, _, _) => LabeledFormed(n)
    case FunctionStatement(_, _, _, _, _, _, _) => false
    case VarStatement(_, _, _) => VarFormed(n)
    case ReturnStatement(_, _, _) => ReturnFormed(n)
    case ThrowStatement(_, _, _) => ThrowFormed(n)
    case StringExpr(t) => t.kind == "STRING"
    case NumberExpr(t) => t.kind == "NUMBER"
    case NullExpr(t) => t.kind == "null"
    case TrueFalseExpr(t) => t.kind == "true" || t.kind == "false"
    case IdentExpr(t) => t.kind == "IDENT"
    case UnaryOpExpr(_, _) => UnaryFormed(n)
    case BinaryOpExpr(_, _, _) => BinaryFormed(n)
    case TernaryOpExpr(_, _, _, _, _) => TernaryFormed(n)
    case InvokeExpr(_, _, _, _, _, _) => InvokeFormed(n)
    case CallExpr(_, _, _, _) => CallFormed(n)
    case IndexExpr(_, _, _, _) => IndexFormed(n)
    case PropertyExpr(_, _, _) => PropertyFormed(n)
    case PrototypePropertyExpr(_, _, _) => PrototypeFormed(n)
    case NewExpr(_, _, _, _, _) => NewFormed(n)
    case FunctionExpr(_, _, _, _, _) => FunctionFormed(n)
    case ArrowFunctionExpr(_, _, _, _, _) => ArrowFormed(n)
    case SimpleArrowFunctionExpr(_, _) => SimpleArrowFormed(n)
    case ArrayExpr(_, _, _) => ArrayFormed(n)
    case ObjectExpr(_, _, _) => ObjectFormed(n)
    case GroupExpr(_, _, _) => GroupFormed(n)
    case PassExpr(at, handler) => at.kind == "@" && OptKind(handler, "IDENT")
    case YadaExpr(ident, dots) => ident.kind == "IDENT" && dots.kind == "..."
    case IncludePragma(kw, names) => kw.kind == "#include" && PragmaShape(names)
    case DeclarePragma(kw, names) => kw.kind == "#declare" && PragmaShape(names)
  }

  /** `{ statements }` */
  predicate BlockFormed(n: Node)
    requires n.Block?
    decreases n, 1
  {
    && n.lbrace.kind == "{" && n.rbrace.kind == "}"
    && forall i :: 0 <= i < |n.stmts| ==> IsStatement(n.stmts[i]) && WellFormed(n.stmts[i])
  }

  /** `if ( test ) block`, optionally `else` and a block or an if statement. */
  predicate IfFormed(n: Node)
    requires n.IfStatement?
    decreases n, 1
  {
    && n.ifTok.kind == "if" && n.lparen.kind == "(" && IsExpression(n.test) && WellFormed(n.test) && n.rparen.kind == ")"
    && n.block.Block? && WellFormed(n.block)
    && (n.elsePart.Some? ==>
          && n.elsePart.value.elseTok.kind == "else"
          && (n.elsePart.value.body.Block? || n.elsePart.value.body.IfStatement?)
          && WellFormed(n.elsePart.value.body))
  }

  /** `while ( test ) block` */
  predicate WhileFormed(n: Node)
    requires n.WhileStatement?
    decreases n, 1
  {
    && n.whileTok.kind == "while" && n.lparen.kind == "(" && IsExpression(n.test) && WellFormed(n.test) && n.rparen.kind == ")"
    && n.block.Block? && WellFormed(n.block)
  }

  /** `for ( inits ; tests ; updates ) block` */
  predicate ForFormed(n: Node)
    requires n.ForStatement?
    decreases n, 1
  {
    && n.forTok.kind == "for" && n.lparen.kind == "(" && ListOk(n.inits) && n.semi1.kind == ";"
    && ListOk(n.tests) && n.semi2.kind == ";" && ListOk(n.updates) && n.rparen.kind == ")"
    && n.block.Block? && WellFormed(n.block)
  }

  /** `;` alone or `expr ;` */
  predicate ExprStatementFormed(n: Node)
    requires n.ExprStatement?
    decreases n, 1
  {
    n.semi.kind == ";" && (n.expr.Some? ==> IsExpression(n.expr.value) && WellFormed(n.expr.value))
  }

  /** `name : ` before a while or for loop. */
  predicate LabeledFormed(n: Node)
    requires n.LabeledStatement?
    decreases n, 1
  {
    && n.name.kind == "IDENT" && n.colon.kind == ":"
    && (n.loop.WhileStatement? || n.loop.ForStatement?) && WellFormed(n.loop)
  }

  /** `var list ;` */
  predicate VarFormed(n: Node)
    requires n.VarStatement?
    decreases n, 1
  {
    n.varTok.kind == "var" && ListOk(n.decls) && n.semi.kind == ";"
  }

  /** `return ;` or `return expr ;` */
  predicate ReturnFormed(n: Node)
    requires n.ReturnStatement?
    decreases n, 1
  {
    n.retTok.kind == "return" && n.semi.kind == ";" && (n.value.Some? ==> IsExpression(n.value.value) && WellFormed(n.value.value))
  }

  /** `throw expr ;` */
  predicate ThrowFormed(n: Node)
    requires n.ThrowStatement?
    decreases n, 1
  {
    n.throwTok.kind == "throw" && IsExpression(n.thrown) && WellFormed(n.thrown) && n.semi.kind == ";"
  }

  /** A prefix operator and its operand. */
  predicate UnaryFormed(n: Node)
    requires n.UnaryOpExpr?
    decreases n, 1
  {
    IsUnaryOp(n.op.kind) && IsExpression(n.operand) && WellFormed(n.operand)
  }

  /** `left op right` for a binary or assignment operator. */
  predicate BinaryFormed(n: Node)
    requires n.BinaryOpExpr?
    decreases n, 1
  {
    (IsLeftAssocOp(n.op.kind) || IsAssignOp(n.op.kind)) && IsExpression(n.left) && WellFormed(n.left) && IsExpression(n.right) && WellFormed(n.right)
  }

  /** `cond ? ifTrue : ifFalse` */
  predicate TernaryFormed(n: Node)
    requires n.TernaryOpExpr?
    decreases n, 1
  {
    n.qmark.kind == "?" && n.colon.kind == ":" && IsExpression(n.cond) && WellFormed(n.cond) && IsExpression(n.ifTrue) && WellFormed(n.ifTrue) && IsExpression(n.ifFalse) && WellFormed(n.ifFalse)
  }

  /** `target . name ( args )` */
  predicate InvokeFormed(n: Node)
    requires n.InvokeExpr?
    decreases n, 1
  {
    && IsExpression(n.target) && WellFormed(n.target) && n.dot.kind == "." && n.name.kind == "IDENT"
    && n.lparen.kind == "(" && ListOk(n.args) && n.rparen.kind == ")"
  }

  /** `target ( args )` */
  predicate CallFormed(n: Node)
    requires n.CallExpr?
    decreases n, 1
  {
    IsExpression(n.target) && WellFormed(n.target) && n.lparen.kind == "(" && ListOk(n.args) && n.rparen.kind == ")"
  }

  /** `target [ index ]` */
  predicate IndexFormed(n: Node)
    requires n.IndexExpr?
    decreases n, 1
  {
    IsExpression(n.target) && WellFormed(n.target) && n.lbracket.kind == "[" && IsExpression(n.index) && WellFormed(n.index) && n.rbracket.kind == "]"
  }

  /** `target . name` */
  predicate PropertyFormed(n: Node)
    requires n.PropertyExpr?
    decreases n, 1
  {
    IsExpression(n.target) && WellFormed(n.target) && n.dot.kind == "." && n.name.kind == "IDENT"
  }

  /** `target ::` and an optional member name. */
  predicate PrototypeFormed(n: Node)
    requires n.PrototypePropertyExpr?
    decreases n, 1
  {
    IsExpression(n.target) && WellFormed(n.target) && n.colons.kind == "::" && OptKind(n.member, "IDENT")
  }

  /** `new target ( args )` */
  predicate NewFormed(n: Node)
    requires n.NewExpr?
    decreases n, 1
  {
    && n.newTok.kind == "new" && IsNewTarget(n.target) && IsExpression(n.target) && WellFormed(n.target)
    && n.lparen.kind == "(" && ListOk(n.args) && n.rparen.kind == ")"
  }

  /** `( params ) block`, with an optional `: name` before the block. */
  predicate FunctionFormed(n: Node)
    requires n.FunctionExpr?
    decreases n, 1
  {
    && n.lparen.kind == "(" && ListOk(n.args) && CheckFormalParams(n.args.items) && n.rparen.kind == ")"
    && ThisOk(n.thisPart) && n.block.Block? && WellFormed(n.block)
  }

  /** `( params ) -> body` */
  predicate ArrowFormed(n: Node)
    requires n.ArrowFunctionExpr?
    decreases n, 1
  {
    && n.lparen.kind == "(" && ListOk(n.args) && CheckFormalParams(n.args.items) && n.rparen.kind == ")"
    && n.arrow.kind == "->" && IsExpression(n.body) && WellFormed(n.body)
  }

  /** `-> body` */
  predicate SimpleArrowFormed(n: Node)
    requires n.SimpleArrowFunctionExpr?
    decreases n, 1
  {
    n.arrow.kind == "->" && IsExpression(n.body) && WellFormed(n.body)
  }

  /** `[ elements ]` */
  predicate ArrayFormed(n: Node)
    requires n.ArrayExpr?
    decreases n, 1
  {
    n.lbracket.kind == "[" && ListOk(n.elements) && n.rbracket.kind == "]"
  }

  /** `{ key : value , ... }` */
  predicate ObjectFormed(n: Node)
    requires n.ObjectExpr?
    decreases n, 1
  {
    && n.lbrace.kind == "{" && n.rbrace.kind == "}" && PropsShape(n.props)
    && forall i :: 0 <= i < |n.props| ==> IsExpression(n.props[i].value) && WellFormed(n.props[i].value)
  }

  /** `( expr )` */
  predicate GroupFormed(n: Node)
    requires n.GroupExpr?
    decreases n, 1
  {
    n.lparen.kind == "(" && IsExpression(n.inner) && WellFormed(n.inner) && n.rparen.kind == ")"
  }

  // ---------------------------------------------------------------------
  // Building well-formed nodes: each parse method calls the lemma of the node it
  // builds, so that its own proof never unfolds the grammar.

  lemma WellFormedUnary(op: Token, operand: Node)
    requires IsUnaryOp(op.kind) && IsExpression(operand) && WellFormed(operand)
    ensures WellFormed(UnaryOpExpr(op, operand))
  {
  }

  lemma WellFormedBinary(left: Node, op: Token, right: Node)
    requires IsLeftAssocOp(op.kind) || IsAssignOp(op.kind)
    requires IsExpression(left) && WellFormed(left) && IsExpression(right) && WellFormed(right)
    ensures WellFormed(BinaryOpExpr(left, op, right))
  {
  }

  lemma WellFormedTernary(cond: Node, qmark: Token, ifTrue: Node, colon: Token, ifFalse: Node)
    requires qmark.kind == "?" && colon.kind == ":"
    requires IsExpression(cond) && WellFormed(cond) && IsExpression(ifTrue) && WellFormed(ifTrue)
    requires IsExpression(ifFalse) && WellFormed(ifFalse)
    ensures WellFormed(TernaryOpExpr(cond, qmark, ifTrue, colon, ifFalse))
  {
  }

  lemma WellFormedInvoke(target: Node, dot: Token, name: Token, lparen: Token, args: ExprList, rparen: Token)
    requires IsExpression(target) && WellFormed(target) && dot.kind == "." && name.kind == "IDENT"
    requires lparen.kind == "(" && ListOk(args) && rparen.kind == ")"
    ensures WellFormed(InvokeExpr(target, dot, name, lparen, args, rparen))
  {
  }

  lemma WellFormedCall(target: Node, lparen: Token, args: ExprList, rparen: Token)
    requires IsExpression(target) && WellFormed(target) && lparen.kind == "(" && ListOk(args) && rparen.kind == ")"
    ensures WellFormed(CallExpr(target, lparen, args, rparen))
  {
  }

  lemma WellFormedIndex(target: Node, lbracket: Token, index: Node, rbracket: Token)
    requires IsExpression(target) && WellFormed(target) && lbracket.kind == "["
    requires IsExpression(index) && WellFormed(index) && rbracket.kind == "]"
    ensures WellFormed(IndexExpr(target, lbracket, index, rbracket))
  {
  }

  lemma WellFormedProperty(target: Node, dot: Token, name: Token)
    requires IsExpression(target) && WellFormed(target) && dot.kind == "." && name.kind == "IDENT"
    ensures WellFormed(PropertyExpr(target, dot, name))
  {
  }

  lemma WellFormedPrototype(target: Node, colons: Token, member: Option<Token>)
    requires IsExpression(target) && WellFormed(target) && colons.kind == "::" && OptKind(member, "IDENT")
    ensures WellFormed(PrototypePropertyExpr(target, colons, member))
  {
  }

  lemma WellFormedNew(newTok: Token, target: Node, lparen: Token, args: ExprList, rparen: Token)
    requires newTok.kind == "new" && IsNewTarget(target) && IsExpression(target) && WellFormed(target)
    requires lparen.kind == "(" && ListOk(args) && rparen.kind == ")"
    ensures WellFormed(NewExpr(newTok, target, lparen, args, rparen))
  {
  }

  lemma WellFormedFunction(lparen: Token, args: ExprList, rparen: Token, thisPart: Option<ThisPart>, block: Node)
    requires lparen.kind == "(" && ListOk(args) && CheckFormalParams(args.items) && rparen.kind == ")"
    requires ThisOk(thisPart) && block.Block? && WellFormed(block)
    ensures WellFormed(FunctionExpr(lparen, args, rparen, thisPart, block))
  {
  }

  lemma WellFormedArrow(lparen: Token, args: ExprList, rparen: Token, arrow: Token, body: Node)
    requires lparen.kind == "(" && ListOk(args) && CheckFormalParams(args.items) && rparen.kind == ")"
    requires arrow.kind == "->" && IsExpression(body) && WellFormed(body)
    ensures WellFormed(ArrowFunctionExpr(lparen, args, rparen, arrow, body))
  {
  }

  lemma WellFormedSimpleArrow(arrow: Token, body: Node)
    requires arrow.kind == "->" && IsExpression(body) && WellFormed(body)
    ensures WellFormed(SimpleArrowFunctionExpr(arrow, body))
  {
  }

  lemma WellFormedArray(lbracket: Token, elements: ExprList, rbracket: Token)
    requires lbracket.kind == "[" && ListOk(elements) && rbracket.kind == "]"
    ensures WellFormed(ArrayExpr(lbracket, elements, rbracket))
  {
  }

  lemma WellFormedObject(lbrace: Token, props: seq<Prop>, rbrace: Token)
    requires lbrace.kind == "{" && rbrace.kind == "}" && PropsShape(props)
    requires forall i :: 0 <= i < |props| ==> IsExpression(props[i].value) && WellFormed(props[i].value)
    ensures WellFormed(ObjectExpr(lbrace, props, rbrace))
  {
  }

  lemma WellFormedGroup(lparen: Token, inner: Node, rparen: Token)
    requires lparen.kind == "(" && IsExpression(inner) && WellFormed(inner) && rparen.kind == ")"
    ensures WellFormed(GroupExpr(lparen, inner, rparen))
  {
  }

  lemma WellFormedBlock(lbrace: Token, stmts: seq<Node>, rbrace: Token)
    requires lbrace.kind == "{" && rbrace.kind == "}"
    requires forall i :: 0 <= i < |stmts| ==> IsStatement(stmts[i]) && WellFormed(stmts[i])
    ensures WellFormed(Block(lbrace, stmts, rbrace))
  {
  }

  lemma WellFormedIf(ifTok: Token, lparen: Token, test: Node, rparen: Token, block: Node, elsePart: Option<ElsePart>)
    requires ifTok.kind == "if" && lparen.kind == "(" && IsExpression(test) && WellFormed(test) && rparen.kind == ")"
    requires block.Block? && WellFormed(block)
    requires elsePart.Some? ==>
      && elsePart.value.elseTok.kind == "else"
      && (elsePart.value.body.Block? || elsePart.value.body.IfStatement?)
      && WellFormed(elsePart.value.body)
    ensures WellFormed(IfStatement(ifTok, lparen, test, rparen, block, elsePart))
  {
  }

  lemma WellFormedWhile(whileTok: Token, lparen: Token, test: Node, rparen: Token, block: Node)
    requires whileTok.kind == "while" && lparen.kind == "(" && IsExpression(test) && WellFormed(test) && rparen.kind == ")"
    requires block.Block? && WellFormed(block)
    ensures WellFormed(WhileStatement(whileTok, lparen, test, rparen, block))
  {
  }

  lemma WellFormedFor(forTok: Token, lparen: Token, inits: ExprList, semi1: Token, tests: ExprList,
                      semi2: Token, updates: ExprList, rparen: Token, block: Node)
    requires forTok.kind == "for" && lparen.kind == "(" && ListOk(inits) && semi1.kind == ";"
    requires ListOk(tests) && semi2.kind == ";" && ListOk(updates) && rparen.kind == ")"
    requires block.Block? && WellFormed(block)
    ensures WellFormed(ForStatement(forTok, lparen, inits, semi1, tests, semi2, updates, rparen, block))
  {
  }

  lemma WellFormedExprStatement(expr: Option<Node>, semi: Token)
    requires semi.kind == ";" && (expr.Some? ==> IsExpression(expr.value) && WellFormed(expr.value))
    ensures WellFormed(ExprStatement(expr, semi))
  {
  }

  lemma WellFormedLabeled(name: Token, colon: Token, loop: Node)
    requires name.kind == "IDENT" && colon.kind == ":"
    requires (loop.WhileStatement? || loop.ForStatement?) && WellFormed(loop)
    ensures WellFormed(LabeledStatement(name, colon, loop))
  {
  }

  lemma WellFormedVar(varTok: Token, decls: ExprList, semi: Token)
    requires varTok.kind == "var" && ListOk(decls) && semi.kind == ";"
    ensures WellFormed(VarStatement(varTok, decls, semi))
  {
  }

  lemma WellFormedReturn(retTok: Token, value: Option<Node>, semi: Token)
    requires retTok.kind == "return" && semi.kind == ";"
    requires value.Some? ==> IsExpression(value.value) && WellFormed(value.value)
    ensures WellFormed(ReturnStatement(retTok, value, semi))
  {
  }

  lemma WellFormedThrow(throwTok: Token, thrown: Node, semi: Token)
    requires throwTok.kind == "throw" && IsExpression(thrown) && WellFormed(thrown) && semi.kind == ";"
    ensures WellFormed(ThrowStatement(throwTok, thrown, semi))
  {
  }

  // ---------------------------------------------------------------------
  // Operator precedence (parser.js:430-471)

  /** The left-associative binary operators of the infix loop (parser.js:535-547). */
  predicate IsLeftAssocOp(kind: string) {
    kind in {"+", "-", "*", "/", "%", "==", "!=", "<", "<=", ">", ">=", "&&", "||"}
  }

  /** The assignment operators, which associate to the right (parser.js:556-561). */
  predicate IsAssignOp(kind: string) {
    kind in {"=", "+=", "-=", "*=", "/=", "%="}
  }

  /** The token types `precOf` has a case for. */
  predicate HasPrec(kind: string) {
    IsLeftAssocOp(kind) || IsAssignOp(kind) || kind == "instanceof" || kind == "?"
  }

  function PrecOf(kind: string): (p: nat)
    requires HasPrec(kind)
    ensures 5 <= p <= 60
  {
    if kind in {"*", "/", "%"} then 60
    else if kind in {"+", "-"} then 50
    else if kind in {"<", "<=", ">", ">=", "instanceof"} then 40
    else if kind in {"==", "!="} then 30
    else if kind == "&&" then 20
    else if kind == "||" then 10
    else if kind == "?" then 7
    else 5
  }

  /** The threshold a prefix operator parses its operand with. */
  const MaxPrec: nat := 100

  /** Whether the infix loop running at threshold `prec` takes an operator of type `kind`:
      strictly above the threshold for left-associative operators, at or above it for
      assignment and `?`. */
  predicate Absorbs(kind: string, prec: int) {
    (IsLeftAssocOp(kind) && PrecOf(kind) > prec)
    || ((IsAssignOp(kind) || kind == "?") && PrecOf(kind) >= prec)
  }

  /** The postfix forms the loop takes whatever the threshold (parser.js:579-616). */
  predicate IsPostfix(kind: string) {
    kind in {".", "(", "[", "::", "..."}
  }

  /** Whether the infix/postfix loop at threshold `prec` continues on a token of type `kind`. */
  predicate Continues(kind: string, prec: int) {
    Absorbs(kind, prec) || IsPostfix(kind)
  }

  /** The node types that end in an operand parsed at a threshold of their own. */
  predicate IsOperatorNode(e: Node) {
    e.UnaryOpExpr? || e.BinaryOpExpr? || e.TernaryOpExpr?
  }

  /** The inner parse that built the right end of `e` stopped at a token of type
      `kind`: the loop parsing that operand did not continue on it. */
  predicate StoppedBefore(e: Node, kind: string) {
    match e
    case BinaryOpExpr(_, op, _) => HasPrec(op.kind) && !Continues(kind, PrecOf(op.kind))
    case TernaryOpExpr(_, _, _, _, _) => !Continues(kind, PrecOf("?"))
    case UnaryOpExpr(_, _) => !Continues(kind, MaxPrec)
    case _ => true
  }

  /** The shape `parseExpr(prec)` gives its result: every operator on the infix spine
      was absorbed at the threshold in force, its right operand was parsed at the
      operator's own precedence, and the operand to its left stopped before it; the
      middle of `?:` was parsed at threshold 0; a prefix operator's operand was parsed
      at the highest threshold; and a postfix form follows an operand that is not an
      operator node, since postfix forms bind tightest. */
  predicate Absorbed(e: Node, prec: int) {
    match e
    case BinaryOpExpr(l, op, r) =>
      && (IsLeftAssocOp(op.kind) || IsAssignOp(op.kind))
      && Absorbs(op.kind, prec)
      && Absorbed(l, prec)
      && StoppedBefore(l, op.kind)
      && Absorbed(r, PrecOf(op.kind))
    case TernaryOpExpr(c, q, t, _, f) =>
      && q.kind == "?"
      && Absorbs("?", prec)
      && Absorbed(c, prec)
      && StoppedBefore(c, "?")
      && Absorbed(t, 0)
      && Absorbed(f, PrecOf("?"))
    case UnaryOpExpr(_, x) => Absorbed(x, MaxPrec)
    case InvokeExpr(t, _, _, _, _, _) => !IsOperatorNode(t) && Absorbed(t, MaxPrec)
    case CallExpr(t, _, _, _) => !IsOperatorNode(t) && Absorbed(t, MaxPrec)
    case IndexExpr(t, _, _, _) => !IsOperatorNode(t) && Absorbed(t, MaxPrec)
    case PropertyExpr(t, _, _) => !IsOperatorNode(t) && Absorbed(t, MaxPrec)
    case PrototypePropertyExpr(t, _, _) => !IsOperatorNode(t) && Absorbed(t, MaxPrec)
    case _ => true
  }

  /** A node with no infix operator on its spine has the shape at every threshold. */
  lemma AbsorbedAtom(e: Node, p: int, q: int)
    requires !e.BinaryOpExpr? && !e.TernaryOpExpr? && Absorbed(e, p)
    ensures Absorbed(e, q)
  {
  }

  // ---------------------------------------------------------------------
  // What the precedence shape implies for operator-and-operand sequences

  /** A tree built only from binary operators over number and identifier leaves. */
  predicate OpTree(e: Node) {
    match e
    case NumberExpr(_) => true
    case IdentExpr(_) => true
    case BinaryOpExpr(l, _, r) => OpTree(l) && OpTree(r)
    case _ => false
  }

  /** The tokens of an OpTree in source order. */
  function OpTokens(e: Node): (ts: seq<Token>)
    requires OpTree(e)
    ensures |ts| % 2 == 1
  {
    match e
    case BinaryOpExpr(l, op, r) => OpTokens(l) + [op] + OpTokens(r)
    case NumberExpr(t) => [t]
    case IdentExpr(t) => [t]
  }

  /** Splits an OpTree with three tokens into its operands and operator. */
  lemma OpTokensTriple(e: Node)
    requires OpTree(e) && |OpTokens(e)| == 3
    ensures e.BinaryOpExpr? && OpTokens(e.left) == [OpTokens(e)[0]]
    ensures e.op == OpTokens(e)[1] && OpTokens(e.right) == [OpTokens(e)[2]]
  {
    assert |OpTokens(e.left)| + |OpTokens(e.right)| == 2;
  }

  /** The parse of an operand, operator, operand, operator, operand sequence: which of
      the two operators ends up on top, by Absorbed alone. */
  lemma {:induction false} SplitFive(e: Node)
    requires OpTree(e) && |OpTokens(e)| == 5
    ensures e.BinaryOpExpr?
    ensures || (|OpTokens(e.left)| == 1 && e.op == OpTokens(e)[1] && OpTokens(e.right) == OpTokens(e)[2..])
            || (|OpTokens(e.left)| == 3 && e.op == OpTokens(e)[3] && OpTokens(e.left) == OpTokens(e)[..3])
  {
    var ts := OpTokens(e);
    if e.BinaryOpExpr? {
      var ls, rs := OpTokens(e.left), OpTokens(e.right);
      assert ts == ls + [e.op] + rs;
      assert |ls| == 1 || |ls| == 3;
      if |ls| == 1 {
        assert ts[1] == e.op && ts[2..] == rs;
      } else {
        assert ts[3] == e.op && ts[..3] == ls;
      }
    }
  }

  /** `1 + 2 * 3` groups as `1 + (2 * 3)`. */
  lemma {:induction false} TighterOperatorBindsFirst(e: Node, lo: string, hi: string)
    requires IsLeftAssocOp(lo) && IsLeftAssocOp(hi) && PrecOf(lo) < PrecOf(hi)
    requires OpTree(e) && |OpTokens(e)| == 5 && Absorbed(e, 0)
    requires OpTokens(e)[1].kind == lo && OpTokens(e)[3].kind == hi
    ensures e.BinaryOpExpr? && e.op.kind == lo
    ensures e.right.BinaryOpExpr? && e.right.op.kind == hi
  {
    SplitFive(e);
    var ts := OpTokens(e);
    if |OpTokens(e.left)| == 3 {
      OpTokensTriple(e.left);
    } else {
      OpTokensTriple(e.right);
      assert e.right.op == ts[3];
    }
  }

  /** `1 - 2 - 3` groups as `(1 - 2) - 3`: equal precedence associates to the left. */
  lemma {:induction false} LeftAssociative(e: Node, op1: string, op2: string)
    requires IsLeftAssocOp(op1) && IsLeftAssocOp(op2) && PrecOf(op1) == PrecOf(op2)
    requires OpTree(e) && |OpTokens(e)| == 5 && Absorbed(e, 0)
    requires OpTokens(e)[1].kind == op1 && OpTokens(e)[3].kind == op2
    ensures e.BinaryOpExpr? && e.op.kind == op2
    ensures e.left.BinaryOpExpr? && e.left.op.kind == op1
  {
    SplitFive(e);
    var ts := OpTokens(e);
    if |OpTokens(e.left)| == 1 {
      OpTokensTriple(e.right);
    } else {
      OpTokensTriple(e.left);
      assert e.left.op == ts[1];
    }
  }

  /** `a = b = 1` groups as `a = (b = 1)`: assignment associates to the right. */
  lemma {:induction false} AssignRightAssociative(e: Node, op1: string, op2: string)
    requires IsAssignOp(op1) && IsAssignOp(op2)
    requires OpTree(e) && |OpTokens(e)| == 5 && Absorbed(e, 0)
    requires OpTokens(e)[1].kind == op1 && OpTokens(e)[3].kind == op2
    ensures e.BinaryOpExpr? && e.op.kind == op1
    ensures e.right.BinaryOpExpr? && e.right.op.kind == op2
  {
    SplitFive(e);
    var ts := OpTokens(e);
    if |OpTokens(e.left)| == 3 {
      OpTokensTriple(e.left);
    } else {
      OpTokensTriple(e.right);
      assert e.right.op == ts[3];
    }
  }
}
