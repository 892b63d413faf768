/** What ast.js prints for a syntax tree: `render` replays each token's text and
    the whitespace after it, and a few node types print something else in place of
    their tokens (ast.js:35-49 and the node-specific `render` methods). The
    reference the renderer is compared with is `Source`: the tree's tokens, in the
    order they appear in the text, each with its whitespace. */
module Rendering {
  import opened Base
  import opened Syntax

  // ---------------------------------------------------------------------
  // The tokens of a tree, in text order

  /** A token as `render` prints it: its text, then its whitespace. */
  function TokenText(t: Token): string {
    t.text + t.ws
  }

  function OptTokens(t: Option<Token>): seq<Token> {
    if t.Some? then [t.value] else []
  }

  /** The text of a run of tokens. */
  function TextOf(ts: seq<Token>): string {
    if ts == [] then "" else TokenText(ts[0]) + TextOf(ts[1..])
  }

  lemma {:induction false} TextOfAppend(a: seq<Token>, b: seq<Token>)
    ensures TextOf(a + b) == TextOf(a) + TextOf(b)
  {
    if a != [] {
      assert (a + b)[0] == a[0];
      assert (a + b)[1..] == a[1..] + b;
      TextOfAppend(a[1..], b);
      assert a + b != [];
      assert TextOf(a + b) == TokenText(a[0]) + TextOf(a[1..] + b);
    } else {
      assert a + b == b;
    }
  }

  /** Every token of `n`, in the order the parser read them; the `: name` of a
      function comes between its parameter list and its body, where it stands. */
  function Tokens(n: Node): seq<Token>
    decreases n, 1
  {
    match n
    case Block(l, ss, r) => [l] + NodesTokens(ss) + [r]
    case IfStatement(i, lp, t, rp, b, e) =>
      [i, lp] + Tokens(t) + [rp] + Tokens(b) + (if e.Some? then [e.value.elseTok] + Tokens(e.value.body) else [])
    case WhileStatement(w, lp, t, rp, b) => [w, lp] + Tokens(t) + [rp] + Tokens(b)
    case ForStatement(f, lp, i, s1, t, s2, u, rp, b) =>
      [f, lp] + ItemsTokens(i.items) + [s1] + ItemsTokens(t.items) + [s2] + ItemsTokens(u.items) + [rp] + Tokens(b)
    case ExprStatement(e, semi) => (if e.Some? then Tokens(e.value) else []) + [semi]
    case LabeledStatement(name, colon, loop) => [name, colon] + Tokens(loop)
    case FunctionStatement(f, name, lp, args, rp, tp, b) =>
      [f, name, lp] + ItemsTokens(args.items) + [rp] + ThisTokens(tp) + Tokens(b)
    case VarStatement(v, decls, semi) => [v] + ItemsTokens(decls.items) + [semi]
    case ReturnStatement(r, e, semi) => [r] + (if e.Some? then Tokens(e.value) else []) + [semi]
    case ThrowStatement(t, e, semi) => [t] + Tokens(e) + [semi]
    case StringExpr(t) => [t]
    case NumberExpr(t) => [t]
    case NullExpr(t) => [t]
    case TrueFalseExpr(t) => [t]
    case IdentExpr(t) => [t]
    case UnaryOpExpr(op, e) => [op] + Tokens(e)
    case BinaryOpExpr(l, op, r) => Tokens(l) + [op] + Tokens(r)
    case TernaryOpExpr(c, q, a, colon, b) => Tokens(c) + [q] + Tokens(a) + [colon] + Tokens(b)
    case InvokeExpr(e, dot, name, lp, args, rp) => Tokens(e) + [dot] + [name] + [lp] + ItemsTokens(args.items) + [rp]
    case CallExpr(e, lp, args, rp) => Tokens(e) + [lp] + ItemsTokens(args.items) + [rp]
    case IndexExpr(e, lb, i, rb) => Tokens(e) + [lb] + Tokens(i) + [rb]
    case PropertyExpr(e, dot, name) => Tokens(e) + [dot] + [name]
    case PrototypePropertyExpr(e, colons, m) => Tokens(e) + [colons] + OptTokens(m)
    case NewExpr(nw, e, lp, args, rp) => [nw] + Tokens(e) + [lp] + ItemsTokens(args.items) + [rp]
    case FunctionExpr(lp, args, rp, tp, b) => [lp] + ItemsTokens(args.items) + [rp] + ThisTokens(tp) + Tokens(b)
    case ArrowFunctionExpr(lp, args, rp, arrow, e) => [lp] + ItemsTokens(args.items) + [rp, arrow] + Tokens(e)
    case SimpleArrowFunctionExpr(arrow, e) => [arrow] + Tokens(e)
    case ArrayExpr(lb, elems, rb) => [lb] + ItemsTokens(elems.items) + [rb]
    case ObjectExpr(lb, ps, rb) => [lb] + PropsTokens(ps) + [rb]
    case GroupExpr(lp, e, rp) => [lp] + Tokens(e) + [rp]
    case PassExpr(at, h) => [at] + OptTokens(h)
    case YadaExpr(ident, dots) => [ident, dots]
    case IncludePragma(kw, names) => [kw] + PragmaTokens(names)
    case DeclarePragma(kw, names) => [kw] + PragmaTokens(names)
  }

  function NodesTokens(ss: seq<Node>): seq<Token>
    decreases ss, 0
  {
    if ss == [] then [] else Tokens(ss[0]) + NodesTokens(ss[1..])
  }

  function ItemsTokens(items: seq<Item>): seq<Token>
    decreases items, 0
  {
    if items == [] then [] else ItemTokens(items[0]) + ItemsTokens(items[1..])
  }

  function ItemTokens(it: Item): seq<Token>
    decreases it, 0
  {
    Tokens(it.expr) + OptTokens(it.comma)
  }

  function PropsTokens(ps: seq<Prop>): seq<Token>
    decreases ps, 0
  {
    if ps == [] then [] else PropTokens(ps[0]) + PropsTokens(ps[1..])
  }

  function PropTokens(p: Prop): seq<Token>
    decreases p, 0
  {
    [p.key, p.colon] + Tokens(p.value) + OptTokens(p.comma)
  }

  function ThisTokens(tp: Option<ThisPart>): seq<Token> {
    if tp.Some? then [tp.value.colon, tp.value.name] else []
  }

  function PragmaTokens(names: seq<PragmaItem>): seq<Token> {
    if names == [] then [] else [names[0].name, names[0].sep] + PragmaTokens(names[1..])
  }

  /** Concatenation is associative. */
  lemma Assoc(a: seq<Token>, b: seq<Token>, c: seq<Token>)
    ensures a + b + c == a + (b + c)
  {
  }

  // Appending one more element of a list appends its tokens.

  lemma {:induction false} NodesTokensSnoc(ss: seq<Node>, s: Node)
    ensures NodesTokens(ss + [s]) == NodesTokens(ss) + Tokens(s)
  {
    if ss == [] {
      assert ss + [s] == [s] && [s][1..] == [];
    } else {
      assert (ss + [s])[0] == ss[0] && (ss + [s])[1..] == ss[1..] + [s];
      NodesTokensSnoc(ss[1..], s);
      Assoc(Tokens(ss[0]), NodesTokens(ss[1..]), Tokens(s));
    }
  }

  lemma {:induction false} ItemsTokensSnoc(items: seq<Item>, it: Item)
    ensures ItemsTokens(items + [it]) == ItemsTokens(items) + ItemTokens(it)
  {
    if items == [] {
      assert items + [it] == [it] && [it][1..] == [];
    } else {
      assert (items + [it])[0] == items[0] && (items + [it])[1..] == items[1..] + [it];
      ItemsTokensSnoc(items[1..], it);
      Assoc(ItemTokens(items[0]), ItemsTokens(items[1..]), ItemTokens(it));
    }
  }

  lemma {:induction false} PropsTokensSnoc(ps: seq<Prop>, p: Prop)
    ensures PropsTokens(ps + [p]) == PropsTokens(ps) + PropTokens(p)
  {
    if ps == [] {
      assert ps + [p] == [p] && [p][1..] == [];
    } else {
      assert (ps + [p])[0] == ps[0] && (ps + [p])[1..] == ps[1..] + [p];
      PropsTokensSnoc(ps[1..], p);
      Assoc(PropTokens(ps[0]), PropsTokens(ps[1..]), PropTokens(p));
    }
  }

  lemma {:induction false} PragmaTokensSnoc(names: seq<PragmaItem>, n: PragmaItem)
    ensures PragmaTokens(names + [n]) == PragmaTokens(names) + [n.name, n.sep]
  {
    if names == [] {
      assert names + [n] == [n] && [n][1..] == [];
    } else {
      assert (names + [n])[0] == names[0] && (names + [n])[1..] == names[1..] + [n];
      PragmaTokensSnoc(names[1..], n);
      Assoc([names[0].name, names[0].sep], PragmaTokens(names[1..]), [n.name, n.sep]);
    }
  }

  /** The tree's tokens, each followed by the whitespace captured after it, in the
      order the parser read them (`Parsing.Parser.Parse` states that the statements'
      tokens are exactly the tokens it read). */
  function Source(n: Node): string {
    TextOf(Tokens(n))
  }

  /** The token a validation error is reported at is the first token of the node. */
  lemma {:induction false} LeftmostIsFirstToken(n: Node)
    ensures Tokens(n) != [] && Tokens(n)[0] == Leftmost(n)
  {
    if IsLeftRecursive(n) {
      var c := LeftChild(n);
      LeftmostIsFirstToken(c);
      LeftChildFirstToken(n);
    } else if IsStatement(n) || n.Block? {
      StatementFirstToken(n);
    } else {
      ExpressionFirstToken(n);
    }
  }

  /** The nodes whose first child is a node, not a token. */
  predicate IsLeftRecursive(n: Node) {
    || (n.ExprStatement? && n.expr.Some?) || n.BinaryOpExpr? || n.TernaryOpExpr? || n.InvokeExpr?
    || n.CallExpr? || n.IndexExpr? || n.PropertyExpr? || n.PrototypePropertyExpr?
  }

  function LeftChild(n: Node): (c: Node)
    requires IsLeftRecursive(n)
    ensures c < n
  {
    match n
    case ExprStatement(e, _) => e.value
    case BinaryOpExpr(l, _, _) => l
    case TernaryOpExpr(c, _, _, _, _) => c
    case InvokeExpr(e, _, _, _, _, _) => e
    case CallExpr(e, _, _, _) => e
    case IndexExpr(e, _, _, _) => e
    case PropertyExpr(e, _, _) => e
    case PrototypePropertyExpr(e, _, _) => e
  }

  lemma LeftChildFirstToken(n: Node)
    requires IsLeftRecursive(n)
    requires Tokens(LeftChild(n)) != [] && Tokens(LeftChild(n))[0] == Leftmost(LeftChild(n))
    ensures Tokens(n) != [] && Tokens(n)[0] == Leftmost(n)
  {
  }

  lemma StatementFirstToken(n: Node)
    requires (IsStatement(n) || n.Block?) && !IsLeftRecursive(n)
    ensures Tokens(n) != [] && Tokens(n)[0] == Leftmost(n)
  {
  }

  lemma ExpressionFirstToken(n: Node)
    requires !IsStatement(n) && !n.Block? && !IsLeftRecursive(n)
    ensures Tokens(n) != [] && Tokens(n)[0] == Leftmost(n)
  {
  }

  // ---------------------------------------------------------------------
  // render (ast.js:35-49 and the node-specific render methods)

  function OptText(t: Option<Token>): string {
    if t.Some? then TokenText(t.value) else ""
  }

  /** What `render` prints for a node. */
  function Render(n: Node): string
    decreases n, 2
  {
    match n
    case Block(l, ss, r) => TokenText(l) + RenderNodes(ss) + TokenText(r)
    case IfStatement(i, lp, t, rp, b, e) =>
      TokenText(i) + TokenText(lp) + Render(t) + TokenText(rp) + Render(b)
        + (if e.Some? then TokenText(e.value.elseTok) + Render(e.value.body) else "")
    case WhileStatement(w, lp, t, rp, b) => TokenText(w) + TokenText(lp) + Render(t) + TokenText(rp) + Render(b)
    case ForStatement(f, lp, i, s1, t, s2, u, rp, b) =>
      TokenText(f) + TokenText(lp) + RenderItems(i.items) + TokenText(s1) + RenderItems(t.items) + TokenText(s2)
        + RenderItems(u.items) + TokenText(rp) + Render(b)
    case ExprStatement(e, semi) => (if e.Some? then Render(e.value) else "") + TokenText(semi)
    case LabeledStatement(name, colon, loop) => TokenText(name) + TokenText(colon) + Render(loop)
    case FunctionStatement(f, name, _, _, _, _, _) => TokenText(f) + TokenText(name) + RenderFunction(n)
    case VarStatement(v, decls, semi) => TokenText(v) + RenderItems(decls.items) + TokenText(semi)
    case ReturnStatement(r, e, semi) => TokenText(r) + (if e.Some? then Render(e.value) else "") + TokenText(semi)
    case ThrowStatement(t, e, semi) => TokenText(t) + Render(e) + TokenText(semi)
    case StringExpr(t) => TokenText(t)
    case NumberExpr(t) => TokenText(t)
    case NullExpr(t) => TokenText(t)
    case TrueFalseExpr(t) => TokenText(t)
    case IdentExpr(t) => TokenText(t)
    case UnaryOpExpr(op, e) => TokenText(op) + Render(e)
    case BinaryOpExpr(l, op, r) => Render(l) + RenderOperator(op) + Render(r)
    case TernaryOpExpr(c, q, a, colon, b) => Render(c) + TokenText(q) + Render(a) + TokenText(colon) + Render(b)
    case InvokeExpr(e, dot, name, lp, args, rp) =>
      Render(e) + TokenText(dot) + TokenText(name) + TokenText(lp) + RenderItems(args.items) + TokenText(rp)
    case CallExpr(e, lp, args, rp) => Render(e) + TokenText(lp) + RenderItems(args.items) + TokenText(rp)
    case IndexExpr(e, lb, i, rb) => Render(e) + TokenText(lb) + Render(i) + TokenText(rb)
    case PropertyExpr(e, dot, name) => Render(e) + TokenText(dot) + TokenText(name)
    case PrototypePropertyExpr(e, colons, m) =>
      Render(e) + ".prototype" + colons.ws + (if m.Some? then "." + TokenText(m.value) else "")
    case NewExpr(nw, e, lp, args, rp) => TokenText(nw) + Render(e) + TokenText(lp) + RenderItems(args.items) + TokenText(rp)
    case FunctionExpr(_, _, _, _, _) => RenderFunction(n)
    case ArrowFunctionExpr(lp, args, rp, arrow, e) =>
      TokenText(lp) + RenderItems(args.items) + TokenText(rp) + "{" + arrow.ws + "return " + Render(e) + "; }"
    case SimpleArrowFunctionExpr(arrow, e) => "function (_) {" + arrow.ws + "return " + Render(e) + "; }"
    case ArrayExpr(lb, elems, rb) => TokenText(lb) + RenderItems(elems.items) + TokenText(rb)
    case ObjectExpr(lb, ps, rb) =>
      if ps == [] then DropComma(lb) + TokenText(rb)
      else TokenText(lb) + RenderProps(ps) + TokenText(rb)
    case GroupExpr(lp, e, rp) => TokenText(lp) + Render(e) + TokenText(rp)
    case PassExpr(at, h) => TokenText(at) + OptText(h)
    case YadaExpr(ident, dots) => TokenText(ident) + TokenText(dots)
    case IncludePragma(kw, names) => RenderPragma(kw, names)
    case DeclarePragma(kw, names) => RenderPragma(kw, names)
  }

  function RenderNodes(ss: seq<Node>): string
    decreases ss, 0
  {
    if ss == [] then "" else Render(ss[0]) + RenderNodes(ss[1..])
  }

  /** An ExprList: its elements and commas in order. */
  function RenderItems(items: seq<Item>): string
    decreases items, 0
  {
    if items == [] then "" else RenderItem(items[0]) + RenderItems(items[1..])
  }

  function RenderItem(it: Item): string
    decreases it, 0
  {
    Render(it.expr) + OptText(it.comma)
  }

  /** `==` and `!=` gain a third character; every other operator prints as read
      (ast.js:511-523). */
  function RenderOperator(op: Token): string {
    if op.text == "==" || op.text == "!=" then op.text + "=" + op.ws else TokenText(op)
  }

  /** The element before an object literal's `}` prints only its whitespace when it
      is a comma (ast.js:800-811). */
  function DropComma(t: Token): string {
    if t.text == "," then t.ws else TokenText(t)
  }

  function RenderProp(p: Prop): string
    decreases p, 1
  {
    TokenText(p.key) + TokenText(p.colon) + Render(p.value) + OptText(p.comma)
  }

  function RenderLastProp(p: Prop): string
    decreases p, 1
  {
    TokenText(p.key) + TokenText(p.colon) + Render(p.value) + (if p.comma.Some? then DropComma(p.comma.value) else "")
  }

  /** The properties of an object literal, the comma of the last one dropped. */
  function RenderProps(ps: seq<Prop>): string
    requires ps != []
    decreases ps, 0
  {
    if |ps| == 1 then RenderLastProp(ps[0]) else RenderProp(ps[0]) + RenderProps(ps[1..])
  }

  // Functions (ast.js:232-297, ast.js:665-730)

  /** The handler of the last `@` parameter of a list: `None` when no element is an
      `@` parameter, `Some(None)` when the last one names no handler (the loop in
      `render` overwrites `errIdent` at each `@`). */
  function LastPass(items: seq<Item>): Option<Option<Token>> {
    if items == [] then None
    else if items[|items| - 1].expr.PassExpr? then Some(items[|items| - 1].expr.handler)
    else LastPass(items[..|items| - 1])
  }

  /** The name of the last rest parameter of a list and its position among the
      list's elements. */
  function LastRest(items: seq<Item>): Option<(Token, nat)> {
    if items == [] then None
    else if items[|items| - 1].expr.YadaExpr? then Some((items[|items| - 1].expr.ident, |items| - 1))
    else LastRest(items[..|items| - 1])
  }

  /** The statement an `@` parameter injects: call the handler with the error and
      return, or throw the error when no handler is named. */
  function PassGuard(items: seq<Item>): string {
    match LastPass(items)
    case None => ""
    case Some(None) => " if (__err) { throw __err; }"
    case Some(Some(h)) => " if (__err) { " + h.text + "(__err); return; }"
  }

  /** The statement `: name` injects. */
  function ThisAlias(tp: Option<ThisPart>): string {
    if tp.Some? then " var " + tp.value.name.text + " = this;" else ""
  }

  /** The statement a rest parameter at position `k` injects. */
  function RestSlice(items: seq<Item>): string {
    match LastRest(items)
    case None => ""
    case Some((ident, k)) => SliceStatement(ident.text, k)
  }

  /** The statement that collects the call's arguments from position `k` on into `name`. */
  function SliceStatement(name: string, k: nat): string {
    " " + name + " = [].slice.call(arguments, " + NatToString(k) + ");"
  }

  /** Everything the function's statements are preceded by at the start of its body. */
  function Injection(items: seq<Item>, tp: Option<ThisPart>): string {
    PassGuard(items) + ThisAlias(tp) + RestSlice(items)
  }

  /** A formal parameter and its comma: an `@` parameter prints as `__err`, a rest
      parameter as its name. */
  function RenderParam(it: Item): string
    decreases it, 1
  {
    match it.expr
    case PassExpr(_, _) => "__err" + OptText(it.comma)
    case YadaExpr(ident, dots) => dots.ws + TokenText(ident) + OptText(it.comma)
    case _ => RenderItem(it)
  }

  function RenderParams(items: seq<Item>): string
    decreases items, 0
  {
    if items == [] then "" else RenderParam(items[0]) + RenderParams(items[1..])
  }

  /** A function from its `(` on: the parameters, the whitespace of `: name` without
      its text, the body's `{`, the injected statements, and the rest of the body. */
  function RenderFunction(n: Node): string
    requires n.FunctionExpr? || n.FunctionStatement?
    decreases n, 1
  {
    TokenText(n.lparen) + RenderParams(n.args.items) + TokenText(n.rparen)
      + (if n.thisPart.Some? then n.thisPart.value.colon.ws + n.thisPart.value.name.ws else "")
      + match n.block
        case Block(lb, ss, rb) => lb.text + Injection(n.args.items, n.thisPart) + lb.ws + RenderNodes(ss) + TokenText(rb)
        case _ => Render(n.block)
  }

  // Pragmas (ast.js:869-882)

  /** A pragma becomes a comment holding its token texts, followed by every token's
      whitespace. */
  function RenderPragma(kw: Token, names: seq<PragmaItem>): string {
    "/* " + kw.text + " " + PragmaTexts(names) + "*/" + kw.ws + PragmaSpaces(names)
  }

  function PragmaTexts(names: seq<PragmaItem>): string {
    if names == [] then "" else names[0].name.text + names[0].sep.text + " " + PragmaTexts(names[1..])
  }

  function PragmaSpaces(names: seq<PragmaItem>): string {
    if names == [] then "" else names[0].name.ws + names[0].sep.ws + PragmaSpaces(names[1..])
  }

  // ---------------------------------------------------------------------
  // Rendering replays the source

  /** The trees `render` prints token by token: no node in them prints something of
      its own. Such nodes are `==`/`!=` operators, `::`, functions with an `@`
      parameter, a rest parameter or `: name`, arrow functions, an object literal
      whose `}` follows a comma, and pragmas. */
  predicate Plain(n: Node)
    decreases n, 1
  {
    match n
    case Block(_, ss, _) => forall i :: 0 <= i < |ss| ==> Plain(ss[i])
    case IfStatement(_, _, t, _, b, e) => Plain(t) && Plain(b) && (e.Some? ==> Plain(e.value.body))
    case WhileStatement(_, _, t, _, b) => Plain(t) && Plain(b)
    case ForStatement(_, _, i, _, t, _, u, _, b) => ListPlain(i) && ListPlain(t) && ListPlain(u) && Plain(b)
    case ExprStatement(e, _) => e.Some? ==> Plain(e.value)
    case LabeledStatement(_, _, loop) => Plain(loop)
    case FunctionStatement(_, _, _, _, _, _, _) => PlainFunction(n)
    case VarStatement(_, decls, _) => ListPlain(decls)
    case ReturnStatement(_, e, _) => e.Some? ==> Plain(e.value)
    case ThrowStatement(_, e, _) => Plain(e)
    case StringExpr(_) => true
    case NumberExpr(_) => true
    case NullExpr(_) => true
    case TrueFalseExpr(_) => true
    case IdentExpr(_) => true
    case UnaryOpExpr(_, e) => Plain(e)
    case BinaryOpExpr(l, op, r) => op.text != "==" && op.text != "!=" && Plain(l) && Plain(r)
    case TernaryOpExpr(c, _, a, _, b) => Plain(c) && Plain(a) && Plain(b)
    case InvokeExpr(e, _, _, _, args, _) => Plain(e) && ListPlain(args)
    case CallExpr(e, _, args, _) => Plain(e) && ListPlain(args)
    case IndexExpr(e, _, i, _) => Plain(e) && Plain(i)
    case PropertyExpr(e, _, _) => Plain(e)
    case PrototypePropertyExpr(_, _, _) => false
    case NewExpr(_, e, _, args, _) => Plain(e) && ListPlain(args)
    case FunctionExpr(_, _, _, _, _) => PlainFunction(n)
    case ArrowFunctionExpr(_, _, _, _, _) => false
    case SimpleArrowFunctionExpr(_, _) => false
    case ArrayExpr(_, elems, _) => ListPlain(elems)
    case ObjectExpr(lb, ps, _) => !TrailingComma(lb, ps) && forall i :: 0 <= i < |ps| ==> Plain(ps[i].value)
    case GroupExpr(_, e, _) => Plain(e)
    case PassExpr(_, _) => true
    case YadaExpr(_, _) => true
    case IncludePragma(_, _) => false
    case DeclarePragma(_, _) => false
  }

  predicate ListPlain(l: ExprList)
    decreases l, 0
  {
    forall i :: 0 <= i < |l.items| ==> Plain(l.items[i].expr)
  }

  /** A function with plain parameters, no `: name` and a block body. */
  predicate PlainFunction(n: Node)
    requires n.FunctionExpr? || n.FunctionStatement?
    decreases n, 0
  {
    && n.thisPart.None? && n.block.Block?
    && (forall i :: 0 <= i < |n.args.items| ==>
          !n.args.items[i].expr.PassExpr? && !n.args.items[i].expr.YadaExpr? && Plain(n.args.items[i].expr))
    && forall i :: 0 <= i < |n.block.stmts| ==> Plain(n.block.stmts[i])
  }

  /** The element before the `}` of an object literal is a comma. */
  predicate TrailingComma(lb: Token, ps: seq<Prop>) {
    if ps == [] then lb.text == ","
    else ps[|ps| - 1].comma.Some? && ps[|ps| - 1].comma.value.text == ","
  }

  lemma TextOfOne(t: Token)
    ensures TextOf([t]) == TokenText(t)
  {
    assert [t][1..] == [];
  }

  /** A tree in which no node prints something of its own renders as the text it
      was read from: each token's text and whitespace, in order. */
  lemma {:induction false} RenderPlain(n: Node)
    requires Plain(n)
    ensures Render(n) == Source(n)
    decreases n, 2
  {
    if IsStatement(n) || n.Block? {
      StatementRenderPlain(n);
    } else {
      ExpressionRenderPlain(n);
    }
  }

  lemma {:induction false} StatementRenderPlain(n: Node)
    requires (IsStatement(n) || n.Block?) && Plain(n)
    ensures Render(n) == Source(n)
    decreases n, 1
  {
    match n
    case Block(l, ss, r) => NodesRenderPlain(ss); BlockPlain(l, ss, r);
    case IfStatement(i, lp, t, rp, b, e) =>
      RenderPlain(t); RenderPlain(b);
      if e.Some? { RenderPlain(e.value.body); }
      IfPlain(i, lp, t, rp, b, e);
    case WhileStatement(w, lp, t, rp, b) => RenderPlain(t); RenderPlain(b); WhilePlain(w, lp, t, rp, b);
    case ForStatement(f, lp, i, s1, t, s2, u, rp, b) =>
      ItemsRenderPlain(i.items); ItemsRenderPlain(t.items); ItemsRenderPlain(u.items); RenderPlain(b);
      ForPlain(f, lp, i, s1, t, s2, u, rp, b);
    case ExprStatement(e, semi) =>
      if e.Some? { RenderPlain(e.value); }
      ExprStatementPlain(e, semi);
    case LabeledStatement(name, colon, loop) => RenderPlain(loop); LabeledPlain(name, colon, loop);
    case FunctionStatement(f, name, lp, args, rp, _, b) =>
      FunctionRestPlain(n);
      FunctionStatementPlain(f, name, lp, args, rp, b);
    case VarStatement(v, decls, semi) => ItemsRenderPlain(decls.items); VarPlain(v, decls, semi);
    case ReturnStatement(r, e, semi) =>
      if e.Some? { RenderPlain(e.value); }
      ReturnPlain(r, e, semi);
    case ThrowStatement(t, e, semi) => RenderPlain(e); ThrowPlain(t, e, semi);
  }

  lemma {:induction false} ExpressionRenderPlain(n: Node)
    requires !IsStatement(n) && !n.Block? && Plain(n)
    ensures Render(n) == Source(n)
    decreases n, 1
  {
    match n
    case StringExpr(t) => TextOfOne(t);
    case NumberExpr(t) => TextOfOne(t);
    case NullExpr(t) => TextOfOne(t);
    case TrueFalseExpr(t) => TextOfOne(t);
    case IdentExpr(t) => TextOfOne(t);
    case UnaryOpExpr(op, e) => RenderPlain(e); UnaryPlain(op, e);
    case BinaryOpExpr(l, op, r) => RenderPlain(l); RenderPlain(r); BinaryPlain(l, op, r);
    case TernaryOpExpr(c, q, a, colon, b) =>
      RenderPlain(c); RenderPlain(a); RenderPlain(b); TernaryPlain(c, q, a, colon, b);
    case InvokeExpr(e, dot, name, lp, args, rp) =>
      RenderPlain(e); ItemsRenderPlain(args.items); InvokePlain(e, dot, name, lp, args, rp);
    case CallExpr(e, lp, args, rp) => RenderPlain(e); ItemsRenderPlain(args.items); CallPlain(e, lp, args, rp);
    case IndexExpr(e, lb, i, rb) => RenderPlain(e); RenderPlain(i); IndexPlain(e, lb, i, rb);
    case PropertyExpr(e, dot, name) => RenderPlain(e); PropertyPlain(e, dot, name);
    case NewExpr(nw, e, lp, args, rp) => RenderPlain(e); ItemsRenderPlain(args.items); NewPlain(nw, e, lp, args, rp);
    case FunctionExpr(lp, args, rp, _, b) => FunctionRestPlain(n); FunctionExprPlain(lp, args, rp, b);
    case ArrayExpr(lb, elems, rb) => ItemsRenderPlain(elems.items); ArrayPlain(lb, elems, rb);
    case ObjectExpr(lb, ps, rb) =>
      if ps != [] { PropsRenderPlain(ps); }
      ObjectPlain(lb, ps, rb);
    case GroupExpr(lp, e, rp) => RenderPlain(e); GroupPlain(lp, e, rp);
    case PassExpr(at, h) => PassPlain(at, h);
    case YadaExpr(ident, dots) => YadaPlain(ident, dots);
  }

  // One lemma per node type: the node renders as its source when its parts do.

  lemma TextOfTwo(a: Token, b: Token)
    ensures TextOf([a, b]) == TokenText(a) + TokenText(b)
  {
    assert [a, b][1..] == [b];
    TextOfOne(b);
  }

  lemma TextOf3(a: seq<Token>, b: seq<Token>, c: seq<Token>)
    ensures TextOf(a + b + c) == TextOf(a) + TextOf(b) + TextOf(c)
  {
    TextOfAppend(a, b);
    TextOfAppend(a + b, c);
  }

  lemma TextOf4(a: seq<Token>, b: seq<Token>, c: seq<Token>, d: seq<Token>)
    ensures TextOf(a + b + c + d) == TextOf(a) + TextOf(b) + TextOf(c) + TextOf(d)
  {
    TextOf3(a, b, c);
    TextOfAppend(a + b + c, d);
  }

  lemma TextOf5(a: seq<Token>, b: seq<Token>, c: seq<Token>, d: seq<Token>, e: seq<Token>)
    ensures TextOf(a + b + c + d + e) == TextOf(a) + TextOf(b) + TextOf(c) + TextOf(d) + TextOf(e)
  {
    TextOf4(a, b, c, d);
    TextOfAppend(a + b + c + d, e);
  }

  lemma BlockPlain(l: Token, ss: seq<Node>, r: Token)
    requires RenderNodes(ss) == TextOf(NodesTokens(ss))
    ensures Render(Block(l, ss, r)) == Source(Block(l, ss, r))
  {
    TextOf3([l], NodesTokens(ss), [r]);
    TextOfOne(l); TextOfOne(r);
  }

  lemma IfPlain(i: Token, lp: Token, t: Node, rp: Token, b: Node, e: Option<ElsePart>)
    requires Render(t) == Source(t) && Render(b) == Source(b)
    requires e.Some? ==> Render(e.value.body) == Source(e.value.body)
    ensures Render(IfStatement(i, lp, t, rp, b, e)) == Source(IfStatement(i, lp, t, rp, b, e))
  {
    var et := if e.Some? then [e.value.elseTok] + Tokens(e.value.body) else [];
    TextOf5([i, lp], Tokens(t), [rp], Tokens(b), et);
    TextOfTwo(i, lp); TextOfOne(rp);
    if e.Some? {
      TextOfAppend([e.value.elseTok], Tokens(e.value.body));
      TextOfOne(e.value.elseTok);
    }
  }

  lemma WhilePlain(w: Token, lp: Token, t: Node, rp: Token, b: Node)
    requires Render(t) == Source(t) && Render(b) == Source(b)
    ensures Render(WhileStatement(w, lp, t, rp, b)) == Source(WhileStatement(w, lp, t, rp, b))
  {
    TextOf4([w, lp], Tokens(t), [rp], Tokens(b));
    TextOfTwo(w, lp); TextOfOne(rp);
  }

  lemma ForPlain(f: Token, lp: Token, i: ExprList, s1: Token, t: ExprList, s2: Token, u: ExprList, rp: Token, b: Node)
    requires RenderItems(i.items) == TextOf(ItemsTokens(i.items))
    requires RenderItems(t.items) == TextOf(ItemsTokens(t.items))
    requires RenderItems(u.items) == TextOf(ItemsTokens(u.items))
    requires Render(b) == Source(b)
    ensures Render(ForStatement(f, lp, i, s1, t, s2, u, rp, b)) == Source(ForStatement(f, lp, i, s1, t, s2, u, rp, b))
  {
    var front := [f, lp] + ItemsTokens(i.items) + [s1] + ItemsTokens(t.items);
    TextOf4([f, lp], ItemsTokens(i.items), [s1], ItemsTokens(t.items));
    TextOf5(front, [s2], ItemsTokens(u.items), [rp], Tokens(b));
    TextOfTwo(f, lp); TextOfOne(s1); TextOfOne(s2); TextOfOne(rp);
  }

  lemma ExprStatementPlain(e: Option<Node>, semi: Token)
    requires e.Some? ==> Render(e.value) == Source(e.value)
    ensures Render(ExprStatement(e, semi)) == Source(ExprStatement(e, semi))
  {
    TextOfAppend(if e.Some? then Tokens(e.value) else [], [semi]);
    TextOfOne(semi);
  }

  lemma LabeledPlain(name: Token, colon: Token, loop: Node)
    requires Render(loop) == Source(loop)
    ensures Render(LabeledStatement(name, colon, loop)) == Source(LabeledStatement(name, colon, loop))
  {
    TextOfAppend([name, colon], Tokens(loop));
    TextOfTwo(name, colon);
  }

  lemma FunctionStatementPlain(f: Token, name: Token, lp: Token, args: ExprList, rp: Token, b: Node)
    requires RenderFunction(FunctionStatement(f, name, lp, args, rp, None, b)) == TextOf([lp] + ItemsTokens(args.items) + [rp] + Tokens(b))
    ensures Render(FunctionStatement(f, name, lp, args, rp, None, b)) == Source(FunctionStatement(f, name, lp, args, rp, None, b))
  {
    var rest := [lp] + ItemsTokens(args.items) + [rp] + Tokens(b);
    assert ThisTokens(None) == [];
    SplitName(f, name, lp, ItemsTokens(args.items), rp, Tokens(b));
    assert Tokens(FunctionStatement(f, name, lp, args, rp, None, b)) == [f, name] + rest;
    TextOfAppend([f, name], rest);
    TextOfTwo(f, name);
  }

  lemma SplitName(f: Token, name: Token, lp: Token, args: seq<Token>, rp: Token, b: seq<Token>)
    ensures [f, name, lp] + args + [rp] + [] + b == [f, name] + ([lp] + args + [rp] + b)
  {
    assert [f, name, lp] == [f, name] + [lp];
  }

  lemma FunctionExprPlain(lp: Token, args: ExprList, rp: Token, b: Node)
    requires RenderFunction(FunctionExpr(lp, args, rp, None, b)) == TextOf([lp] + ItemsTokens(args.items) + [rp] + Tokens(b))
    ensures Render(FunctionExpr(lp, args, rp, None, b)) == Source(FunctionExpr(lp, args, rp, None, b))
  {
    var front := [lp] + ItemsTokens(args.items) + [rp];
    assert ThisTokens(None) == [];
    assert front + [] == front;
    assert Tokens(FunctionExpr(lp, args, rp, None, b)) == front + Tokens(b);
  }

  lemma VarPlain(v: Token, decls: ExprList, semi: Token)
    requires RenderItems(decls.items) == TextOf(ItemsTokens(decls.items))
    ensures Render(VarStatement(v, decls, semi)) == Source(VarStatement(v, decls, semi))
  {
    TextOf3([v], ItemsTokens(decls.items), [semi]);
    TextOfOne(v); TextOfOne(semi);
  }

  lemma ReturnPlain(r: Token, e: Option<Node>, semi: Token)
    requires e.Some? ==> Render(e.value) == Source(e.value)
    ensures Render(ReturnStatement(r, e, semi)) == Source(ReturnStatement(r, e, semi))
  {
    TextOf3([r], if e.Some? then Tokens(e.value) else [], [semi]);
    TextOfOne(r); TextOfOne(semi);
  }

  lemma ThrowPlain(t: Token, e: Node, semi: Token)
    requires Render(e) == Source(e)
    ensures Render(ThrowStatement(t, e, semi)) == Source(ThrowStatement(t, e, semi))
  {
    TextOf3([t], Tokens(e), [semi]);
    TextOfOne(t); TextOfOne(semi);
  }

  lemma UnaryPlain(op: Token, e: Node)
    requires Render(e) == Source(e)
    ensures Render(UnaryOpExpr(op, e)) == Source(UnaryOpExpr(op, e))
  {
    TextOfAppend([op], Tokens(e));
    TextOfOne(op);
  }

  lemma BinaryPlain(l: Node, op: Token, r: Node)
    requires op.text != "==" && op.text != "!="
    requires Render(l) == Source(l) && Render(r) == Source(r)
    ensures Render(BinaryOpExpr(l, op, r)) == Source(BinaryOpExpr(l, op, r))
  {
    TextOf3(Tokens(l), [op], Tokens(r));
    TextOfOne(op);
    assert Tokens(BinaryOpExpr(l, op, r)) == Tokens(l) + [op] + Tokens(r);
    assert Source(BinaryOpExpr(l, op, r)) == Source(l) + TokenText(op) + Source(r);
  }

  lemma TernaryPlain(c: Node, q: Token, a: Node, colon: Token, b: Node)
    requires Render(c) == Source(c) && Render(a) == Source(a) && Render(b) == Source(b)
    ensures Render(TernaryOpExpr(c, q, a, colon, b)) == Source(TernaryOpExpr(c, q, a, colon, b))
  {
    var n := TernaryOpExpr(c, q, a, colon, b);
    assert Tokens(n) == Tokens(c) + [q] + Tokens(a) + [colon] + Tokens(b);
    calc {
      Source(n);
      TextOf(Tokens(c) + [q] + Tokens(a) + [colon] + Tokens(b));
      { TextOf5(Tokens(c), [q], Tokens(a), [colon], Tokens(b)); }
      Source(c) + TextOf([q]) + Source(a) + TextOf([colon]) + Source(b);
      { TextOfOne(q); TextOfOne(colon); }
      Render(n);
    }
  }

  lemma InvokePlain(e: Node, dot: Token, name: Token, lp: Token, args: ExprList, rp: Token)
    requires Render(e) == Source(e) && RenderItems(args.items) == TextOf(ItemsTokens(args.items))
    ensures Render(InvokeExpr(e, dot, name, lp, args, rp)) == Source(InvokeExpr(e, dot, name, lp, args, rp))
  {
    var its := ItemsTokens(args.items);
    TextOf5(Tokens(e), [dot], [name], [lp], its);
    TextOfAppend(Tokens(e) + [dot] + [name] + [lp] + its, [rp]);
    TextOfOne(dot); TextOfOne(name); TextOfOne(lp); TextOfOne(rp);
    assert Tokens(InvokeExpr(e, dot, name, lp, args, rp)) == Tokens(e) + [dot] + [name] + [lp] + its + [rp];
    assert Source(InvokeExpr(e, dot, name, lp, args, rp))
        == Source(e) + TokenText(dot) + TokenText(name) + TokenText(lp) + TextOf(its) + TokenText(rp);
  }

  lemma CallPlain(e: Node, lp: Token, args: ExprList, rp: Token)
    requires Render(e) == Source(e) && RenderItems(args.items) == TextOf(ItemsTokens(args.items))
    ensures Render(CallExpr(e, lp, args, rp)) == Source(CallExpr(e, lp, args, rp))
  {
    TextOf4(Tokens(e), [lp], ItemsTokens(args.items), [rp]);
    TextOfOne(lp); TextOfOne(rp);
    assert Tokens(CallExpr(e, lp, args, rp)) == Tokens(e) + [lp] + ItemsTokens(args.items) + [rp];
    assert Source(CallExpr(e, lp, args, rp)) == Source(e) + TokenText(lp) + TextOf(ItemsTokens(args.items)) + TokenText(rp);
  }

  lemma IndexPlain(e: Node, lb: Token, i: Node, rb: Token)
    requires Render(e) == Source(e) && Render(i) == Source(i)
    ensures Render(IndexExpr(e, lb, i, rb)) == Source(IndexExpr(e, lb, i, rb))
  {
    TextOf4(Tokens(e), [lb], Tokens(i), [rb]);
    TextOfOne(lb); TextOfOne(rb);
    assert Tokens(IndexExpr(e, lb, i, rb)) == Tokens(e) + [lb] + Tokens(i) + [rb];
    assert Source(IndexExpr(e, lb, i, rb)) == Source(e) + TokenText(lb) + Source(i) + TokenText(rb);
  }

  lemma PropertyPlain(e: Node, dot: Token, name: Token)
    requires Render(e) == Source(e)
    ensures Render(PropertyExpr(e, dot, name)) == Source(PropertyExpr(e, dot, name))
  {
    TextOf3(Tokens(e), [dot], [name]);
    TextOfOne(dot); TextOfOne(name);
  }

  lemma NewPlain(nw: Token, e: Node, lp: Token, args: ExprList, rp: Token)
    requires Render(e) == Source(e) && RenderItems(args.items) == TextOf(ItemsTokens(args.items))
    ensures Render(NewExpr(nw, e, lp, args, rp)) == Source(NewExpr(nw, e, lp, args, rp))
  {
    TextOf5([nw], Tokens(e), [lp], ItemsTokens(args.items), [rp]);
    TextOfOne(nw); TextOfOne(lp); TextOfOne(rp);
  }

  lemma ArrayPlain(lb: Token, elems: ExprList, rb: Token)
    requires RenderItems(elems.items) == TextOf(ItemsTokens(elems.items))
    ensures Render(ArrayExpr(lb, elems, rb)) == Source(ArrayExpr(lb, elems, rb))
  {
    TextOf3([lb], ItemsTokens(elems.items), [rb]);
    TextOfOne(lb); TextOfOne(rb);
  }

  lemma GroupPlain(lp: Token, e: Node, rp: Token)
    requires Render(e) == Source(e)
    ensures Render(GroupExpr(lp, e, rp)) == Source(GroupExpr(lp, e, rp))
  {
    var n := GroupExpr(lp, e, rp);
    assert Tokens(n) == [lp] + Tokens(e) + [rp];
    calc {
      Source(n);
      TextOf([lp] + Tokens(e) + [rp]);
      { TextOf3([lp], Tokens(e), [rp]); }
      TextOf([lp]) + Source(e) + TextOf([rp]);
      { TextOfOne(lp); TextOfOne(rp); }
      Render(n);
    }
  }

  lemma PassPlain(at: Token, h: Option<Token>)
    ensures Render(PassExpr(at, h)) == Source(PassExpr(at, h))
  {
    TextOfAppend([at], OptTokens(h));
    TextOfOne(at);
    if h.Some? { TextOfOne(h.value); }
  }

  lemma YadaPlain(ident: Token, dots: Token)
    ensures Render(YadaExpr(ident, dots)) == Source(YadaExpr(ident, dots))
  {
    TextOfTwo(ident, dots);
  }

  lemma {:induction false} NodesRenderPlain(ss: seq<Node>)
    requires forall i :: 0 <= i < |ss| ==> Plain(ss[i])
    ensures RenderNodes(ss) == TextOf(NodesTokens(ss))
    decreases ss, 1
  {
    if ss != [] {
      RenderPlain(ss[0]);
      NodesRenderPlain(ss[1..]);
      TextOfAppend(Tokens(ss[0]), NodesTokens(ss[1..]));
    }
  }

  lemma {:induction false} ItemsRenderPlain(items: seq<Item>)
    requires forall i :: 0 <= i < |items| ==> Plain(items[i].expr)
    ensures RenderItems(items) == TextOf(ItemsTokens(items))
    decreases items, 1
  {
    if items != [] {
      ItemRenderPlain(items[0]);
      ItemsRenderPlain(items[1..]);
      TextOfAppend(ItemTokens(items[0]), ItemsTokens(items[1..]));
    }
  }

  lemma {:induction false} ItemRenderPlain(it: Item)
    requires Plain(it.expr)
    ensures RenderItem(it) == TextOf(ItemTokens(it))
    decreases it, 1
  {
    RenderPlain(it.expr);
    TextOfAppend(Tokens(it.expr), OptTokens(it.comma));
    if it.comma.Some? { TextOfOne(it.comma.value); }
  }

  lemma {:induction false} PropRenderPlain(p: Prop)
    requires Plain(p.value)
    ensures RenderProp(p) == TextOf(PropTokens(p))
    decreases p, 2
  {
    RenderPlain(p.value);
    var a, b := [p.key, p.colon], Tokens(p.value);
    TextOfAppend(a, b);
    TextOfAppend(a + b, OptTokens(p.comma));
    if p.comma.Some? { TextOfOne(p.comma.value); }
    assert TextOf(a) == TokenText(p.key) + TokenText(p.colon) by {
      assert a[1..][1..] == [];
    }
  }

  lemma {:induction false} PropsRenderPlain(ps: seq<Prop>)
    requires ps != [] && forall i :: 0 <= i < |ps| ==> Plain(ps[i].value)
    requires !(ps[|ps| - 1].comma.Some? && ps[|ps| - 1].comma.value.text == ",")
    ensures RenderProps(ps) == TextOf(PropsTokens(ps))
    decreases ps, 2
  {
    PropRenderPlain(ps[0]);
    if |ps| == 1 {
      assert ps[1..] == [];
      assert RenderLastProp(ps[0]) == RenderProp(ps[0]);
      assert PropTokens(ps[0]) + [] == PropTokens(ps[0]);
    } else {
      PropsRenderPlain(ps[1..]);
      TextOfAppend(PropTokens(ps[0]), PropsTokens(ps[1..]));
    }
  }

  lemma ObjectPlain(lb: Token, ps: seq<Prop>, rb: Token)
    requires !TrailingComma(lb, ps)
    requires ps != [] ==> RenderProps(ps) == TextOf(PropsTokens(ps))
    ensures Render(ObjectExpr(lb, ps, rb)) == Source(ObjectExpr(lb, ps, rb))
  {
    TextOf3([lb], PropsTokens(ps), [rb]);
    TextOfOne(lb); TextOfOne(rb);
  }

  /** No `@` and no rest parameter in a list: nothing is injected for it. */
  lemma {:induction false} NoSpecialParams(items: seq<Item>)
    requires forall i :: 0 <= i < |items| ==> !items[i].expr.PassExpr? && !items[i].expr.YadaExpr?
    ensures LastPass(items) == None && LastRest(items) == None
  {
    if items != [] {
      NoSpecialParams(items[..|items| - 1]);
    }
  }

  lemma {:induction false} ParamsRenderPlain(items: seq<Item>)
    requires forall i :: 0 <= i < |items| ==> !items[i].expr.PassExpr? && !items[i].expr.YadaExpr? && Plain(items[i].expr)
    ensures RenderParams(items) == TextOf(ItemsTokens(items))
    decreases items, 2
  {
    if items != [] {
      ItemRenderPlain(items[0]);
      ParamsRenderPlain(items[1..]);
      TextOfAppend(ItemTokens(items[0]), ItemsTokens(items[1..]));
    }
  }

  lemma FunctionTokensText(lp: Token, ps: seq<Token>, rp: Token, lb: Token, body: seq<Token>, rb: Token)
    ensures TextOf([lp] + ps + [rp] + ([lb] + body + [rb]))
         == TokenText(lp) + TextOf(ps) + TokenText(rp) + "" + (lb.text + "" + lb.ws + TextOf(body) + TokenText(rb))
  {
    TextOfAppend([lp], ps);
    TextOfAppend([lp] + ps, [rp]);
    TextOfAppend([lp] + ps + [rp], [lb] + body + [rb]);
    TextOfAppend([lb], body);
    TextOfAppend([lb] + body, [rb]);
    TextOfOne(lb);
    TextOfOne(rb);
    TextOfOne(rp);
    TextOfOne(lp);
  }

  /** A plain function from its `(` on renders as its source. */
  lemma {:induction false} FunctionRestPlain(f: Node)
    requires (f.FunctionExpr? || f.FunctionStatement?) && PlainFunction(f)
    ensures RenderFunction(f) == TextOf([f.lparen] + ItemsTokens(f.args.items) + [f.rparen] + Tokens(f.block))
    decreases f, 0
  {
    var b := f.block;
    ParamsRenderPlain(f.args.items);
    NoSpecialParams(f.args.items);
    NodesRenderPlain(b.stmts);
    assert Tokens(b) == [b.lbrace] + NodesTokens(b.stmts) + [b.rbrace];
    FunctionTokensText(f.lparen, ItemsTokens(f.args.items), f.rparen, b.lbrace, NodesTokens(b.stmts), b.rbrace);
  }

  // ---------------------------------------------------------------------
  // What the rewriting nodes print

  lemma InsertAfter(a: string, t: string, w: string, b: string)
    ensures var s, k := a + (t + w) + b, |a| + |t|; k <= |s| && a + (t + "=" + w) + b == s[..k] + "=" + s[k..]
  {
    var s, k := a + (t + w) + b, |a| + |t|;
    assert s[..k] == a + t;
    assert s[k..] == w + b;
  }

  /** `==` and `!=` print with one `=` more, right after the operator's text;
      everything else prints as read (ast.js:511-523). */
  lemma RenderStrictEquality(l: Node, op: Token, r: Node)
    requires Plain(l) && Plain(r) && (op.text == "==" || op.text == "!=")
    ensures var s, k := Source(BinaryOpExpr(l, op, r)), |Source(l)| + |op.text|;
      k <= |s| && Render(BinaryOpExpr(l, op, r)) == s[..k] + "=" + s[k..]
  {
    RenderPlain(l);
    RenderPlain(r);
    BinarySource(l, op, r);
    assert Render(BinaryOpExpr(l, op, r)) == Source(l) + (op.text + "=" + op.ws) + Source(r);
    InsertAfter(Source(l), op.text, op.ws, Source(r));
  }

  lemma BinarySource(l: Node, op: Token, r: Node)
    ensures Source(BinaryOpExpr(l, op, r)) == Source(l) + (op.text + op.ws) + Source(r)
  {
    TextOf3(Tokens(l), [op], Tokens(r));
    TextOfOne(op);
    assert Tokens(BinaryOpExpr(l, op, r)) == Tokens(l) + [op] + Tokens(r);
  }

  /** `target :: member` prints as `target.prototype.member`: the `::` text becomes
      `.prototype`, its whitespace stays, and a `.` comes before the member
      (ast.js:614-625). */
  lemma RenderPrototype(t: Node, colons: Token, m: Option<Token>)
    requires Plain(t)
    ensures Source(PrototypePropertyExpr(t, colons, m)) == Source(t) + colons.text + colons.ws + OptText(m)
    ensures Render(PrototypePropertyExpr(t, colons, m))
         == Source(t) + ".prototype" + colons.ws + (if m.Some? then "." + OptText(m) else "")
  {
    RenderPlain(t);
    PrototypeUnfold(t, colons, m);
    TextOf3(Tokens(t), [colons], OptTokens(m));
    TextOfOne(colons);
    if m.Some? { TextOfOne(m.value); }
  }

  lemma PrototypeUnfold(t: Node, colons: Token, m: Option<Token>)
    ensures Tokens(PrototypePropertyExpr(t, colons, m)) == Tokens(t) + [colons] + OptTokens(m)
    ensures Render(PrototypePropertyExpr(t, colons, m))
         == Render(t) + ".prototype" + colons.ws + (if m.Some? then "." + TokenText(m.value) else "")
  {
  }

  /** An arrow function prints as a function returning its expression: `->` becomes
      `{` with the arrow's whitespace, `return ` comes before the expression and
      `; }` after it (ast.js:738-742). */
  lemma RenderArrow(lp: Token, args: ExprList, rp: Token, arrow: Token, e: Node)
    requires ListPlain(args) && Plain(e)
    ensures var head := TextOf([lp] + ItemsTokens(args.items) + [rp]);
      && Source(ArrowFunctionExpr(lp, args, rp, arrow, e)) == head + TokenText(arrow) + Source(e)
      && Render(ArrowFunctionExpr(lp, args, rp, arrow, e)) == head + "{" + arrow.ws + "return " + Source(e) + "; }"
  {
    var front := [lp] + ItemsTokens(args.items) + [rp];
    RenderPlain(e);
    ItemsRenderPlain(args.items);
    TextOf3([lp], ItemsTokens(args.items), [rp]);
    TextOfOne(lp); TextOfOne(rp); TextOfOne(arrow);
    assert TextOf(front) == TokenText(lp) + RenderItems(args.items) + TokenText(rp);
    ArrowUnfold(lp, args, rp, arrow, e);
    TextOf3(front, [arrow], Tokens(e));
  }

  lemma ArrowUnfold(lp: Token, args: ExprList, rp: Token, arrow: Token, e: Node)
    ensures Tokens(ArrowFunctionExpr(lp, args, rp, arrow, e)) == [lp] + ItemsTokens(args.items) + [rp] + [arrow] + Tokens(e)
    ensures Render(ArrowFunctionExpr(lp, args, rp, arrow, e))
         == TokenText(lp) + RenderItems(args.items) + TokenText(rp) + "{" + arrow.ws + "return " + Render(e) + "; }"
  {
    assert [rp, arrow] == [rp] + [arrow];
  }

  /** `-> expr` prints as a one-parameter function of `_` returning the expression
      (ast.js:758-761). */
  lemma RenderSimpleArrow(arrow: Token, e: Node)
    requires Plain(e)
    ensures Source(SimpleArrowFunctionExpr(arrow, e)) == arrow.text + arrow.ws + Source(e)
    ensures Render(SimpleArrowFunctionExpr(arrow, e)) == "function (_) {" + arrow.ws + "return " + Source(e) + "; }"
  {
    RenderPlain(e);
    TextOfAppend([arrow], Tokens(e));
    TextOfOne(arrow);
  }

  /** The properties of an object literal with the last one's comma taken away. */
  function WithoutLastComma(ps: seq<Prop>): seq<Prop>
    requires ps != []
  {
    ps[..|ps| - 1] + [ps[|ps| - 1].(comma := None)]
  }

  lemma PropWithoutComma(p: Prop, c: Token)
    requires Plain(p.value) && p.comma == Some(c) && c.text == ","
    ensures RenderLastProp(p) == TextOf(PropTokens(p.(comma := None))) + c.ws
    ensures TextOf(PropTokens(p)) == TextOf(PropTokens(p.(comma := None))) + "," + c.ws
  {
    var q := p.(comma := None);
    PropRenderPlain(q);
    assert PropTokens(p) == PropTokens(q) + [c];
    TextOfAppend(PropTokens(q), [c]);
    TextOfOne(c);
  }

  lemma {:induction false} LastCommaDroppedOne(ps: seq<Prop>, c: Token)
    requires |ps| == 1 && Plain(ps[0].value)
    requires ps[0].comma == Some(c) && c.text == ","
    ensures RenderProps(ps) == TextOf(PropsTokens(WithoutLastComma(ps))) + c.ws
    ensures TextOf(PropsTokens(ps)) == TextOf(PropsTokens(WithoutLastComma(ps))) + "," + c.ws
  {
    var q := ps[0].(comma := None);
    var w := WithoutLastComma(ps);
    assert w == [q];
    PropWithoutComma(ps[0], c);
    assert ps[1..] == [] && w[1..] == [] && w[0] == q;
    assert PropsTokens(ps) == PropTokens(ps[0]) + [] == PropTokens(ps[0]);
    assert PropsTokens(w) == PropTokens(q) + [] == PropTokens(q);
  }

  lemma {:induction false} LastCommaDroppedStep(ps: seq<Prop>, c: Token)
    requires |ps| > 1 && Plain(ps[0].value)
    requires RenderProps(ps[1..]) == TextOf(PropsTokens(WithoutLastComma(ps[1..]))) + c.ws
    requires TextOf(PropsTokens(ps[1..])) == TextOf(PropsTokens(WithoutLastComma(ps[1..]))) + "," + c.ws
    ensures RenderProps(ps) == TextOf(PropsTokens(WithoutLastComma(ps))) + c.ws
    ensures TextOf(PropsTokens(ps)) == TextOf(PropsTokens(WithoutLastComma(ps))) + "," + c.ws
  {
    var a, b := TextOf(PropTokens(ps[0])), TextOf(PropsTokens(WithoutLastComma(ps[1..])));
    WithoutLastCommaCons(ps);
    PropRenderPlain(ps[0]);
    assert RenderProps(ps) == a + (b + c.ws);
    TextOfAppend(PropTokens(ps[0]), PropsTokens(ps[1..]));
    assert TextOf(PropsTokens(ps)) == a + (b + "," + c.ws);
    StrAssoc(a, b, c.ws);
    StrAssoc(a, b + ",", c.ws);
    StrAssoc(a, b, ",");
  }

  /** The first property stays, and the text of the rest without its last comma follows it. */
  lemma WithoutLastCommaCons(ps: seq<Prop>)
    requires |ps| > 1
    ensures TextOf(PropsTokens(WithoutLastComma(ps)))
      == TextOf(PropTokens(ps[0])) + TextOf(PropsTokens(WithoutLastComma(ps[1..])))
  {
    var w := WithoutLastComma(ps);
    assert w == [ps[0]] + WithoutLastComma(ps[1..]);
    assert w[0] == ps[0] && w[1..] == WithoutLastComma(ps[1..]);
    assert PropsTokens(w) == PropTokens(ps[0]) + PropsTokens(w[1..]);
    TextOfAppend(PropTokens(ps[0]), PropsTokens(w[1..]));
  }

  lemma StrAssoc(a: string, b: string, c: string)
    ensures a + (b + c) == a + b + c
  {
  }

  /** Dropping the comma after the last property takes exactly that comma's
      text out of the properties' source. */
  lemma {:induction false} LastCommaDropped(ps: seq<Prop>, c: Token)
    requires ps != [] && forall i :: 0 <= i < |ps| ==> Plain(ps[i].value)
    requires ps[|ps| - 1].comma == Some(c) && c.text == ","
    ensures RenderProps(ps) == TextOf(PropsTokens(WithoutLastComma(ps))) + c.ws
    ensures TextOf(PropsTokens(ps)) == TextOf(PropsTokens(WithoutLastComma(ps))) + "," + c.ws
  {
    if |ps| == 1 {
      LastCommaDroppedOne(ps, c);
    } else {
      LastCommaDropped(ps[1..], c);
      LastCommaDroppedStep(ps, c);
    }
  }

  /** A comma before the `}` of an object literal is dropped: the output is the
      source with exactly that one character taken out (ast.js:800-811). */
  lemma RenderTrailingComma(lb: Token, ps: seq<Prop>, rb: Token, c: Token)
    requires ps != [] && forall i :: 0 <= i < |ps| ==> Plain(ps[i].value)
    requires ps[|ps| - 1].comma == Some(c) && c.text == ","
    ensures var s := Source(ObjectExpr(lb, ps, rb)); var k := |s| - |TokenText(rb)| - |c.ws| - 1;
      0 <= k < |s| && s[k] == ',' && Render(ObjectExpr(lb, ps, rb)) == s[..k] + s[k + 1..]
  {
    LastCommaDropped(ps, c);
    ObjectSource(lb, ps, rb);
    ObjectRender(lb, ps, rb);
    DropAt(Source(ObjectExpr(lb, ps, rb)), Render(ObjectExpr(lb, ps, rb)),
      TokenText(lb), TextOf(PropsTokens(WithoutLastComma(ps))), c.ws, TokenText(rb));
  }

  lemma ObjectRender(lb: Token, ps: seq<Prop>, rb: Token)
    requires ps != []
    ensures Render(ObjectExpr(lb, ps, rb)) == TokenText(lb) + RenderProps(ps) + TokenText(rb)
  {
  }

  lemma ObjectSource(lb: Token, ps: seq<Prop>, rb: Token)
    ensures Source(ObjectExpr(lb, ps, rb)) == TokenText(lb) + TextOf(PropsTokens(ps)) + TokenText(rb)
  {
    TextOf3([lb], PropsTokens(ps), [rb]);
    TextOfOne(lb); TextOfOne(rb);
  }

  lemma DropAt(s: string, r: string, front: string, mid: string, ws: string, back: string)
    requires s == front + (mid + "," + ws) + back && r == front + (mid + ws) + back
    ensures var k := |s| - |back| - |ws| - 1; 0 <= k < |s| && s[k] == ',' && r == s[..k] + s[k + 1..]
  {
    var k := |front| + |mid|;
    assert s[..k] == front + mid;
    assert s[k + 1..] == ws + back;
  }

  // ---------------------------------------------------------------------
  // What a function's parameters inject (ast.js:241-262, ast.js:274-290)

  /** The `@` parameter whose handler is injected is the last one in the list. */
  lemma {:induction false} LastPassFound(items: seq<Item>, k: nat)
    requires k < |items| && items[k].expr.PassExpr?
    requires forall j :: k < j < |items| ==> !items[j].expr.PassExpr?
    ensures LastPass(items) == Some(items[k].expr.handler)
    decreases |items|
  {
    if k < |items| - 1 {
      var front := items[..|items| - 1];
      assert forall j :: k < j < |front| ==> front[j] == items[j];
      LastPassFound(front, k);
    }
  }

  /** No error guard is injected exactly when no parameter starts with `@`. */
  lemma {:induction false} LastPassNone(items: seq<Item>)
    ensures LastPass(items).None? <==> forall j :: 0 <= j < |items| ==> !items[j].expr.PassExpr?
    decreases |items|
  {
    if items != [] {
      var front := items[..|items| - 1];
      LastPassNone(front);
      assert forall j :: 0 <= j < |front| ==> front[j] == items[j];
    }
  }

  /** A function whose last `@` parameter names a handler calls it with the error and
      returns; without a handler it throws the error; the parameter itself is `__err`. */
  lemma ErrorGuard(items: seq<Item>, k: nat)
    requires k < |items| && items[k].expr.PassExpr?
    requires forall j :: k < j < |items| ==> !items[j].expr.PassExpr?
    ensures items[k].expr.handler.Some? ==>
      PassGuard(items) == " if (__err) { " + items[k].expr.handler.value.text + "(__err); return; }"
    ensures items[k].expr.handler.None? ==> PassGuard(items) == " if (__err) { throw __err; }"
    ensures RenderParam(items[k]) == "__err" + OptText(items[k].comma)
  {
    LastPassFound(items, k);
  }

  /** The rest parameter whose slice is injected is the last one, with its position. */
  lemma {:induction false} LastRestFound(items: seq<Item>, k: nat)
    requires k < |items| && items[k].expr.YadaExpr?
    requires forall j :: k < j < |items| ==> !items[j].expr.YadaExpr?
    ensures LastRest(items) == Some((items[k].expr.ident, k))
    decreases |items|
  {
    if k < |items| - 1 {
      var front := items[..|items| - 1];
      assert forall j :: k < j < |front| ==> front[j] == items[j];
      LastRestFound(front, k);
    }
  }

  /** No slice is injected exactly when no parameter ends with `...`. */
  lemma {:induction false} LastRestNone(items: seq<Item>)
    ensures LastRest(items).None? <==> forall j :: 0 <= j < |items| ==> !items[j].expr.YadaExpr?
    decreases |items|
  {
    if items != [] {
      var front := items[..|items| - 1];
      LastRestNone(front);
      assert forall j :: 0 <= j < |front| ==> front[j] == items[j];
    }
  }

  // ---------------------------------------------------------------------
  // Rest parameters as written (ast.js:249-255, ast.js:287-289)

  /** `render` as written reads a rest parameter's elements by the wrong positions:
      the whitespace of its first element (the name), then the second (the `...`). */
  function RenderParamAsWritten(it: Item): string {
    if it.expr.YadaExpr? then it.expr.ident.ws + TokenText(it.expr.dots) + OptText(it.comma)
    else RenderParam(it)
  }

  /** The injected slice as written: it assigns to the text of the rest
      parameter's second element. */
  function RestSliceAsWritten(items: seq<Item>): string {
    match LastRest(items)
    case None => ""
    case Some((_, k)) =>
      if k < |items| && items[k].expr.YadaExpr? then SliceStatement(items[k].expr.dots.text, k) else ""
  }

  /** For the rest parameter `args...` the code as written prints the `...` where
      the parameter's name belongs; the model's parameter prints the name. */
  lemma RestParamRendersDots(it: Item)
    requires it.expr.YadaExpr? && it.expr.dots.text == "..."
    ensures RenderParamAsWritten(it) == it.expr.ident.ws + "..." + it.expr.dots.ws + OptText(it.comma)
    ensures RenderParam(it) == it.expr.dots.ws + it.expr.ident.text + it.expr.ident.ws + OptText(it.comma)
  {
  }

  /** As written, the slice statement for the last rest parameter assigns to `...`;
      the model's assigns to the parameter's name. */
  lemma RestSliceAssignsDots(items: seq<Item>, k: nat)
    requires k < |items| && items[k].expr.YadaExpr? && items[k].expr.dots.text == "..."
    requires forall j :: k < j < |items| ==> !items[j].expr.YadaExpr?
    ensures RestSliceAsWritten(items) == SliceStatement("...", k)
    ensures RestSlice(items) == SliceStatement(items[k].expr.ident.text, k)
  {
    LastRestFound(items, k);
  }

  // ---------------------------------------------------------------------
  // Pragmas keep the line structure (ast.js:869-882)

  predicate OneLine(t: Token) {
    '\n' !in t.text
  }

  lemma {:induction false} PragmaLines(names: seq<PragmaItem>)
    requires forall i :: 0 <= i < |names| ==> OneLine(names[i].name) && OneLine(names[i].sep)
    ensures Newlines(PragmaTexts(names)) == 0
    ensures Newlines(PragmaSpaces(names)) == Newlines(TextOf(PragmaTokens(names)))
  {
    if names != [] {
      var n := names[0];
      PragmaLines(names[1..]);
      TextOfAppend([n.name, n.sep], PragmaTokens(names[1..]));
      TextOfTwo(n.name, n.sep);
      assert multiset(n.name.text)['\n'] == 0 && multiset(n.sep.text)['\n'] == 0;
    }
  }

  lemma {:induction false} RenderPragmaLines(kw: Token, names: seq<PragmaItem>)
    requires OneLine(kw) && forall i :: 0 <= i < |names| ==> OneLine(names[i].name) && OneLine(names[i].sep)
    ensures Newlines(RenderPragma(kw, names)) == Newlines(TextOf([kw] + PragmaTokens(names)))
  {
    PragmaLines(names);
    TextOfAppend([kw], PragmaTokens(names));
    TextOfOne(kw);
    assert multiset(kw.text)['\n'] == 0;
  }

  /** A pragma becomes a comment on one line followed by all of its whitespace, so
      every statement after it stays on the line it was written on. */
  lemma PragmaKeepsLines(n: Node)
    requires n.IncludePragma? || n.DeclarePragma?
    requires OneLine(n.kw) && forall i :: 0 <= i < |n.names| ==> OneLine(n.names[i].name) && OneLine(n.names[i].sep)
    ensures Newlines(Render(n)) == Newlines(Source(n))
  {
    RenderPragmaLines(n.kw, n.names);
    PragmaUnfold(n);
  }

  lemma PragmaUnfold(n: Node)
    requires n.IncludePragma? || n.DeclarePragma?
    ensures Render(n) == RenderPragma(n.kw, n.names)
    ensures Source(n) == TextOf([n.kw] + PragmaTokens(n.names))
  {
    assert Tokens(n) == [n.kw] + PragmaTokens(n.names);
  }
}
