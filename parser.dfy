/** The `Parser` object of parser.js: the remaining text, the offset into the
    original text, the one-token lookahead cache and the last token handed out,
    updated in place by the scanning methods (findToken, findWhitespace,
    findString, next, peek, expect) and by the recursive-descent methods that
    build the syntax tree; `error` turns an offset into a line number.

    A ghost field, `read`, records the tokens handed out to the parse methods
    that the syntax tree keeps, in order: a string literal's STRING token takes
    the place of its opening quote, and the `: name {` that an expression
    statement reads and drops is taken out again. */
module Parsing {
  import opened Base
  import opened Lexer
  import opened Syntax
  import opened Scanning
  import opened Rendering
  import Scopes
  import Programs

  /** A validation error as `parse` reports it: at the line of its token. */
  function ValidationError(filename: string, original: string, e: Scopes.VError): (r: ParseError)
    ensures r.ErrorAt? && r.filename == filename && r.msg == e.msg && r.line == LineAt(original, e.at.loc)
  {
    ErrorOf(filename, original, e.at.loc, e.msg)
  }

  // -------------------------------------------------------------------
  // The tokens of a tree, in the order the parse methods read them: each lemma
  // takes the tokens `r` read after `r0`, one part after another, and finds the
  // tree's tokens after `r0`.

  lemma ReadIf(r0: seq<Token>, r: seq<Token>, n: Node)
    requires n.IfStatement?
    requires n.elsePart.None? ==> r == r0 + [n.ifTok] + [n.lparen] + Tokens(n.test) + [n.rparen] + Tokens(n.block)
    requires n.elsePart.Some? ==>
      r == r0 + [n.ifTok] + [n.lparen] + Tokens(n.test) + [n.rparen] + Tokens(n.block)
        + [n.elsePart.value.elseTok] + Tokens(n.elsePart.value.body)
    ensures r == r0 + Tokens(n)
  {
  }

  lemma ReadWhile(r0: seq<Token>, r: seq<Token>, n: Node)
    requires n.WhileStatement?
    requires r == r0 + [n.whileTok] + [n.lparen] + Tokens(n.test) + [n.rparen] + Tokens(n.block)
    ensures r == r0 + Tokens(n)
  {
  }

  lemma ReadFor(r0: seq<Token>, r: seq<Token>, n: Node)
    requires n.ForStatement?
    requires r == r0 + [n.forTok] + [n.lparen] + ItemsTokens(n.inits.items) + [n.semi1] + ItemsTokens(n.tests.items)
      + [n.semi2] + ItemsTokens(n.updates.items) + [n.rparen] + Tokens(n.block)
    ensures r == r0 + Tokens(n)
  {
  }

  lemma ReadReturn(r0: seq<Token>, r: seq<Token>, n: Node)
    requires n.ReturnStatement?
    requires n.value.None? ==> r == r0 + [n.retTok] + [n.semi]
    requires n.value.Some? ==> r == r0 + [n.retTok] + Tokens(n.value.value) + [n.semi]
    ensures r == r0 + Tokens(n)
  {
  }

  lemma ReadThrow(r0: seq<Token>, r: seq<Token>, n: Node)
    requires n.ThrowStatement?
    requires r == r0 + [n.throwTok] + Tokens(n.thrown) + [n.semi]
    ensures r == r0 + Tokens(n)
  {
  }

  lemma ReadVar(r0: seq<Token>, r: seq<Token>, n: Node)
    requires n.VarStatement?
    requires r == r0 + [n.varTok] + ItemsTokens(n.decls.items) + [n.semi]
    ensures r == r0 + Tokens(n)
  {
  }

  lemma ReadPragma(r0: seq<Token>, r: seq<Token>, n: Node)
    requires n.IncludePragma? || n.DeclarePragma?
    requires r == r0 + [n.kw] + PragmaTokens(n.names)
    ensures r == r0 + Tokens(n)
  {
  }

  lemma ReadBlock(r0: seq<Token>, r: seq<Token>, n: Node)
    requires n.Block?
    requires r == r0 + [n.lbrace] + NodesTokens(n.stmts) + [n.rbrace]
    ensures r == r0 + Tokens(n)
  {
  }

  lemma ReadExprStatement(r0: seq<Token>, r: seq<Token>, n: Node)
    requires n.ExprStatement?
    requires n.expr.None? ==> r == r0 + [n.semi]
    requires n.expr.Some? ==> r == r0 + Tokens(n.expr.value) + [n.semi]
    ensures r == r0 + Tokens(n)
  {
  }

  lemma ReadLabeled(r0: seq<Token>, r: seq<Token>, name: Node, n: Node)
    requires n.LabeledStatement? && name == IdentExpr(n.name)
    requires r == r0 + Tokens(name) + [n.colon] + Tokens(n.loop)
    ensures r == r0 + Tokens(n)
  {
  }

  lemma ReadUnary(r0: seq<Token>, r: seq<Token>, n: Node)
    requires n.UnaryOpExpr?
    requires r == r0 + [n.op] + Tokens(n.operand)
    ensures r == r0 + Tokens(n)
  {
  }

  lemma ReadBinary(r0: seq<Token>, r: seq<Token>, n: Node)
    requires n.BinaryOpExpr?
    requires r == r0 + Tokens(n.left) + [n.op] + Tokens(n.right)
    ensures r == r0 + Tokens(n)
  {
  }

  lemma ReadTernary(r0: seq<Token>, r: seq<Token>, n: Node)
    requires n.TernaryOpExpr?
    requires r == r0 + Tokens(n.cond) + [n.qmark] + Tokens(n.ifTrue) + [n.colon] + Tokens(n.ifFalse)
    ensures r == r0 + Tokens(n)
  {
  }

  lemma ReadPostfix(r0: seq<Token>, r: seq<Token>, n: Node)
    requires IsPostfixNode(n)
    requires r == r0 + Tokens(Operand(n)) + Trailer(n)
    ensures r == r0 + Tokens(n)
  {
  }

  /** `e...` is the postfix form `...` of the identifier `e`. */
  lemma YadaPostfix(e: Node, dots: Token)
    requires e.IdentExpr? && WellFormed(e) && dots.kind == "..."
    ensures PostfixOf(e, "...", YadaExpr(e.tok, dots))
  {
  }

  lemma ReadTrailer(r0: seq<Token>, r: seq<Token>, n: Node)
    requires IsPostfixNode(n)
    requires n.InvokeExpr? ==> r == r0 + [n.dot] + [n.name] + [n.lparen] + ItemsTokens(n.args.items) + [n.rparen]
    requires n.CallExpr? ==> r == r0 + [n.lparen] + ItemsTokens(n.args.items) + [n.rparen]
    requires n.IndexExpr? ==> r == r0 + [n.lbracket] + Tokens(n.index) + [n.rbracket]
    requires n.PropertyExpr? ==> r == r0 + [n.dot] + [n.name]
    requires n.PrototypePropertyExpr? && n.member.None? ==> r == r0 + [n.colons]
    requires n.PrototypePropertyExpr? && n.member.Some? ==> r == r0 + [n.colons] + [n.member.value]
    requires n.YadaExpr? ==> r == r0 + [n.dots]
    ensures r == r0 + Trailer(n)
  {
    match n
    case InvokeExpr(_, dot, name, lp, args, rp) =>
      Assoc(r0, [dot], [name]);
      Assoc(r0, [dot] + [name], [lp]);
      Assoc(r0, [dot] + [name] + [lp], ItemsTokens(args.items));
      Assoc(r0, [dot] + [name] + [lp] + ItemsTokens(args.items), [rp]);
    case CallExpr(_, lp, args, rp) =>
      Assoc(r0, [lp], ItemsTokens(args.items));
      Assoc(r0, [lp] + ItemsTokens(args.items), [rp]);
    case IndexExpr(_, lb, i, rb) =>
      Assoc(r0, [lb], Tokens(i));
      Assoc(r0, [lb] + Tokens(i), [rb]);
    case PropertyExpr(_, dot, name) =>
      Assoc(r0, [dot], [name]);
    case PrototypePropertyExpr(_, colons, m) =>
      if m.Some? {
        Assoc(r0, [colons], [m.value]);
      }
    case YadaExpr(_, dots) =>
  }

  lemma ReadPass(r0: seq<Token>, r: seq<Token>, n: Node)
    requires n.PassExpr?
    requires n.handler.None? ==> r == r0 + [n.at]
    requires n.handler.Some? ==> r == r0 + [n.at] + [n.handler.value]
    ensures r == r0 + Tokens(n)
  {
  }

  lemma ReadArray(r0: seq<Token>, r: seq<Token>, n: Node)
    requires n.ArrayExpr?
    requires r == r0 + [n.lbracket] + ItemsTokens(n.elements.items) + [n.rbracket]
    ensures r == r0 + Tokens(n)
  {
  }

  lemma ReadObject(r0: seq<Token>, r: seq<Token>, n: Node)
    requires n.ObjectExpr?
    requires r == r0 + [n.lbrace] + PropsTokens(n.props) + [n.rbrace]
    ensures r == r0 + Tokens(n)
  {
  }

  lemma ReadNew(r0: seq<Token>, r: seq<Token>, n: Node)
    requires n.NewExpr?
    requires r == r0 + [n.newTok] + Tokens(n.target) + [n.lparen] + ItemsTokens(n.args.items) + [n.rparen]
    ensures r == r0 + Tokens(n)
  {
  }

  lemma ReadSimpleArrow(r0: seq<Token>, r: seq<Token>, n: Node)
    requires n.SimpleArrowFunctionExpr?
    requires r == r0 + [n.arrow] + Tokens(n.body)
    ensures r == r0 + Tokens(n)
  {
  }

  lemma ReadGroup(r0: seq<Token>, r: seq<Token>, n: Node)
    requires n.GroupExpr?
    requires r == r0 + [n.lparen] + Tokens(n.inner) + [n.rparen]
    ensures r == r0 + Tokens(n)
  {
  }

  lemma ReadFunction(r0: seq<Token>, r: seq<Token>, n: Node)
    requires n.FunctionExpr?
    requires r == r0 + [n.lparen] + ItemsTokens(n.args.items) + [n.rparen] + ThisTokens(n.thisPart) + Tokens(n.block)
    ensures r == r0 + Tokens(n)
  {
  }

  lemma ReadArrow(r0: seq<Token>, r: seq<Token>, n: Node)
    requires n.ArrowFunctionExpr?
    requires r == r0 + [n.lparen] + ItemsTokens(n.args.items) + [n.rparen] + [n.arrow] + Tokens(n.body)
    ensures r == r0 + Tokens(n)
  {
  }

  /** Each node is a well-formed statement. */
  predicate StatementsOk(ss: seq<Node>) {
    forall i :: 0 <= i < |ss| ==> IsStatement(ss[i]) && WellFormed(ss[i])
  }

  lemma StatementsSnoc(ss: seq<Node>, s: Node)
    requires StatementsOk(ss) && IsStatement(s) && WellFormed(s)
    ensures StatementsOk(ss + [s])
  {
    assert forall i :: 0 <= i < |ss| ==> (ss + [s])[i] == ss[i];
  }

  lemma ReadStatementIn(r0: seq<Token>, r: seq<Token>, ss: seq<Node>, s: Node)
    requires r == r0 + NodesTokens(ss) + Tokens(s)
    ensures r == r0 + NodesTokens(ss + [s])
  {
    NodesTokensSnoc(ss, s);
  }

  lemma ReadItemIn(r0: seq<Token>, r: seq<Token>, items: seq<Item>, it: Item)
    requires r == r0 + ItemsTokens(items) + ItemTokens(it)
    ensures r == r0 + ItemsTokens(items + [it])
  {
    ItemsTokensSnoc(items, it);
    Assoc(r0, ItemsTokens(items), ItemTokens(it));
  }

  /** The elements of a list still open: each followed by a comma. */
  predicate OpenList(items: seq<Item>) {
    forall i :: 0 <= i < |items| ==>
      items[i].comma.Some? && items[i].comma.value.kind == "," && IsExpression(items[i].expr) && WellFormed(items[i].expr)
  }

  lemma OpenListOk(items: seq<Item>)
    requires OpenList(items)
    ensures ListOk(ExprList(items)) && OpenEnd(items)
  {
  }

  lemma OpenListGrows(items: seq<Item>, it: Item)
    requires OpenList(items) && IsExpression(it.expr) && WellFormed(it.expr) && OptKind(it.comma, ",")
    ensures ListOk(ExprList(items + [it])) && (OpenEnd(items + [it]) <==> it.comma.Some?)
    ensures it.comma.Some? ==> OpenList(items + [it])
  {
    assert forall i :: 0 <= i < |items| ==> (items + [it])[i] == items[i];
  }

  /** A property as `parseObjectExpr` reads it: a name or string key, `:`, a
      well-formed value, and maybe a comma. */
  predicate PropOk(p: Prop) {
    && (p.key.kind == "IDENT" || p.key.kind == "STRING") && p.colon.kind == ":"
    && IsExpression(p.value) && WellFormed(p.value) && OptKind(p.comma, ",")
  }

  /** The properties of an object literal still open: each followed by a comma. */
  predicate OpenProps(props: seq<Prop>) {
    forall i :: 0 <= i < |props| ==> PropOk(props[i]) && props[i].comma.Some?
  }

  lemma OpenPropsShape(props: seq<Prop>)
    requires OpenProps(props)
    ensures PropsShape(props) && forall i :: 0 <= i < |props| ==> IsExpression(props[i].value) && WellFormed(props[i].value)
  {
  }

  lemma OpenPropsGrows(props: seq<Prop>, p: Prop)
    requires OpenProps(props) && PropOk(p)
    ensures PropsShape(props + [p])
    ensures forall i :: 0 <= i < |props| + 1 ==> IsExpression((props + [p])[i].value) && WellFormed((props + [p])[i].value)
    ensures p.comma.Some? ==> OpenProps(props + [p])
  {
    assert forall i :: 0 <= i < |props| ==> (props + [p])[i] == props[i];
  }

  /** The target of `new` as read so far. */
  predicate NewTargetOk(t: Node) {
    IsNewTarget(t) && IsExpression(t) && WellFormed(t)
  }

  /** `. name` after the target of `new` extends it, and its tokens. */
  lemma NewTargetGrows(r0: seq<Token>, r: seq<Token>, t: Node, dot: Token, name: Token)
    requires NewTargetOk(t) && dot.kind == "." && name.kind == "IDENT"
    requires r == r0 + Tokens(t) + [dot] + [name]
    ensures NewTargetOk(PropertyExpr(t, dot, name)) && r == r0 + Tokens(PropertyExpr(t, dot, name))
  {
    WellFormedProperty(t, dot, name);
    Assoc(r0, Tokens(t), [dot] + [name]);
    Assoc(r0 + Tokens(t), [dot], [name]);
  }

  lemma ReadPropIn(r0: seq<Token>, r: seq<Token>, ps: seq<Prop>, p: Prop)
    requires r == r0 + PropsTokens(ps) + PropTokens(p)
    ensures r == r0 + PropsTokens(ps + [p])
  {
    PropsTokensSnoc(ps, p);
  }

  lemma ReadProp(r0: seq<Token>, r: seq<Token>, p: Prop)
    requires p.comma.None? ==> r == r0 + [p.key] + [p.colon] + Tokens(p.value)
    requires p.comma.Some? ==> r == r0 + [p.key] + [p.colon] + Tokens(p.value) + [p.comma.value]
    ensures r == r0 + PropTokens(p)
  {
  }

  /** Names each followed by a comma: the part of a pragma's names read so far. */
  predicate CommaNames(names: seq<PragmaItem>) {
    forall i :: 0 <= i < |names| ==> names[i].name.kind == "IDENT" && names[i].sep.kind == ","
  }

  lemma CommaNamesSnoc(names: seq<PragmaItem>, it: PragmaItem)
    requires CommaNames(names) && it.name.kind == "IDENT"
    ensures it.sep.kind == "," ==> CommaNames(names + [it])
    ensures it.sep.kind == ";" ==> PragmaShape(names + [it])
  {
    assert forall i :: 0 <= i < |names| ==> (names + [it])[i] == names[i];
  }

  lemma ReadPragmaIn(r0: seq<Token>, r: seq<Token>, names: seq<PragmaItem>, it: PragmaItem)
    requires r == r0 + PragmaTokens(names) + [it.name] + [it.sep]
    ensures r == r0 + PragmaTokens(names + [it])
  {
    PragmaTokensSnoc(names, it);
  }

  /** The prefix form of `parseExpr` a token of type `k` starts (parser.js:478-531). */
  predicate PrimaryFor(k: string, n: Node) {
    if k == "NUMBER" then n.NumberExpr?
    else if k == "null" then n.NullExpr?
    else if k == "true" || k == "false" then n.TrueFalseExpr?
    else if k == "IDENT" then n.IdentExpr?
    else if k in {"'", "\"", "/"} then n.StringExpr?
    else if k == "@" then n.PassExpr?
    else if k == "[" then n.ArrayExpr?
    else if k == "{" then n.ObjectExpr?
    else if k == "new" then n.NewExpr?
    else if IsUnaryOp(k) then n.UnaryOpExpr?
    else if k == "(" then n.FunctionExpr? || n.ArrowFunctionExpr? || n.GroupExpr?
    else if k == "->" then n.SimpleArrowFunctionExpr?
    else false
  }

  /** The token types a prefix form starts with; `parseExpr` fails on any other. */
  predicate StartsPrimary(k: string) {
    k in {"NUMBER", "null", "true", "false", "IDENT", "'", "\"", "/", "@", "[", "{", "new", "(", "->"}
    || IsUnaryOp(k)
  }

  /** The statement `parseStatement` parses for a first token of type `k`
      (parser.js:294-308); `break` and `continue` never give one. */
  predicate StatementFor(k: string, n: Node) {
    if k == "if" then n.IfStatement?
    else if k == "while" then n.WhileStatement?
    else if k == "for" then n.ForStatement?
    else if k == "break" || k == "continue" then false
    else if k == "return" then n.ReturnStatement?
    else if k == "throw" then n.ThrowStatement?
    else if k == "var" then n.VarStatement?
    else if k == "#include" then n.IncludePragma?
    else if k == "#declare" then n.DeclarePragma?
    else n.ExprStatement? || n.LabeledStatement?
  }

  /** The node types the postfix forms of the infix loop build (parser.js:579-616). */
  predicate IsPostfixNode(n: Node) {
    n.InvokeExpr? || n.CallExpr? || n.IndexExpr? || n.PropertyExpr? || n.PrototypePropertyExpr? || n.YadaExpr?
  }

  /** The expression a postfix form was applied to. */
  function Operand(n: Node): Node
    requires IsPostfixNode(n)
  {
    if n.YadaExpr? then IdentExpr(n.ident) else n.target
  }

  /** `n` is a well-formed postfix form that the token `k` starts, applied to `e`. */
  predicate PostfixOf(e: Node, k: string, n: Node) {
    && IsPostfixNode(n) && Operand(n) == e
    && (k == "." ==> n.InvokeExpr? || n.PropertyExpr?)
    && (k == "(" ==> n.CallExpr?) && (k == "[" ==> n.IndexExpr?)
    && (k == "::" ==> n.PrototypePropertyExpr?) && (k == "..." ==> n.YadaExpr?)
    && WellFormed(n) && Absorbed(n, MaxPrec)
  }

  /** The tokens a postfix form reads after the expression it applies to. */
  function Trailer(n: Node): (ts: seq<Token>)
    requires IsPostfixNode(n)
    ensures Tokens(n) == Tokens(Operand(n)) + ts
  {
    match n
    case InvokeExpr(_, dot, name, lp, args, rp) => [dot] + [name] + [lp] + ItemsTokens(args.items) + [rp]
    case CallExpr(_, lp, args, rp) => [lp] + ItemsTokens(args.items) + [rp]
    case IndexExpr(_, lb, i, rb) => [lb] + Tokens(i) + [rb]
    case PropertyExpr(_, dot, name) => [dot] + [name]
    case PrototypePropertyExpr(_, colons, m) => [colons] + OptTokens(m)
    case YadaExpr(_, dots) => [dots]
  }

  /** A list that may go on: empty, or its last element followed by a comma. */
  predicate OpenEnd(items: seq<Item>) {
    items == [] || items[|items| - 1].comma.Some?
  }

  class Parser {
    const filename: string
    const original: string
    /** The token table the scanner tries, in order. */
    const table: seq<Entry>
    var text: string
    var loc: int
    var peeked: Option<Token>
    var lastToken: Option<Token>
    /** The tokens handed out to the parse methods that the tree keeps, in order. */
    ghost var read: seq<Token>

    /** A token `next` may cache when the text left is `text`: not refused, EOF
        exactly at the end of the text, and any other token with some text. */
    ghost predicate Cacheable(t: Token)
      reads this
    {
      && !Rejected(t.kind)
      && (t.kind == "EOF" ==> text == "" && t.text == "" && t.ws == "")
      && (t.kind != "EOF" ==> t.text != "")
    }

    /** The text still to read is the original without its first `loc` characters,
        and a cached token is one `next` accepted and the last one handed out. */
    ghost predicate Valid()
      reads this
    {
      && 0 <= loc <= |original| && NoEofEntry(table)
      && text == original[loc..]
      && (peeked.Some? ==> lastToken == peeked && Cacheable(peeked.value))
    }

    /** What remains to be read: the text, and one more for a cached non-empty token. */
    function Measure(): nat
      reads this
    {
      |text| + (if peeked.Some? && peeked.value.text != "" then 1 else 0)
    }

    /** Where `error` reports when no offset is given: the last token, else 0. */
    function DefaultLoc(): int
      reads this
    {
      if lastToken.Some? then lastToken.value.loc else 0
    }

    /** What `next` does now: hands out the cached token; or lexes one from the text,
        failing with "invalid token" when nothing matches and with the refusal message
        for a reserved type. */
    ghost function NextResult(): Result<Token, ParseError>
      reads this
    {
      if peeked.Some? then Success(peeked.value)
      else match Lex(table, text, loc)
        case None => Failure(ErrorOf(filename, original, DefaultLoc(), "invalid token"))
        case Some(t) =>
          if Rejected(t.kind) then Failure(ErrorOf(filename, original, t.loc, RejectMessage(t.kind)))
          else Success(t)
    }

    /** What `expect(kind)` makes of what `next` gives: a token of another type is
        reported at that token. */
    function ExpectResult(kind: string, n: Result<Token, ParseError>): Result<Token, ParseError> {
      if n.Success? && n.value.kind != kind then
        Failure(ErrorOf(filename, original, n.value.loc, ExpectMessage(kind, n.value)))
      else n
    }

    /** What `findString` gives after the quote `q` when the text left is `s` at offset
        `at`: the STRING token of the quote, the body and the closing quote, with the
        whitespace after it. */
    function StringRead(q: Token, s: string, at: int): Result<Token, ParseError>
      requires q.kind != ""
    {
      match StringEnd(s, q.kind[0])
      case None => Failure(ErrorOf(filename, original, q.loc, "runaway string literal"))
      case Some(n) => Success(Token("STRING", [q.kind[0]] + s[..n], at - 1, WsRun(s[n..])))
    }

    constructor(filename: string, text: string)
      ensures this.filename == filename && original == text && this.text == text && table == Table
      ensures loc == 0 && peeked.None? && lastToken.None?
      ensures read == []
      ensures Valid()
    {
      TableNoEof();
      this.filename := filename;
      original := text;
      table := Table;
      this.text := text;
      loc := 0;
      peeked := None;
      lastToken := None;
      read := [];
    }

    /** `error(msg, at)`: the message, prefixed with the file name and the line of `at`,
        or of the last token when no offset is given. */
    method Error(msg: string, at: Option<int>) returns (e: ParseError)
      ensures e == ErrorOf(filename, original, if at.Some? then at.value else DefaultLoc(), msg)
    {
      var where := if at.Some? then at.value else if lastToken.Some? then lastToken.value.loc else 0;
      var i := 0;
      var line := 1;
      while i < where
        invariant 0 <= i && (where >= 0 ==> i <= where) && (where < 0 ==> i == 0)
        invariant line == LineAt(original, i)
        decreases where - i
      {
        if i < |original| {
          LineAtStep(original, i);
          if original[i] == '\n' {
            line := line + 1;
          }
        }
        i := i + 1;
      }
      assert LineAt(original, where) == LineAt(original, i);
      e := ErrorAt(filename, line, msg);
    }

    /** The inner loop of `findWhitespace`: tries the whitespace patterns in order and
        returns the length of the first that matches, 0 when none does. */
    static method MatchWhitespace(t: string) returns (m: nat)
      ensures m == FirstWs(t, 0)
    {
      var i := 0;
      while i < 4
        invariant 0 <= i <= 4
        invariant FirstWs(t, i) == FirstWs(t, 0)
      {
        m := WsPattern(i, t);
        if m > 0 {
          return;
        }
        i := i + 1;
      }
      m := 0;
    }

    /** `findWhitespace`: consumes the run of whitespace and comments at the front of the
        text and returns it. */
    method FindWhitespace() returns (ws: string)
      requires Valid() && peeked.None?
      modifies this
      ensures Valid()
      ensures ws == WsRun(old(text))
      ensures |ws| <= |old(text)| && text == old(text)[|ws|..] && loc == old(loc) + |ws|
      ensures peeked == old(peeked) && lastToken == old(lastToken)
      ensures read == old(read)
    {
      ws := "";
      var t := text;
      while true
        invariant |ws| <= |old(text)| && t == old(text)[|ws|..]
        invariant ws + WsRun(t) == WsRun(old(text))
        invariant unchanged(this)
        decreases |t|
      {
        var m := MatchWhitespace(t);
        if m == 0 {
          break;
        }
        WsRunAdvance(old(text), ws, t, m);
        DropDrop(old(text), |ws|, m);
        ws := ws + t[..m];
        t := t[m..];
      }
      WsRunIsPrefix(old(text));
      DropDrop(original, loc, |ws|);
      text := t;
      loc := loc + |ws|;
    }

    /** `findToken`: the first entry of the token table that matches at the front of the
        text becomes the token (without whitespace yet) and is consumed; "invalid token"
        when no entry matches. */
    method FindToken() returns (r: Result<Token, ParseError>)
      requires Valid() && peeked.None?
      modifies this
      ensures Valid() && peeked == old(peeked) && lastToken == old(lastToken)
      ensures read == old(read)
      ensures Scan(table, old(text)).None? ==>
        && r == Failure(ErrorOf(filename, original, DefaultLoc(), "invalid token"))
        && text == old(text) && loc == old(loc)
      ensures Scan(table, old(text)).Some? ==>
        var lx := Scan(table, old(text)).value;
        && r == Success(Token(lx.kind, old(text)[..lx.len], old(loc), ""))
        && text == old(text)[lx.len..] && loc == old(loc) + lx.len
    {
      var i := 0;
      while i < |table|
        invariant 0 <= i <= |table|
        invariant NoMatchBelow(table, text, i)
      {
        if MatchLen(table[i], text) > 0 {
          break;
        }
        i := i + 1;
      }
      if i == |table| {
        ScanNone(table, text);
        var e := Error("invalid token", None);
        return Failure(e);
      }
      var n := MatchLen(table[i], text);
      ScanFound(table, text, i);
      r := Success(Token(KindOf(table[i]), text[..n], loc, ""));
      DropDrop(original, loc, n);
      text := text[n..];
      loc := loc + n;
    }

    /** `findString(quote)`: reads a quoted body up to the first closing quote that no
        backslash escapes (a backslash skips the character after it), makes the STRING
        token of the quote and the body, closing quote included, and takes the whitespace
        after it; "runaway string literal" when the text ends first. */
    method FindString(quote: char) returns (r: Result<Token, ParseError>)
      requires Valid() && peeked.None?
      modifies this
      ensures Valid() && peeked == old(peeked) && lastToken == old(lastToken)
      ensures read == old(read)
      ensures StringEnd(old(text), quote).None? ==>
        r == Failure(ErrorOf(filename, original, DefaultLoc(), "runaway string literal"))
        && text == old(text) && loc == old(loc)
      ensures StringEnd(old(text), quote).Some? ==>
        var n := StringEnd(old(text), quote).value;
        var ws := WsRun(old(text)[n..]);
        && r == Success(Token("STRING", [quote] + old(text)[..n], old(loc) - 1, ws))
        && n + |ws| <= |old(text)| && text == old(text)[n + |ws|..] && loc == old(loc) + n + |ws|
    {
      var t := text;
      var end := ScanString(t, quote);
      if end.None? {
        var e := Error("runaway string literal", None);
        return Failure(e);
      }
      var len := end.value;
      var tok := Token("STRING", [quote] + t[..len], loc - 1, "");
      DropDrop(original, loc, len);
      text := t[len..];
      loc := loc + len;
      var ws := FindWhitespace();
      DropDrop(t, len, |ws|);
      r := Success(tok.(ws := ws));
    }

    /** Skipping `k` characters of the body at `len` (an escape and the character after
        it, or one plain character) leaves where it ends unchanged. */
    static lemma StringEndSkip(t: string, quote: char, len: nat, k: nat)
      requires len + k <= |t| && (k == 1 || k == 2)
      requires k == 2 ==> t[len] == '\\'
      requires k == 1 ==> t[len] != '\\' && t[len] != quote
      ensures Shift(StringEnd(t[len..], quote), len) == Shift(StringEnd(t[len + k..], quote), len + k)
    {
      assert t[len..][k..] == t[len + k..];
    }

    /** The scanning loop of `findString`: how many characters of `t` the body takes,
        closing quote included; `None` when `t` ends first. */
    static method ScanString(t: string, quote: char) returns (end: Option<nat>)
      ensures end == StringEnd(t, quote)
    {
      var len := 0;
      while true
        invariant 0 <= len <= |t| + 1
        invariant len <= |t| ==> StringEnd(t, quote) == Shift(StringEnd(t[len..], quote), len)
        invariant len > |t| ==> StringEnd(t, quote).None?
        decreases |t| + 1 - len
      {
        if len >= |t| {
          return None;
        } else if t[len] == '\\' {
          if len + 2 <= |t| {
            StringEndSkip(t, quote, len, 2);
          }
          len := len + 2;
        } else if t[len] == quote {
          return Some(len + 1);
        } else {
          StringEndSkip(t, quote, len, 1);
          len := len + 1;
        }
      }
    }

    /** The part of `next` that reads a token when none is cached: EOF at the end of
        the text, otherwise `findToken`; then `findWhitespace` for its whitespace. */
    method ReadToken() returns (r: Result<Token, ParseError>)
      requires Valid() && peeked.None?
      modifies this
      ensures Valid() && peeked.None? && lastToken == old(lastToken)
      ensures read == old(read)
      ensures Lex(table, old(text), old(loc)).None? ==>
        r == Failure(ErrorOf(filename, original, DefaultLoc(), "invalid token"))
        && text == old(text) && loc == old(loc)
      ensures Lex(table, old(text), old(loc)).Some? ==>
        var t := Lex(table, old(text), old(loc)).value;
        && r == Success(t)
        && text == old(text)[|t.text| + |t.ws|..] && loc == old(loc) + |t.text| + |t.ws|
    {
      if text == "" {
        var ws := FindWhitespace();
        assert ws == "";
        return Success(Token("EOF", "", loc, ws));
      }
      r := ReadLexeme();
      if r.Success? {
        LexFound(table, old(text), old(loc), Scan(table, old(text)).value);
      }
    }

    /** `findToken` followed by `findWhitespace`, away from the end of the text. */
    method ReadLexeme() returns (r: Result<Token, ParseError>)
      requires Valid() && peeked.None? && text != ""
      modifies this
      ensures Valid() && peeked.None? && lastToken == old(lastToken)
      ensures read == old(read)
      ensures Scan(table, old(text)).None? ==>
        r == Failure(ErrorOf(filename, original, DefaultLoc(), "invalid token"))
        && text == old(text) && loc == old(loc)
      ensures Scan(table, old(text)).Some? ==>
        var lx := Scan(table, old(text)).value;
        var ws := WsRun(old(text)[lx.len..]);
        && r == Success(Token(lx.kind, old(text)[..lx.len], old(loc), ws))
        && lx.len + |ws| <= |old(text)|
        && text == old(text)[lx.len + |ws|..] && loc == old(loc) + lx.len + |ws|
    {
      var f := FindToken();
      if f.Failure? {
        return Failure(f.error);
      }
      ghost var n := |f.value.text|;
      var ws := FindWhitespace();
      DropDrop(old(text), n, |ws|);
      r := Success(f.value.(ws := ws));
    }

    /** `next`: hands out the cached token, or lexes one (EOF at the end of the text)
        with the whitespace after it; records it as the last token; then refuses the
        reserved keywords and the strict comparison operators. The token handed out is
        appended to the tokens read. */
    method Next() returns (r: Result<Token, ParseError>)
      requires Valid()
      modifies this
      ensures Valid() && peeked.None?
      ensures r == old(NextResult())
      ensures r.Success? ==> lastToken == Some(r.value) && read == old(read) + [r.value] && Cacheable(r.value)
      ensures r.Failure? ==> read == old(read)
      ensures r.Failure? ==> r.error.ErrorAt?
      ensures old(peeked).Some? ==> text == old(text) && loc == old(loc)
      ensures Measure() <= old(Measure())
      ensures r.Success? && r.value.kind != "EOF" ==> Measure() < old(Measure())
    {
      if peeked.Some? {
        var t := TakePeeked();
        return Success(t);
      }
      var f := ReadToken();
      if f.Failure? {
        return Failure(f.error);
      }
      var t := f.value;
      lastToken := Some(t);
      if Rejected(t.kind) {
        var e := Error(RejectMessage(t.kind), None);
        return Failure(e);
      }
      read := read + [t];
      r := Success(t);
    }

    /** `peek`: the token the next `next` will hand out, cached so that asking again
        reads nothing more. */
    method Peek() returns (r: Result<Token, ParseError>)
      requires Valid()
      modifies this
      ensures Valid() && read == old(read)
      ensures r == old(NextResult())
      ensures r.Success? ==> peeked == Some(r.value)
      ensures r.Failure? ==> peeked.None?
      ensures old(peeked).Some? ==>
        peeked == old(peeked) && text == old(text) && loc == old(loc) && lastToken == old(lastToken)
      ensures Measure() <= old(Measure())
    {
      if peeked.Some? {
        return Success(peeked.value);
      }
      ghost var before := read;
      r := Next();
      if r.Success? {
        peeked := Some(r.value);
      }
      read := before;
    }

    /** `next` when a token is cached (the branch the parse methods take after a
        `peek`): it hands out that token, which the check of reserved types already let
        through when it was read. */
    method TakePeeked() returns (t: Token)
      requires Valid() && peeked.Some?
      modifies this
      ensures Valid() && peeked.None? && t == old(peeked).value && lastToken == Some(t)
      ensures read == old(read) + [t]
      ensures text == old(text) && loc == old(loc) && Cacheable(t)
      ensures Measure() <= old(Measure())
      ensures t.kind != "EOF" ==> Measure() < old(Measure())
    {
      t := peeked.value;
      peeked := None;
      lastToken := Some(t);
      read := read + [t];
    }

    /** `peek().type`, as the parse methods test it: the type of the token now cached. */
    method PeekType() returns (r: Result<string, ParseError>)
      requires Valid()
      modifies this
      ensures Valid() && read == old(read)
      ensures r == (var n := old(NextResult()); if n.Success? then Success(n.value.kind) else Failure(n.error))
      ensures r.Success? ==> peeked.Some? && peeked.value.kind == r.value
      ensures r.Failure? ==> peeked.None? && r.error.ErrorAt?
      ensures old(peeked).Some? ==>
        && r == Success(old(peeked).value.kind) && peeked == old(peeked)
        && text == old(text) && loc == old(loc) && lastToken == old(lastToken)
      ensures Measure() <= old(Measure())
    {
      var t :- Peek();
      return Success(t.kind);
    }

    /** `expect(kind)`: the next token, which must be of type `kind`; another type is
        "expected 'kind' instead of ..." at that token. */
    method Expect(kind: string) returns (r: Result<Token, ParseError>)
      requires Valid()
      modifies this
      ensures Valid() && peeked.None?
      ensures r == ExpectResult(kind, old(NextResult()))
      ensures r.Success? ==> r.value.kind == kind && lastToken == Some(r.value) && read == old(read) + [r.value]
      ensures read != old(read) ==>
        lastToken.Some? && read == old(read) + [lastToken.value] && r == ExpectResult(kind, Success(lastToken.value))
      ensures read == old(read) ==> r.Failure? && r.error.ErrorAt?
      ensures old(peeked).Some? ==> read == old(read) + [old(peeked).value]
      ensures r.Success? && kind != "EOF" ==> r.value.text != "" && Measure() < old(Measure())
      ensures Measure() <= old(Measure())
    {
      r := Next();
      if r.Success? && r.value.kind != kind {
        var e := Error(ExpectMessage(kind, r.value), None);
        r := Failure(e);
      }
    }

    /** The cached quote or `/` handed out, then `findString` for the literal after it:
        the STRING token takes the quote's place among the tokens read. */
    method ReadString() returns (r: Result<Token, ParseError>)
      requires Valid() && peeked.Some? && peeked.value.kind in {"'", "\"", "/"}
      modifies this
      ensures Valid() && peeked.None?
      ensures r == StringRead(old(peeked).value, old(text), old(loc))
      ensures r.Success? ==> read == old(read) + [r.value] && Measure() < old(Measure())
    {
      ghost var before := read;
      var quote := TakePeeked();
      var s := FindString(quote.kind[0]);
      if s.Failure? {
        return Failure(s.error);
      }
      read := before + [s.value];
      r := s;
    }

    // -------------------------------------------------------------------
    // Expressions (parser.js:285-652)

    /** `parseExpr()` with no threshold, which parseExpr reads as 0: what the statement
        and list parsers call. */
    method ParseExpression() returns (r: Result<Node, ParseError>)
      requires Valid()
      modifies this
      ensures Valid()
      ensures r.Success? ==>
        && IsExpression(r.value) && WellFormed(r.value) && Absorbed(r.value, 0)
        && read == old(read) + Tokens(r.value)
        && peeked.Some? && !Continues(peeked.value.kind, 0) && Measure() < old(Measure())
      decreases Measure(), 4
    {
      r := ParseExpr(0);
    }

    /** `parseExpr(prec)`: a prefix form, then the infix loop, which goes on exactly
        while the cached token is a binary operator or `?` whose precedence the
        threshold lets through, or a postfix form (the cases of its switch that do not
        break out). The result has the precedence shape, is built from exactly the
        tokens read, and the loop stopped before a token it does not continue on. */
    method ParseExpr(prec: int) returns (r: Result<Node, ParseError>)
      requires Valid()
      modifies this
      ensures Valid()
      ensures r.Success? ==>
        && IsExpression(r.value) && WellFormed(r.value) && Absorbed(r.value, prec)
        && read == old(read) + Tokens(r.value)
        && peeked.Some? && !Continues(peeked.value.kind, prec)
        && Measure() < old(Measure())
      decreases Measure(), 3
    {
      var e :- ParsePrimary();
      AbsorbedAtom(e, MaxPrec, prec);
      while true
        invariant Valid() && IsExpression(e) && WellFormed(e) && Absorbed(e, prec)
        invariant read == old(read) + Tokens(e)
        invariant IsOperatorNode(e) ==> peeked.Some? && StoppedBefore(e, peeked.value.kind)
        invariant Measure() < old(Measure())
        decreases Measure()
      {
        var k :- PeekType();
        if !Continues(k, prec) {
          break;
        }
        e :- ParseOperator(e, prec, k, old(read));
      }
      return Success(e);
    }

    /** One pass of the switch in the loop of `parseExpr`, on the cached token `k` the
        loop continues on: a postfix form, `?`, or a binary or assignment operator,
        each taking `e` as its left operand. */
    method ParseOperator(e: Node, prec: int, k: string, ghost r0: seq<Token>) returns (r: Result<Node, ParseError>)
      requires Valid() && peeked.Some? && peeked.value.kind == k && Continues(k, prec)
      requires IsExpression(e) && WellFormed(e) && Absorbed(e, prec)
      requires IsOperatorNode(e) ==> StoppedBefore(e, k)
      requires read == r0 + Tokens(e)
      modifies this
      ensures Valid()
      ensures r.Success? ==>
        && IsExpression(r.value) && WellFormed(r.value) && Absorbed(r.value, prec)
        && read == r0 + Tokens(r.value)
        && (IsOperatorNode(r.value) ==> peeked.Some? && StoppedBefore(r.value, peeked.value.kind))
        && Measure() < old(Measure())
      decreases Measure(), 2, 1
    {
      if IsPostfix(k) {
        AbsorbedAtom(e, prec, MaxPrec);
        var p :- ParsePostfix(e, k);
        ReadPostfix(r0, read, p);
        AbsorbedAtom(p, MaxPrec, prec);
        return Success(p);
      } else {
        r := ParseInfix(e, prec, k, r0);
      }
    }

    /** The infix cases of that switch: `?`, or a binary or assignment operator. */
    method ParseInfix(e: Node, prec: int, k: string, ghost r0: seq<Token>) returns (r: Result<Node, ParseError>)
      requires Valid() && peeked.Some? && peeked.value.kind == k && Absorbs(k, prec)
      requires IsExpression(e) && WellFormed(e) && Absorbed(e, prec) && StoppedBefore(e, k)
      requires read == r0 + Tokens(e)
      modifies this
      ensures Valid()
      ensures r.Success? ==>
        && IsOperatorNode(r.value) && WellFormed(r.value) && Absorbed(r.value, prec)
        && read == r0 + Tokens(r.value)
        && peeked.Some? && StoppedBefore(r.value, peeked.value.kind)
        && Measure() < old(Measure())
      decreases Measure(), 2, 0
    {
      if k == "?" {
        var t :- ParseTernary(e, prec);
        ReadTernary(r0, read, t);
        return Success(t);
      } else {
        var b :- ParseBinary(e, prec);
        ReadBinary(r0, read, b);
        return Success(b);
      }
    }

    /** A binary or assignment operator the loop at threshold `prec` takes after `left`:
        its right operand is parsed at the operator's own precedence. */
    method ParseBinary(left: Node, prec: int) returns (r: Result<Node, ParseError>)
      requires Valid() && peeked.Some?
      requires (IsLeftAssocOp(peeked.value.kind) || IsAssignOp(peeked.value.kind)) && Absorbs(peeked.value.kind, prec)
      requires IsExpression(left) && WellFormed(left) && Absorbed(left, prec) && StoppedBefore(left, peeked.value.kind)
      modifies this
      ensures Valid()
      ensures r.Success? ==>
        && r.value.BinaryOpExpr? && r.value.left == left && r.value.op == old(peeked).value
        && WellFormed(r.value) && Absorbed(r.value, prec)
        && read == old(read) + [r.value.op] + Tokens(r.value.right)
        && peeked.Some? && StoppedBefore(r.value, peeked.value.kind)
        && Measure() < old(Measure())
      decreases Measure(), 1
    {
      var op := TakePeeked();
      var right :- ParseExpr(PrecOf(op.kind));
      WellFormedBinary(left, op, right);
      return Success(BinaryOpExpr(left, op, right));
    }

    /** `?` taken after `cond`: the middle operand is a full expression, the last is
        parsed at the precedence of `?`. */
    method ParseTernary(cond: Node, prec: int) returns (r: Result<Node, ParseError>)
      requires Valid() && peeked.Some? && peeked.value.kind == "?" && Absorbs("?", prec)
      requires IsExpression(cond) && WellFormed(cond) && Absorbed(cond, prec) && StoppedBefore(cond, "?")
      modifies this
      ensures Valid()
      ensures r.Success? ==>
        && r.value.TernaryOpExpr? && r.value.cond == cond && r.value.qmark == old(peeked).value
        && WellFormed(r.value) && Absorbed(r.value, prec)
        && read == old(read) + [r.value.qmark] + Tokens(r.value.ifTrue) + [r.value.colon] + Tokens(r.value.ifFalse)
        && peeked.Some? && StoppedBefore(r.value, peeked.value.kind)
        && Measure() < old(Measure())
      decreases Measure(), 1
    {
      var qmark := TakePeeked();
      var ifTrue :- ParseExpression();
      var colon :- Expect(":");
      var ifFalse :- ParseExpr(PrecOf("?"));
      WellFormedTernary(cond, qmark, ifTrue, colon, ifFalse);
      return Success(TernaryOpExpr(cond, qmark, ifTrue, colon, ifFalse));
    }

    /** The prefix form `parseExpr` starts with: `peek`, then the switch on the type
        of the cached token. */
    method ParsePrimary() returns (r: Result<Node, ParseError>)
      requires Valid()
      modifies this
      ensures Valid()
      ensures r.Success? ==>
        && IsExpression(r.value) && WellFormed(r.value) && Absorbed(r.value, MaxPrec)
        && read == old(read) + Tokens(r.value)
        && (r.value.UnaryOpExpr? ==> peeked.Some? && StoppedBefore(r.value, peeked.value.kind))
        && Measure() < old(Measure())
      decreases Measure(), 2
    {
      var k :- PeekType();
      r := ParsePrefix();
    }

    /** The switch of `parseExpr` on the type of the cached token: literals, names,
        string and regular-expression literals, `@`, arrays, objects, `new`, the prefix
        operators, parenthesised forms and `->`; anything else is "invalid expression"
        at that token. */
    method ParsePrefix() returns (r: Result<Node, ParseError>)
      requires Valid() && peeked.Some?
      modifies this
      ensures Valid()
      ensures r.Success? ==>
        && PrimaryFor(old(peeked).value.kind, r.value)
        && IsExpression(r.value) && WellFormed(r.value) && Absorbed(r.value, MaxPrec)
        && read == old(read) + Tokens(r.value)
        && (r.value.UnaryOpExpr? ==> peeked.Some? && StoppedBefore(r.value, peeked.value.kind))
        && Measure() < old(Measure())
      ensures !StartsPrimary(old(peeked).value.kind) ==>
        r == Failure(ErrorOf(filename, original, old(peeked).value.loc, "invalid expression"))
      decreases Measure(), 1
    {
      var k := peeked.value.kind;
      if k in {"NUMBER", "null", "true", "false", "IDENT"} {
        var e := ParseLiteral();
        r := Success(e);
      } else if k in {"'", "\"", "/"} {
        r := ParseStringLiteral();
      } else if k == "@" {
        r := ParsePassExpr();
      } else if k == "[" {
        r := ParseArrayExpr();
      } else if k == "{" {
        r := ParseObjectExpr();
      } else if k == "new" {
        r := ParseNewExpr();
      } else if IsUnaryOp(k) {
        r := ParseUnary();
      } else if k == "(" {
        r := ParseGroupExpr();
      } else if k == "->" {
        r := ParseSimpleArrow();
      } else {
        var e := Error("invalid expression", None);
        r := Failure(e);
      }
    }

    /** A number, `null`, `true`, `false` or a name: the cached token becomes the leaf. */
    method ParseLiteral() returns (e: Node)
      requires Valid() && peeked.Some? && peeked.value.kind in {"NUMBER", "null", "true", "false", "IDENT"}
      modifies this
      ensures Valid()
      ensures PrimaryFor(old(peeked).value.kind, e) && e.tok == old(peeked).value
      ensures WellFormed(e) && read == old(read) + Tokens(e) && Measure() < old(Measure())
    {
      var tok := TakePeeked();
      e := if tok.kind == "NUMBER" then NumberExpr(tok)
        else if tok.kind == "null" then NullExpr(tok)
        else if tok.kind == "IDENT" then IdentExpr(tok)
        else TrueFalseExpr(tok);
    }

    /** A quote or `/`: the body up to the matching closing character is a STRING token. */
    method ParseStringLiteral() returns (r: Result<Node, ParseError>)
      requires Valid() && peeked.Some? && peeked.value.kind in {"'", "\"", "/"}
      modifies this
      ensures Valid()
      ensures var s := StringRead(old(peeked).value, old(text), old(loc));
        r == (if s.Success? then Success(StringExpr(s.value)) else Failure(s.error))
      ensures r.Success? ==> WellFormed(r.value) && read == old(read) + Tokens(r.value) && Measure() < old(Measure())
    {
      var s :- ReadString();
      return Success(StringExpr(s));
    }

    /** A prefix operator, whose operand is parsed at the highest threshold. */
    method ParseUnary() returns (r: Result<Node, ParseError>)
      requires Valid() && peeked.Some? && IsUnaryOp(peeked.value.kind)
      modifies this
      ensures Valid()
      ensures r.Success? ==>
        && r.value.UnaryOpExpr? && r.value.op == old(peeked).value
        && WellFormed(r.value) && Absorbed(r.value, MaxPrec)
        && read == old(read) + Tokens(r.value)
        && peeked.Some? && StoppedBefore(r.value, peeked.value.kind)
        && Measure() < old(Measure())
      decreases Measure(), 0
    {
      var op := TakePeeked();
      var operand :- ParseExpr(MaxPrec);
      ReadUnary(old(read), read, UnaryOpExpr(op, operand));
      WellFormedUnary(op, operand);
      return Success(UnaryOpExpr(op, operand));
    }

    /** The postfix forms of the infix loop, on the expression `e` so far and the
        type `k` of the cached token: `.name` with or without an argument list, a call,
        an index, `::` with an optional member, and `...` after a plain name. */
    method ParsePostfix(e: Node, k: string) returns (r: Result<Node, ParseError>)
      requires Valid() && IsExpression(e) && WellFormed(e) && peeked.Some? && peeked.value.kind == k && IsPostfix(k)
      requires !IsOperatorNode(e) && Absorbed(e, MaxPrec)
      modifies this
      ensures Valid()
      ensures r.Success? ==> PostfixOf(e, k, r.value) && read == old(read) + Trailer(r.value) && Measure() < old(Measure())
      decreases Measure(), 1
    {
      if k == "." {
        r := ParseMember(e);
      } else if k == "(" {
        r := ParseCall(e);
      } else if k == "[" {
        r := ParseIndex(e);
      } else if k == "::" {
        r := ParsePrototype(e);
      } else {
        r := ParseYada(e);
      }
    }

    /** `. name`, then an argument list exactly when `(` follows: a method call. */
    method ParseMember(e: Node) returns (r: Result<Node, ParseError>)
      requires Valid() && IsExpression(e) && WellFormed(e) && !IsOperatorNode(e) && Absorbed(e, MaxPrec)
      modifies this
      ensures Valid()
      ensures r.Success? ==>
        && PostfixOf(e, ".", r.value)
        && (r.value.PropertyExpr? ==> peeked.Some? && peeked.value.kind != "(")
        && read == old(read) + Trailer(r.value) && Measure() < old(Measure())
      decreases Measure(), 0
    {
      var dot :- Expect(".");
      var name :- Expect("IDENT");
      var k :- PeekType();
      if k != "(" {
        ReadTrailer(old(read), read, PropertyExpr(e, dot, name));
        WellFormedProperty(e, dot, name);
        return Success(PropertyExpr(e, dot, name));
      }
      var lparen := TakePeeked();
      var args :- ParseExprList();
      var rparen :- Expect(")");
      ReadTrailer(old(read), read, InvokeExpr(e, dot, name, lparen, args, rparen));
      WellFormedInvoke(e, dot, name, lparen, args, rparen);
      return Success(InvokeExpr(e, dot, name, lparen, args, rparen));
    }

    /** `( args )` after a callee. */
    method ParseCall(e: Node) returns (r: Result<Node, ParseError>)
      requires Valid() && IsExpression(e) && WellFormed(e) && !IsOperatorNode(e) && Absorbed(e, MaxPrec)
      modifies this
      ensures Valid()
      ensures r.Success? ==>
        && PostfixOf(e, "(", r.value)
        && read == old(read) + Trailer(r.value) && Measure() < old(Measure())
      decreases Measure(), 0
    {
      var lparen :- Expect("(");
      var args :- ParseExprList();
      var rparen :- Expect(")");
      ReadTrailer(old(read), read, CallExpr(e, lparen, args, rparen));
      WellFormedCall(e, lparen, args, rparen);
      return Success(CallExpr(e, lparen, args, rparen));
    }

    /** `[ index ]` after an expression. */
    method ParseIndex(e: Node) returns (r: Result<Node, ParseError>)
      requires Valid() && IsExpression(e) && WellFormed(e) && !IsOperatorNode(e) && Absorbed(e, MaxPrec)
      modifies this
      ensures Valid()
      ensures r.Success? ==>
        && PostfixOf(e, "[", r.value)
        && read == old(read) + Trailer(r.value) && Measure() < old(Measure())
      decreases Measure(), 0
    {
      var lbracket :- Expect("[");
      var index :- ParseExpression();
      var rbracket :- Expect("]");
      ReadTrailer(old(read), read, IndexExpr(e, lbracket, index, rbracket));
      WellFormedIndex(e, lbracket, index, rbracket);
      return Success(IndexExpr(e, lbracket, index, rbracket));
    }

    /** `::` and a member name exactly when a name follows. */
    method ParsePrototype(e: Node) returns (r: Result<Node, ParseError>)
      requires Valid() && IsExpression(e) && WellFormed(e) && !IsOperatorNode(e) && Absorbed(e, MaxPrec)
      modifies this
      ensures Valid()
      ensures r.Success? ==>
        && PostfixOf(e, "::", r.value)
        && (r.value.member.None? ==> peeked.Some? && peeked.value.kind != "IDENT")
        && read == old(read) + Trailer(r.value) && Measure() < old(Measure())
      decreases Measure(), 0
    {
      var colons :- Expect("::");
      var k :- PeekType();
      var member := None;
      if k == "IDENT" {
        var name := TakePeeked();
        member := Some(name);
      }
      ReadTrailer(old(read), read, PrototypePropertyExpr(e, colons, member));
      WellFormedPrototype(e, colons, member);
      return Success(PrototypePropertyExpr(e, colons, member));
    }

    /** `...` after a plain name: a rest parameter; "unexpected '...'" after anything else. */
    method ParseYada(e: Node) returns (r: Result<Node, ParseError>)
      requires Valid() && IsExpression(e) && WellFormed(e) && !IsOperatorNode(e) && Absorbed(e, MaxPrec)
      modifies this
      ensures Valid()
      ensures !e.IdentExpr? ==> r == Failure(ErrorOf(filename, original, old(DefaultLoc()), "unexpected '...'"))
      ensures r.Success? ==>
        && PostfixOf(e, "...", r.value)
        && read == old(read) + Trailer(r.value) && Measure() < old(Measure())
      decreases Measure(), 0
    {
      if !e.IdentExpr? {
        var err := Error("unexpected '...'", None);
        return Failure(err);
      }
      var dots :- Expect("...");
      ReadTrailer(old(read), read, YadaExpr(e.tok, dots));
      YadaPostfix(e, dots);
      return Success(YadaExpr(e.tok, dots));
    }

    /** `parseExprList`: expressions separated by commas, a trailing comma allowed;
        the list ends before `)`, `]` or `;` where an expression could start, or after
        an expression with no comma. */
    method ParseExprList() returns (r: Result<ExprList, ParseError>)
      requires Valid()
      modifies this
      ensures Valid()
      ensures r.Success? ==>
        && ListOk(r.value) && read == old(read) + ItemsTokens(r.value.items)
        && peeked.Some?
        && (OpenEnd(r.value.items) ==> peeked.value.kind in {")", "]", ";"})
        && (!OpenEnd(r.value.items) ==> peeked.value.kind != ",")
        && Measure() <= old(Measure())
      decreases Measure(), 6
    {
      var items: seq<Item> := [];
      while true
        invariant Valid() && Measure() <= old(Measure())
        invariant OpenList(items)
        invariant read == old(read) + ItemsTokens(items)
        decreases Measure()
      {
        var k :- PeekType();
        if k in {")", "]", ";"} {
          OpenListOk(items);
          break;
        }
        var it :- ParseItem();
        ReadItemIn(old(read), read, items, it);
        OpenListGrows(items, it);
        items := items + [it];
        if it.comma.None? {
          break;
        }
      }
      return Success(ExprList(items));
    }

    /** One element of the list: an expression, and the comma after it when one is
        cached next. */
    method ParseItem() returns (r: Result<Item, ParseError>)
      requires Valid()
      modifies this
      ensures Valid()
      ensures r.Success? ==>
        && IsExpression(r.value.expr) && WellFormed(r.value.expr) && OptKind(r.value.comma, ",")
        && read == old(read) + ItemTokens(r.value)
        && (r.value.comma.None? ==> peeked.Some? && peeked.value.kind != ",")
        && Measure() < old(Measure())
      decreases Measure(), 5
    {
      var e :- ParseExpression();
      var next := PeekType();
      if next.value == "," {
        var comma := TakePeeked();
        return Success(Item(e, Some(comma)));
      }
      return Success(Item(e, None));
    }

    /** `parsePassExpr`: `@`, and a handler name exactly when a name follows. */
    method ParsePassExpr() returns (r: Result<Node, ParseError>)
      requires Valid()
      modifies this
      ensures Valid()
      ensures r.Success? ==>
        && r.value.PassExpr? && WellFormed(r.value)
        && (r.value.handler.None? ==> peeked.Some? && peeked.value.kind != "IDENT")
        && read == old(read) + Tokens(r.value) && Measure() < old(Measure())
      decreases Measure(), 0
    {
      var at :- Expect("@");
      var k :- PeekType();
      var handler := None;
      if k == "IDENT" {
        var name := TakePeeked();
        handler := Some(name);
      }
      ReadPass(old(read), read, PassExpr(at, handler));
      return Success(PassExpr(at, handler));
    }

    /** `parseArrayExpr`: `[`, an expression list, `]`. */
    method ParseArrayExpr() returns (r: Result<Node, ParseError>)
      requires Valid()
      modifies this
      ensures Valid()
      ensures r.Success? ==>
        && r.value.ArrayExpr? && WellFormed(r.value)
        && read == old(read) + Tokens(r.value) && Measure() < old(Measure())
      decreases Measure(), 0
    {
      var lbracket :- Expect("[");
      var elements :- ParseExprList();
      var rbracket :- Expect("]");
      ReadArray(old(read), read, ArrayExpr(lbracket, elements, rbracket));
      WellFormedArray(lbracket, elements, rbracket);
      return Success(ArrayExpr(lbracket, elements, rbracket));
    }

    /** `parseSimpleArrowFunction`: `->` and the body expression. */
    method ParseSimpleArrow() returns (r: Result<Node, ParseError>)
      requires Valid()
      modifies this
      ensures Valid()
      ensures r.Success? ==>
        && r.value.SimpleArrowFunctionExpr? && WellFormed(r.value)
        && read == old(read) + Tokens(r.value) && Measure() < old(Measure())
      decreases Measure(), 0
    {
      var arrow :- Expect("->");
      var body :- ParseExpression();
      ReadSimpleArrow(old(read), read, SimpleArrowFunctionExpr(arrow, body));
      WellFormedSimpleArrow(arrow, body);
      return Success(SimpleArrowFunctionExpr(arrow, body));
    }

    /** `parseObjectExpr`: `{`, then properties up to `}` or up to one with no comma
        after it, then `}`. */
    method ParseObjectExpr() returns (r: Result<Node, ParseError>)
      requires Valid()
      modifies this
      ensures Valid()
      ensures r.Success? ==>
        && r.value.ObjectExpr? && WellFormed(r.value)
        && read == old(read) + Tokens(r.value) && Measure() < old(Measure())
      decreases Measure(), 0
    {
      var lbrace :- Expect("{");
      var props: seq<Prop> := [];
      while true
        invariant Valid() && Measure() < old(Measure())
        invariant OpenProps(props)
        invariant read == old(read) + [lbrace] + PropsTokens(props)
        decreases Measure()
      {
        var k :- PeekType();
        if k == "}" {
          OpenPropsShape(props);
          break;
        }
        var prop :- ParseProp();
        ReadPropIn(old(read) + [lbrace], read, props, prop);
        OpenPropsGrows(props, prop);
        props := props + [prop];
        if prop.comma.None? {
          break;
        }
      }
      var rbrace :- Expect("}");
      ReadObject(old(read), read, ObjectExpr(lbrace, props, rbrace));
      WellFormedObject(lbrace, props, rbrace);
      return Success(ObjectExpr(lbrace, props, rbrace));
    }

    /** One property of an object literal: a key, `:`, the value, and the comma after
        it exactly when one follows. */
    method ParseProp() returns (r: Result<Prop, ParseError>)
      requires Valid()
      modifies this
      ensures Valid()
      ensures r.Success? ==>
        && PropOk(r.value)
        && (r.value.comma.None? ==> peeked.Some? && peeked.value.kind != ",")
        && read == old(read) + PropTokens(r.value) && Measure() < old(Measure())
      decreases Measure(), 0
    {
      var key :- ParseKey();
      var colon :- Expect(":");
      var value :- ParseExpression();
      var next := PeekType();
      var comma := None;
      if next.value == "," {
        var n := TakePeeked();
        comma := Some(n);
      }
      ReadProp(old(read), read, Prop(key, colon, value, comma));
      return Success(Prop(key, colon, value, comma));
    }

    /** The key of a property: a name, or a string in double or single quotes;
        "invalid object key" at any other token. */
    method ParseKey() returns (r: Result<Token, ParseError>)
      requires Valid()
      modifies this
      ensures Valid()
      ensures old(peeked).Some? && old(peeked).value.kind == "IDENT" ==> r == Success(old(peeked).value)
      ensures old(peeked).Some? && old(peeked).value.kind in {"\"", "'"} ==>
        r == StringRead(old(peeked).value, old(text), old(loc))
      ensures old(peeked).Some? && old(peeked).value.kind !in {"IDENT", "\"", "'"} ==>
        r == Failure(ErrorOf(filename, original, old(peeked).value.loc, "invalid object key"))
      ensures r.Failure? && peeked.Some? ==>
        peeked.value.kind !in {"IDENT", "\"", "'"} && r == Failure(ErrorOf(filename, original, peeked.value.loc, "invalid object key"))
      ensures r.Success? ==>
        (r.value.kind == "IDENT" || r.value.kind == "STRING") && read == old(read) + [r.value] && Measure() < old(Measure())
    {
      var k :- PeekType();
      if k == "IDENT" {
        var name := TakePeeked();
        return Success(name);
      } else if k == "\"" || k == "'" {
        r := ReadString();
      } else {
        var e := Error("invalid object key", None);
        return Failure(e);
      }
    }

    /** `parseNewExpr`: `new`, a name followed by any number of `.name`, and an
        argument list in parentheses. */
    method ParseNewExpr() returns (r: Result<Node, ParseError>)
      requires Valid()
      modifies this
      ensures Valid()
      ensures r.Success? ==>
        && r.value.NewExpr? && WellFormed(r.value)
        && read == old(read) + Tokens(r.value) && Measure() < old(Measure())
      decreases Measure(), 0
    {
      var newTok :- Expect("new");
      var name :- Expect("IDENT");
      var target := IdentExpr(name);
      while true
        invariant Valid() && Measure() < old(Measure()) && NewTargetOk(target)
        invariant read == old(read) + [newTok] + Tokens(target)
        decreases Measure()
      {
        var k :- PeekType();
        if k != "." {
          break;
        }
        var dot := TakePeeked();
        var prop :- Expect("IDENT");
        NewTargetGrows(old(read) + [newTok], read, target, dot, prop);
        target := PropertyExpr(target, dot, prop);
      }
      var lparen :- Expect("(");
      var args :- ParseExprList();
      var rparen :- Expect(")");
      ReadNew(old(read), read, NewExpr(newTok, target, lparen, args, rparen));
      assert IsNewTarget(target) && IsExpression(target) && WellFormed(target);
      WellFormedNew(newTok, target, lparen, args, rparen);
      return Success(NewExpr(newTok, target, lparen, args, rparen));
    }

    /** `parseGroupExpr`: a parenthesised list with a `: name` after it when `:`
        follows, then the choice `ParseGroupRest` makes on the token after that. */
    method ParseGroupExpr() returns (r: Result<Node, ParseError>)
      requires Valid()
      modifies this
      ensures Valid()
      ensures r.Success? ==>
        && (r.value.FunctionExpr? || r.value.ArrowFunctionExpr? || r.value.GroupExpr?)
        && (r.value.GroupExpr? ==> peeked.Some? && peeked.value.kind !in {"{", "->", ":"})
        && WellFormed(r.value) && read == old(read) + Tokens(r.value) && Measure() < old(Measure())
      decreases Measure(), 0
    {
      var lparen :- Expect("(");
      var args :- ParseExprList();
      var rparen :- Expect(")");
      var k :- PeekType();
      var thisPart := None;
      if k == ":" {
        var tp :- ParseThisPart();
        thisPart := Some(tp);
        k :- PeekType();
      }
      r := ParseGroupRest(lparen, args, rparen, thisPart, k, old(read));
    }

    /** The switch of `parseGroupExpr` on the token `k` cached after the list and its
        optional `: name`: a function before `{`; after a `: name`, any other token
        fails the `expect('{')`; an arrow function before `->`; otherwise a
        parenthesised expression, which needs exactly one element and no comma after
        it, else "unexpected k after formal parameter list" at the cached token. */
    method ParseGroupRest(lparen: Token, args: ExprList, rparen: Token, thisPart: Option<ThisPart>, k: string,
                          ghost r0: seq<Token>)
      returns (r: Result<Node, ParseError>)
      requires Valid() && peeked.Some? && peeked.value.kind == k
      requires lparen.kind == "(" && ListOk(args) && rparen.kind == ")" && ThisOk(thisPart)
      requires read == r0 + [lparen] + ItemsTokens(args.items) + [rparen] + ThisTokens(thisPart)
      requires thisPart.None? ==> k != ":"
      modifies this
      ensures Valid()
      ensures k == "{" && !CheckFormalParams(args.items) ==>
        r == Failure(ErrorOf(filename, original, old(peeked).value.loc, "invalid formal parameter list before '{'"))
      ensures k == "{" && r.Success? ==> r.value.FunctionExpr? && r.value.thisPart == thisPart
      ensures k != "{" && thisPart.Some? ==>
        r == Failure(ErrorOf(filename, original, old(peeked).value.loc, ExpectMessage("{", old(peeked).value)))
      ensures k == "->" && thisPart.None? && !CheckFormalParams(args.items) ==>
        r == Failure(ErrorOf(filename, original, old(peeked).value.loc, "invalid formal parameter list before '->'"))
      ensures k == "->" && thisPart.None? && r.Success? ==> r.value.ArrowFunctionExpr?
      ensures k !in {"{", "->"} && thisPart.None? && (|args.items| != 1 || args.items[0].comma.Some?) ==>
        r == Failure(ErrorOf(filename, original, old(peeked).value.loc, "unexpected " + k + " after formal parameter list"))
      ensures k !in {"{", "->"} && thisPart.None? && |args.items| == 1 && args.items[0].comma.None? ==>
        r == Success(GroupExpr(lparen, args.items[0].expr, rparen))
      ensures r.Success? ==>
        && (r.value.FunctionExpr? || r.value.ArrowFunctionExpr? || r.value.GroupExpr?)
        && (r.value.GroupExpr? ==> peeked.Some? && peeked.value.kind !in {"{", "->", ":"})
        && WellFormed(r.value) && read == r0 + Tokens(r.value) && Measure() <= old(Measure())
      decreases Measure(), 2
    {
      if k == "{" {
        r := ParseFunctionRest(lparen, args, rparen, thisPart, r0);
      } else if thisPart.Some? {
        // expect('{') on the cached token, which is not `{`
        var t := TakePeeked();
        var e := Error(ExpectMessage("{", t), None);
        r := Failure(e);
      } else if k == "->" {
        assert ThisTokens(thisPart) == [];
        r := ParseArrowRest(lparen, args, rparen, r0);
      } else if |args.items| != 1 || args.items[0].comma.Some? {
        var e := Error("unexpected " + k + " after formal parameter list", None);
        r := Failure(e);
      } else {
        WellFormedGroup(lparen, args.items[0].expr, rparen);
        assert ThisTokens(thisPart) == [];
        assert ItemsTokens(args.items) == Tokens(args.items[0].expr);
        ReadGroup(r0, read, GroupExpr(lparen, args.items[0].expr, rparen));
        r := Success(GroupExpr(lparen, args.items[0].expr, rparen));
      }
    }

    /** `: name` after a parameter list or an expression. */
    method ParseThisPart() returns (r: Result<ThisPart, ParseError>)
      requires Valid() && peeked.Some? && peeked.value.kind == ":"
      modifies this
      ensures Valid()
      ensures r.Success? ==>
        && ThisOk(Some(r.value)) && r.value.colon == old(peeked).value
        && read == old(read) + ThisTokens(Some(r.value)) && Measure() < old(Measure())
    {
      var colon := TakePeeked();
      var name :- Expect("IDENT");
      return Success(ThisPart(colon, name));
    }

    /** The block of a function expression, after its parameter list and optional
        `: name`: "invalid formal parameter list before '{'" unless every element of
        the list is a parameter. */
    method ParseFunctionRest(lparen: Token, args: ExprList, rparen: Token, thisPart: Option<ThisPart>,
                              ghost r0: seq<Token>)
      returns (r: Result<Node, ParseError>)
      requires Valid() && lparen.kind == "(" && ListOk(args) && rparen.kind == ")" && ThisOk(thisPart)
      requires read == r0 + [lparen] + ItemsTokens(args.items) + [rparen] + ThisTokens(thisPart)
      modifies this
      ensures Valid()
      ensures !CheckFormalParams(args.items) ==>
        r == Failure(ErrorOf(filename, original, old(DefaultLoc()), "invalid formal parameter list before '{'"))
      ensures r.Success? ==>
        && r.value.FunctionExpr? && r.value == FunctionExpr(lparen, args, rparen, thisPart, r.value.block) && WellFormed(r.value)
        && read == r0 + Tokens(r.value) && Measure() < old(Measure())
      decreases Measure(), 1
    {
      if !CheckFormalParams(args.items) {
        var e := Error("invalid formal parameter list before '{'", None);
        return Failure(e);
      }
      var block :- ParseBlock();
      ReadFunction(r0, read, FunctionExpr(lparen, args, rparen, thisPart, block));
      WellFormedFunction(lparen, args, rparen, thisPart, block);
      return Success(FunctionExpr(lparen, args, rparen, thisPart, block));
    }

    /** `->` and the body of an arrow function after its parameter list: "invalid
        formal parameter list before '->'" unless every element is a parameter. */
    method ParseArrowRest(lparen: Token, args: ExprList, rparen: Token, ghost r0: seq<Token>)
      returns (r: Result<Node, ParseError>)
      requires Valid() && peeked.Some? && peeked.value.kind == "->"
      requires lparen.kind == "(" && ListOk(args) && rparen.kind == ")"
      requires read == r0 + [lparen] + ItemsTokens(args.items) + [rparen]
      modifies this
      ensures Valid()
      ensures !CheckFormalParams(args.items) ==>
        r == Failure(ErrorOf(filename, original, old(DefaultLoc()), "invalid formal parameter list before '->'"))
      ensures r.Success? ==>
        && r.value.ArrowFunctionExpr? && r.value == ArrowFunctionExpr(lparen, args, rparen, old(peeked).value, r.value.body)
        && WellFormed(r.value)
        && read == r0 + Tokens(r.value) && Measure() < old(Measure())
      decreases Measure(), 0
    {
      if !CheckFormalParams(args.items) {
        var e := Error("invalid formal parameter list before '->'", None);
        return Failure(e);
      }
      var arrow := TakePeeked();
      var body :- ParseExpression();
      ReadArrow(r0, read, ArrowFunctionExpr(lparen, args, rparen, arrow, body));
      WellFormedArrow(lparen, args, rparen, arrow, body);
      return Success(ArrowFunctionExpr(lparen, args, rparen, arrow, body));
    }

    // -------------------------------------------------------------------
    // The program (parser.js:262-275)

    /** `parse` on a new parser: the leading whitespace and the statements make a
        Program, which is then validated; a validation error stops the parse. The
        program's preamble is the whitespace run at the start of the text and its
        statements are built from exactly the tokens read. */
    method Parse() returns (r: Result<Programs.Program, ParseError>)
      requires Valid() && loc == 0 && peeked.None? && read == []
      modifies this
      ensures r.Success? ==> fresh(r.value) && Programs.ProgramCheck(r.value.stmts).Success?
      ensures r.Success? ==> r.value.included == Programs.ProgramCheck(r.value.stmts).value
      ensures r.Success? ==> r.value.preamble == WsRun(original) && read == NodesTokens(r.value.stmts)
    {
      var ws := FindWhitespace();
      var stmts :- ParseStatements();
      var program := new Programs.Program(ws, stmts);
      var e := CheckProgram(program);
      if e.Some? {
        return Failure(e.value);
      }
      return Success(program);
    }

    /** The `try`/`catch` around `program.validate()`: the error is reported at the
        line of the token it names. */
    method CheckProgram(program: Programs.Program) returns (e: Option<ParseError>)
      modifies program
      ensures e.None? <==> Programs.ProgramCheck(program.stmts).Success?
      ensures e.None? ==> program.included == Programs.ProgramCheck(program.stmts).value
      ensures e.Some? ==> e.value == ValidationError(filename, original, Programs.ProgramCheck(program.stmts).error)
    {
      var v := program.Validate();
      if v.Fail? {
        var err := Error(v.error.msg, Some(v.error.at.loc));
        return Some(err);
      }
      return None;
    }

    // -------------------------------------------------------------------
    // Statements (parser.js:262-416, 755-841)

    /** `parseStatements`: statements up to the end of the text. */
    method ParseStatements() returns (r: Result<seq<Node>, ParseError>)
      requires Valid()
      modifies this
      ensures Valid()
      ensures r.Success? ==>
        && StatementsOk(r.value)
        && read == old(read) + NodesTokens(r.value)
        && peeked.Some? && peeked.value.kind == "EOF" && text == ""
    {
      var stmts: seq<Node> := [];
      while true
        invariant Valid()
        invariant StatementsOk(stmts)
        invariant read == old(read) + NodesTokens(stmts)
        decreases Measure()
      {
        var k :- PeekType();
        if k == "EOF" {
          break;
        }
        var s :- ParseStatement();
        ReadStatementIn(old(read), read, stmts, s);
        StatementsSnoc(stmts, s);
        stmts := stmts + [s];
      }
      return Success(stmts);
    }

    /** `parseStatement`: the statement the type of the next token starts; an
        expression statement when it is no statement keyword. */
    method ParseStatement() returns (r: Result<Node, ParseError>)
      requires Valid()
      modifies this
      ensures Valid()
      ensures r.Success? ==>
        && (old(peeked).Some? ==> StatementFor(old(peeked).value.kind, r.value))
        && IsStatement(r.value) && WellFormed(r.value)
        && read == old(read) + Tokens(r.value) && Measure() < old(Measure())
      decreases Measure(), 6
    {
      var k :- PeekType();
      if k == "if" {
        r := ParseIf();
      } else if k == "while" {
        r := ParseWhile();
      } else if k == "for" {
        r := ParseFor();
      } else if k == "break" {
        r := ParseBreak();
      } else if k == "continue" {
        r := ParseContinue();
      } else if k == "return" {
        r := ParseReturn();
      } else if k == "throw" {
        r := ParseThrow();
      } else if k == "var" {
        r := ParseVar();
      } else if k == "#include" {
        r := ParseIncludePragma();
      } else if k == "#declare" {
        r := ParseDeclarePragma();
      } else {
        r := ParseExprStatement();
      }
    }

    /** `parseIf`: `if ( expr ) block`, then an `else` part exactly when `else` follows. */
    method ParseIf() returns (r: Result<Node, ParseError>)
      requires Valid()
      modifies this
      ensures Valid()
      ensures r.Success? ==>
        && r.value.IfStatement? && WellFormed(r.value)
        && (r.value.elsePart.None? ==> peeked.Some? && peeked.value.kind != "else")
        && read == old(read) + Tokens(r.value) && Measure() < old(Measure())
      decreases Measure(), 0
    {
      ghost var r0 := read;
      var ifTok :- Expect("if");
      var lparen :- Expect("(");
      var test :- ParseExpression();
      var rparen :- Expect(")");
      var block :- ParseBlock();
      var k :- PeekType();
      var elsePart := None;
      if k == "else" {
        var e :- ParseElse();
        elsePart := Some(e);
      }
      ReadIf(r0, read, IfStatement(ifTok, lparen, test, rparen, block, elsePart));
      WellFormedIf(ifTok, lparen, test, rparen, block, elsePart);
      return Success(IfStatement(ifTok, lparen, test, rparen, block, elsePart));
    }

    /** `else` and, by the token after it, the `if` statement or the block after it. */
    method ParseElse() returns (r: Result<ElsePart, ParseError>)
      requires Valid() && peeked.Some? && peeked.value.kind == "else"
      modifies this
      ensures Valid()
      ensures r.Success? ==>
        && r.value.elseTok == old(peeked).value && (r.value.body.Block? || r.value.body.IfStatement?)
        && WellFormed(r.value.body)
        && read == old(read) + [r.value.elseTok] + Tokens(r.value.body) && Measure() < old(Measure())
      decreases Measure(), 1
    {
      var elseTok := TakePeeked();
      var k :- PeekType();
      var body: Node;
      if k == "if" {
        body :- ParseIf();
      } else {
        body :- ParseBlock();
      }
      return Success(ElsePart(elseTok, body));
    }

    /** `parseWhile`: `while ( expr ) block`. */
    method ParseWhile() returns (r: Result<Node, ParseError>)
      requires Valid()
      modifies this
      ensures Valid()
      ensures r.Success? ==>
        && r.value.WhileStatement? && WellFormed(r.value)
        && read == old(read) + Tokens(r.value) && Measure() < old(Measure())
      decreases Measure(), 0
    {
      var whileTok :- Expect("while");
      var lparen :- Expect("(");
      var test :- ParseExpression();
      var rparen :- Expect(")");
      var block :- ParseBlock();
      ReadWhile(old(read), read, WhileStatement(whileTok, lparen, test, rparen, block));
      WellFormedWhile(whileTok, lparen, test, rparen, block);
      return Success(WhileStatement(whileTok, lparen, test, rparen, block));
    }

    /** `parseFor`: `for ( list ; list ; list ) block`. */
    method ParseFor() returns (r: Result<Node, ParseError>)
      requires Valid()
      modifies this
      ensures Valid()
      ensures r.Success? ==>
        && r.value.ForStatement? && WellFormed(r.value)
        && read == old(read) + Tokens(r.value) && Measure() < old(Measure())
      decreases Measure(), 0
    {
      var forTok :- Expect("for");
      var lparen :- Expect("(");
      var inits :- ParseExprList();
      var semi1 :- Expect(";");
      var tests :- ParseExprList();
      var semi2 :- Expect(";");
      var updates :- ParseExprList();
      var rparen :- Expect(")");
      var block :- ParseBlock();
      ReadFor(old(read), read, ForStatement(forTok, lparen, inits, semi1, tests, semi2, updates, rparen, block));
      WellFormedFor(forTok, lparen, inits, semi1, tests, semi2, updates, rparen, block);
      return Success(ForStatement(forTok, lparen, inits, semi1, tests, semi2, updates, rparen, block));
    }

    /** `parseBreak`: reads `break`, an optional label and `;`, then fails: the syntax
        tree has no BreakStatement constructor, so building one throws. */
    method ParseBreak() returns (r: Result<Node, ParseError>)
      requires Valid()
      modifies this
      ensures Valid() && r.Failure?
      ensures r.error.NotAConstructor? ==> r.error.name == "ast.BreakStatement"
      decreases Measure(), 0
    {
      var kw :- Expect("break");
      var k :- PeekType();
      if k == "IDENT" {
        var labelTok := TakePeeked();
      }
      var semi :- Expect(";");
      r := Failure(NotAConstructor("ast.BreakStatement"));
    }

    /** `parseContinue`: reads `continue`, an optional label and `;`, then fails as
        `parseBreak` does, for want of a ContinueStatement constructor. */
    method ParseContinue() returns (r: Result<Node, ParseError>)
      requires Valid()
      modifies this
      ensures Valid() && r.Failure?
      ensures r.error.NotAConstructor? ==> r.error.name == "ast.ContinueStatement"
      decreases Measure(), 0
    {
      var kw :- Expect("continue");
      var k :- PeekType();
      if k == "IDENT" {
        var labelTok := TakePeeked();
      }
      var semi :- Expect(";");
      r := Failure(NotAConstructor("ast.ContinueStatement"));
    }

    /** `parseReturn`: `return ;`, or `return expr ;` when anything but `;` follows. */
    method ParseReturn() returns (r: Result<Node, ParseError>)
      requires Valid()
      modifies this
      ensures Valid()
      ensures r.Success? ==>
        && r.value.ReturnStatement? && WellFormed(r.value)
        && read == old(read) + Tokens(r.value) && Measure() < old(Measure())
      decreases Measure(), 0
    {
      var retTok :- Expect("return");
      var k :- PeekType();
      if k == ";" {
        var semi := TakePeeked();
        ReadReturn(old(read), read, ReturnStatement(retTok, None, semi));
        WellFormedReturn(retTok, None, semi);
        return Success(ReturnStatement(retTok, None, semi));
      }
      var value :- ParseExpression();
      var semi :- Expect(";");
      ReadReturn(old(read), read, ReturnStatement(retTok, Some(value), semi));
      WellFormedReturn(retTok, Some(value), semi);
      return Success(ReturnStatement(retTok, Some(value), semi));
    }

    /** `parseThrow`: `throw expr ;`. */
    method ParseThrow() returns (r: Result<Node, ParseError>)
      requires Valid()
      modifies this
      ensures Valid()
      ensures r.Success? ==>
        && r.value.ThrowStatement? && WellFormed(r.value)
        && read == old(read) + Tokens(r.value) && Measure() < old(Measure())
      decreases Measure(), 0
    {
      var throwTok :- Expect("throw");
      var thrown :- ParseExpression();
      var semi :- Expect(";");
      ReadThrow(old(read), read, ThrowStatement(throwTok, thrown, semi));
      WellFormedThrow(throwTok, thrown, semi);
      return Success(ThrowStatement(throwTok, thrown, semi));
    }

    /** `parseVar`: `var list ;`. */
    method ParseVar() returns (r: Result<Node, ParseError>)
      requires Valid()
      modifies this
      ensures Valid()
      ensures r.Success? ==>
        && r.value.VarStatement? && WellFormed(r.value)
        && read == old(read) + Tokens(r.value) && Measure() < old(Measure())
      decreases Measure(), 0
    {
      var varTok :- Expect("var");
      var decls :- ParseExprList();
      var semi :- Expect(";");
      ReadVar(old(read), read, VarStatement(varTok, decls, semi));
      WellFormedVar(varTok, decls, semi);
      return Success(VarStatement(varTok, decls, semi));
    }

    /** The names of `#include` and `#declare`: a name, then `,` and another name while
        `,` follows, and `;` after the last. */
    method ParsePragmaNames() returns (r: Result<seq<PragmaItem>, ParseError>)
      requires Valid()
      modifies this
      ensures Valid()
      ensures r.Success? ==>
        PragmaShape(r.value) && read == old(read) + PragmaTokens(r.value) && Measure() < old(Measure())
    {
      var names: seq<PragmaItem> := [];
      while true
        invariant Valid() && Measure() <= old(Measure())
        invariant CommaNames(names)
        invariant read == old(read) + PragmaTokens(names)
        decreases Measure()
      {
        var name :- Expect("IDENT");
        var k :- PeekType();
        if k == "," {
          var comma := TakePeeked();
          ReadPragmaIn(old(read), read, names, PragmaItem(name, comma));
          CommaNamesSnoc(names, PragmaItem(name, comma));
          names := names + [PragmaItem(name, comma)];
        } else {
          var semi :- Expect(";");
          ReadPragmaIn(old(read), read, names, PragmaItem(name, semi));
          CommaNamesSnoc(names, PragmaItem(name, semi));
          names := names + [PragmaItem(name, semi)];
          break;
        }
      }
      return Success(names);
    }

    /** `parseIncludePragma`: `#include` and its names. */
    method ParseIncludePragma() returns (r: Result<Node, ParseError>)
      requires Valid()
      modifies this
      ensures Valid()
      ensures r.Success? ==>
        && r.value.IncludePragma? && WellFormed(r.value)
        && read == old(read) + Tokens(r.value) && Measure() < old(Measure())
      decreases Measure(), 0
    {
      var kw :- Expect("#include");
      var names :- ParsePragmaNames();
      ReadPragma(old(read), read, IncludePragma(kw, names));
      return Success(IncludePragma(kw, names));
    }

    /** `parseDeclarePragma`: `#declare` and its names. */
    method ParseDeclarePragma() returns (r: Result<Node, ParseError>)
      requires Valid()
      modifies this
      ensures Valid()
      ensures r.Success? ==>
        && r.value.DeclarePragma? && WellFormed(r.value)
        && read == old(read) + Tokens(r.value) && Measure() < old(Measure())
      decreases Measure(), 0
    {
      var kw :- Expect("#declare");
      var names :- ParsePragmaNames();
      ReadPragma(old(read), read, DeclarePragma(kw, names));
      return Success(DeclarePragma(kw, names));
    }

    /** `parseBlock`: `{`, statements up to `}` or the end of the text, then `}`. */
    method ParseBlock() returns (r: Result<Node, ParseError>)
      requires Valid()
      modifies this
      ensures Valid()
      ensures r.Success? ==>
        && r.value.Block? && WellFormed(r.value)
        && read == old(read) + Tokens(r.value) && Measure() < old(Measure())
      decreases Measure(), 0
    {
      var lbrace :- Expect("{");
      var stmts :- ParseBlockStatements();
      var rbrace :- Expect("}");
      ReadBlock(old(read), read, Block(lbrace, stmts, rbrace));
      WellFormedBlock(lbrace, stmts, rbrace);
      return Success(Block(lbrace, stmts, rbrace));
    }

    /** The loop of `parseBlock`: statements up to `}` or the end of the text, which
        is left to read next. */
    method ParseBlockStatements() returns (r: Result<seq<Node>, ParseError>)
      requires Valid()
      modifies this
      ensures Valid()
      ensures r.Success? ==>
        && StatementsOk(r.value)
        && read == old(read) + NodesTokens(r.value) && Measure() <= old(Measure())
        && peeked.Some? && peeked.value.kind in {"EOF", "}"}
      decreases Measure(), 7
    {
      var stmts: seq<Node> := [];
      while true
        invariant Valid() && Measure() <= old(Measure())
        invariant StatementsOk(stmts)
        invariant read == old(read) + NodesTokens(stmts)
        decreases Measure()
      {
        var k :- PeekType();
        if k == "EOF" || k == "}" {
          return Success(stmts);
        }
        var s :- ParseStatement();
        ReadStatementIn(old(read), read, stmts, s);
        StatementsSnoc(stmts, s);
        stmts := stmts + [s];
      }
    }

    /** `parseExprStatement`: `;` alone, or an expression and what follows it. */
    method ParseExprStatement() returns (r: Result<Node, ParseError>)
      requires Valid()
      modifies this
      ensures Valid()
      ensures r.Success? ==>
        && (r.value.ExprStatement? || r.value.LabeledStatement?) && WellFormed(r.value)
        && (old(peeked).Some? ==> (r.value.ExprStatement? && r.value.expr.None? <==> old(peeked).value.kind == ";"))
        && read == old(read) + Tokens(r.value) && Measure() < old(Measure())
      decreases Measure(), 5
    {
      var k :- PeekType();
      if k == ";" {
        var semi := TakePeeked();
        ReadExprStatement(old(read), read, ExprStatement(None, semi));
        WellFormedExprStatement(None, semi);
        return Success(ExprStatement(None, semi));
      }
      ghost var before := read;
      var e :- ParseExpression();
      r := ParseExprRest(e, before);
    }

    /** The rest of an expression statement, by the token after the expression `e`
        (read after the tokens `before`): a name followed by `:` labels the loop after
        it; otherwise a `:` after the expression starts `: name`, after which a `{` is
        required, and all three are read and dropped; then `;` ends the statement. */
    method ParseExprRest(e: Node, ghost before: seq<Token>) returns (r: Result<Node, ParseError>)
      requires Valid() && peeked.Some? && IsExpression(e) && WellFormed(e) && read == before + Tokens(e)
      modifies this
      ensures Valid()
      ensures r.Success? ==> WellFormed(r.value) && read == before + Tokens(r.value) && Measure() < old(Measure())
      ensures r.Success? && e.IdentExpr? && old(peeked).value.kind == ":" ==>
        r.value.LabeledStatement? && r.value.name == e.tok
      ensures r.Success? && !(e.IdentExpr? && old(peeked).value.kind == ":") ==>
        r.value.ExprStatement? && r.value.expr == Some(e)
      decreases Measure(), 3
    {
      var k := peeked.value.kind;
      if e.IdentExpr? && k == ":" {
        r := ParseLabeled(e.tok, before);
        return;
      }
      if k == ":" {
        var thisPart :- ParseDroppedThis();
      }
      var semi :- Expect(";");
      ReadExprStatement(before, read, ExprStatement(Some(e), semi));
      WellFormedExprStatement(Some(e), semi);
      return Success(ExprStatement(Some(e), semi));
    }

    /** The `: name {` after an expression in statement position, which `parseExpr`
        reads and drops: none of the three tokens is kept. */
    method ParseDroppedThis() returns (r: Result<ThisPart, ParseError>)
      requires Valid() && peeked.Some? && peeked.value.kind == ":"
      modifies this
      ensures Valid()
      ensures r.Success? ==> read == old(read) && r.value.colon == old(peeked).value && Measure() < old(Measure())
    {
      var thisPart :- ParseThisPart();
      var lbrace :- Expect("{");
      read := old(read);
      return Success(thisPart);
    }

    /** `name :` and the `while` or `for` loop it labels; "invalid labeled statement"
        before anything else. */
    method ParseLabeled(name: Token, ghost r0: seq<Token>) returns (r: Result<Node, ParseError>)
      requires Valid() && peeked.Some? && peeked.value.kind == ":" && name.kind == "IDENT"
      requires read == r0 + Tokens(IdentExpr(name))
      modifies this
      ensures Valid()
      ensures r.Success? ==>
        && r.value.LabeledStatement? && r.value.name == name && r.value.colon == old(peeked).value
        && (r.value.loop.WhileStatement? || r.value.loop.ForStatement?)
        && WellFormed(r.value) && read == r0 + Tokens(r.value)
        && Measure() < old(Measure())
      decreases Measure(), 1
    {
      var colon := TakePeeked();
      var k :- PeekType();
      var loop: Node;
      if k == "while" {
        loop :- ParseWhile();
      } else if k == "for" {
        loop :- ParseFor();
      } else {
        var e := Error("invalid labeled statement", None);
        return Failure(e);
      }
      ReadLabeled(r0, read, IdentExpr(name), LabeledStatement(name, colon, loop));
      WellFormedLabeled(name, colon, loop);
      return Success(LabeledStatement(name, colon, loop));
    }
  }
}
