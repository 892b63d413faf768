# neatjs: the parser, validator and renderer in Dafny

neatjs compiles "neat", a JavaScript dialect, into plain JavaScript. The
compiler has three stages:

1. A hand-written scanner and recursive-descent parser (`parser.js`) read the
   source into a syntax tree (`ast.js`).
2. A validator walks the tree. It rejects undeclared names, redeclarations and
   misplaced declarations.
3. A renderer prints the tree back out. It replays every token and every
   character of whitespace as it was read. It rewrites only the dialect's own
   constructs:
   - `==`/`!=` become `===`/`!==`;
   - `::` becomes `.prototype`;
   - arrow functions and `->` functions become `function`s;
   - `@` error-passing parameters and `...` rest parameters become injected
     statements;
   - a `: name` this-alias becomes an injected statement;
   - pragmas become comments.

This project models those three stages and proves properties of the model.

The model has these modules:

- `Base` (`base.dfy`): options, results and outcomes, newline counting, and
  number-to-decimal conversion.
- `Lexer` (`lexer.dfy`): the scanner's pattern tables.
  - The token table: first match wins, fixed strings before shorter ones that
    overlap them.
  - The four whitespace and comment patterns.
  - The quoted-literal reader.
  - The tables are written as character predicates and match lengths, not as
    regular expressions.
- `Scanning` (`scanner.dfy`):
  - the token that `next` produces from the remaining text;
  - the line number that `error` reports for an offset;
  - the error messages.
- `Syntax` (`syntax.dfy`):
  - one constructor per node type;
  - the grammar the parser's trees follow (`WellFormed`);
  - the operator precedence table and the shape that precedence climbing gives
    to an expression.
- `Parsing` (`parser.dfy`): the class `Parser`. It has the fields of the
  JavaScript object (`text`, `loc`, `peeked`, `lastToken`) and one method per
  parse function. A ghost field `read` logs the tokens handed out. Each parse
  method is proved to:
  - consume input (the termination measure decreases);
  - return a tree of the grammar's shape;
  - return a tree whose tokens are exactly the ones it read, in order;
  - make the choices the code makes on the token it peeks at.
- `Scopes` (`scope.dfy`):
  - the `declared` map, where `1` means declared in this scope and `2` means
    visible from an enclosing scope;
  - `newDeclaredVars`, and declaring one name;
  - the three `#declare` groups.
- `Validation` (`validate.dfy`): the tree's `declare` and `validate` methods,
  written as functions of the node and the map they start from. The lemmas
  prove the scoping rules from them.
- `Pragmas` (`pragma.dfy`): what `#include` and `#declare` do to the scope and
  to the list of included builtins.
- `Contexts` (`context.dfy`): the class `Context`, the `ctx` object whose
  `declared` and `included` fields the `declare` and `pragma` methods update in
  place. Each method's loop is proved against the matching `Validation` or
  `Pragmas` function.
- `Rendering` (`render.dfy`): `render` and the node-specific render methods,
  with the lemmas below:
  - a tree without dialect constructs renders as its source (`Source`): the text
    of each of its tokens followed by that token's whitespace, in order;
  - each dialect rewrite is stated against that source.

  `Parsing.Parser.Parse` states that a program's statements hold exactly the
  tokens the parser read, and `Scanning.LexIsPrefix` that each token's text and
  whitespace are the front of the text still unread. That the tokens read
  together cover the whole text is not proved.
- `Programs` (`program.dfy`): the class `Program`.
  - `validate` runs its three passes: pragmas, then declarations, then
    validation.
  - `render` appends the included builtins.
  - The lemmas relate the result to the program's statements.

The builtins' text is a parameter of `Program.Render` (a map from name to
text). The file names and source text are parameters of the parser.

## Model

| member | source | states |
|---|---|---|
| Base.NatToString | ast.js:287-289 | the rest parameter's index prints as a non-empty run of decimal digits |
| Base.NatToStringRoundTrip | ast.js:287-289 | the digits printed for an index read back as that index |
| Scanning.Clamp | parser.js:848-857 | the offset the line count stops at never passes the end of the text |
| Scanning.LineAtStep | parser.js:845-858 | the reported line grows by one exactly when the offset passes a newline |
| Scanning.LineAtFirstLine | parser.js:845-858 | an offset with no newline before it is on line 1 |
| Scanning.LineAt | parser.js:845-858 | defines the line `error` reports: one more than the line feeds before the offset, the offset held inside the text |
| Scanning.ErrorOf | parser.js:845-862 | defines the error `error(msg, loc)` throws: the file name, the line of the offset and the message |
| Scanning.RejectMessage | parser.js:240-251 | defines the messages `next` rejects with: `'kind' is a reserved keyword`, and `use '==' instead of '==='` and its `!==` twin |
| Scanning.ExpectMessage | parser.js:278-284 | defines the message of `expect`: `expected 'kind' instead of '…'`, naming the token's text, or its type when the text is empty |
| Scanning.Lex | parser.js:220-235 | a token other than EOF has non-empty text, and its text and whitespace fit in the remaining input |
| Scanning.LexIsPrefix | parser.js:172-235 | a token's text followed by its whitespace is exactly the start of the remaining input |
| Scanning.LexAtEnd | parser.js:226-229 | at the end of the text the token is EOF, with empty text and whitespace, at the current offset |
| Scanning.LexSkipsAllWhitespace | parser.js:201-218 | after a token and its whitespace, no whitespace or comment pattern matches |
| Lexer.DigitRunSpec | parser.js:25 | the digit run is made of digits and stops at the first non-digit |
| Lexer.IdentPartRunSpec | parser.js:117 | the identifier run is made of `[a-zA-Z0-9$_]` and stops at the first other character |
| Lexer.LineRunSpec | parser.js:124 | a line comment runs to the first line terminator |
| Lexer.SpaceRunSpec | parser.js:123 | the space run is made of `\s` characters and stops at the first other one |
| Lexer.MatchLen | parser.js:172-190 | an entry never matches more than the remaining text |
| Lexer.FirstMatch | parser.js:175-190 | the entry found is at or after the start index and matches |
| Lexer.Scan | parser.js:172-199 | a lexeme found is at least one character long and fits in the text |
| Lexer.NoMatchBelowAt | parser.js:175-190 | no entry before the one found matches |
| Lexer.FirstMatchIsFirst | parser.js:175-190 | the entry chosen is the first in table order that matches; when none is chosen, none matches |
| Lexer.FirstMatchUnique | parser.js:175-190 | any entry that matches with no earlier entry matching is the one chosen |
| Lexer.ScanNone | parser.js:197-198 | scanning fails (the `invalid token` case) exactly when no table entry matches |
| Lexer.ScanFound | parser.js:184-193 | the first matching entry gives the lexeme's type and length |
| Lexer.TableHead | parser.js:24-30 | the table starts with the number rule, then `===`, `!==`, `...`, `->`, `==` |
| Lexer.ScanStrictEquality | parser.js:24-30 | text starting with `===` scans as one `===` token |
| Lexer.ScanLooseEquality | parser.js:24-30 | text starting with `==` but not `===` scans as `==` |
| Lexer.CommentClose | parser.js:125 | a block comment's match ends with `*/` |
| Lexer.WsPattern | parser.js:122-127 | a whitespace pattern never matches more than the text |
| Lexer.FirstWs | parser.js:203-212 | the first whitespace pattern that matches never matches more than the text |
| Lexer.WsRun | parser.js:201-218 | the whitespace collected is no longer than the text |
| Lexer.WsRunIsPrefix | parser.js:201-218 | the whitespace collected is a prefix of the text, and no pattern matches after it |
| Lexer.WsRunEmpty | parser.js:122-127 | text that starts with a character other than `\s`, `/` and `#` has no leading whitespace |
| Lexer.WsRunIdempotent | parser.js:201-218 | scanning whitespace again right after the run finds none |
| Lexer.StringEnd | parser.js:148-163 | the length read ends just after a closing quote |
| Lexer.StringEndNoQuote | parser.js:150-153 | a text without the quote is a runaway literal |
| Lexer.StringEndEscaped | parser.js:154-156 | a backslash makes the reader skip the next character, whatever it is |
| Lexer.StringEndPlain | parser.js:160-162 | any other character that is not the quote is read past |
| Lexer.Escape | parser.js:148-163 | escaping a body never shortens it |
| Lexer.StringEndEscapeRoundTrip | parser.js:148-163 | an escaped body followed by the quote is read back up to exactly that quote |
| Syntax.CheckFormalParams | ast.js:380-391 | true exactly when every element of the list is a plain, `@` or rest parameter |
| Syntax.PrecOf | parser.js:430-471 | every operator precedence lies between assignment (5) and multiplicative (60) |
| Syntax.OpTokens | parser.js:533-569 | an operator tree holds an odd number of tokens: operands separated by operators |
| Syntax.TighterOperatorBindsFirst | parser.js:548-550 | in `a lo b hi c`, where `hi` binds tighter, the parser's tree groups as `a lo (b hi c)` |
| Syntax.LeftAssociative | parser.js:535-555 | two binary operators of equal precedence group to the left: `(a op1 b) op2 c` |
| Syntax.AssignRightAssociative | parser.js:556-569 | two assignment operators group to the right: `a = (b = c)` |
| Syntax.WellFormed | parser.js:286-843 | defines the shape of every tree the parser builds: the token types of each node and the node kinds of its children |
| Syntax.Leftmost | parser.js:270-273 | defines the token an error is reported at: the first child, followed down to a token |
| Scopes.Inherit | ast.js:24-33 | a function scope keeps every key, declares no name in the new scope, and leaves visible exactly the names visible outside |
| Scopes.NewDeclaredVars | ast.js:24-33 | the copying loop computes that inherited map |
| Scopes.Declare | ast.js:205-214 | an error exactly when the name is already declared in this scope; otherwise the name is declared here, nothing else changes, and the visible names grow by exactly the name |
| Scopes.DeclareTag | ast.js:912-1097 | exactly `:standard`, `:node` and `:browser` are groups, and each holds the standard names |
| Validation.DeclareParam | ast.js:393-424 | declaring a parameter only ever adds declarations |
| Validation.DeclareArgs | ast.js:393-424 | declaring a parameter list only ever adds declarations |
| Validation.VarName | ast.js:306-330 | a `var` element names a variable exactly when it is an identifier or `identifier = …`; otherwise the error is `invalid expression in var statement` at the element's first token |
| Validation.DeclareVars | ast.js:306-330 | a `var` statement only ever adds declarations |
| Validation.DeclareStatement | ast.js:103-110 | a statement's declarations only ever add to the scope |
| Validation.DeclareStatements | ast.js:103-110 | a block's declarations only ever add to the scope |
| Validation.Valid | ast.js:112-848 | defines `validate` for every node type, with the scope and the two flags of the context |
| Validation.ValidFunction | ast.js:652-663 | defines a function's validation: its parameters, its `: name` and its body's declarations, in a fresh function scope |
| Validation.ValidArrow | ast.js:741-746 | defines an arrow function's validation: plain parameters only, then its expression in their scope |
| Validation.ValidForAsWritten | ast.js:163-169 | defines `for` validation as written: only the three expression lists |
| Validation.ValidFor | ast.js:147-169 | defines the corrected `for` validation: the lists, then the block without the two flags, as `while` does |
| Validation.ValidNodes | ast.js:112-117 | defines a block's validation: each statement in order, stopping at the first error |
| Validation.ValidItems | ast.js:426-434 | defines a list's validation: each element in order, stopping at the first error |
| Validation.DeclareThis | ast.js:222-227 | the `: name` alias is an error exactly when the name is already declared here; otherwise it is declared here |
| Validation.FunctionScope | ast.js:216-229 | a function's scope extends the inherited one, and every name visible outside stays visible |
| Validation.ArgsDeclared | ast.js:393-424 | after a successful declaration every plain or rest parameter's name is declared here |
| Validation.HereBlocksParam | ast.js:393-424 | a parameter named like a name already declared here is rejected |
| Validation.DuplicateParamRejected | ast.js:393-424 | two parameters of one list with the same name are rejected |
| Validation.ArrowParamsArePlain | ast.js:741-746 | accepted arrow-function parameters are all plain identifiers |
| Validation.DistinctParamsAccepted | ast.js:393-424 | distinct plain parameters not yet declared here are accepted |
| Validation.ArrowParamsRule | ast.js:741-746 | an arrow function's parameters are accepted exactly when all are plain and pairwise distinct |
| Validation.VarsDeclared | ast.js:306-330 | after a successful `var`, every element names a variable and that variable is declared here |
| Validation.HereBlocksVar | ast.js:306-330 | a `var` of a name already declared here is rejected |
| Validation.StatementDeclares | ast.js:103-110 | a statement's name is declared here after success, and is rejected when already declared here |
| Validation.StatementsDeclare | ast.js:103-110 | every name a block's statements declare is declared here after success, and is rejected when already declared here |
| Validation.DuplicateDeclarationRejected | ast.js:103-110 | two statements of one block that declare the same name make the block's declaration fail |
| Validation.IdentRule | ast.js:474-479 | an identifier is rejected exactly when it is not visible, with `'x' has not been declared` at that identifier |
| Validation.HandlerRule | ast.js:414-421 | `@handler` is rejected exactly when the handler is not visible, with the error at the `@`; on success the handler is declared here |
| Validation.InheritedShadowed | ast.js:24-33 | in a fresh function scope any name, even one visible outside, may be declared again |
| Validation.ValidNodesEach | ast.js:112-117 | a block passes exactly when every statement does; a failure is the first failing statement's error |
| Validation.ValidItemsEach | ast.js:426-434 | a list passes exactly when every element does |
| Validation.MisplacedRejected | ast.js:129-137 | a `var`, function declaration or pragma in a body of `if`, `while` or `for`, or a pragma in a function body, is rejected |
| Validation.DeclareParamAsWritten | ast.js:407-413 | the as-written rest-parameter rule also only adds declarations |
| Validation.RestParamUndeclaredAsWritten | ast.js:407-413 | as written, the rest parameter `args...` leaves `args` undeclared; the model declares it |
| Validation.ForBlockIgnoredAsWritten | ast.js:163-169 | as written, `for (;;) { x; }` passes with `x` undeclared; the model reports `x` |
| Pragmas.AddOnce | ast.js:853-861 | an included name is added once, after the names already included, and the list stays free of duplicates |
| Pragmas.IncludeNames | ast.js:853-861 | defines `#include`: each name declared here and added once to the included list |
| Pragmas.AddAll | ast.js:853-861 | defines the included list after each name of a sequence is included in turn |
| Pragmas.IncludeNamesAll | ast.js:853-861 | `#include`'s included list is that of its names, in the order written, included in turn |
| Pragmas.AddAllKeeps | ast.js:853-861 | including names in turn keeps the list as a prefix, adds exactly those names, and adds none twice |
| Pragmas.AddAllOrder | ast.js:853-861 | the names added come in the order of their first occurrence |
| Pragmas.DeclareNames | ast.js:891-910 | defines `#declare`: a plain name declared here, a group's names all declared, an unknown group an error |
| Pragmas.IncludeNamesEffect | ast.js:853-861 | after `#include`, exactly its names are added as declared here and to the included list, which keeps its order and has no duplicates; nothing else changes |
| Pragmas.DeclareAll | ast.js:901-903 | a group's names are all declared here and no other entry changes |
| Pragmas.DeclareNamesFails | ast.js:891-910 | `#declare` fails exactly when it lists an unknown group, reporting the first one |
| Pragmas.DeclareNamesDeclares | ast.js:891-910 | after `#declare`, every plain name and every name of every listed group is declared here |
| Pragmas.HereKept | ast.js:891-910 | `#declare` never undeclares a name |
| Contexts.Context.constructor | ast.js:58-64 | a fresh context with the given map and flags and nothing included |
| Contexts.Context.DeclareName | ast.js:205-214 | declaring one name in place gives the outcome and map of `Scopes.Declare`; the rest of the context is unchanged |
| Contexts.Context.DeclareArgs | ast.js:393-424 | the loop over the parameters gives the outcome and map of `Validation.DeclareArgs` |
| Contexts.Context.DeclareVars | ast.js:306-330 | the loop over a `var`'s elements gives the outcome and map of `Validation.DeclareVars` |
| Contexts.Context.DeclareStatement | ast.js:205-214 | a statement's `declare` gives the outcome and map of `Validation.DeclareStatement` |
| Contexts.Context.DeclareStatements | ast.js:103-110 | the loop over a block's statements gives the outcome and map of `Validation.DeclareStatements` |
| Contexts.Context.Include | ast.js:853-861 | the loop of `#include` leaves the map and the included list that `Pragmas.IncludeNames` gives |
| Contexts.Context.DeclareGroup | ast.js:901-903 | the loop over a group's names leaves the map that `Pragmas.DeclareAll` gives |
| Contexts.Context.DeclarePragma | ast.js:891-910 | the loop of `#declare` gives the outcome and map of `Pragmas.DeclareNames` |
| Contexts.FunctionContext | ast.js:216-229 | the context a function body is checked in: the map of `Validation.FunctionScope`, declarations allowed, pragmas not |
| Contexts.ValidateFunction | ast.js:652-663 | validating a function in its own context gives `Validation.ValidFunction` |
| Programs.Program.constructor | ast.js:52-56 | a program holds its preamble and statements and has included nothing yet |
| Programs.Program.Validate | ast.js:57-80 | the three passes succeed exactly when `ProgramCheck` does; on success `included` is the included list; on failure the error is the first one thrown and `included` is unchanged |
| Programs.PragmaPass | ast.js:66-70 | defines the first pass: each top-level pragma's effect, in order, stopping at the first error |
| Programs.ProgramCheck | ast.js:57-80 | defines `validate`'s three passes from an empty scope: the included names, or the first error |
| Programs.Appended | ast.js:88-92 | defines the builtins appended: each included name's text in order, nothing for a name without one |
| Programs.Program.Render | ast.js:82-95 | defines `render`: the preamble, the rendered statements, then the appended builtins |
| Programs.RenderPlainProgram | ast.js:82-95 | a program without dialect constructs or includes renders as its preamble followed by its statements' source |
| Programs.AppendedEach | ast.js:88-92 | including one more name with a builtin appends that builtin's text after the others |
| Programs.PragmaPassIncludes | ast.js:66-70 | the pragma pass includes exactly the names of the top-level `#include`s, keeps the names already included as a prefix, and adds none twice |
| Programs.PragmaPassAddAll | ast.js:66-70 | the pass's included list is that of every `#include`d name, in the order written, included in turn |
| Programs.PragmaPassOrder | ast.js:66-70 | the names the pass adds come in the order of their first `#include` |
| Programs.ValidatedIncludes | ast.js:57-80 | a validated program's included list holds exactly the names of its `#include`s, each once, in the order of their first `#include`, which is the order `render` appends their builtins in (ast.js:88-92) |
| Programs.PragmaPassDeclares | ast.js:66-70 | every name a top-level pragma lists, other than a group, is declared here after the pragma pass |
| Programs.PragmaNameRedeclared | ast.js:57-80 | a top-level `var` or function whose name a pragma also lists is rejected as already declared |
| Programs.ValidatedStatements | ast.js:76-78 | in a validated program every statement passes in the program's scope |
| Programs.ValidatedDeclares | ast.js:71-75 | in a validated program every top-level declared name is declared here |
| Rendering.TextOfAppend | ast.js:35-50 | the text of two token runs is the text of the first followed by the second |
| Rendering.Render | ast.js:35-50 | defines `render`: a node with its own rule uses it, any other node renders its children in order, and a token prints its text and whitespace |
| Rendering.RenderFunction | ast.js:665-730 | defines a function's rendering from its `(` on: the parameters, the whitespace of `: name`, the `{`, the injected statements, then the rest of the body |
| Rendering.RenderParam | ast.js:241-262 | defines how a parameter prints: `@` as `__err`, a rest parameter as its name, any other as its text |
| Rendering.Injection | ast.js:274-289 | defines the statements injected at the start of a function body: the error guard, the `this` alias, then the rest slice |
| Rendering.PassGuard | ast.js:274-281 | defines the guard of the last `@` parameter: call its handler and return, or re-throw |
| Rendering.ThisAlias | ast.js:283-285 | defines the `var name = this;` of `: name` |
| Rendering.RestSlice | ast.js:287-289 | defines the slice a rest parameter is assigned, with its position among the parameters |
| Rendering.RenderPragma | ast.js:869-883 | defines a pragma's rendering: a `/* … */` comment of its token texts, then every token's whitespace |
| Rendering.RenderParamAsWritten | ast.js:249-255 | defines a rest parameter's printing as written: the name's whitespace, then the `...` |
| Rendering.RestSliceAsWritten | ast.js:287-289 | defines the injected slice as written: it assigns to the `...` token's text |
| Rendering.LeftmostIsFirstToken | parser.js:270-273 | following the first child down reaches the node's first token, which is where a validation error is reported |
| Rendering.RenderPlain | ast.js:35-50 | a tree without dialect constructs renders as its source: each token's text followed by its whitespace, in order |
| Rendering.StatementRenderPlain | ast.js:35-50 | a statement or block without dialect constructs renders as its source |
| Rendering.ExpressionRenderPlain | ast.js:35-50 | an expression without dialect constructs renders as its source |
| Rendering.NodesRenderPlain | ast.js:35-50 | a run of plain statements renders as its text |
| Rendering.ItemsRenderPlain | ast.js:35-50 | a list of plain elements renders as its text |
| Rendering.PropsRenderPlain | ast.js:800-812 | properties whose last one has no trailing comma render as their text |
| Rendering.ObjectPlain | ast.js:800-812 | an object literal whose `}` does not follow a comma renders as its text |
| Rendering.NoSpecialParams | ast.js:241-262 | a parameter list without `@` or rest parameters injects no guard and no slice |
| Rendering.ParamsRenderPlain | ast.js:241-262 | plain parameters render as their text |
| Rendering.FunctionRestPlain | ast.js:232-298 | a function with plain parameters, no `: name` and a block body renders from its `(` on as its text |
| Rendering.RenderStrictEquality | ast.js:511-524 | `==` and `!=` render as the source with one `=` inserted right after the operator |
| Rendering.RenderPrototype | ast.js:614-626 | `::` renders as `.prototype` with the `::`'s whitespace, then `.member` when a member follows |
| Rendering.RenderArrow | ast.js:747-752 | `(params) -> e` renders as the parameter list, then `{`, the arrow's whitespace, `return e; }` |
| Rendering.RenderSimpleArrow | ast.js:761-771 | `-> e` renders as `function (_) {`, the arrow's whitespace, then `return e; }` |
| Rendering.LastCommaDropped | ast.js:800-812 | the last property's trailing comma is dropped and its whitespace kept |
| Rendering.RenderTrailingComma | ast.js:800-812 | an object literal with a trailing comma renders as its source with exactly that comma removed |
| Rendering.LastPassFound | ast.js:241-262 | the handler injected is that of the last `@` parameter |
| Rendering.LastPassNone | ast.js:241-262 | no guard is injected exactly when no parameter is an `@` parameter |
| Rendering.ErrorGuard | ast.js:274-281 | the last `@` parameter's handler is called with the error followed by a return, or the error is re-thrown when there is no handler; the parameter prints as `__err` |
| Rendering.LastRestFound | ast.js:241-262 | the slice injected is that of the last rest parameter, with its position |
| Rendering.LastRestNone | ast.js:241-262 | no slice is injected exactly when no parameter is a rest parameter |
| Rendering.RestParamRendersDots | ast.js:249-255 | as written, `args...` prints as `...` where the name belongs; the model prints `args` |
| Rendering.RestSliceAssignsDots | ast.js:287-289 | as written, the injected slice assigns to `...`; the model assigns to the parameter's name at its position |
| Rendering.PragmaLines | ast.js:869-883 | a pragma comment's text holds no newline, and its whitespace holds as many as the pragma |
| Rendering.RenderPragmaLines | ast.js:869-883 | a pragma rendered as a comment has as many newlines as its source |
| Rendering.PragmaKeepsLines | ast.js:869-883 | rendering a pragma keeps the line numbers of everything after it |
| Parsing.ValidationError | parser.js:263-276 | a validation error becomes a parse error with the file name, the message and the line of the offending token |
| Parsing.Parser.constructor | parser.js:140-146 | a parser starts at offset 0 of the whole text, with nothing peeked and nothing read |
| Parsing.Parser.Error | parser.js:845-862 | the error carries the line of the given offset, or of the last token read when none is given |
| Parsing.Parser.MatchWhitespace | parser.js:203-212 | the loop over the whitespace patterns finds the first match |
| Parsing.Parser.FindWhitespace | parser.js:201-218 | the whitespace consumed is the whole whitespace run, and the offset advances by its length |
| Parsing.Parser.FindToken | parser.js:172-199 | the token is the text the first matching table entry covers, with that entry's type, and the offset advances past it; with no match the error is `invalid token` and nothing is consumed |
| Parsing.Parser.FindString | parser.js:148-170 | a literal runs up to the first unescaped closing quote, starts one character before the offset, and takes its whitespace; otherwise `runaway string literal` |
| Parsing.Parser.ScanString | parser.js:150-163 | the reading loop computes the literal's length |
| Parsing.Parser.ReadToken | parser.js:225-235 | at the end of the text the token is EOF; otherwise it is the token `Scanning.Lex` gives, and the text and offset advance past its text and whitespace; `invalid token` when no entry matches |
| Parsing.Parser.ReadLexeme | parser.js:229-235 | away from the end of the text: the first matching entry's token followed by the whitespace run after it, with the text and offset advanced by both lengths |
| Parsing.Parser.Next | parser.js:220-254 | the result is what the state before gives (`NextResult`): the cached token, or the token read, with a reserved word or `===`/`!==` rejected with its message; the token handed out is appended to the tokens read; the input never grows |
| Parsing.Parser.Peek | parser.js:256-261 | the result is what `next` would give; it is cached until consumed, and a token already cached is returned without reading |
| Parsing.Parser.TakePeeked | parser.js:221-224 | consuming the cached token leaves the input where it is and appends the token to the tokens read |
| Parsing.Parser.PeekType | parser.js:256-261 | the type of the token `next` would give, or its error; nothing is read |
| Parsing.Parser.Expect | parser.js:278-284 | the result is what `next` gives when its type is `kind`; a token of another type is `expected 'kind' instead of '…'` at that token |
| Parsing.Parser.ReadString | parser.js:492-503 | after the cached quote or `/`, the literal `findString` reads; the STRING token takes the quote's place among the tokens read |
| Parsing.Parser.ParseExpression | parser.js:473-624 | an expression at threshold 0, well formed, holding exactly the tokens read, stopped before a token that cannot continue it |
| Parsing.Parser.ParseExpr | parser.js:473-624 | a well-formed expression of the shape precedence climbing gives at the threshold, holding exactly the tokens read, stopped before an operator it may not absorb |
| Parsing.Parser.ParseOperator | parser.js:533-620 | one round of the loop: the expression extended by the operator or postfix form at the next token keeps the threshold's shape, and the tokens read grow by exactly the new tokens |
| Parsing.Parser.ParseInfix | parser.js:534-578 | a binary or ternary node of the expression, which may absorb the operator, stopped before one it may not |
| Parsing.Parser.ParseBinary | parser.js:548-569 | a binary node of the operand and the operator, whose right operand was parsed at the operator's precedence |
| Parsing.Parser.ParseTernary | parser.js:570-578 | a ternary node of the condition, the `?` and the `:`, the branch after `:` parsed at the ternary's precedence |
| Parsing.Parser.ParsePrimary | parser.js:478-531 | a primary expression, or a prefix operator applied to an expression parsed at the highest precedence, holding exactly the tokens read |
| Parsing.Parser.ParsePrefix | parser.js:478-531 | the node type the first token selects (`PrimaryFor`); a token that starts no expression is `invalid expression` at that token |
| Parsing.Parser.ParseLiteral | parser.js:479-491 | the number, `null`, boolean or identifier node of exactly the token read |
| Parsing.Parser.ParseStringLiteral | parser.js:492-503 | the string or regular-expression literal `findString` reads after the quote, or its error |
| Parsing.Parser.ParseUnary | parser.js:516-522 | the prefix operator and an operand parsed at the highest precedence |
| Parsing.Parser.ParsePostfix | parser.js:579-616 | the postfix node of the type the token selects, whose operand is the expression; the tokens read grow by exactly the node's trailer |
| Parsing.Parser.ParseMember | parser.js:579-590 | `.name` followed by `(` is an invocation with its argument list; otherwise a property access, and the next token is not `(` |
| Parsing.Parser.ParseCall | parser.js:592-595 | a call node of the expression and its argument list |
| Parsing.Parser.ParseIndex | parser.js:597-600 | an index node of the expression and the index expression |
| Parsing.Parser.ParsePrototype | parser.js:602-608 | `::`, with the identifier after it as member exactly when one follows |
| Parsing.Parser.ParseYada | parser.js:610-616 | `...` after anything but an identifier is `unexpected '...'`; after one, a rest node of that identifier |
| Parsing.Parser.ParseExprList | parser.js:413-428 | well-formed elements, each but the last followed by a comma; a list ending in a comma stops only before `)`, `]` or `;`, one ending without stops before a token other than `,` |
| Parsing.Parser.ParseItem | parser.js:419-425 | one element: a well-formed expression, and the comma after it exactly when the next token is one |
| Parsing.Parser.ParsePassExpr | parser.js:626-634 | `@`, with the identifier after it as handler exactly when one follows |
| Parsing.Parser.ParseArrayExpr | parser.js:636-643 | a well-formed array literal of exactly the tokens read |
| Parsing.Parser.ParseSimpleArrow | parser.js:747-753 | `-> e`, of exactly the tokens read |
| Parsing.Parser.ParseObjectExpr | parser.js:645-678 | an object literal whose properties each have a name or string key, `:` and a value, all but the last followed by a comma |
| Parsing.Parser.ParseProp | parser.js:650-674 | a key that is a name or a string, `:`, a value, and the comma after it exactly when the next token is one |
| Parsing.Parser.ParseKey | parser.js:650-666 | a name, or the string `findString` reads after a quote; any other token is `invalid object key` at that token |
| Parsing.Parser.ParseNewExpr | parser.js:680-697 | `new`, a target that is an identifier followed by `.name` accesses, and its argument list |
| Parsing.Parser.ParseGroupExpr | parser.js:699-745 | a function expression, an arrow function or a parenthesised expression; a parenthesised expression is never followed by `{`, `->` or `:` |
| Parsing.Parser.ParseGroupRest | parser.js:712-745 | the choice made by the token after `)`: `{` makes a function, keeping the `: name`; after `: name` anything else is `expected '{'`; `->` makes an arrow function; otherwise exactly one element without a comma is a parenthesised expression, and anything else is `unexpected … after formal parameter list`; non-formal parameters before `{` or `->` are rejected with their messages |
| Parsing.Parser.ParseThisPart | parser.js:706-710 | `: name` |
| Parsing.Parser.ParseFunctionRest | parser.js:712-721 | a function expression of the list, `)`, the `: name` and a block; parameters that are not all formal are rejected |
| Parsing.Parser.ParseArrowRest | parser.js:726-736 | an arrow function of the list, `)`, the `->` and an expression; parameters that are not all formal are rejected |
| Parsing.Parser.Parse | parser.js:263-276 | on success, a fresh program whose preamble is the whitespace at the start of the text and whose statements hold exactly the tokens read; its three validation passes succeed and it holds the included names |
| Parsing.Parser.CheckProgram | parser.js:264-275 | validation succeeds exactly when `ProgramCheck` does; a failure is reported at the line of the offending token |
| Parsing.Parser.ParseStatements | parser.js:286-292 | well-formed statements up to EOF, holding exactly the tokens read; the whole text is then read |
| Parsing.Parser.ParseStatement | parser.js:294-308 | the statement type the first token selects (`StatementFor`) |
| Parsing.Parser.ParseIf | parser.js:310-330 | an `if` node, with an else part exactly when `else` follows |
| Parsing.Parser.ParseElse | parser.js:319-327 | `else` followed by a block or another `if` |
| Parsing.Parser.ParseWhile | parser.js:332-341 | a `while` node of exactly the tokens read |
| Parsing.Parser.ParseFor | parser.js:343-357 | a `for` node with its three lists, of exactly the tokens read |
| Parsing.Parser.ParseBreak | parser.js:359-368 | always fails, calling a constructor that does not exist |
| Parsing.Parser.ParseContinue | parser.js:370-379 | always fails, calling a constructor that does not exist |
| Parsing.Parser.ParseReturn | parser.js:381-393 | a `return` node with an optional value |
| Parsing.Parser.ParseThrow | parser.js:395-402 | a `throw` node |
| Parsing.Parser.ParseVar | parser.js:404-411 | a `var` node |
| Parsing.Parser.ParsePragmaNames | parser.js:811-826 | the names of a pragma, each followed by `,` except the last, which is followed by `;` |
| Parsing.Parser.ParseIncludePragma | parser.js:811-826 | an `#include` node |
| Parsing.Parser.ParseDeclarePragma | parser.js:828-843 | a `#declare` node |
| Parsing.Parser.ParseBlock | parser.js:800-808 | a block of well-formed statements between `{` and `}`, holding exactly the tokens read |
| Parsing.Parser.ParseBlockStatements | parser.js:802-806 | well-formed statements holding exactly the tokens read, stopping with `}` or EOF next |
| Parsing.Parser.ParseExprStatement | parser.js:755-798 | the empty statement exactly when the statement starts with `;`; otherwise an expression statement, or a labelled loop |
| Parsing.Parser.ParseExprRest | parser.js:760-797 | after an identifier and `:`, a labelled statement named by the identifier; otherwise an expression statement holding the expression |
| Parsing.Parser.ParseDroppedThis | parser.js:778-792 | `: name` after an expression statement's expression, with the `{` that must follow; these tokens are consumed but are not among the tokens read |
| Parsing.Parser.ParseLabeled | parser.js:762-775 | a labelled statement whose loop is a `while` or a `for` |
## Left out

- Reading and writing files, `compiler.js`, `index.js` and the text of the
  builtins: left out because they are I/O. The builtins are a map parameter of
  `Programs.Program.Render`, and `compile` (parser.js:129-138) only chains
  `parse` and `render`.
- The `console.log` of an error's stack in `parse`: an I/O side effect.
- Exceptions: they become `Result` and `Outcome` values. When a declaration
  throws halfway, the code leaves the context partly updated. The model says
  nothing about that partial state, because the whole parse fails and the
  context is then discarded.
- `break` and `continue`: the parser calls `ast.BreakStatement` and
  `ast.ContinueStatement`. `ast.js` does not define them, so both statements
  fail with `NotAConstructor`, and the model gives that error.
- `FunctionStatement`: the parser never builds this node. Its test at
  parser.js:784 calls `checkFuncSpec`, which no node type of `ast.js`
  defines. Its `declare`, `validate` and `render` rules are still modelled.
- Names starting with `:`: the parser's name rule cannot read them, so no
  parsed `#declare` reaches the group branch. `Pragmas.DeclareNames` still
  models that branch.
- Prototype keys: `ctx.declared` is a plain object, so a name such as
  `toString` reads an inherited key. The model's map starts empty.
- The order of `for (k in included)`: in JavaScript this order is insertion
  order only for non-integer keys. The keys here are identifiers, which are
  never integer-like, so the model keeps the included names as a sequence in
  insertion order.
- Characters are Dafny `char`s (Unicode scalar values). JavaScript works on
  UTF-16 code units, so a name or literal containing astral characters is
  measured differently.
- Regular-expression flags: after a regular expression, the literal reader
  does not consume flag letters, so they are scanned as the next token.
  neatjs's design notes say the flags are consumed. The model follows the code.
- Whitespace after an opening quote: the quote is a token of its own, and
  `next` takes the whitespace and comments after it as that token's
  whitespace. `findString` runs only after that and never puts the text back.
  So `' a'` reads as `'a'`, and in `'// x'` the comment swallows the rest of
  the line. The design notes describe a repair step that puts the text back;
  the code has none, and the model follows the code.
- Parameter order: the design notes put an `@` parameter first and a rest
  parameter last in a list. The code enforces neither rule, and neither does
  the model.
- Validation.DeclareParam: any node other than a plain, `@` or rest
  parameter leaves the scope unchanged. The parser's `checkFormalParams` lets
  no other node reach it.
- Rendering.RenderFunction: the parser builds a function expression as
  `(`, the parameter list, `)`, the block (parser.js:717-720), and an arrow
  function as `(`, the list, `)`, `->`, the expression (parser.js:731-735).
  `ast.js` reads both by positions that assume one more token in front
  (ast.js:643-647, ast.js:733-737): `args` is `elts[2]`, which is the `)`
  token. As written, validating or rendering any such function therefore
  raises a JavaScript TypeError rather than a neatjs error. The model gives
  each child its role (parameters, `)`, `: name`, body) and validates and
  renders as the code would with that extra leading token, without printing
  the token itself.
- Validation.Valid: `validate` is modelled as a function of the node, the
  map and the two flags, not as a method per node class. It writes to no
  shared state: its only writes are to the fresh contexts made for function
  bodies, and those are `Contexts.FunctionContext`.
- Validation.FunctionScope: a function body that is not a block declares
  nothing. The parser always builds a block body.
- Validation.Valid: the `for` rule is the corrected one (`Validation.ValidFor`):
  the loop's block is validated, which the code does not do (see Findings).
  So for `for (;;) { x; }` with `x` undeclared the code accepts the program,
  while the model's `Parsing.Parser.Parse` fails with `'x' has not been
  declared`.
- Rendering.Render: a rest parameter prints as its name, and the injected slice
  assigns to that name (`Rendering.RenderParam`, `Rendering.RestSlice`). The code
  reads the `...` token in both places (see Findings).
- Rendering.RenderPlain: the rendering equals the tree's source, the text and
  whitespace of its tokens. That the tokens the parser read cover the input
  text character for character is not proved: the parser's offset accounting
  is not tied to the tokens read.
- Parsing.Parser.ParseStatement: the statement kind is tied to the first token
  only when a token is already cached at the call (`StatementFor`). When none
  is, the token `peek` reads is not named by the contract. The same holds for
  the choices stated in `ParseExprStatement`, `ParsePrefix` and
  `ParseGroupRest`, which are stated on the token cached at the call.
- Parsing.Parser.ParseDroppedThis: the `: name {` after an expression
  statement's expression is consumed and then dropped, as in the code, which
  keeps neither token in any node. The model takes these tokens back out of
  `read`, so "the statements hold exactly the tokens read" skips them.
- Parsing.Parser.ParseIf: like the other statement and expression parsers, its
  contract states the tree on success. On failure it does not say which error
  is reported, except where a row above names the message.
- Parsing.Parser.Parse: on failure, the contract does not say which stage
  failed.

## Findings

| source | as written | input that shows it | evidently intended | confidence | as-written member | corrected member |
|---|---|---|---|---|---|---|
| ast.js:163-169 | `ForStatement.validate` validates the three expression lists and never the loop's block | `for (;;) { x; }` with `x` undeclared passes; so does `for (;;) { var y; }` | the block is validated like the bodies of `if` and `while`: in a context without the two flags (ast.js:147-152) | not executed | Validation.ForBlockIgnoredAsWritten | Validation.MisplacedRejected |
| ast.js:407-413 | the three rest-parameter rules read the name from `elts[1]` of the node. The parser builds the node as [identifier, `...`] (parser.js:614). So `declareArgs`, `render` (ast.js:249-255) and the injected slice (ast.js:287-289) all use the `...` token | latent: no parsed program reaches these rules. For `var f = (a, args...) { return args; };`, `FunctionExpr.validate` first calls `declareArgs` on `elts[2]`, the `)` token (ast.js:645, 654), which raises a TypeError. `parse`'s `catch` then fails on `err[0].elts` (parser.js:270). Once the function's children are read at their roles, as the model reads them, the rule rejects the program with `'args' has not been declared`. Rendering gives `(a, ...)` and ` ... = [].slice.call(arguments, 1);` | the name is `elts[0]`: `args` is declared, printed as the parameter, and assigned the slice | not executed | Validation.RestParamUndeclaredAsWritten | Validation.ArgsDeclared |
