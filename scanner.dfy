/** What the scanner of parser.js computes, as functions of the text: the line
    number an error is reported at and its message, the token `next` reads from
    the front of the text, and the facts about whitespace runs and string bodies
    the scanning methods of the `Parser` class rely on. */
module Scanning {
  import opened Base
  import opened Lexer
  import opened Syntax

  // ---------------------------------------------------------------------
  // Error messages (parser.js:845-862)

  /** `loc` clamped to the text, as `charAt` reads nothing outside it. */
  function Clamp(loc: int, n: nat): (k: nat)
    ensures k <= n
  {
    if loc < 0 then 0 else if loc > n then n else loc
  }

  /** The 1-based line of offset `loc`: one more than the line feeds before it. */
  function LineAt(original: string, loc: int): nat {
    1 + Newlines(original[..Clamp(loc, |original|)])
  }

  /** What a failed parse throws: an `Error` made by `error`, with the file name, the
      line and the message; or the `TypeError` JavaScript raises when the parser calls
      a syntax-tree constructor that does not exist. */
  datatype ParseError =
    | ErrorAt(filename: string, line: nat, msg: string)
    | NotAConstructor(name: string)

  /** The error `error(msg, loc)` throws. */
  function ErrorOf(filename: string, original: string, loc: int, msg: string): ParseError {
    ErrorAt(filename, LineAt(original, loc), msg)
  }

  /** The message text of a thrown error. */
  function ErrorText(e: ParseError): string {
    match e
    case ErrorAt(filename, line, msg) => filename + ", line " + NatToString(line) + ": " + msg
    case NotAConstructor(name) => name + " is not a constructor"
  }

  lemma NewlinesSnoc(s: string, i: nat)
    requires i < |s|
    ensures Newlines(s[..i + 1]) == Newlines(s[..i]) + (if s[i] == '\n' then 1 else 0)
  {
    assert s[..i + 1] == s[..i] + [s[i]];
  }

  /** Stepping over one character moves to the next line exactly when it is a line feed. */
  lemma LineAtStep(original: string, k: nat)
    requires k < |original|
    ensures LineAt(original, k + 1) == LineAt(original, k) + (if original[k] == '\n' then 1 else 0)
  {
    NewlinesSnoc(original, k);
  }

  /** Every offset before the first line feed is on line 1. */
  lemma {:induction false} LineAtFirstLine(original: string, loc: int)
    requires forall i :: 0 <= i < |original| && i < loc ==> original[i] != '\n'
    ensures LineAt(original, loc) == 1
  {
    var k := Clamp(loc, |original|);
    assert forall i :: 0 <= i < k ==> original[..k][i] != '\n';
    assert '\n' !in multiset(original[..k]);
  }

  // ---------------------------------------------------------------------
  // What `next` hands out (parser.js:220-254)

  /** The token types `next` refuses. */
  predicate Rejected(kind: string) {
    kind in {"function", "this", "yield", "try", "catch", "finally", "===", "!=="}
  }

  function RejectMessage(kind: string): string
    requires Rejected(kind)
  {
    if kind == "===" || kind == "!==" then "use '" + kind[..2] + "' instead of '" + kind + "'"
    else "'" + kind + "' is a reserved keyword"
  }

  /** The message of `expect(kind)` when the token `t` arrives instead. */
  function ExpectMessage(kind: string, t: Token): string {
    "expected '" + kind + "' instead of '" + (if t.text != "" then t.text else t.kind) + "'"
  }

  /** The token `next` produces from text `s` at offset `loc` when nothing is cached:
      EOF at the end of the text, otherwise the first matching table entry followed by
      the whitespace run after it; `None` when no entry matches. */
  function Lex(tab: seq<Entry>, s: string, loc: int): (r: Option<Token>)
    ensures r.Some? && r.value.kind != "EOF" ==> r.value.text != ""
    ensures r.Some? ==> |r.value.text| + |r.value.ws| <= |s|
    ensures r.Some? ==> r.value.kind in {"NUMBER", "IDENT", "EOF"} || r.value.text == r.value.kind
    ensures r.Some? && r.value.kind == "EOF" && NoEofEntry(tab) ==> s == "" && r.value.ws == ""
  {
    if s == "" then Some(Token("EOF", "", loc, ""))
    else match Scan(tab, s)
      case None => None
      case Some(lx) => Some(Token(lx.kind, s[..lx.len], loc, WsRun(s[lx.len..])))
  }

  /** Away from the end of the text, the token is the scanner's lexeme with the
      whitespace after it. */
  lemma LexFound(tab: seq<Entry>, s: string, loc: int, lx: Lexeme)
    requires s != "" && Scan(tab, s) == Some(lx)
    ensures Lex(tab, s, loc) == Some(Token(lx.kind, s[..lx.len], loc, WsRun(s[lx.len..])))
  {
  }

  /** A lexed token is the front of the text: its text, then its whitespace. */
  lemma LexIsPrefix(tab: seq<Entry>, s: string, loc: int)
    requires Lex(tab, s, loc).Some?
    ensures StartsWith(s, Lex(tab, s, loc).value.text + Lex(tab, s, loc).value.ws)
  {
    var t := Lex(tab, s, loc).value;
    if s != "" {
      var n := |t.text|;
      WsRunIsPrefix(s[n..]);
      PrefixThen(s, n, t.ws);
    }
  }

  /** At the end of the text the only token is EOF, with empty text and whitespace. */
  lemma LexAtEnd(tab: seq<Entry>, loc: int)
    ensures Lex(tab, "", loc) == Some(Token("EOF", "", loc, ""))
  {
  }

  /** After the whitespace run of a lexed token, no whitespace is left to take. */
  lemma LexSkipsAllWhitespace(tab: seq<Entry>, s: string, loc: int)
    requires Lex(tab, s, loc).Some?
    ensures FirstWs(s[|Lex(tab, s, loc).value.text| + |Lex(tab, s, loc).value.ws|..], 0) == 0
  {
    var t := Lex(tab, s, loc).value;
    if s != "" {
      var n := |t.text|;
      WsRunIsPrefix(s[n..]);
      PrefixThen(s, n, t.ws);
    }
  }

  lemma DropDrop(s: string, a: nat, b: nat)
    requires a + b <= |s|
    ensures s[a..][b..] == s[a + b..]
  {
  }

  /** One step of the whitespace run: the first pattern's match, then the run after it. */
  lemma WsRunStep(s: string, m: nat)
    requires m == FirstWs(s, 0) && m > 0
    ensures WsRun(s) == s[..m] + WsRun(s[m..])
  {
  }

  /** Taking one more match keeps the run consumed so far a prefix of the whole run. */
  lemma WsRunAdvance(s0: string, ws: string, t: string, m: nat)
    requires ws + WsRun(t) == WsRun(s0)
    requires m == FirstWs(t, 0) && m > 0
    ensures m <= |t| && (ws + t[..m]) + WsRun(t[m..]) == WsRun(s0)
  {
    WsRunStep(t, m);
    assert (ws + t[..m]) + WsRun(t[m..]) == ws + (t[..m] + WsRun(t[m..]));
  }

  /** A scan result moved `k` characters further on. */
  function Shift(r: Option<nat>, k: nat): Option<nat> {
    match r
    case None => None
    case Some(n) => Some(n + k)
  }
}
