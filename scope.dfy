/** The scope maps of ast.js's validator: the `declared` map from a name to its
    marker, the copy a function scope starts from, the redeclaration rule, the
    errors validation reports, and the name groups `#declare` expands. */
module Scopes {
  import opened Base
  import opened Syntax

  /** The marker of a name declared in the current scope. */
  const Here := 1
  /** The marker of a name visible from an enclosing scope (ast.js:24-33). */
  const Inherited := 2

  /** `ctx.declared`: a name's marker, absent when the name was never declared. */
  type Declared = map<string, int>

  /** `ctx.declared[x]` is truthy. */
  predicate IsDeclared(d: Declared, x: string) {
    x in d && d[x] != 0
  }

  /** `ctx.declared[x] === 1`. */
  predicate IsHere(d: Declared, x: string) {
    x in d && d[x] == Here
  }

  /** Every marker the validator writes is `1` or `2`. */
  predicate Markers(d: Declared) {
    forall x :: x in d ==> d[x] == Here || d[x] == Inherited
  }

  /** `newDeclaredVars(v)`: the map a function scope starts from. Every name
      visible outside stays visible and nothing else becomes visible, but no name
      counts as declared in the new scope, so each may be declared again. */
  function Inherit(d: Declared): (r: Declared)
    ensures r.Keys == d.Keys && Markers(r)
    ensures forall x :: !IsHere(r, x)
    ensures Markers(d) ==> forall x :: IsDeclared(r, x) <==> IsDeclared(d, x)
  {
    map x | x in d :: Inherited
  }

  /** `newDeclaredVars` copies the keys one at a time (ast.js:24-33). */
  method NewDeclaredVars(v: Declared) returns (v2: Declared)
    ensures v2 == Inherit(v)
  {
    v2 := map[];
    var keys := v.Keys;
    while keys != {}
      invariant keys <= v.Keys
      invariant v2.Keys == v.Keys - keys
      invariant forall x :: x in v2 ==> v2[x] == Inherited
      decreases |keys|
    {
      var key :| key in keys;
      v2 := v2[key := Inherited];
      keys := keys - {key};
    }
  }

  // ---------------------------------------------------------------------
  // Errors (thrown as `[node, message]` pairs)

  /** A validation error: the leaf token it is reported at and its message. */
  datatype VError = VError(at: Token, msg: string)

  function AlreadyDeclared(x: string): string {
    "'" + x + "' is already declared in this scope"
  }

  function NotDeclared(x: string): string {
    "'" + x + "' has not been declared"
  }

  /** Declaring the name token `t`: an error when it is already declared in this
      scope, otherwise its marker becomes `1` (ast.js:205-214, ast.js:321-327). */
  function Declare(d: Declared, t: Token): (r: Result<Declared, VError>)
    ensures r.Failure? <==> IsHere(d, t.text)
    ensures r.Failure? ==> r.error == VError(t, AlreadyDeclared(t.text))
    ensures r.Success? ==> r.value.Keys == d.Keys + {t.text} && IsHere(r.value, t.text)
    ensures r.Success? ==> forall x :: x in d && x != t.text ==> r.value[x] == d[x]
    ensures r.Success? && Markers(d) ==> Markers(r.value)
    ensures r.Success? ==> forall x :: IsDeclared(r.value, x) <==> IsDeclared(d, x) || x == t.text
  {
    if IsHere(d, t.text) then Failure(VError(t, AlreadyDeclared(t.text)))
    else Success(d[t.text := Here])
  }

  // ---------------------------------------------------------------------
  // Declaration groups of `#declare` (ast.js:912-1097)

  const StandardNames: seq<string> := [
      "arguments", "Array", "Boolean", "Date", "decodeURI", "decodeURIComponent", "encodeURI",
      "encodeURIComponent", "Error", "eval", "EvalError", "Function", "hasOwnProperty",
      "isFinite", "isNaN", "JSON", "Math", "Number", "Object", "parseInt", "parseFloat",
      "RangeError", "ReferenceError", "RegExp", "String", "SyntaxError", "TypeError", "URIError"
  ]

  const NodeNames: seq<string> := StandardNames + [
      "__filename", "__dirname", "Buffer", "console", "exports", "GLOBAL", "global", "module",
      "process", "require", "setTimeout", "clearTimeout", "setInterval", "clearInterval"
  ]

  const BrowserNames: seq<string> := StandardNames + [
      "ArrayBuffer", "ArrayBufferView", "Audio", "addEventListener", "applicationCache",
      "blur", "clearInterval", "clearTimeout", "close", "closed", "DataView", "defaultStatus",
      "document", "event", "FileReader", "Float32Array", "Float64Array", "FormData", "focus",
      "frames", "getComputedStyle", "HTMLElement", "HTMLAnchorElement", "HTMLBaseElement",
      "HTMLBlockquoteElement", "HTMLBodyElement", "HTMLBRElement", "HTMLButtonElement",
      "HTMLCanvasElement", "HTMLDirectoryElement", "HTMLDivElement", "HTMLDListElement",
      "HTMLFieldSetElement", "HTMLFontElement", "HTMLFormElement", "HTMLFrameElement",
      "HTMLFrameSetElement", "HTMLHeadElement", "HTMLHeadingElement", "HTMLHRElement",
      "HTMLHtmlElement", "HTMLIFrameElement", "HTMLImageElement", "HTMLInputElement",
      "HTMLIsIndexElement", "HTMLLabelElement", "HTMLLayerElement", "HTMLLegendElement",
      "HTMLLIElement", "HTMLLinkElement", "HTMLMapElement", "HTMLMenuElement",
      "HTMLMetaElement", "HTMLModElement", "HTMLObjectElement", "HTMLOListElement",
      "HTMLOptGroupElement", "HTMLOptionElement", "HTMLParagraphElement", "HTMLParamElement",
      "HTMLPreElement", "HTMLQuoteElement", "HTMLScriptElement", "HTMLSelectElement",
      "HTMLStyleElement", "HTMLTableCaptionElement", "HTMLTableCellElement",
      "HTMLTableColElement", "HTMLTableElement", "HTMLTableRowElement",
      "HTMLTableSectionElement", "HTMLTextAreaElement", "HTMLTitleElement", "HTMLUListElement",
      "HTMLVideoElement", "history", "Int16Array", "Int32Array", "Int8Array", "Image",
      "length", "localStorage", "location", "moveBy", "moveTo", "name", "navigator",
      "onbeforeunload", "onblur", "onerror", "onfocus", "onload", "onresize", "onunload",
      "open", "openDatabase", "opener", "Option", "parent", "print", "removeEventListener",
      "resizeBy", "resizeTo", "screen", "scroll", "scrollBy", "scrollTo", "sessionStorage",
      "setInterval", "setTimeout", "SharedWorker", "status", "top", "Uint16Array",
      "Uint32Array", "Uint8Array", "WebSocket", "window", "Worker", "XMLHttpRequest",
      "XPathEvaluator", "XPathException", "XPathExpression", "XPathNamespace",
      "XPathNSResolver", "XPathResult"
  ]

  /** `declareTags[tag]`: the group a `:`-prefixed name stands for, if any. */
  function DeclareTag(tag: string): (r: Option<seq<string>>)
    ensures r.Some? ==> StandardNames <= r.value
    ensures r.Some? <==> tag in {":standard", ":node", ":browser"}
  {
    if tag == ":standard" then Some(StandardNames)
    else if tag == ":node" then Some(NodeNames)
    else if tag == ":browser" then Some(BrowserNames)
    else None
  }
}
