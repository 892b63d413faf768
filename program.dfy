/** `Program` of ast.js: the preamble (the whitespace before the first token), the
    top-level statements, and the builtins the program's `#include` pragmas name,
    which `validate` records and `render` appends. */
module Programs {
  import opened Base
  import opened Syntax
  import opened Scopes
  import opened Validation
  import opened Pragmas
  import opened Contexts
  import opened Rendering

  // ---------------------------------------------------------------------
  // The three passes of `Program.validate` (ast.js:57-80)

  /** The first pass: every top-level pragma's effect, in order. */
  function PragmaPass(d: Declared, inc: seq<string>, ss: seq<Node>): Result<(Declared, seq<string>), VError>
    decreases |ss|
  {
    if ss == [] then Success((d, inc))
    else if ss[0].IncludePragma? then
      var (d1, inc1) := IncludeNames(d, inc, ss[0].names);
      PragmaPass(d1, inc1, ss[1..])
    else if ss[0].DeclarePragma? then
      var d1 :- DeclareNames(d, ss[0].names);
      PragmaPass(d1, inc, ss[1..])
    else PragmaPass(d, inc, ss[1..])
  }

  /** The top-level scope: the pragmas' names, then the top-level declarations. */
  function ProgramScope(ss: seq<Node>): Result<(Declared, seq<string>), VError> {
    var (d, inc) :- PragmaPass(map[], [], ss);
    var d2 :- DeclareStatements(d, ss);
    Success((d2, inc))
  }

  /** `Program.validate`: the included names when all three passes succeed, else
      the first error. */
  function ProgramCheck(ss: seq<Node>): Result<seq<string>, VError> {
    var (d, inc) :- ProgramScope(ss);
    match ValidNodes(ss, d, true, true)
    case Pass => Success(inc)
    case Fail(e) => Failure(e)
  }

  /** The names a top-level pragma declares by name: those of `#include` and the
      plain names of `#declare`. */
  function PragmaNamed(ss: seq<Node>): set<string> {
    set i, x | 0 <= i < |ss| && (ss[i].IncludePragma? || ss[i].DeclarePragma?) && x in Named(ss[i].names)
      && (ss[i].DeclarePragma? ==> x !in GroupTexts(ss[i].names)) :: x
  }

  /** The `:group` names of a pragma. */
  function GroupTexts(names: seq<PragmaItem>): set<string> {
    set i | 0 <= i < |names| && IsGroup(names[i].name) :: names[i].name.text
  }

  /** The names the program's `#include` pragmas list. */
  function IncludedBy(ss: seq<Node>): set<string> {
    set i, x | 0 <= i < |ss| && ss[i].IncludePragma? && x in Named(ss[i].names) :: x
  }

  /** The names the program's `#include` pragmas list, in the order written. */
  function IncludeSeq(ss: seq<Node>): seq<string>
    decreases |ss|
  {
    if ss == [] then [] else (if ss[0].IncludePragma? then NameSeq(ss[0].names) else []) + IncludeSeq(ss[1..])
  }

  /** The builtins appended for the included names; a name without a builtin
      adds nothing, as `join` prints a missing entry as the empty string. */
  function Appended(inc: seq<string>, builtins: map<string, string>): string {
    if inc == [] then "" else (if inc[0] in builtins then builtins[inc[0]] else "") + Appended(inc[1..], builtins)
  }

  class Program {
    const preamble: string
    const stmts: seq<Node>
    /** Set by `validate`: the included names, in the order first included. */
    var included: seq<string>

    constructor(preamble: string, stmts: seq<Node>)
      ensures this.preamble == preamble && this.stmts == stmts && included == []
    {
      this.preamble := preamble;
      this.stmts := stmts;
      included := [];
    }

    /** `Program.prototype.validate`: the pragma pass, the declaration pass and the
        validation pass over the top-level statements in one context where `var`,
        functions and pragmas are allowed. */
    method Validate() returns (r: Outcome<VError>)
      modifies this
      ensures r.Pass? <==> ProgramCheck(stmts).Success?
      ensures r.Fail? ==> r.error == ProgramCheck(stmts).error && included == old(included)
      ensures r.Pass? ==> included == ProgramCheck(stmts).value
    {
      var ctx := new Context(map[], true, true);
      var i := 0;
      while i < |stmts|
        invariant 0 <= i <= |stmts|
        invariant ctx.varOk && ctx.pragmaOk && included == old(included)
        invariant PragmaPass(ctx.declared, ctx.included, stmts[i..]) == PragmaPass(map[], [], stmts)
      {
        assert stmts[i..][0] == stmts[i] && stmts[i..][1..] == stmts[i + 1..];
        var s := stmts[i];
        if s.IncludePragma? {
          ctx.Include(s.names);
        } else if s.DeclarePragma? {
          r := ctx.DeclarePragma(s.names);
          if r.Fail? {
            return;
          }
        }
        i := i + 1;
      }
      var inc := ctx.included;
      r := ctx.DeclareStatements(stmts);
      if r.Fail? {
        return;
      }
      i := 0;
      while i < |stmts|
        invariant 0 <= i <= |stmts|
        invariant ValidNodes(stmts[i..], ctx.declared, true, true) == ValidNodes(stmts, ctx.declared, true, true)
      {
        assert stmts[i..][0] == stmts[i] && stmts[i..][1..] == stmts[i + 1..];
        r := Valid(stmts[i], ctx.declared, ctx.varOk, ctx.pragmaOk);
        if r.Fail? {
          return;
        }
        i := i + 1;
      }
      included := inc;
      r := Pass;
    }

    /** `Program.prototype.render`: the preamble, the rendered statements, then the
        builtin of each included name (ast.js:82-94). */
    function Render(builtins: map<string, string>): string
      reads this
    {
      preamble + RenderNodes(stmts) + Appended(included, builtins)
    }
  }

  // ---------------------------------------------------------------------
  // Properties

  /** A program of plain statements without builtins renders as its own text. */
  lemma RenderPlainProgram(p: Program, builtins: map<string, string>)
    requires forall i :: 0 <= i < |p.stmts| ==> Plain(p.stmts[i])
    requires p.included == []
    ensures p.Render(builtins) == p.preamble + TextOf(NodesTokens(p.stmts))
  {
    NodesRenderPlain(p.stmts);
  }

  /** The builtins come after the statements, one per included name in order. */
  lemma {:induction false} AppendedEach(inc: seq<string>, x: string, builtins: map<string, string>)
    requires x in builtins
    ensures Appended(inc + [x], builtins) == Appended(inc, builtins) + builtins[x]
    decreases |inc|
  {
    if inc == [] {
      assert [x][1..] == [];
    } else {
      assert (inc + [x])[1..] == inc[1..] + [x];
      AppendedEach(inc[1..], x, builtins);
    }
  }

  /** The pragma pass includes exactly the `#include`d names, each once. */
  lemma {:induction false} PragmaPassIncludes(d: Declared, inc: seq<string>, ss: seq<Node>)
    requires PragmaPass(d, inc, ss).Success?
    ensures forall x :: x in PragmaPass(d, inc, ss).value.1 <==> x in inc || x in IncludedBy(ss)
    ensures inc <= PragmaPass(d, inc, ss).value.1
    ensures NoDuplicates(inc) ==> NoDuplicates(PragmaPass(d, inc, ss).value.1)
    decreases |ss|
  {
    if ss != [] {
      IncludedBySplit(ss);
      if ss[0].IncludePragma? {
        var (d1, inc1) := IncludeNames(d, inc, ss[0].names);
        IncludeNamesEffect(d, inc, ss[0].names);
        PragmaPassIncludes(d1, inc1, ss[1..]);
      } else if ss[0].DeclarePragma? {
        PragmaPassIncludes(DeclareNames(d, ss[0].names).value, inc, ss[1..]);
      } else {
        PragmaPassIncludes(d, inc, ss[1..]);
      }
    }
  }

  /** The pragma pass's included list is that of every `#include`d name included
      in turn. */
  lemma {:induction false} PragmaPassAddAll(d: Declared, inc: seq<string>, ss: seq<Node>)
    requires PragmaPass(d, inc, ss).Success?
    ensures PragmaPass(d, inc, ss).value.1 == AddAll(inc, IncludeSeq(ss))
    decreases |ss|
  {
    if ss != [] {
      if ss[0].IncludePragma? {
        var (d1, inc1) := IncludeNames(d, inc, ss[0].names);
        IncludeNamesAll(d, inc, ss[0].names);
        PragmaPassAddAll(d1, inc1, ss[1..]);
        AddAllAppend(inc, NameSeq(ss[0].names), IncludeSeq(ss[1..]));
      } else {
        assert IncludeSeq(ss) == IncludeSeq(ss[1..]);
        if ss[0].DeclarePragma? {
          PragmaPassAddAll(DeclareNames(d, ss[0].names).value, inc, ss[1..]);
        } else {
          PragmaPassAddAll(d, inc, ss[1..]);
        }
      }
    }
  }

  /** The names the pragma pass adds come in the order of their first `#include`. */
  lemma PragmaPassOrder(d: Declared, inc: seq<string>, ss: seq<Node>)
    requires PragmaPass(d, inc, ss).Success? && NoDuplicates(inc)
    ensures FirstOrderFrom(PragmaPass(d, inc, ss).value.1, |inc|, IncludeSeq(ss))
  {
    PragmaPassAddAll(d, inc, ss);
    AddAllOrder(inc, IncludeSeq(ss));
  }

  lemma IncludedBySplit(ss: seq<Node>)
    requires ss != []
    ensures IncludedBy(ss) == (if ss[0].IncludePragma? then Named(ss[0].names) else {}) + IncludedBy(ss[1..])
  {
    forall x | x in IncludedBy(ss)
      ensures x in (if ss[0].IncludePragma? then Named(ss[0].names) else {}) + IncludedBy(ss[1..])
    {
      var i :| 0 <= i < |ss| && ss[i].IncludePragma? && x in Named(ss[i].names);
      if i > 0 {
        assert ss[1..][i - 1] == ss[i];
      }
    }
    forall x | x in IncludedBy(ss[1..]) ensures x in IncludedBy(ss) {
      var i :| 0 <= i < |ss[1..]| && ss[1..][i].IncludePragma? && x in Named(ss[1..][i].names);
      assert ss[i + 1] == ss[1..][i];
    }
  }

  /** A validated program records exactly the names its `#include` pragmas list,
      each once, in the order of their first `#include`: the order `render`
      appends their builtins in. */
  lemma ValidatedIncludes(ss: seq<Node>)
    requires ProgramCheck(ss).Success?
    ensures forall x :: x in ProgramCheck(ss).value <==> x in IncludedBy(ss)
    ensures NoDuplicates(ProgramCheck(ss).value)
    ensures FirstOrder(ProgramCheck(ss).value, IncludeSeq(ss))
  {
    PragmaPassIncludes(map[], [], ss);
    PragmaPassOrder(map[], [], ss);
    var r := PragmaPass(map[], [], ss).value.1;
    assert ProgramCheck(ss).value == r;
    assert FirstOrder(r, IncludeSeq(ss));
  }

  /** The pragma pass declares every name a pragma lists by name. */
  lemma {:induction false} PragmaPassDeclares(d: Declared, inc: seq<string>, ss: seq<Node>, x: string)
    requires PragmaPass(d, inc, ss).Success?
    requires IsHere(d, x) || x in PragmaNamed(ss)
    ensures IsHere(PragmaPass(d, inc, ss).value.0, x)
    decreases |ss|
  {
    if ss != [] {
      var d1 := if ss[0].IncludePragma? then IncludeNames(d, inc, ss[0].names).0
        else if ss[0].DeclarePragma? then DeclareNames(d, ss[0].names).value else d;
      var inc1 := if ss[0].IncludePragma? then IncludeNames(d, inc, ss[0].names).1 else inc;
      assert PragmaPass(d, inc, ss) == PragmaPass(d1, inc1, ss[1..]);
      if IsHere(d, x) || ((ss[0].IncludePragma? || ss[0].DeclarePragma?) && x in Named(ss[0].names)
        && (ss[0].DeclarePragma? ==> x !in GroupTexts(ss[0].names)))
      {
        FirstPragmaDeclares(d, inc, ss[0], x);
      } else {
        var i :| 0 <= i < |ss| && (ss[i].IncludePragma? || ss[i].DeclarePragma?) && x in Named(ss[i].names)
          && (ss[i].DeclarePragma? ==> x !in GroupTexts(ss[i].names));
        assert ss[1..][i - 1] == ss[i];
      }
      PragmaPassDeclares(d1, inc1, ss[1..], x);
    }
  }

  /** One pragma keeps the names declared here and declares its own plain names. */
  lemma FirstPragmaDeclares(d: Declared, inc: seq<string>, s: Node, x: string)
    requires s.DeclarePragma? ==> DeclareNames(d, s.names).Success?
    requires IsHere(d, x) || ((s.IncludePragma? || s.DeclarePragma?) && x in Named(s.names)
      && (s.DeclarePragma? ==> x !in GroupTexts(s.names)))
    ensures s.IncludePragma? ==> IsHere(IncludeNames(d, inc, s.names).0, x)
    ensures s.DeclarePragma? ==> IsHere(DeclareNames(d, s.names).value, x)
    ensures !s.IncludePragma? && !s.DeclarePragma? ==> IsHere(d, x)
  {
    if s.IncludePragma? {
      IncludeNamesEffect(d, inc, s.names);
    } else if s.DeclarePragma? {
      HereKept(d, s.names);
      if !IsHere(d, x) {
        var i :| 0 <= i < |s.names| && s.names[i].name.text == x;
        DeclareNamesDeclares(d, s.names, i);
      }
    }
  }

  /** The pragma pass runs before the declaration pass, so a top-level `var` or
      function declaration of a name a pragma lists is rejected as already
      declared. */
  lemma PragmaNameRedeclared(ss: seq<Node>, x: string)
    requires x in PragmaNamed(ss) && x in NamesOfAll(ss)
    ensures ProgramCheck(ss).Failure?
  {
    var p := PragmaPass(map[], [], ss);
    if p.Success? {
      PragmaPassDeclares(map[], [], ss, x);
      StatementsDeclare(p.value.0, ss, x);
    }
  }

  /** In a validated program every top-level statement passes validation in the
      top-level scope. */
  lemma ValidatedStatements(ss: seq<Node>)
    requires ProgramCheck(ss).Success?
    ensures forall i :: 0 <= i < |ss| ==> Valid(ss[i], ProgramScope(ss).value.0, true, true).Pass?
  {
    CheckedPasses(ss);
    ValidNodesEach(ss, ProgramScope(ss).value.0, true, true);
  }

  /** The top-level scope of a validated program declares every name its
      top-level declarations name. */
  lemma ValidatedDeclares(ss: seq<Node>, x: string)
    requires ProgramCheck(ss).Success? && x in NamesOfAll(ss)
    ensures IsHere(ProgramScope(ss).value.0, x)
  {
    CheckedPasses(ss);
    StatementsDeclare(PragmaPass(map[], [], ss).value.0, ss, x);
  }

  /** A validated program went through all three passes. */
  lemma CheckedPasses(ss: seq<Node>)
    requires ProgramCheck(ss).Success?
    ensures PragmaPass(map[], [], ss).Success?
    ensures DeclareStatements(PragmaPass(map[], [], ss).value.0, ss).Success?
    ensures ProgramScope(ss).value.0 == DeclareStatements(PragmaPass(map[], [], ss).value.0, ss).value
    ensures ValidNodes(ss, ProgramScope(ss).value.0, true, true).Pass?
  {
  }
}
