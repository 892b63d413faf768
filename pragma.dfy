/** The `#include` and `#declare` pragmas' effect on the program's scope: the
    names they declare and the builtins `#include` asks to be appended. */
module Pragmas {
  import opened Base
  import opened Syntax
  import opened Scopes

  /** The texts of a pragma's names. */
  function Named(names: seq<PragmaItem>): set<string> {
    set i | 0 <= i < |names| :: names[i].name.text
  }

  predicate NoDuplicates(s: seq<string>) {
    forall i, j :: 0 <= i < j < |s| ==> s[i] != s[j]
  }

  /** `included[x] = true`: the included names, kept once each in the order they
      were first included (the order the builtins are appended in). */
  function AddOnce(inc: seq<string>, x: string): (r: seq<string>)
    ensures inc <= r && x in r && |r| <= |inc| + 1
    ensures forall y :: y in r <==> y in inc || y == x
    ensures NoDuplicates(inc) ==> NoDuplicates(r)
  {
    if x in inc then inc else inc + [x]
  }

  /** `IncludePragma.pragma`: each name declared and included (ast.js:853-861). */
  function IncludeNames(d: Declared, inc: seq<string>, names: seq<PragmaItem>): (Declared, seq<string>)
    decreases |names|
  {
    if names == [] then (d, inc)
    else IncludeNames(d[names[0].name.text := Here], AddOnce(inc, names[0].name.text), names[1..])
  }

  /** After `#include`, its names are declared here and included, the included
      names keep their order and stay distinct, and nothing else changes. */
  lemma {:induction false} IncludeNamesEffect(d: Declared, inc: seq<string>, names: seq<PragmaItem>)
    ensures forall x :: IsHere(IncludeNames(d, inc, names).0, x) <==> IsHere(d, x) || x in Named(names)
    ensures forall x :: x !in Named(names) ==>
      (x in IncludeNames(d, inc, names).0 <==> x in d) && (x in d ==> IncludeNames(d, inc, names).0[x] == d[x])
    ensures forall x :: x in IncludeNames(d, inc, names).1 <==> x in inc || x in Named(names)
    ensures inc <= IncludeNames(d, inc, names).1
    ensures NoDuplicates(inc) ==> NoDuplicates(IncludeNames(d, inc, names).1)
    decreases |names|
  {
    if names != [] {
      var x0 := names[0].name.text;
      IncludeNamesEffect(d[x0 := Here], AddOnce(inc, x0), names[1..]);
      assert Named(names) == {x0} + Named(names[1..]) by {
        forall y | y in Named(names) ensures y in {x0} + Named(names[1..]) {
          var i :| 0 <= i < |names| && names[i].name.text == y;
          if i > 0 {
            assert names[1..][i - 1] == names[i];
          }
        }
        forall y | y in Named(names[1..]) ensures y in Named(names) {
          var i :| 0 <= i < |names[1..]| && names[1..][i].name.text == y;
          assert names[i + 1] == names[1..][i];
        }
      }
    }
  }

  /** The texts of a pragma's names, in the order written. */
  function NameSeq(names: seq<PragmaItem>): seq<string> {
    seq(|names|, i requires 0 <= i < |names| => names[i].name.text)
  }

  /** The included list after including each name of `s` in turn. */
  function AddAll(inc: seq<string>, s: seq<string>): seq<string>
    decreases |s|
  {
    if s == [] then inc else AddAll(AddOnce(inc, s[0]), s[1..])
  }

  /** Where `x` first occurs in `s`. */
  function FirstIndex(s: seq<string>, x: string): (k: nat)
    requires x in s
    ensures k < |s| && s[k] == x && forall m :: 0 <= m < k ==> s[m] != x
  {
    if s[0] == x then 0 else 1 + FirstIndex(s[1..], x)
  }

  /** The elements of `r` all occur in `s`, in the order of their first occurrence
      there. */
  predicate FirstOrder(r: seq<string>, s: seq<string>) {
    FirstOrderFrom(r, 0, s)
  }

  /** The elements of `r` from index `k` on all occur in `s`, in the order of their
      first occurrence there. */
  predicate FirstOrderFrom(r: seq<string>, k: nat, s: seq<string>) {
    forall i, j :: k <= i < j < |r| ==> r[i] in s && r[j] in s && FirstIndex(s, r[i]) < FirstIndex(s, r[j])
  }

  /** The included list `#include` leaves is that of its names included in turn. */
  lemma {:induction false} IncludeNamesAll(d: Declared, inc: seq<string>, names: seq<PragmaItem>)
    ensures IncludeNames(d, inc, names).1 == AddAll(inc, NameSeq(names))
    decreases |names|
  {
    if names != [] {
      assert NameSeq(names)[1..] == NameSeq(names[1..]);
      IncludeNamesAll(d[names[0].name.text := Here], AddOnce(inc, names[0].name.text), names[1..]);
    }
  }

  /** Including `a` and then `b` is including `a + b`. */
  lemma {:induction false} AddAllAppend(inc: seq<string>, a: seq<string>, b: seq<string>)
    ensures AddAll(inc, a + b) == AddAll(AddAll(inc, a), b)
    decreases |a|
  {
    if a == [] {
      assert a + b == b;
    } else {
      assert (a + b)[0] == a[0] && (a + b)[1..] == a[1..] + b;
      AddAllAppend(AddOnce(inc, a[0]), a[1..], b);
    }
  }

  /** Including names in turn keeps the list as a prefix, adds exactly those names,
      and adds none twice. */
  lemma {:induction false} AddAllKeeps(inc: seq<string>, s: seq<string>)
    ensures inc <= AddAll(inc, s)
    ensures forall x :: x in AddAll(inc, s) <==> x in inc || x in s
    ensures NoDuplicates(inc) ==> NoDuplicates(AddAll(inc, s))
    decreases |s|
  {
    if s != [] {
      AddAllKeeps(AddOnce(inc, s[0]), s[1..]);
      assert forall x :: x in s <==> x == s[0] || x in s[1..];
    }
  }

  /** The names added come in the order of their first occurrence in `s`. */
  lemma {:induction false} AddAllOrder(inc: seq<string>, s: seq<string>)
    requires NoDuplicates(inc)
    ensures FirstOrderFrom(AddAll(inc, s), |inc|, s)
    decreases |s|
  {
    if s != [] {
      var a := AddOnce(inc, s[0]);
      var r := AddAll(a, s[1..]);
      assert r == AddAll(inc, s);
      AddAllOrder(a, s[1..]);
      AddAllKeeps(a, s[1..]);
      AddAllKeeps(inc, s);
      var k :| 0 <= k < |a| && a[k] == s[0];
      assert r[k] == s[0];
      forall i | |a| <= i < |r| ensures r[i] in s && r[i] != s[0] && FirstIndex(s, r[i]) == 1 + FirstIndex(s[1..], r[i]) {
        assert r[i] in s[1..];
      }
      forall i, j | |inc| <= i < j < |r|
        ensures r[i] in s && r[j] in s && FirstIndex(s, r[i]) < FirstIndex(s, r[j])
      {
        if i < |a| {
          assert i == |inc| && a == inc + [s[0]] && r[i] == s[0];
        }
      }
    }
  }

  /** Each name of a declaration group declared in turn. */
  function DeclareAll(d: Declared, xs: seq<string>): (r: Declared)
    ensures r.Keys == d.Keys + set x | x in xs
    ensures forall x :: x in r ==> r[x] == if x in xs then Here else d[x]
    decreases |xs|
  {
    if xs == [] then d else DeclareAll(d[xs[0] := Here], xs[1..])
  }

  function InvalidGroup(text: string): string {
    "invalid declaration group '" + text + "'"
  }

  /** A name written `:group`. */
  predicate IsGroup(t: Token) {
    |t.text| > 0 && t.text[0] == ':'
  }

  /** A `:group` name that is not one of the known groups. */
  predicate BadGroup(t: Token) {
    IsGroup(t) && DeclareTag(t.text).None?
  }

  /** `DeclarePragma.pragma`: a plain name is declared; a `:group` name declares
      every name of its group and is an error when the group is unknown
      (ast.js:891-909). */
  function DeclareNames(d: Declared, names: seq<PragmaItem>): Result<Declared, VError>
    decreases |names|
  {
    if names == [] then Success(d)
    else
      var t := names[0].name;
      if IsGroup(t) then
        match DeclareTag(t.text)
        case None => Failure(VError(t, InvalidGroup(t.text)))
        case Some(group) => DeclareNames(DeclareAll(d, group), names[1..])
      else DeclareNames(d[t.text := Here], names[1..])
  }

  /** `#declare` fails exactly when one of its names is an unknown group, and then
      reports the first of them. */
  lemma {:induction false} DeclareNamesFails(d: Declared, names: seq<PragmaItem>)
    ensures DeclareNames(d, names).Failure? <==> exists k :: 0 <= k < |names| && BadGroup(names[k].name)
    ensures DeclareNames(d, names).Failure? ==>
      exists k :: 0 <= k < |names| && BadGroup(names[k].name)
        && DeclareNames(d, names).error == VError(names[k].name, InvalidGroup(names[k].name.text))
        && forall j :: 0 <= j < k ==> !BadGroup(names[j].name)
    decreases |names|
  {
    if names != [] {
      var t := names[0].name;
      var d1 := if IsGroup(t) && !BadGroup(t) then DeclareAll(d, DeclareTag(t.text).value) else d[t.text := Here];
      if !BadGroup(t) {
        var tail := names[1..];
        assert DeclareNames(d, names) == DeclareNames(d1, tail);
        DeclareNamesFails(d1, tail);
        if exists k :: 0 <= k < |names| && BadGroup(names[k].name) {
          var k :| 0 <= k < |names| && BadGroup(names[k].name);
          assert tail[k - 1] == names[k];
        }
        if DeclareNames(d, names).Failure? {
          var k :| 0 <= k < |tail| && BadGroup(tail[k].name)
            && DeclareNames(d1, tail).error == VError(tail[k].name, InvalidGroup(tail[k].name.text))
            && forall j :: 0 <= j < k ==> !BadGroup(tail[j].name);
          assert names[k + 1] == tail[k];
          forall j | 0 <= j < k + 1
            ensures !BadGroup(names[j].name)
          {
            if j > 0 {
              assert names[j] == tail[j - 1];
            }
          }
        }
      }
    }
  }

  /** After a successful `#declare`, every plain name and every name of every
      group it lists is declared here, and no name was undeclared. */
  lemma {:induction false} DeclareNamesDeclares(d: Declared, names: seq<PragmaItem>, i: nat)
    requires DeclareNames(d, names).Success? && i < |names|
    ensures !IsGroup(names[i].name) ==> IsHere(DeclareNames(d, names).value, names[i].name.text)
    ensures IsGroup(names[i].name) ==> DeclareTag(names[i].name.text).Some?
    ensures IsGroup(names[i].name) ==>
      forall x :: x in DeclareTag(names[i].name.text).value ==> IsHere(DeclareNames(d, names).value, x)
    decreases |names|
  {
    var t := names[0].name;
    var d1 := if IsGroup(t) then DeclareAll(d, DeclareTag(t.text).value) else d[t.text := Here];
    assert DeclareNames(d, names) == DeclareNames(d1, names[1..]);
    if i == 0 {
      HereKept(d1, names[1..]);
    } else {
      DeclareNamesDeclares(d1, names[1..], i - 1);
    }
  }

  /** `#declare` only ever adds names: a name declared here stays so. */
  lemma {:induction false} HereKept(d: Declared, names: seq<PragmaItem>)
    ensures DeclareNames(d, names).Success? ==> forall x :: IsHere(d, x) ==> IsHere(DeclareNames(d, names).value, x)
    ensures DeclareNames(d, names).Success? ==> forall x :: x in d ==> x in DeclareNames(d, names).value
    decreases |names|
  {
    if names != [] {
      var t := names[0].name;
      if !BadGroup(t) {
        var d1 := if IsGroup(t) then DeclareAll(d, DeclareTag(t.text).value) else d[t.text := Here];
        assert DeclareNames(d, names) == DeclareNames(d1, names[1..]);
        HereKept(d1, names[1..]);
      }
    }
  }
}
