/** Template substitution: `resolveSimplePath`. */
module Paths {
  import opened Types
  import opened Text
  import opened Variables

  /** The placeholder `${name}`. */
  function Token(name: string): string {
    "${" + name + "}"
  }

  /** What the closure of a substituter does to a string: it replaces the
      first `${name}` with the (expanded) value and leaves the rest as it
      is; a string without `${name}` is returned unchanged. */
  function Substitute(s: string, sub: Substituter): (r: string)
    ensures !Contains(s, Token(sub.name)) ==> r == s
  {
    ReplaceFirst(s, Token(sub.name), sub.value)
  }

  /** With a value free of `$`, the substituter swaps the first `${name}`
      for the value and keeps everything around it. */
  lemma SubstitutePlain(s: string, sub: Substituter, i: nat)
    requires '$' !in sub.value && FirstAt(s, Token(sub.name), i)
    ensures Substitute(s, sub) == s[..i] + sub.value + s[i + |Token(sub.name)|..]
  {
    ReplaceFirstPlain(s, Token(sub.name), sub.value, i);
  }

  /** The substituters applied one after the other, in list order. */
  function ApplyAll(s: string, subs: seq<Substituter>): string
    decreases |subs|
  {
    if subs == [] then s else ApplyAll(Substitute(s, subs[0]), subs[1..])
  }

  /** Applying two lists of substituters is applying their concatenation. */
  lemma {:induction false} ApplyAllConcat(s: string, a: seq<Substituter>, b: seq<Substituter>)
    ensures ApplyAll(s, a + b) == ApplyAll(ApplyAll(s, a), b)
    decreases |a|
  {
    if a != [] {
      assert (a + b)[1..] == a[1..] + b;
      ApplyAllConcat(Substitute(s, a[0]), a[1..], b);
    } else {
      assert a + b == b;
    }
  }

  /** The four built-in placeholders, in the order they are replaced. */
  function Builtins(version: string, facts: Facts): seq<Substituter> {
    [ Substituter("version", version),
      Substituter("platform", facts.platform),
      Substituter("arch", facts.arch),
      Substituter("libc", ResolveLibc(facts)) ]
  }

  /** The built-in placeholders are replaced in the fixed order
      `${version}`, `${platform}`, `${arch}`, `${libc}`. */
  lemma BuiltinsInOrder(template: string, version: string, facts: Facts)
    ensures ApplyAll(template, Builtins(version, facts)) ==
              ReplaceFirst(ReplaceFirst(ReplaceFirst(ReplaceFirst(template,
                "${version}", version), "${platform}", facts.platform), "${arch}", facts.arch), "${libc}", ResolveLibc(facts))
  {
    var b := Builtins(version, facts);
    assert Token("version") == "${version}" && Token("platform") == "${platform}";
    assert Token("arch") == "${arch}" && Token("libc") == "${libc}";
    var s1 := Substitute(template, b[0]);
    var s2 := Substitute(s1, b[1]);
    var s3 := Substitute(s2, b[2]);
    var s4 := Substitute(s3, b[3]);
    assert b[1..][1..][1..][1..] == [];
    assert ApplyAll(s4, []) == s4;
    assert ApplyAll(s3, b[3..]) == s4;
    assert b[2..][1..] == b[3..];
    assert ApplyAll(s2, b[2..]) == s4;
    assert b[1..][1..] == b[2..];
    assert ApplyAll(s1, b[1..]) == s4;
  }

  /** `resolveSimplePath` as a specification: `${version}`, `${platform}`,
      `${arch}`, `${libc}`, then each variable in order, each replaced at
      its first occurrence only. */
  function SimplePath(template: string, version: string, facts: Facts, vars: seq<Substituter>): string {
    ApplyAll(template, Builtins(version, facts) + vars)
  }

  /** `resolveSimplePath`: the template reassigned by four replacements and
      then by each variable's substituter in turn. */
  method ResolveSimplePath(template: string, version: string, facts: Facts, vars: seq<Substituter>)
    returns (path: string)
    ensures path == SimplePath(template, version, facts, vars)
    ensures path == ApplyAll(ApplyAll(template, Builtins(version, facts)), vars)
  {
    path := template;
    path := ReplaceFirst(path, "${version}", version);
    path := ReplaceFirst(path, "${platform}", facts.platform);
    path := ReplaceFirst(path, "${arch}", facts.arch);
    path := ReplaceFirst(path, "${libc}", ResolveLibc(facts));
    ghost var builtins := Builtins(version, facts);
    BuiltinsInOrder(template, version, facts);
    ApplyAllConcat(template, builtins, vars);
    for i := 0 to |vars|
      invariant ApplyAll(path, vars[i..]) == ApplyAll(template, builtins + vars)
    {
      assert vars[i..][1..] == vars[i + 1..];
      path := Substitute(path, vars[i]);
    }
    assert vars[|vars|..] == [];
  }

  /** Substituters never touch a string without any `${`, so a template
      without placeholders comes back unchanged. */
  lemma {:induction false} NoPlaceholderUnchanged(s: string, subs: seq<Substituter>)
    requires !Contains(s, "${")
    ensures ApplyAll(s, subs) == s
    decreases |subs|
  {
    if subs != [] {
      var tok := Token(subs[0].name);
      if Contains(s, tok) {
        var i: nat :| OccursAt(s, tok, i);
        assert s[i..i + 2] == tok[..2] == "${";
        assert OccursAt(s, "${", i);
        assert false;
      }
      NoPlaceholderUnchanged(s, subs[1..]);
    }
  }

  /** A placeholder written twice is replaced only once: when the token of
      `sub` occurs first at `i` and again at `j`, the second copy is still
      in the result, shifted by the change in length. */
  lemma RepeatedTokenPartlySubstituted(s: string, sub: Substituter, i: nat, j: nat)
    requires '$' !in sub.value
    requires FirstAt(s, Token(sub.name), i) && i + |Token(sub.name)| <= j && OccursAt(s, Token(sub.name), j)
    ensures OccursAt(Substitute(s, sub), Token(sub.name), j - |Token(sub.name)| + |sub.value|)
  {
    LaterOccurrenceSurvives(s, Token(sub.name), sub.value, i, j);
  }
}
