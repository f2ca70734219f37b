/** The string operations of JavaScript the resolver relies on:
    `startsWith`, `indexOf` and `replace` with a string pattern. */
module Text {
  import opened Types

  /** `pat` occurs in `s` starting at index `i`. */
  predicate OccursAt(s: string, pat: string, i: nat) {
    i + |pat| <= |s| && s[i..i + |pat|] == pat
  }

  ghost predicate Contains(s: string, pat: string) {
    exists i: nat :: OccursAt(s, pat, i)
  }

  /** `i` is the first index at which `pat` occurs in `s`. */
  ghost predicate FirstAt(s: string, pat: string, i: nat) {
    OccursAt(s, pat, i) && forall j: nat :: j < i ==> !OccursAt(s, pat, j)
  }

  /** `String.prototype.startsWith`. */
  predicate StartsWith(s: string, prefix: string) {
    OccursAt(s, prefix, 0)
  }

  /** The first occurrence of `pat` in `s` at or after `from`. */
  function IndexFrom(s: string, pat: string, from: nat): (r: Option<nat>)
    ensures r.Some? ==> from <= r.value && OccursAt(s, pat, r.value)
    ensures r.Some? ==> forall j: nat :: from <= j < r.value ==> !OccursAt(s, pat, j)
    ensures r.None? ==> forall j: nat :: from <= j ==> !OccursAt(s, pat, j)
    decreases |s| - from
  {
    if from + |pat| > |s| then None
    else if s[from..from + |pat|] == pat then Some(from)
    else IndexFrom(s, pat, from + 1)
  }

  /** `String.prototype.indexOf`, with `None` for -1. */
  function IndexOf(s: string, pat: string): (r: Option<nat>)
    ensures r.Some? ==> FirstAt(s, pat, r.value)
    ensures r.None? <==> !Contains(s, pat)
  {
    IndexFrom(s, pat, 0)
  }

  /** The replacement text `String.prototype.replace` inserts for a string
      pattern (GetSubstitution of ECMAScript with no capture groups):
      `$$` stands for `$`, `$&` for the matched text, `` $` `` for the text
      before the match and `$'` for the text after it; every other `$` is
      kept as it is. */
  function Expand(rep: string, matched: string, before: string, after: string): string
    decreases |rep|
  {
    if rep == [] then []
    else if rep[0] == '$' && |rep| >= 2 && rep[1] == '$' then "$" + Expand(rep[2..], matched, before, after)
    else if rep[0] == '$' && |rep| >= 2 && rep[1] == '&' then matched + Expand(rep[2..], matched, before, after)
    else if rep[0] == '$' && |rep| >= 2 && rep[1] == '`' then before + Expand(rep[2..], matched, before, after)
    else if rep[0] == '$' && |rep| >= 2 && rep[1] == '\'' then after + Expand(rep[2..], matched, before, after)
    else [rep[0]] + Expand(rep[1..], matched, before, after)
  }

  /** The replacement patterns one at a time: `$$` gives `$`, `$&` the
      matched text, `` $` `` the text before the match, `$'` the text after
      it; any other `$`, and any other character, is kept as it is. */
  lemma ExpandPatterns(rest: string, c: char, matched: string, before: string, after: string)
    ensures Expand("$$" + rest, matched, before, after) == "$" + Expand(rest, matched, before, after)
    ensures Expand("$&" + rest, matched, before, after) == matched + Expand(rest, matched, before, after)
    ensures Expand("$`" + rest, matched, before, after) == before + Expand(rest, matched, before, after)
    ensures Expand("$'" + rest, matched, before, after) == after + Expand(rest, matched, before, after)
    ensures c != '$' && c != '&' && c != '`' && c != '\'' ==>
              Expand("$" + [c] + rest, matched, before, after) == "$" + Expand([c] + rest, matched, before, after)
    ensures c != '$' ==> Expand([c] + rest, matched, before, after) == [c] + Expand(rest, matched, before, after)
    ensures Expand("$", matched, before, after) == "$"
  {
    assert ("$$" + rest)[2..] == rest && ("$&" + rest)[2..] == rest;
    assert ("$`" + rest)[2..] == rest && ("$'" + rest)[2..] == rest;
    assert ("$" + [c] + rest)[1..] == [c] + rest;
    assert ([c] + rest)[1..] == rest;
    assert "$"[1..] == [];
  }

  /** A replacement text without `$` is inserted verbatim. */
  lemma {:induction false} ExpandPlain(rep: string, matched: string, before: string, after: string)
    requires '$' !in rep
    ensures Expand(rep, matched, before, after) == rep
    decreases |rep|
  {
    if rep != [] {
      assert rep[0] != '$';
      assert '$' !in rep[1..] by {
        forall k | 0 <= k < |rep[1..]| ensures rep[1..][k] != '$' {
          assert rep[1..][k] == rep[k + 1];
        }
      }
      ExpandPlain(rep[1..], matched, before, after);
      assert rep == [rep[0]] + rep[1..];
    }
  }

  /** `s.replace(pat, rep)` for a string `pat`: only the first occurrence
      of `pat` is replaced, and a string without `pat` is returned as is. */
  function ReplaceFirst(s: string, pat: string, rep: string): (r: string)
    ensures !Contains(s, pat) ==> r == s
    ensures forall i: nat {:trigger FirstAt(s, pat, i)} :: FirstAt(s, pat, i) ==>
              r == s[..i] + Expand(rep, pat, s[..i], s[i + |pat|..]) + s[i + |pat|..]
  {
    match IndexOf(s, pat)
    case None => s
    case Some(i) => s[..i] + Expand(rep, pat, s[..i], s[i + |pat|..]) + s[i + |pat|..]
  }

  /** With a `$`-free replacement, the first occurrence is swapped for
      `rep` and everything around it is kept. */
  lemma ReplaceFirstPlain(s: string, pat: string, rep: string, i: nat)
    requires '$' !in rep && FirstAt(s, pat, i)
    ensures ReplaceFirst(s, pat, rep) == s[..i] + rep + s[i + |pat|..]
  {
    ExpandPlain(rep, pat, s[..i], s[i + |pat|..]);
  }

  /** A second, later occurrence of the pattern survives the replacement,
      shifted by the difference in length. */
  lemma LaterOccurrenceSurvives(s: string, pat: string, rep: string, i: nat, j: nat)
    requires '$' !in rep && FirstAt(s, pat, i)
    requires i + |pat| <= j && OccursAt(s, pat, j)
    ensures OccursAt(ReplaceFirst(s, pat, rep), pat, j - |pat| + |rep|)
  {
    ReplaceFirstPlain(s, pat, rep, i);
    var r := ReplaceFirst(s, pat, rep);
    var tail := s[i + |pat|..];
    var k := j - |pat| + |rep|;
    assert r == s[..i] + rep + tail;
    assert |s[..i] + rep| == i + |rep|;
    assert r[k..k + |pat|] == tail[j - i - |pat|..j - i] by {
      assert k == (i + |rep|) + (j - i - |pat|);
    }
    assert tail[j - i - |pat|..j - i] == s[j..j + |pat|];
  }
}
