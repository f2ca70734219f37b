/** Constraint evaluation: whether a variable or a file applies to the
    machine at hand. */
module Constraints {
  import opened Types

  /** The string a `platform-arch` constraint looks for. */
  function PlatformArch(facts: Facts): string {
    facts.platform + "-" + facts.arch
  }

  predicate Known(name: string) {
    name == "platform" || name == "arch" || name == "platform-arch"
  }

  /** `resolveConstraint`: membership of the platform, the architecture or
      `platform-arch` in the constraint's list; any other name warns and
      fails closed. */
  function ResolveConstraint(c: Constraint, facts: Facts): (v: Logged<bool>)
    ensures c.name == "platform" ==> v == Logged(facts.platform in c.details, [])
    ensures c.name == "arch" ==> v == Logged(facts.arch in c.details, [])
    ensures c.name == "platform-arch" ==> v == Logged(PlatformArch(facts) in c.details, [])
    ensures !Known(c.name) ==> v == Logged(false, [UnknownConstraint(c.name)])
  {
    if c.name == "platform" then Logged(facts.platform in c.details, [])
    else if c.name == "arch" then Logged(facts.arch in c.details, [])
    else if c.name == "platform-arch" then Logged(PlatformArch(facts) in c.details, [])
    else Logged(false, [UnknownConstraint(c.name)])
  }

  predicate Holds(c: Constraint, facts: Facts) {
    ResolveConstraint(c, facts).result
  }

  /** The index of the first constraint of `cs` that does not hold. */
  function FirstFailure(cs: seq<Constraint>, facts: Facts): (k: Option<nat>)
    ensures k.Some? ==> k.value < |cs| && !Holds(cs[k.value], facts)
    ensures k.Some? ==> forall j | 0 <= j < k.value :: Holds(cs[j], facts)
    ensures k.None? <==> forall j | 0 <= j < |cs| :: Holds(cs[j], facts)
    decreases |cs|
  {
    if cs == [] then None
    else if !Holds(cs[0], facts) then Some(0)
    else match FirstFailure(cs[1..], facts)
      case None => None
      case Some(k) => Some(k + 1)
  }

  /** The constraints of a section, evaluated in order up to the first
      that fails (`resolveConstraints`, as a specification). */
  function CheckSection(cs: seq<Constraint>, facts: Facts): Logged<bool>
    decreases |cs|
  {
    if cs == [] then Logged(true, [])
    else
      var head := ResolveConstraint(cs[0], facts);
      if !head.result then head
      else CheckSection(cs[1..], facts)
  }

  /** A section passes iff every constraint holds, and the only warning it
      emits is that of the first failing constraint: those after it are
      never evaluated. */
  lemma {:induction false} CheckSectionMeaning(cs: seq<Constraint>, facts: Facts)
    ensures CheckSection(cs, facts).result <==> forall i | 0 <= i < |cs| :: Holds(cs[i], facts)
    ensures CheckSection(cs, facts).warnings == match FirstFailure(cs, facts)
                                               case None => []
                                               case Some(k) => ResolveConstraint(cs[k], facts).warnings
    decreases |cs|
  {
    if cs != [] && Holds(cs[0], facts) {
      CheckSectionMeaning(cs[1..], facts);
      assert forall i | 1 <= i < |cs| :: cs[i] == cs[1..][i - 1];
    }
  }

  /** `resolveConstraints`: a flag that starts true and a loop that clears
      it and breaks at the first constraint that fails. */
  method ResolveConstraints(cs: seq<Constraint>, facts: Facts) returns (pass: bool, warnings: seq<Warning>)
    ensures Logged(pass, warnings) == CheckSection(cs, facts)
    ensures pass <==> forall i | 0 <= i < |cs| :: Holds(cs[i], facts)
  {
    CheckSectionMeaning(cs, facts);
    pass, warnings := true, [];
    var i := 0;
    while i < |cs|
      invariant 0 <= i <= |cs|
      invariant CheckSection(cs, facts) == CheckSection(cs[i..], facts)
    {
      var c := ResolveConstraint(cs[i], facts);
      if !c.result {
        pass, warnings := false, c.warnings;
        break;
      }
      assert cs[i..][1..] == cs[i + 1..];
      i := i + 1;
    }
    assert i == |cs| ==> cs[i..] == [];
  }
}
