/** Variable resolution: each variable of `resources.vars` becomes a
    substituter bound to a resolved value or to its default. */
module Variables {
  import opened Types
  import opened Constraints

  /** `resolveLibc`: the libc family of a Linux host, `unknown` elsewhere. */
  function ResolveLibc(facts: Facts): (r: string)
    ensures r == "glibc" <==> facts.platform == "linux" && facts.libc == "gnu"
    ensures r == "musl" <==> facts.platform == "linux" && facts.libc != "gnu"
    ensures r == "unknown" <==> facts.platform != "linux"
  {
    if facts.platform == "linux" then (if facts.libc == "gnu" then "glibc" else "musl")
    else "unknown"
  }

  /** `libraryExists("libpython" + version)`. */
  predicate LibpythonInstalled(facts: Facts, version: string) {
    "libpython" + version in facts.libraries
  }

  /** The index of the first version whose libpython is installed. */
  function FirstInstalled(versions: seq<string>, facts: Facts): (k: Option<nat>)
    ensures k.Some? ==> k.value < |versions| && LibpythonInstalled(facts, versions[k.value])
    ensures k.Some? ==> forall j | 0 <= j < k.value :: !LibpythonInstalled(facts, versions[j])
    ensures k.None? <==> forall j | 0 <= j < |versions| :: !LibpythonInstalled(facts, versions[j])
    decreases |versions|
  {
    if versions == [] then None
    else if LibpythonInstalled(facts, versions[0]) then Some(0)
    else match FirstInstalled(versions[1..], facts)
      case None => None
      case Some(k) => Some(k + 1)
  }

  /** What `resolveVariableValue` returns for a directive (`None` for
      `false`), with the warnings it emits. */
  function ValueOf(d: ValueDirective, facts: Facts): (v: Logged<Option<string>>)
  {
    match d
    case Libpython(versions) =>
      (match FirstInstalled(versions, facts)
       case None => Logged(None, [])
       case Some(k) => Logged(Some(versions[k]), []))
    case Libc => Logged(Some(ResolveLibc(facts)), [])
    case Unknown => Logged(None, [UnknownValue])
  }

  /** The libpython probe gives the first version in list order whose
      library is installed, and nothing iff none is; `"libc"` gives the
      libc family; only an unknown directive warns, and it gives nothing. */
  lemma ValueOfMeaning(d: ValueDirective, facts: Facts)
    ensures var v := ValueOf(d, facts);
      && (d.Libpython? ==>
            && v.warnings == []
            && (v.result.Some? <==> exists k | 0 <= k < |d.versions| :: LibpythonInstalled(facts, d.versions[k]))
            && (v.result.Some? ==>
                  exists k | 0 <= k < |d.versions| ::
                    && v.result.value == d.versions[k]
                    && LibpythonInstalled(facts, d.versions[k])
                    && forall j | 0 <= j < k :: !LibpythonInstalled(facts, d.versions[j])))
      && (d.Libc? ==> v == Logged(Some(ResolveLibc(facts)), []))
      && (d.Unknown? ==> v == Logged(None, [UnknownValue]))
  {
  }

  /** `resolveVariableValue`: the libpython probe walks the versions in
      order and returns as soon as one is installed; `"libc"` gives the
      libc family; anything else warns and resolves to nothing. */
  method ResolveVariableValue(d: ValueDirective, facts: Facts) returns (r: Option<string>, warnings: seq<Warning>)
    ensures Logged(r, warnings) == ValueOf(d, facts)
    ensures d.Libpython? ==> warnings == [] && (r.Some? ==> r.value in d.versions && LibpythonInstalled(facts, r.value))
    ensures d.Libpython? && r.None? ==> forall v | v in d.versions :: !LibpythonInstalled(facts, v)
  {
    match d
    case Libpython(versions) =>
      warnings := [];
      var i := 0;
      while i < |versions|
        invariant 0 <= i <= |versions|
        invariant forall j | 0 <= j < i :: !LibpythonInstalled(facts, versions[j])
      {
        if LibpythonInstalled(facts, versions[i]) {
          r := Some(versions[i]);
          return;
        }
        i := i + 1;
      }
      r := None;
    case Libc =>
      r, warnings := Some(ResolveLibc(facts)), [];
    case Unknown =>
      r, warnings := None, [UnknownValue];
  }

  /** One variable of `resolveVars`: its constraints first; only when they
      pass and a `value` is given is the value resolved; a value that
      resolves to nothing or to the empty string falls back to `default`,
      and without a `default` the variable cannot be resolved. */
  function ResolveVar(v: Variable, facts: Facts): Logged<Result<string>>
  {
    var section := CheckSection(v.spec.constraints, facts);
    var probe := if section.result && v.spec.value.Some? then ValueOf(v.spec.value.value, facts)
                 else Logged(None, []);
    var resolved := probe.result.Some? && probe.result.value != "";
    var result :=
      if resolved then Ok(probe.result.value)
      else if v.spec.default.Some? then Ok(v.spec.default.value)
      else Err(UnresolvableVariable(v.name));
    Logged(result, section.warnings + probe.warnings)
  }

  /** Constraints that fail give the default, or the error without one,
      and the value is then never probed: only the constraints' warnings
      are shown. An error means there is no default. A value other than the
      default is non-empty and comes from a probe that ran after the
      constraints passed; conversely a non-empty probed value is the
      variable's value, whether or not there is a default. */
  lemma ResolveVarMeaning(v: Variable, facts: Facts)
    ensures var l := ResolveVar(v, facts);
      && (!CheckSection(v.spec.constraints, facts).result ==>
            && l.warnings == CheckSection(v.spec.constraints, facts).warnings
            && l.result == (if v.spec.default.Some? then Ok(v.spec.default.value) else Err(UnresolvableVariable(v.name))))
      && (l.result.Err? ==> v.spec.default.None? && l.result.error == UnresolvableVariable(v.name))
      && (l.result.Ok? && (v.spec.default.None? || l.result.value != v.spec.default.value) ==>
            && l.result.value != ""
            && CheckSection(v.spec.constraints, facts).result
            && v.spec.value.Some?
            && ValueOf(v.spec.value.value, facts).result == Some(l.result.value))
      && (CheckSection(v.spec.constraints, facts).result && v.spec.value.Some? &&
          ValueOf(v.spec.value.value, facts).result.Some? && ValueOf(v.spec.value.value, facts).result.value != "" ==>
            l.result == Ok(ValueOf(v.spec.value.value, facts).result.value))
  {
  }

  /** `resolveVars` as a specification: the substituters of the variables
      in entry order, or the error of the first that cannot be resolved,
      with the warnings of every variable visited, in order. */
  function ResolveAll(vars: seq<Variable>, facts: Facts): Logged<Result<seq<Substituter>>>
    decreases |vars|
  {
    if vars == [] then Logged(Ok([]), [])
    else
      var head := ResolveVar(vars[0], facts);
      match head.result
      case Err(e) => Logged(Err(e), head.warnings)
      case Ok(value) => Append([Substituter(vars[0].name, value)], head.warnings, ResolveAll(vars[1..], facts))
  }

  /** Resolution succeeds iff every variable resolves. */
  lemma {:induction false} ResolveAllSucceeds(vars: seq<Variable>, facts: Facts)
    ensures ResolveAll(vars, facts).result.Ok? <==> forall i | 0 <= i < |vars| :: ResolveVar(vars[i], facts).result.Ok?
    decreases |vars|
  {
    if vars != [] {
      ResolveAllSucceeds(vars[1..], facts);
      assert forall i | 1 <= i < |vars| :: vars[i] == vars[1..][i - 1];
    }
  }

  /** A successful resolution yields exactly one substituter per variable,
      in entry order, bound to that variable's name and value. */
  lemma {:induction false} ResolveAllSubstituters(vars: seq<Variable>, facts: Facts)
    requires ResolveAll(vars, facts).result.Ok?
    ensures |ResolveAll(vars, facts).result.value| == |vars|
    ensures forall i | 0 <= i < |vars| ::
              && ResolveVar(vars[i], facts).result.Ok?
              && ResolveAll(vars, facts).result.value[i] == Substituter(vars[i].name, ResolveVar(vars[i], facts).result.value)
    decreases |vars|
  {
    if vars != [] {
      ResolveAllSubstituters(vars[1..], facts);
      var subs := ResolveAll(vars, facts).result.value;
      var rest := ResolveAll(vars[1..], facts).result.value;
      assert subs == [Substituter(vars[0].name, ResolveVar(vars[0], facts).result.value)] + rest;
      forall i | 1 <= i < |vars|
        ensures ResolveVar(vars[i], facts).result.Ok?
        ensures subs[i] == Substituter(vars[i].name, ResolveVar(vars[i], facts).result.value)
      {
        assert vars[i] == vars[1..][i - 1];
        assert subs[i] == rest[i - 1];
      }
    }
  }

  /** A failed resolution fails with the error of the first variable that
      does not resolve. */
  lemma {:induction false} ResolveAllFirstError(vars: seq<Variable>, facts: Facts)
    requires ResolveAll(vars, facts).result.Err?
    ensures exists k | 0 <= k < |vars| ::
              && ResolveVar(vars[k], facts).result == Err(ResolveAll(vars, facts).result.error)
              && forall j | 0 <= j < k :: ResolveVar(vars[j], facts).result.Ok?
    decreases |vars|
  {
    var e := ResolveAll(vars, facts).result.error;
    if ResolveVar(vars[0], facts).result.Ok? {
      ResolveAllTail(vars, facts);
      ResolveAllFirstError(vars[1..], facts);
      var k :| 0 <= k < |vars[1..]|
               && ResolveVar(vars[1..][k], facts).result == Err(e)
               && forall j | 0 <= j < k :: ResolveVar(vars[1..][j], facts).result.Ok?;
      assert ResolveVar(vars[k + 1], facts).result == Err(e);
      forall j | 0 <= j < k + 1 ensures ResolveVar(vars[j], facts).result.Ok? {
        if j > 0 { assert vars[j] == vars[1..][j - 1]; }
      }
    }
  }

  /** Past a variable that resolves, a failed resolution fails with the
      error of the remaining variables. */
  lemma ResolveAllTail(vars: seq<Variable>, facts: Facts)
    requires vars != [] && ResolveVar(vars[0], facts).result.Ok?
    requires ResolveAll(vars, facts).result.Err?
    ensures ResolveAll(vars[1..], facts).result == ResolveAll(vars, facts).result
  {
  }

  /** `resolveVars`: a loop that pushes one substituter per variable and
      throws at the first variable with neither a value nor a default. */
  method ResolveVars(vars: seq<Variable>, facts: Facts) returns (r: Result<seq<Substituter>>, warnings: seq<Warning>)
    ensures Logged(r, warnings) == ResolveAll(vars, facts)
  {
    var res: seq<Substituter> := [];
    warnings := [];
    var i := 0;
    assert vars[i..] == vars;
    assert ResolveAll(vars, facts).result.Ok? ==> [] + ResolveAll(vars, facts).result.value == ResolveAll(vars, facts).result.value;
    while i < |vars|
      invariant 0 <= i <= |vars|
      invariant ResolveAll(vars, facts) == Append(res, warnings, ResolveAll(vars[i..], facts))
    {
      var v := vars[i];
      var value: Option<string> := None;
      var pass, cw := ResolveConstraints(v.spec.constraints, facts);
      var resolved: Option<string> := None;
      var vw: seq<Warning> := [];
      if pass && v.spec.value.Some? {
        resolved, vw := ResolveVariableValue(v.spec.value.value, facts);
        if resolved.Some? && resolved.value != "" {
          value := resolved;
        }
      }
      VarFromSteps(v, facts, pass, cw, resolved, vw);
      ghost var before := warnings;
      warnings := warnings + (cw + vw);
      if value.None? {
        if v.spec.default.Some? {
          value := v.spec.default;
        } else {
          VarStepFails(vars, i, facts, res, before);
          r := Err(UnresolvableVariable(v.name));
          return;
        }
      }
      VarStepResolves(vars, i, facts, res, before);
      res := res + [Substituter(v.name, value.value)];
      i := i + 1;
    }
    assert vars[i..] == [];
    assert ResolveAll(vars[i..], facts) == Logged(Ok([]), []);
    AppendNothing(res, warnings);
    r := Ok(res);
  }

  /** Substituters and warnings already produced, in front of the
      resolution of the remaining variables. */
  function Append(done: seq<Substituter>, warnings: seq<Warning>, rest: Logged<Result<seq<Substituter>>>): Logged<Result<seq<Substituter>>>
  {
    Logged(match rest.result
           case Ok(subs) => Ok(done + subs)
           case Err(e) => Err(e),
           warnings + rest.warnings)
  }

  /** One variable of the loop, put together from the verdict of its
      constraints and, when they pass and a value is given, the probe. */
  lemma VarFromSteps(v: Variable, facts: Facts, pass: bool, cw: seq<Warning>, resolved: Option<string>, vw: seq<Warning>)
    requires Logged(pass, cw) == CheckSection(v.spec.constraints, facts)
    requires pass && v.spec.value.Some? ==> Logged(resolved, vw) == ValueOf(v.spec.value.value, facts)
    requires !(pass && v.spec.value.Some?) ==> resolved == None && vw == []
    ensures ResolveVar(v, facts).warnings == cw + vw
    ensures ResolveVar(v, facts).result ==
              if resolved.Some? && resolved.value != "" then Ok(resolved.value)
              else if v.spec.default.Some? then Ok(v.spec.default.value)
              else Err(UnresolvableVariable(v.name))
  {
  }

  /** The loop at a variable that cannot be resolved. */
  lemma VarStepFails(vars: seq<Variable>, i: nat, facts: Facts, done: seq<Substituter>, warnings: seq<Warning>)
    requires i < |vars| && ResolveVar(vars[i], facts).result.Err?
    ensures Append(done, warnings, ResolveAll(vars[i..], facts)) ==
              Logged(Err(ResolveVar(vars[i], facts).result.error), warnings + ResolveVar(vars[i], facts).warnings)
  {
    assert vars[i..][0] == vars[i];
  }

  /** The loop at a variable that resolves. */
  lemma VarStepResolves(vars: seq<Variable>, i: nat, facts: Facts, done: seq<Substituter>, warnings: seq<Warning>)
    requires i < |vars| && ResolveVar(vars[i], facts).result.Ok?
    ensures Append(done, warnings, ResolveAll(vars[i..], facts)) ==
              Append(done + [Substituter(vars[i].name, ResolveVar(vars[i], facts).result.value)],
                     warnings + ResolveVar(vars[i], facts).warnings, ResolveAll(vars[i + 1..], facts))
  {
    assert vars[i..][0] == vars[i];
    assert vars[i..][1..] == vars[i + 1..];
    var step := ResolveVar(vars[i], facts);
    AppendTwice(done, warnings, [Substituter(vars[i].name, step.result.value)], step.warnings, ResolveAll(vars[i + 1..], facts));
  }

  lemma AppendTwice(done: seq<Substituter>, warnings: seq<Warning>, more: seq<Substituter>, moreWarnings: seq<Warning>,
                    rest: Logged<Result<seq<Substituter>>>)
    ensures Append(done, warnings, Append(more, moreWarnings, rest)) == Append(done + more, warnings + moreWarnings, rest)
  {
    if rest.result.Ok? {
      assert done + (more + rest.result.value) == (done + more) + rest.result.value;
    }
    assert warnings + (moreWarnings + rest.warnings) == (warnings + moreWarnings) + rest.warnings;
  }

  lemma AppendNothing(done: seq<Substituter>, warnings: seq<Warning>)
    ensures Append(done, warnings, Logged(Ok([]), [])) == Logged(Ok(done), warnings)
  {
    assert done + [] == done && warnings + [] == warnings;
  }
}
