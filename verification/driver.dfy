/** The installer's top level: resolve the variables once, then visit the
    files in manifest order, downloading those whose constraints pass. */
module Driver {
  import opened Types
  import opened Constraints
  import opened Variables
  import opened Text
  import opened Paths
  import opened Locator

  /** Warnings as they appear in the run's trace. */
  function Shown(ws: seq<Warning>): seq<Event>
  {
    seq(|ws|, i requires 0 <= i < |ws| => Warned(ws[i]))
  }

  /** The downloads and skips of a trace, in order, without the warnings. */
  function Decisions(t: seq<Event>): seq<Event>
    decreases |t|
  {
    if t == [] then []
    else if t[0].Warned? then Decisions(t[1..])
    else [t[0]] + Decisions(t[1..])
  }

  lemma {:induction false} DecisionsConcat(a: seq<Event>, b: seq<Event>)
    ensures Decisions(a + b) == Decisions(a) + Decisions(b)
    decreases |a|
  {
    if a == [] {
      assert a + b == b;
    } else {
      assert (a + b)[1..] == a[1..] + b;
      DecisionsConcat(a[1..], b);
    }
  }

  lemma {:induction false} ShownHasNoDecisions(ws: seq<Warning>)
    ensures Decisions(Shown(ws)) == []
    decreases |ws|
  {
    if ws != [] {
      assert Shown(ws)[1..] == Shown(ws[1..]);
      ShownHasNoDecisions(ws[1..]);
    }
  }

  /** One pass of the loop over files: the file is located first and only
      then are its constraints checked, so a file that cannot be located
      stops the run even when its constraints would have skipped it. */
  function FileStep(file: FileSpec, version: string, facts: Facts, vars: seq<Substituter>, ci: CiRun): (l: Logged<Result<Event>>)
    ensures ResolvePath(file, version, facts, vars, ci).Err? ==>
              l == Logged(Err(ResolvePath(file, version, facts, vars, ci).error), [])
    ensures ResolvePath(file, version, facts, vars, ci).Ok? ==>
              && l.result.Ok? && !l.result.value.Warned?
              && (l.result.value.Downloaded? <==> CheckSection(file.constraints, facts).result)
              && l.warnings == CheckSection(file.constraints, facts).warnings
    ensures l.result.Ok? && l.result.value.Downloaded? ==>
              ResolvePath(file, version, facts, vars, ci) == Ok(Located(l.result.value.url, l.result.value.name))
    ensures l.result.Ok? && l.result.value.Skipped? ==>
              ResolvePath(file, version, facts, vars, ci).Ok? &&
              ResolvePath(file, version, facts, vars, ci).value.name == l.result.value.name
  {
    match ResolvePath(file, version, facts, vars, ci)
    case Err(e) => Logged(Err(e), [])
    case Ok(loc) =>
      var section := CheckSection(file.constraints, facts);
      Logged(Ok(if section.result then Downloaded(loc.url, loc.name) else Skipped(loc.name)), section.warnings)
  }

  /** Events already shown, in front of the outcome of the rest of the run. */
  function Then(done: seq<Event>, rest: Outcome): Outcome {
    Outcome(done + rest.trace, rest.error)
  }

  /** The loop over files as a specification: each file's warnings and
      decision in manifest order, up to the first file that fails. */
  function RunFiles(files: seq<FileSpec>, version: string, facts: Facts, vars: seq<Substituter>, ci: CiRun): Outcome
    decreases |files|
  {
    if files == [] then Outcome([], None)
    else
      var step := FileStep(files[0], version, facts, vars, ci);
      match step.result
      case Err(e) => Outcome(Shown(step.warnings), Some(e))
      case Ok(decision) => Then(Shown(step.warnings) + [decision], RunFiles(files[1..], version, facts, vars, ci))
  }

  /** The whole installation as a specification. Without a `resources`
      section nothing is done; the variables are resolved once, before any
      file, and an unresolvable variable stops the run before any file is
      visited. */
  function Run(m: Manifest, facts: Facts, ci: CiRun): (o: Outcome)
    ensures m.resources.None? ==> o == Outcome([], Some(MissingResources))
    ensures m.resources.Some? && ResolveAll(m.resources.value.vars, facts).result.Err? ==>
              o == Outcome(Shown(ResolveAll(m.resources.value.vars, facts).warnings),
                           Some(ResolveAll(m.resources.value.vars, facts).result.error))
    ensures o.error.None? ==> m.resources.Some? && m.resources.value.files.Some?
  {
    match m.resources
    case None => Outcome([], Some(MissingResources))
    case Some(res) =>
      var resolved := ResolveAll(res.vars, facts);
      match resolved.result
      case Err(e) => Outcome(Shown(resolved.warnings), Some(e))
      case Ok(vars) =>
        match res.files
        case None => Outcome(Shown(resolved.warnings), Some(FilesNotIterable))
        case Some(files) => Then(Shown(resolved.warnings), RunFiles(files, m.version, facts, vars, ci))
  }

  /** The installer's main routine: fail without `resources`, resolve the
      variables once, then run the loop over files. */
  method Install(m: Manifest, facts: Facts, ci: CiRun) returns (o: Outcome)
    ensures o == Run(m, facts, ci)
  {
    if m.resources.None? {
      return Outcome([], Some(MissingResources));
    }
    var res := m.resources.value;
    var vars, ws := ResolveVars(res.vars, facts);
    if vars.Err? {
      return Outcome(Shown(ws), Some(vars.error));
    }
    if res.files.None? {
      return Outcome(Shown(ws), Some(FilesNotIterable));
    }
    var rest := InstallFiles(res.files.value, m.version, facts, vars.value, ci);
    o := Then(Shown(ws), rest);
  }

  /** The loop over files: each is located, its constraints checked, and
      it is downloaded or its skip reported; the first failure ends the
      loop. */
  method InstallFiles(files: seq<FileSpec>, version: string, facts: Facts, vars: seq<Substituter>, ci: CiRun)
    returns (o: Outcome)
    ensures o == RunFiles(files, version, facts, vars, ci)
  {
    var trace: seq<Event> := [];
    assert files[0..] == files;
    for i := 0 to |files|
      invariant RunFiles(files, version, facts, vars, ci) == Then(trace, RunFiles(files[i..], version, facts, vars, ci))
    {
      var toDownload := ResolvePath(files[i], version, facts, vars, ci);
      if toDownload.Err? {
        StepFails(files, i, version, facts, vars, ci);
        return Outcome(trace, Some(toDownload.error));
      }
      var pass, cw := ResolveConstraints(files[i].constraints, facts);
      var decision := if pass then Downloaded(toDownload.value.url, toDownload.value.name)
                      else Skipped(toDownload.value.name);
      StepDecides(files, i, version, facts, vars, ci, trace, pass, cw);
      trace := trace + Shown(cw) + [decision];
    }
    assert files[|files|..] == [];
    assert trace + [] == trace;
    return Outcome(trace, None);
  }

  lemma ThenTwice(a: seq<Event>, b: seq<Event>, rest: Outcome)
    ensures Then(a, Then(b, rest)) == Then(a + b, rest)
  {
    assert a + (b + rest.trace) == (a + b) + rest.trace;
  }

  /** The loop over files at a file that cannot be located. */
  lemma StepFails(files: seq<FileSpec>, i: nat, version: string, facts: Facts, vars: seq<Substituter>, ci: CiRun)
    requires i < |files| && ResolvePath(files[i], version, facts, vars, ci).Err?
    ensures RunFiles(files[i..], version, facts, vars, ci) ==
              Outcome([], Some(ResolvePath(files[i], version, facts, vars, ci).error))
  {
    assert files[i..][0] == files[i];
  }

  /** The loop over files at a file that is located, its constraints
      giving `pass` and the warnings `cw`. */
  lemma StepDecides(files: seq<FileSpec>, i: nat, version: string, facts: Facts, vars: seq<Substituter>, ci: CiRun,
                    trace: seq<Event>, pass: bool, cw: seq<Warning>)
    requires i < |files| && ResolvePath(files[i], version, facts, vars, ci).Ok?
    requires Logged(pass, cw) == CheckSection(files[i].constraints, facts)
    ensures var loc := ResolvePath(files[i], version, facts, vars, ci).value;
            var decision := if pass then Downloaded(loc.url, loc.name) else Skipped(loc.name);
            Then(trace, RunFiles(files[i..], version, facts, vars, ci)) ==
              Then(trace + Shown(cw) + [decision], RunFiles(files[i + 1..], version, facts, vars, ci))
  {
    assert files[i..][0] == files[i];
    assert files[i..][1..] == files[i + 1..];
    var loc := ResolvePath(files[i], version, facts, vars, ci).value;
    var decision := if pass then Downloaded(loc.url, loc.name) else Skipped(loc.name);
    assert FileStep(files[i], version, facts, vars, ci) == Logged(Ok(decision), cw);
    ThenTwice(trace, Shown(cw) + [decision], RunFiles(files[i + 1..], version, facts, vars, ci));
    assert trace + (Shown(cw) + [decision]) == trace + Shown(cw) + [decision];
  }

  /** The first decisions of a run are those of the first files, in order. */
  ghost predicate DecidedInOrder(files: seq<FileSpec>, d: seq<Event>, version: string, facts: Facts, vars: seq<Substituter>, ci: CiRun) {
    |d| <= |files| && forall i | 0 <= i < |d| :: FileStep(files[i], version, facts, vars, ci).result == Ok(d[i])
  }

  /** The decisions of the loop over files, unfolded by one file. */
  lemma DecisionsStep(file: FileSpec, more: seq<FileSpec>, version: string, facts: Facts, vars: seq<Substituter>, ci: CiRun)
    requires FileStep(file, version, facts, vars, ci).result.Ok?
    ensures Decisions(RunFiles([file] + more, version, facts, vars, ci).trace) ==
              [FileStep(file, version, facts, vars, ci).result.value] + Decisions(RunFiles(more, version, facts, vars, ci).trace)
    ensures RunFiles([file] + more, version, facts, vars, ci).error == RunFiles(more, version, facts, vars, ci).error
  {
    var step := FileStep(file, version, facts, vars, ci);
    var rest := RunFiles(more, version, facts, vars, ci);
    assert ([file] + more)[0] == file && ([file] + more)[1..] == more;
    ShownHasNoDecisions(step.warnings);
    DecisionsConcat(Shown(step.warnings), [step.result.value]);
    DecisionsConcat(Shown(step.warnings) + [step.result.value], rest.trace);
  }

  /** The files are visited in manifest order and each yields at most one
      download or skip, the first decisions being those of the first files. */
  lemma {:induction false} RunFilesInOrder(files: seq<FileSpec>, version: string, facts: Facts, vars: seq<Substituter>, ci: CiRun)
    ensures DecidedInOrder(files, Decisions(RunFiles(files, version, facts, vars, ci).trace), version, facts, vars, ci)
    decreases |files|
  {
    if files != [] {
      var step := FileStep(files[0], version, facts, vars, ci);
      if step.result.Err? {
        ShownHasNoDecisions(step.warnings);
      } else {
        RunFilesInOrder(files[1..], version, facts, vars, ci);
        assert files == [files[0]] + files[1..];
        DecisionsStep(files[0], files[1..], version, facts, vars, ci);
        var dr := Decisions(RunFiles(files[1..], version, facts, vars, ci).trace);
        var d := [step.result.value] + dr;
        forall i | 1 <= i < |d|
          ensures FileStep(files[i], version, facts, vars, ci).result == Ok(d[i])
        {
          assert d[i] == dr[i - 1];
          assert files[i] == files[1..][i - 1];
        }
      }
    }
  }

  /** A run without error decides every file; a run that fails stops at the
      first file that cannot be located, after deciding, and possibly
      downloading, every file before it; nothing is undone. */
  lemma {:induction false} RunFilesStopsAtFirstFailure(files: seq<FileSpec>, version: string, facts: Facts, vars: seq<Substituter>, ci: CiRun)
    ensures var o := RunFiles(files, version, facts, vars, ci);
            var k := |Decisions(o.trace)|;
            && (o.error.None? ==> k == |files|)
            && (o.error.Some? ==> k < |files| && FileStep(files[k], version, facts, vars, ci).result == Err(o.error.value))
    decreases |files|
  {
    if files != [] {
      var step := FileStep(files[0], version, facts, vars, ci);
      if step.result.Err? {
        ShownHasNoDecisions(step.warnings);
      } else {
        RunFilesStopsAtFirstFailure(files[1..], version, facts, vars, ci);
        assert files == [files[0]] + files[1..];
        DecisionsStep(files[0], files[1..], version, facts, vars, ci);
        var k := |Decisions(RunFiles(files, version, facts, vars, ci).trace)|;
        if RunFiles(files, version, facts, vars, ci).error.Some? {
          assert files[k] == files[1..][k - 1];
        }
      }
    }
  }

  /** Nothing is downloaded or skipped unless the resources section is
      there, every variable resolves and the file list is present; then
      the decisions are exactly those of the loop over files. */
  lemma RunDecisions(m: Manifest, facts: Facts, ci: CiRun)
    ensures var o := Run(m, facts, ci);
            if m.resources.Some? && ResolveAll(m.resources.value.vars, facts).result.Ok? && m.resources.value.files.Some? then
              var files := RunFiles(m.resources.value.files.value, m.version, facts,
                                    ResolveAll(m.resources.value.vars, facts).result.value, ci);
              Decisions(o.trace) == Decisions(files.trace) && o.error == files.error
            else
              Decisions(o.trace) == [] && o.error.Some?
  {
    if m.resources.Some? {
      var resolved := ResolveAll(m.resources.value.vars, facts);
      ShownHasNoDecisions(resolved.warnings);
      if resolved.result.Ok? && m.resources.value.files.Some? {
        var files := RunFiles(m.resources.value.files.value, m.version, facts, resolved.result.value, ci);
        DecisionsConcat(Shown(resolved.warnings), files.trace);
      }
    }
  }

  /** A file behind a `platform` constraint on a plain address (the
      manifest of a typical package): on a listed platform it is downloaded
      from the substituted address, elsewhere it is skipped under that
      same address, with no warning either way. */
  lemma PlatformGatedFile(host: string, path: string, name: string, platforms: seq<string>,
                          version: string, facts: Facts, vars: seq<Substituter>, ci: CiRun)
    requires StartsWith(host, HttpScheme) || StartsWith(host, HttpsScheme)
    ensures var url := SimplePath(host + path, version, facts, vars);
            FileStep(FileSpec(host, path, name, [Constraint("platform", platforms)]), version, facts, vars, ci) ==
              Logged(Ok(if facts.platform in platforms then Downloaded(url, url) else Skipped(url)), [])
  {
    assert host[0] == 'h';
    var cs := [Constraint("platform", platforms)];
    assert cs[1..] == [];
    assert CheckSection(cs, facts) == Logged(facts.platform in platforms, []);
  }
}
