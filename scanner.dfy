/**
 * `InstallRequirements.find_modules`: the line-oriented import scanner.
 *
 * The file is given as its lines (as `readlines()` returns them), the live
 * interpreter state as an explicit `Environment`.
 */
module Scanner {
  import opened PyStr

  /** What `sys.modules` holds under a name: a module object, or anything
      else (the scanner filters only on genuine module objects). */
  datatype RegistryEntry = ModuleObject | OtherObject

  /** `sys.modules` and `sys.stdlib_module_names` of the running interpreter. */
  datatype Environment = Environment(registry: map<string, RegistryEntry>, stdlibNames: set<string>)

  /** Text files by path: a path that is a key can be opened and read. */
  type FileSystem = map<string, seq<string>>

  /** The result of `find_modules`: the list it returns, the `None` it
      returns for a missing file, or the `IndexError` it raises at the line
      with the given (0-based) index. */
  datatype ScanOutcome = Found(modules: seq<string>) | FileNotFound | IndexError(lineIndex: nat)

  /** The scanner's verdict on one line. */
  datatype LineVerdict = Skip | Keep(name: string) | Crash

  predicate AlreadyLoaded(name: string, env: Environment) {
    name in env.registry && env.registry[name] == ModuleObject
  }

  /** A line the scanner treats as an import: a raw `from`/`import` prefix
      at column 0. */
  predicate IsImportLine(line: string) {
    StartsWith(line, "from") || StartsWith(line, "import")
  }

  /** The three filters: a dotted name, an already-loaded module, a
      standard-library module. */
  predicate Excluded(name: string, env: Environment) {
    '.' in name || AlreadyLoaded(name, env) || name in env.stdlibNames
  }

  /** The verdict of one iteration of the scanning loop, as a function:
      the reference definition. `ClassifyLine` below is the same decision written
      as the loop body, with its early exits, and is proved equal to it;
      `VerdictMeans` restates it as three equivalences for the lemmas. */
  function ScanLine(line: string, env: Environment): (v: LineVerdict)
    ensures v != Skip ==> IsImportLine(line)
    ensures v.Keep? ==> IsWord(v.name) && !Excluded(v.name, env)
  {
    if !IsImportLine(line) then Skip
    else
      var words := Split(line);
      if |words| < 2 then Crash
      else if Excluded(words[1], env) then Skip
      else SplitFieldsAreWords(line); Keep(words[1])
  }

  /** The verdicts on the lines of a file, line by line. */
  function Verdicts(lines: seq<string>, env: Environment): seq<LineVerdict> {
    seq(|lines|, i requires 0 <= i < |lines| => ScanLine(lines[i], env))
  }

  /** The scan so far, followed by the verdict on the line at `index`: a
      kept name is appended, a crash ends the scan, and a scan that has
      already failed stays failed. */
  function Extend(prev: ScanOutcome, v: LineVerdict, index: nat): (r: ScanOutcome)
    ensures !prev.Found? ==> r == prev
    ensures r.Found? ==> prev.Found? && |prev.modules| <= |r.modules| <= |prev.modules| + 1
    ensures r.IndexError? && prev.Found? ==> v.Crash? && r.lineIndex == index
  {
    if !prev.Found? then prev
    else
      match v
      case Skip => prev
      case Keep(name) => Found(prev.modules + [name])
      case Crash => IndexError(index)
  }

  /** The loop over a sequence of verdicts, from the first on; specified on
      prefixes so that it follows the loop. */
  function Run(vs: seq<LineVerdict>): (r: ScanOutcome)
    ensures !r.FileNotFound?
    ensures r.Found? ==> |r.modules| <= |vs|
    ensures r.IndexError? ==> r.lineIndex < |vs|
    decreases |vs|
  {
    if vs == [] then Found([])
    else Extend(Run(vs[..|vs| - 1]), vs[|vs| - 1], |vs| - 1)
  }

  /** The scan of the lines of a file. */
  function ScanLines(lines: seq<string>, env: Environment): (r: ScanOutcome)
    ensures !r.FileNotFound?
    ensures r.Found? ==> |r.modules| <= |lines|
    ensures r.IndexError? ==> r.lineIndex < |lines|
  {
    Run(Verdicts(lines, env))
  }

  /** What `find_modules` does for the target file `path`. */
  function FindModulesSpec(fs: FileSystem, path: string, env: Environment): (r: ScanOutcome)
    ensures r.FileNotFound? <==> path !in fs
    ensures r.Found? ==> |r.modules| <= |fs[path]|
    ensures r.IndexError? ==> r.lineIndex < |fs[path]|
  {
    if path in fs then ScanLines(fs[path], env) else FileNotFound
  }

  /** The body of the loop in `find_modules` for one line: the prefix test,
      the second field (a line with fewer than two fields is where the
      indexing fails) and the three filters, in the order the loop applies
      them. */
  method ClassifyLine(line: string, env: Environment) returns (v: LineVerdict)
    ensures v == ScanLine(line, env)
  {
    if StartsWith(line, "from") || StartsWith(line, "import") {
      var words := Split(line);
      if |words| < 2 {
        return Crash;
      }
      var name := words[1];
      if '.' in name {
        return Skip;
      }
      if name in env.registry && env.registry[name] == ModuleObject {
        return Skip;
      }
      if name in env.stdlibNames {
        return Skip;
      }
      return Keep(name);
    }
    return Skip;
  }

  /** `find_modules`: the loop over the lines, appending each surviving
      second field to `modules`. */
  method FindModules(fs: FileSystem, path: string, env: Environment) returns (r: ScanOutcome)
    ensures r == FindModulesSpec(fs, path, env)
  {
    if path !in fs {
      return FileNotFound;
    }
    var lines := fs[path];
    var modules: seq<string> := [];
    var i := 0;
    while i < |lines|
      invariant 0 <= i <= |lines|
      invariant ScanLines(lines[..i], env) == Found(modules)
    {
      ScanLinesStep(lines, i, env);
      var v := ClassifyLine(lines[i], env);
      match v {
        case Crash =>
          ErrorPersists(lines, i + 1, env);
          return IndexError(i);
        case Keep(name) =>
          modules := modules + [name];
        case Skip =>
      }
      i := i + 1;
    }
    assert lines[..i] == lines;
    r := Found(modules);
  }

  // ---------------------------------------------------------------------
  // The loop over verdicts

  lemma RunStep(vs: seq<LineVerdict>, i: nat)
    requires i < |vs|
    ensures Run(vs[..i + 1]) == Extend(Run(vs[..i]), vs[i], i)
  {
    assert vs[..i + 1][..i] == vs[..i];
  }

  /** Once a prefix has failed, every longer prefix fails the same way. */
  lemma {:induction false} RunErrorPersists(vs: seq<LineVerdict>, n: nat)
    requires n <= |vs|
    requires Run(vs[..n]).IndexError?
    ensures Run(vs) == Run(vs[..n])
    decreases |vs| - n
  {
    if n < |vs| {
      RunStep(vs, n);
      RunErrorPersists(vs, n + 1);
    } else {
      assert vs[..n] == vs;
    }
  }

  /** The indices of the `Keep` verdicts, in increasing order. */
  ghost function KeptIndices(vs: seq<LineVerdict>): seq<nat>
    decreases |vs|
  {
    if vs == [] then []
    else
      var last := |vs| - 1;
      KeptIndices(vs[..last]) + (if vs[last].Keep? then [last] else [])
  }

  /** A successful run returns the names of the `Keep` verdicts, in order. */
  lemma {:induction false} RunKeeps(vs: seq<LineVerdict>)
    requires Run(vs).Found?
    ensures var ms := Run(vs).modules;
            var idx := KeptIndices(vs);
            && |idx| == |ms|
            && forall k :: 0 <= k < |idx| ==> idx[k] < |vs| && vs[idx[k]] == Keep(ms[k])
    decreases |vs|
  {
    if vs != [] {
      var last := |vs| - 1;
      var pre := vs[..last];
      RunKeeps(pre);
      var pidx := KeptIndices(pre);
      var idx := KeptIndices(vs);
      assert idx[..|pidx|] == pidx;
      assert forall k :: 0 <= k < |pidx| ==> vs[pidx[k]] == pre[pidx[k]];
    }
  }

  /** The kept indices increase, stay inside the sequence and cover every
      `Keep` verdict. */
  lemma {:induction false} KeptIndicesSortedComplete(vs: seq<LineVerdict>)
    ensures var idx := KeptIndices(vs);
            && (forall k :: 0 <= k < |idx| ==> idx[k] < |vs|)
            && (forall k, l :: 0 <= k < l < |idx| ==> idx[k] < idx[l])
            && (forall i :: 0 <= i < |vs| && vs[i].Keep? ==> i in idx)
    decreases |vs|
  {
    if vs != [] {
      var last := |vs| - 1;
      var pre := vs[..last];
      KeptIndicesSortedComplete(pre);
      assert forall i :: 0 <= i < last ==> vs[i] == pre[i];
    }
  }

  lemma {:induction false} RunFoundMeansNoCrash(vs: seq<LineVerdict>)
    requires Run(vs).Found?
    ensures forall i :: 0 <= i < |vs| ==> !vs[i].Crash?
    decreases |vs|
  {
    if vs != [] {
      var last := |vs| - 1;
      RunFoundMeansNoCrash(vs[..last]);
      assert forall j :: 0 <= j < last ==> vs[j] == vs[..last][j];
    }
  }

  lemma {:induction false} RunCrashAtFirst(vs: seq<LineVerdict>)
    requires Run(vs).IndexError?
    ensures var i := Run(vs).lineIndex;
            && vs[i].Crash?
            && forall j :: 0 <= j < i ==> !vs[j].Crash?
    decreases |vs|
  {
    var last := |vs| - 1;
    var pre := vs[..last];
    assert forall j :: 0 <= j < last ==> vs[j] == pre[j];
    if Run(pre).IndexError? {
      RunCrashAtFirst(pre);
    } else {
      RunFoundMeansNoCrash(pre);
    }
  }

  /** The scan of one text followed by another, given the scans of each. */
  function Then(first: ScanOutcome, offset: nat, second: ScanOutcome): ScanOutcome {
    if !first.Found? then first
    else match second
      case Found(ms) => Found(first.modules + ms)
      case IndexError(j) => IndexError(offset + j)
      case FileNotFound => second
  }

  lemma {:induction false} RunAppend(a: seq<LineVerdict>, b: seq<LineVerdict>)
    ensures Run(a + b) == Then(Run(a), |a|, Run(b))
    decreases |b|
  {
    if b == [] {
      assert a + b == a;
    } else {
      var last := |b| - 1;
      var ab := a + b;
      assert ab[..|ab| - 1] == a + b[..last];
      RunAppend(a, b[..last]);
      ThenExtend(Run(a), |a|, Run(b[..last]), b[last], last);
    }
  }

  /** One more verdict after a joined scan is one more verdict of its
      second part. */
  lemma ThenExtend(first: ScanOutcome, offset: nat, second: ScanOutcome, v: LineVerdict, index: nat)
    ensures Extend(Then(first, offset, second), v, offset + index) == Then(first, offset, Extend(second, v, index))
  {
    if first.Found? && second.Found? && v.Keep? {
      assert first.modules + (second.modules + [v.name]) == (first.modules + second.modules) + [v.name];
    }
  }

  // ---------------------------------------------------------------------
  // The scan of a file

  lemma VerdictsPrefix(lines: seq<string>, n: nat, env: Environment)
    requires n <= |lines|
    ensures Verdicts(lines[..n], env) == Verdicts(lines, env)[..n]
  {
  }

  lemma VerdictsAppend(a: seq<string>, b: seq<string>, env: Environment)
    ensures Verdicts(a + b, env) == Verdicts(a, env) + Verdicts(b, env)
  {
    var joined := Verdicts(a + b, env);
    var parts := Verdicts(a, env) + Verdicts(b, env);
    forall i | 0 <= i < |joined|
      ensures joined[i] == parts[i]
    {
      if i < |a| {
        assert (a + b)[i] == a[i];
      } else {
        assert (a + b)[i] == b[i - |a|];
      }
    }
  }

  /** One more line of the file: one more step of the loop. */
  lemma ScanLinesStep(lines: seq<string>, i: nat, env: Environment)
    requires i < |lines|
    ensures ScanLines(lines[..i + 1], env) == Extend(ScanLines(lines[..i], env), ScanLine(lines[i], env), i)
  {
    var vs := Verdicts(lines, env);
    VerdictsPrefix(lines, i, env);
    VerdictsPrefix(lines, i + 1, env);
    RunStep(vs, i);
  }

  /** Once a prefix of the file has failed, the whole scan fails the same
      way. */
  lemma ErrorPersists(lines: seq<string>, n: nat, env: Environment)
    requires n <= |lines|
    requires ScanLines(lines[..n], env).IndexError?
    ensures ScanLines(lines, env) == ScanLines(lines[..n], env)
  {
    VerdictsPrefix(lines, n, env);
    RunErrorPersists(Verdicts(lines, env), n);
  }

  /** The verdicts spelled out as equivalences on the line, so that the
      lemmas about the scan can use them without unfolding `ScanLine`. */
  lemma VerdictMeans(line: string, env: Environment)
    ensures ScanLine(line, env).Keep?
            <==> IsImportLine(line) && |Split(line)| >= 2 && !Excluded(Split(line)[1], env)
    ensures ScanLine(line, env).Keep? ==> ScanLine(line, env).name == Split(line)[1]
    ensures ScanLine(line, env).Crash? <==> IsImportLine(line) && |Split(line)| < 2
  {
  }

  /** The line indices the scan keeps. */
  ghost function Selected(lines: seq<string>, env: Environment): seq<nat> {
    KeptIndices(Verdicts(lines, env))
  }

  /** A successful scan returns exactly the second fields of the import
      lines whose field survives the filters: one entry per such line, in
      the order of the lines, and nothing else. */
  lemma ScanSelects(lines: seq<string>, env: Environment)
    requires ScanLines(lines, env).Found?
    ensures var ms := ScanLines(lines, env).modules;
            var idx := Selected(lines, env);
            && |idx| == |ms|
            && (forall k :: 0 <= k < |idx| ==>
                  && idx[k] < |lines|
                  && IsImportLine(lines[idx[k]])
                  && |Split(lines[idx[k]])| >= 2
                  && ms[k] == Split(lines[idx[k]])[1])
            && (forall k, l :: 0 <= k < l < |idx| ==> idx[k] < idx[l])
            && (forall i :: (0 <= i < |lines| && IsImportLine(lines[i]) && |Split(lines[i])| >= 2
                               && !Excluded(Split(lines[i])[1], env)) ==> i in idx)
  {
    var vs := Verdicts(lines, env);
    var ms := ScanLines(lines, env).modules;
    var idx := Selected(lines, env);
    RunKeeps(vs);
    KeptIndicesSortedComplete(vs);
    forall k | 0 <= k < |idx|
      ensures IsImportLine(lines[idx[k]]) && |Split(lines[idx[k]])| >= 2
              && ms[k] == Split(lines[idx[k]])[1]
    {
      assert vs[idx[k]] == ScanLine(lines[idx[k]], env);
      VerdictMeans(lines[idx[k]], env);
    }
    forall i | 0 <= i < |lines| && IsImportLine(lines[i]) && |Split(lines[i])| >= 2
               && !Excluded(Split(lines[i])[1], env)
      ensures i in idx
    {
      assert vs[i] == ScanLine(lines[i], env);
      VerdictMeans(lines[i], env);
    }
  }

  /** No name the scan finds is dotted, already loaded or from the
      standard library, and each is a single whitespace-free field. */
  lemma FoundNamesPassFilters(lines: seq<string>, env: Environment)
    requires ScanLines(lines, env).Found?
    ensures var ms := ScanLines(lines, env).modules;
            forall k :: 0 <= k < |ms| ==>
              && '.' !in ms[k]
              && !AlreadyLoaded(ms[k], env)
              && ms[k] !in env.stdlibNames
              && IsWord(ms[k])
  {
    var vs := Verdicts(lines, env);
    RunKeeps(vs);
    var idx := KeptIndices(vs);
    var ms := ScanLines(lines, env).modules;
    forall k | 0 <= k < |ms|
      ensures !Excluded(ms[k], env) && IsWord(ms[k])
    {
      assert vs[idx[k]] == ScanLine(lines[idx[k]], env);
    }
  }

  /** The scan fails exactly when some line is an import line with fewer
      than two fields, and it fails at the first such line. */
  lemma ScanCrashIff(lines: seq<string>, env: Environment)
    ensures ScanLines(lines, env).IndexError?
            <==> exists i :: 0 <= i < |lines| && IsImportLine(lines[i]) && |Split(lines[i])| < 2
    ensures var r := ScanLines(lines, env);
            r.IndexError? ==>
              && IsImportLine(lines[r.lineIndex]) && |Split(lines[r.lineIndex])| < 2
              && forall j :: 0 <= j < r.lineIndex ==> !(IsImportLine(lines[j]) && |Split(lines[j])| < 2)
  {
    var vs := Verdicts(lines, env);
    var r := ScanLines(lines, env);
    forall i | 0 <= i < |lines|
      ensures vs[i].Crash? <==> IsImportLine(lines[i]) && |Split(lines[i])| < 2
    {
      VerdictMeans(lines[i], env);
    }
    if r.Found? {
      RunFoundMeansNoCrash(vs);
    } else {
      RunCrashAtFirst(vs);
    }
  }

  /** Scanning is compositional: the lines are scanned independently of
      each other, in order, and the first failure stops the scan. */
  lemma ScanAppend(a: seq<string>, b: seq<string>, env: Environment)
    ensures ScanLines(a + b, env) == Then(ScanLines(a, env), |a|, ScanLines(b, env))
  {
    VerdictsAppend(a, b, env);
    RunAppend(Verdicts(a, env), Verdicts(b, env));
  }

  /** A line without the raw `from`/`import` prefix at column 0 changes
      nothing: the scan of the text without it finds the same modules and
      fails in the same cases. */
  lemma NonImportLineContributesNothing(a: seq<string>, line: string, b: seq<string>, env: Environment)
    requires !IsImportLine(line)
    ensures ScanLines(a + [line] + b, env).Found? == ScanLines(a + b, env).Found?
    ensures ScanLines(a + [line] + b, env).Found? ==>
              ScanLines(a + [line] + b, env).modules == ScanLines(a + b, env).modules
  {
    assert ScanLines([line], env) == Found([]) by {
      ScanLinesStep([line], 0, env);
      assert [line][..0] == [] && [line][..1] == [line];
    }
    ScanAppend(a, [line], env);
    ScanAppend(a + [line], b, env);
    ScanAppend(a, b, env);
    assert ScanLines(a, env).Found? ==> ScanLines(a, env).modules + [] == ScanLines(a, env).modules;
  }

  /** Indentation defeats the prefix test: an indented import is skipped. */
  lemma IndentedLineSkipped(line: string, env: Environment)
    requires |line| > 0 && IsSpace(line[0])
    ensures ScanLine(line, env) == Skip
  {
  }

  /** No deduplication: a surviving import line that occurs twice in the
      file, at any two positions, yields its module twice, in line order. */
  lemma DuplicateLinesKeptTwice(lines: seq<string>, i: nat, j: nat, env: Environment)
    requires i < j < |lines| && lines[i] == lines[j]
    requires ScanLine(lines[i], env).Keep?
    requires ScanLines(lines, env).Found?
    ensures var ms := ScanLines(lines, env).modules;
            var name := ScanLine(lines[i], env).name;
            exists k1, k2 :: 0 <= k1 < k2 < |ms| && ms[k1] == name && ms[k2] == name
  {
    var ms := ScanLines(lines, env).modules;
    var name := ScanLine(lines[i], env).name;
    var idx := Selected(lines, env);
    ScanSelects(lines, env);
    VerdictMeans(lines[i], env);
    assert i in idx && j in idx;
    var k1 :| 0 <= k1 < |idx| && idx[k1] == i;
    var k2 :| 0 <= k2 < |idx| && idx[k2] == j;
    assert k1 < k2;
    assert ms[k1] == name && ms[k2] == name;
  }
}
