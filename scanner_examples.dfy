/**
 * The scanner on concrete lines: the behaviour of the prefix test, the
 * filters and the error case.
 */
module ScannerExamples {
  import opened PyStr
  import opened Scanner

  /** The verdict on a line made of an import keyword `w1`, a blank, a
      field `w2` and a `rest` that is empty or starts with whitespace. */
  lemma ImportLineVerdict(line: string, w1: string, w2: string, rest: string, env: Environment)
    requires line == w1 + (" " + (w2 + rest))
    requires IsWord(w1) && IsWord(w2)
    requires rest == [] || IsSpace(rest[0])
    requires StartsWith(w1, "from") || StartsWith(w1, "import")
    ensures ScanLine(line, env) == if Excluded(w2, env) then Skip else Keep(w2)
  {
    var tail := " " + (w2 + rest);
    SplitTwoWords(w1, w2, rest);
    if StartsWith(w1, "from") {
      StartsWithExtend(w1, tail, "from");
    } else {
      StartsWithExtend(w1, tail, "import");
    }
  }

  /** A line whose first character is neither `f` nor `i` is skipped. */
  lemma NonImportLineSkipped(line: string, env: Environment)
    requires |line| > 0 && line[0] != 'f' && line[0] != 'i'
    ensures ScanLine(line, env) == Skip
  {
    assert "from"[0] == 'f' && "import"[0] == 'i';
  }

  lemma ScanTwo(l0: string, l1: string, env: Environment)
    ensures ScanLines([l0, l1], env)
            == Extend(Extend(Found([]), ScanLine(l0, env), 0), ScanLine(l1, env), 1)
  {
    var vs := Verdicts([l0, l1], env);
    assert vs == [ScanLine(l0, env), ScanLine(l1, env)];
    RunStep(vs, 0);
    RunStep(vs, 1);
    assert vs[..0] == [] && vs[..2] == vs;
  }

  lemma ScanThree(l0: string, l1: string, l2: string, env: Environment)
    ensures ScanLines([l0, l1, l2], env)
            == Extend(Extend(Extend(Found([]), ScanLine(l0, env), 0), ScanLine(l1, env), 1), ScanLine(l2, env), 2)
  {
    var vs := Verdicts([l0, l1, l2], env);
    assert vs == [ScanLine(l0, env), ScanLine(l1, env), ScanLine(l2, env)];
    RunStep(vs, 0);
    RunStep(vs, 1);
    RunStep(vs, 2);
    assert vs[..0] == [] && vs[..3] == vs;
  }

  const ImportOs: string := "import" + " os\n"
  const ImportSys: string := "import" + " sys\n"
  const FromJson: string := "from" + " json import loads\n"
  const ImportRequests: string := "import" + " requests\n"
  const FromPil: string := "from" + " PIL import Image\n"

  lemma OsLineSkipped(env: Environment)
    requires "os" in env.stdlibNames
    ensures ScanLine(ImportOs, env) == Skip
  {
    ImportLineVerdict(ImportOs, "import", "os", "\n", env);
  }

  lemma SysLineSkipped(env: Environment)
    requires "sys" in env.stdlibNames
    ensures ScanLine(ImportSys, env) == Skip
  {
    ImportLineVerdict(ImportSys, "import", "sys", "\n", env);
  }

  lemma JsonLineSkipped(env: Environment)
    requires "json" in env.stdlibNames
    ensures ScanLine(FromJson, env) == Skip
  {
    ImportLineVerdict(FromJson, "from", "json", " import loads\n", env);
  }

  lemma RequestsLineKept(env: Environment)
    requires !Excluded("requests", env)
    ensures ScanLine(ImportRequests, env) == Keep("requests")
  {
    ImportLineVerdict(ImportRequests, "import", "requests", "\n", env);
  }

  lemma PilLineKept(env: Environment)
    requires !Excluded("PIL", env)
    ensures ScanLine(FromPil, env) == Keep("PIL")
  {
    ImportLineVerdict(FromPil, "from", "PIL", " import Image\n", env);
  }

  /** Standard-library imports yield nothing. */
  lemma StdlibImportsYieldNothing(env: Environment)
    requires "os" in env.stdlibNames && "sys" in env.stdlibNames && "json" in env.stdlibNames
    ensures ScanLines([ImportOs, ImportSys, FromJson], env) == Found([])
  {
    OsLineSkipped(env);
    SysLineSkipped(env);
    JsonLineSkipped(env);
    ScanThree(ImportOs, ImportSys, FromJson, env);
  }

  /** Third-party imports are found in the order of their lines. */
  lemma ThirdPartyImportsFound(env: Environment)
    requires !Excluded("requests", env) && !Excluded("PIL", env)
    ensures ScanLines([ImportRequests, FromPil], env) == Found(["requests", "PIL"])
  {
    RequestsLineKept(env);
    PilLineKept(env);
    ScanTwo(ImportRequests, FromPil, env);
  }

  /** A dotted name is dropped. */
  lemma DottedImportSkipped(env: Environment)
    ensures ScanLine("import" + " os.path\n", env) == Skip
  {
    ImportLineVerdict("import" + " os.path\n", "import", "os.path", "\n", env);
    assert "os.path"[2] == '.';
  }

  /** The prefix test is raw: `importer = 1` is read as an import of `=`. */
  lemma ImporterMatches(env: Environment)
    requires !Excluded("=", env)
    ensures ScanLine("importer" + " = 1\n", env) == Keep("=")
  {
    ImportLineVerdict("importer" + " = 1\n", "importer", "=", " 1\n", env);
  }

  /** Likewise `fromage x` is read as an import of `x`. */
  lemma FromageMatches(env: Environment)
    requires !Excluded("x", env)
    ensures ScanLine("fromage" + " x\n", env) == Keep("x")
  {
    ImportLineVerdict("fromage" + " x\n", "fromage", "x", "\n", env);
  }

  /** Any whitespace separates fields: a tab after `import` does. */
  lemma TabSeparatedImportKept(env: Environment)
    requires !Excluded("requests", env)
    ensures ScanLine("import" + "\trequests\n", env) == Keep("requests")
  {
    var line := "import" + "\trequests\n";
    var tail := ['\t'] + ("requests" + "\n");
    assert line == "import" + tail;
    SplitTwoWordsSep("import", '\t', "requests", "\n");
    StartsWithExtend("import", tail, "import");
  }

  /** `import` past column 0 is not seen: inside a statement or indented. */
  lemma MidLineImportSkipped(env: Environment)
    ensures ScanLine("x = 'import requests'\n", env) == Skip
    ensures ScanLine("    import requests\n", env) == Skip
  {
    NonImportLineSkipped("x = 'import requests'\n", env);
    IndentedLineSkipped("    import requests\n", env);
  }

  /** A bare `import` has no second field: `split()[1]` raises. */
  lemma BareImportCrashes(env: Environment)
    ensures ScanLine("import" + "\n", env) == Crash
  {
    SplitWordThen("import", "\n");
    SplitOfSpaces("\n");
  }

  /** A missing target file gives no list at all. */
  lemma MissingFileNotFound(fs: FileSystem, path: string, env: Environment)
    requires path !in fs
    ensures FindModulesSpec(fs, path, env) == FileNotFound
  {
  }
}
