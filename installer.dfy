/**
 * `InstallRequirements.install_modules` as a plan: the pip invocations it
 * makes, in order, for a given file system, interpreter and environment.
 */
module Installer {
  import opened Wrappers
  import PosixPath
  import opened Scanner
  import opened Resolver

  const RequirementsFileName: string := "requirements.txt"

  /** One `subprocess.call` to pip: the batch install of the requirements
      file, or the upgrade install of one found module under the
      distribution name it resolved to (`None` when it did not resolve). */
  datatype Command =
    | InstallRequirementsFile(path: string)
    | UpgradeModule(moduleName: string, package: Option<string>)

  /** `os.path.join(os.path.dirname(file_to_run), 'requirements.txt')`. */
  function RequirementsPath(fileToRun: string): (r: string)
    ensures |RequirementsFileName| <= |r| && r[|r| - |RequirementsFileName|..] == RequirementsFileName
  {
    PosixPath.Join(PosixPath.DirName(fileToRun), RequirementsFileName)
  }

  /** The argument vector handed to `subprocess.call`, with `python` for
      `sys.executable`; an unresolved package gives no valid vector. */
  function PipArgv(python: string, c: Command): (argv: Option<seq<string>>)
    ensures argv.Some? <==> c.InstallRequirementsFile? || c.package.Some?
    ensures argv.Some? ==>
              && |argv.value| == 6
              && argv.value[..4] == [python, "-m", "pip", "install"]
              && argv.value[5] == (if c.InstallRequirementsFile? then c.path else c.package.value)
    ensures argv.Some? ==> argv.value[4] == (if c.InstallRequirementsFile? then "-r" else "--upgrade")
  {
    match c
    case InstallRequirementsFile(path) => Some([python, "-m", "pip", "install", "-r", path])
    case UpgradeModule(_, Some(name)) => Some([python, "-m", "pip", "install", "--upgrade", name])
    case UpgradeModule(_, None) => None
  }

  /** The per-module loop of `install_modules`. */
  function UpgradeCommands(modules: seq<string>, installed: Installed): (cmds: seq<Command>)
    ensures |cmds| == |modules|
    ensures forall k :: 0 <= k < |cmds| ==>
              cmds[k] == UpgradeModule(modules[k], PackageName(modules[k], installed))
  {
    if modules == [] then []
    else [UpgradeModule(modules[0], PackageName(modules[0], installed))]
         + UpgradeCommands(modules[1..], installed)
  }

  /** Every pip call `install_modules` makes, in order: the requirements
      file first when it exists, then one upgrade per found module. A scan
      that does not produce a list (missing file, `IndexError`) ends the
      run after the requirements install. */
  function InstallPlan(fileToRun: string, fs: FileSystem, env: Environment, installed: Installed): (plan: seq<Command>)
    ensures fileToRun !in fs ==> |plan| <= 1
    ensures fileToRun in fs ==> |plan| <= 1 + |fs[fileToRun]|
  {
    RequirementsStep(fileToRun, fs) + ScanUpgrades(FindModulesSpec(fs, fileToRun, env), installed)
  }

  /** The `os.path.isfile` branch: the batch install, when the file exists. */
  function RequirementsStep(fileToRun: string, fs: FileSystem): (cmds: seq<Command>)
    ensures |cmds| == (if RequirementsPath(fileToRun) in fs then 1 else 0)
    ensures forall k :: 0 <= k < |cmds| ==> cmds[k] == InstallRequirementsFile(RequirementsPath(fileToRun))
  {
    var requirements := RequirementsPath(fileToRun);
    if requirements in fs then [InstallRequirementsFile(requirements)] else []
  }

  /** The loop over the scan's result; a scan without a list stops there. */
  function ScanUpgrades(outcome: ScanOutcome, installed: Installed): (cmds: seq<Command>)
    ensures outcome.Found? ==> |cmds| == |outcome.modules|
    ensures !outcome.Found? ==> cmds == []
    ensures forall k :: 0 <= k < |cmds| ==>
              cmds[k] == UpgradeModule(outcome.modules[k], PackageName(outcome.modules[k], installed))
  {
    if outcome.Found? then UpgradeCommands(outcome.modules, installed) else []
  }

  /** The requirements file sits next to the target script: the path is
      the script's directory part (up to and including a separator, empty
      when the script path has none) followed by `requirements.txt`. */
  lemma RequirementsPathIsSibling(fileToRun: string)
    ensures var r := RequirementsPath(fileToRun);
            && |r| >= |RequirementsFileName|
            && r[|r| - |RequirementsFileName|..] == RequirementsFileName
    ensures var r := RequirementsPath(fileToRun);
            var d := r[..|r| - |RequirementsFileName|];
            && |d| <= |fileToRun| && d == fileToRun[..|d|]
            && (d == [] <==> PosixPath.Sep !in fileToRun)
            && (d != [] ==> d[|d| - 1] == PosixPath.Sep)
            && (forall j, k :: |d| <= j < k < |fileToRun| && fileToRun[j] != PosixPath.Sep
                  ==> fileToRun[k] != PosixPath.Sep)
            && (|d| >= 2 && !PosixPath.AllSeps(d) ==> d[|d| - 2] != PosixPath.Sep)
            && (PosixPath.AllSeps(d) ==> PosixPath.Sep !in fileToRun[|d|..])
  {
    var r := RequirementsPath(fileToRun);
    var d := SiblingDir(fileToRun);
    RequirementsPathSplit(fileToRun);
    SiblingDirShape(fileToRun);
    assert r == d + RequirementsFileName;
    assert r[..|r| - |RequirementsFileName|] == d;
    assert r[|r| - |RequirementsFileName|..] == RequirementsFileName;
  }

  /** The directory part of the requirements path, separator included. */
  ghost function SiblingDir(p: string): string {
    var head := p[..PosixPath.AfterLastSep(p)];
    if head == [] || PosixPath.AllSeps(head) then head
    else PosixPath.RStripSeps(head) + [PosixPath.Sep]
  }

  lemma RequirementsPathSplit(p: string)
    ensures RequirementsPath(p) == SiblingDir(p) + RequirementsFileName
  {
    assert RequirementsFileName[0] != PosixPath.Sep;
    JoinDirName(p, RequirementsFileName);
  }

  /** Joining a relative name to the directory part of `p`. */
  lemma JoinDirName(p: string, name: string)
    requires name != [] && name[0] != PosixPath.Sep
    ensures PosixPath.Join(PosixPath.DirName(p), name) == SiblingDir(p) + name
  {
    var head := p[..PosixPath.AfterLastSep(p)];
    if head != [] && !PosixPath.AllSeps(head) {
      var h := PosixPath.RStripSeps(head);
      var j :| 0 <= j < |head| && head[j] != PosixPath.Sep;
      assert j < |h|;
    } else if head != [] {
      assert head[|head| - 1] == PosixPath.Sep;
    }
  }

  lemma SiblingDirShape(p: string)
    ensures var d := SiblingDir(p);
            && |d| <= |p| && d == p[..|d|]
            && (d == [] <==> PosixPath.Sep !in p)
            && (d != [] ==> d[|d| - 1] == PosixPath.Sep)
            && (forall j, k :: |d| <= j < k < |p| && p[j] != PosixPath.Sep ==> p[k] != PosixPath.Sep)
            && (|d| >= 2 && !PosixPath.AllSeps(d) ==> d[|d| - 2] != PosixPath.Sep)
            && (PosixPath.AllSeps(d) ==> PosixPath.Sep !in p[|d|..])
  {
    var i := PosixPath.AfterLastSep(p);
    var head := p[..i];
    if head == [] {
      assert forall j :: 0 <= j < |p| ==> p[j] != PosixPath.Sep;
    } else if PosixPath.AllSeps(head) {
      assert p[i - 1] == PosixPath.Sep;
      assert forall j :: 0 <= j < |p| - i ==> p[i..][j] != PosixPath.Sep;
    } else {
      var h := PosixPath.RStripSeps(head);
      var j :| 0 <= j < |head| && head[j] != PosixPath.Sep;
      assert j < |h| < |head|;
      var d := h + [PosixPath.Sep];
      assert head[|h|] == PosixPath.Sep;
      assert d == p[..|d|];
      assert PosixPath.Sep in d;
      assert d[j] != PosixPath.Sep && d[|d| - 2] == h[|h| - 1];
    }
  }

  /** The batch install is there exactly when the requirements file
      exists, and then it is the first call and the only one of its kind. */
  lemma RequirementsInstallFirst(fileToRun: string, fs: FileSystem, env: Environment, installed: Installed)
    ensures var plan := InstallPlan(fileToRun, fs, env, installed);
            (exists i :: 0 <= i < |plan| && plan[i].InstallRequirementsFile?)
            <==> RequirementsPath(fileToRun) in fs
    ensures var plan := InstallPlan(fileToRun, fs, env, installed);
            RequirementsPath(fileToRun) in fs ==>
              plan[0] == InstallRequirementsFile(RequirementsPath(fileToRun))
    ensures var plan := InstallPlan(fileToRun, fs, env, installed);
            forall i :: 0 < i < |plan| ==> plan[i].UpgradeModule?
  {
    var plan := InstallPlan(fileToRun, fs, env, installed);
    var requirements := RequirementsPath(fileToRun);
    var head := RequirementsStep(fileToRun, fs);
    var tail := ScanUpgrades(FindModulesSpec(fs, fileToRun, env), installed);
    assert plan == head + tail;
    assert forall i :: 0 <= i < |tail| ==> tail[i].UpgradeModule?;
    if requirements in fs {
      assert plan[0].InstallRequirementsFile?;
    }
  }

  /** After the optional batch install, one upgrade per found module, in
      scan order, each under the name the resolver gives. */
  lemma UpgradesFollowScan(fileToRun: string, fs: FileSystem, env: Environment, installed: Installed)
    requires FindModulesSpec(fs, fileToRun, env).Found?
    ensures var plan := InstallPlan(fileToRun, fs, env, installed);
            var modules := FindModulesSpec(fs, fileToRun, env).modules;
            var b := if RequirementsPath(fileToRun) in fs then 1 else 0;
            && |plan| == b + |modules|
            && forall k :: 0 <= k < |modules| ==>
                 plan[b + k] == UpgradeModule(modules[k], PackageName(modules[k], installed))
  {
    var head := RequirementsStep(fileToRun, fs);
    var tail := ScanUpgrades(FindModulesSpec(fs, fileToRun, env), installed);
    assert InstallPlan(fileToRun, fs, env, installed) == head + tail;
  }

  /** When the scan gives no list, only the requirements file is installed. */
  lemma FailedScanInstallsOnlyRequirements(fileToRun: string, fs: FileSystem, env: Environment, installed: Installed)
    requires !FindModulesSpec(fs, fileToRun, env).Found?
    ensures InstallPlan(fileToRun, fs, env, installed)
            == if RequirementsPath(fileToRun) in fs then [InstallRequirementsFile(RequirementsPath(fileToRun))] else []
  {
  }

  /** An import of `PIL` is always installed as `Pillow`. */
  lemma PilInstalledAsPillow(fileToRun: string, fs: FileSystem, env: Environment, installed: Installed)
    ensures var plan := InstallPlan(fileToRun, fs, env, installed);
            forall i :: 0 <= i < |plan| && plan[i].UpgradeModule? && plan[i].moduleName == "PIL"
              ==> plan[i].package == Some("Pillow")
  {
    RequirementsInstallFirst(fileToRun, fs, env, installed);
    var plan := InstallPlan(fileToRun, fs, env, installed);
    if FindModulesSpec(fs, fileToRun, env).Found? {
      UpgradesFollowScan(fileToRun, fs, env, installed);
    }
  }

  /** A surviving import written on two lines of the file, anywhere, is
      upgraded twice, in the order of those lines. */
  lemma DuplicateImportUpgradedTwice(fileToRun: string, fs: FileSystem, env: Environment,
                                     installed: Installed, i: nat, j: nat)
    requires fileToRun in fs && i < j < |fs[fileToRun]| && fs[fileToRun][i] == fs[fileToRun][j]
    requires ScanLine(fs[fileToRun][i], env).Keep?
    requires ScanLines(fs[fileToRun], env).Found?
    ensures var plan := InstallPlan(fileToRun, fs, env, installed);
            var name := ScanLine(fs[fileToRun][i], env).name;
            var u := UpgradeModule(name, PackageName(name, installed));
            exists p1, p2 :: 0 <= p1 < p2 < |plan| && plan[p1] == u && plan[p2] == u
  {
    var lines := fs[fileToRun];
    var ms := ScanLines(lines, env).modules;
    var name := ScanLine(lines[i], env).name;
    DuplicateLinesKeptTwice(lines, i, j, env);
    var k1, k2 :| 0 <= k1 < k2 < |ms| && ms[k1] == name && ms[k2] == name;
    var u := UpgradeModule(name, PackageName(name, installed));
    var head := RequirementsStep(fileToRun, fs);
    var tail := ScanUpgrades(FindModulesSpec(fs, fileToRun, env), installed);
    assert tail[k1] == u && tail[k2] == u;
    TwiceAfterHead(head, tail, k1, k2, u);
    assert InstallPlan(fileToRun, fs, env, installed) == head + tail;
  }

  /** Two occurrences in the tail of a plan are two occurrences in the plan. */
  lemma TwiceAfterHead(head: seq<Command>, tail: seq<Command>, k1: nat, k2: nat, u: Command)
    requires k1 < k2 < |tail| && tail[k1] == u && tail[k2] == u
    ensures exists p1, p2 :: 0 <= p1 < p2 < |head + tail| && (head + tail)[p1] == u && (head + tail)[p2] == u
  {
    assert (head + tail)[|head| + k1] == u && (head + tail)[|head| + k2] == u;
  }
}
