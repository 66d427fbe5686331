# installreq: import scanner, name resolver and install plan

`installreq` is a small command-line tool that reads a Python script,
collects the modules it imports, installs them with pip and then runs the
script. This project models, in Dafny, the three parts of `main.py` that
carry its behaviour:

- the **import scanner** `InstallRequirements.find_modules`: for each line
  of the target file it tests for a raw `from`/`import` prefix at column 0,
  takes the second whitespace-separated field, drops it when it is dotted,
  an already-loaded module or a standard-library module, and appends the
  survivor to a list (order and duplicates kept);
- the **name resolver** `get_pypi_package_name`: `PIL` maps to `Pillow`,
  any other module to the key of the installed distribution of that name,
  or to `None`;
- the **install plan** of `install_modules`: the pip calls it makes, in
  order: one `install -r requirements.txt` when that file sits next to the
  script, then one `install --upgrade <name>` per found module.

The process environment becomes explicit parameters:

| source | model |
|---|---|
| the file system seen by `open` and `os.path.isfile` | `Scanner.FileSystem`, a map from path to the file's lines as `readlines()` gives them |
| `sys.modules`, with the `isinstance(..., types.ModuleType)` test | `Environment.registry`, a map to `ModuleObject` or `OtherObject` |
| `sys.stdlib_module_names` | `Environment.stdlibNames` |
| `pkg_resources.get_distribution(name).key` | `Resolver.Installed`, a map from query to key |
| `sys.executable` | the `python` parameter of `Installer.PipArgv` |

Python's `str.split()` is modelled with a fixed whitespace table: the code
points for which `str.isspace()` holds (U+0009–U+000D, U+001C–U+0020,
U+0085, U+00A0, U+1680, U+2000–U+200A, U+2028, U+2029, U+202F, U+205F,
U+3000). `os.path.dirname` and `os.path.join` follow the POSIX rules.

Files: `wrappers.dfy` (Option), `py_str.dfy` (the `str` built-ins),
`posix_path.dfy` (the path functions), `scanner.dfy` (the scanner and its
properties), `scanner_examples.dfy` (the scanner on concrete lines),
`resolver.dfy`, `installer.dfy`.

Behaviour of the code worth noting:

- an indented import is not matched: `startswith` sees the leading
  whitespace (`Scanner.IndentedLineSkipped`);
- a missing file makes `find_modules` return `None`, not an empty list
  (`ScanOutcome.FileNotFound`);
- an import line with fewer than two fields raises `IndexError`
  (`ScanOutcome.IndexError`), which ends the scan;
- a module that does not resolve is passed on as `None`
  (`Command.UpgradeModule` with package `None`).

## Model

| member | source | states |
|---|---|---|
| PyStr.StartsWith | main.py:41 | `startswith` holds iff the prefix fits and agrees with the line character by character |
| PyStr.Split | main.py:42 | `split()` as the maximal whitespace-free runs in order (its properties are the lemmas in the next rows) |
| PyStr.StartsWithIsPrefix | main.py:41 | the prefix test holds exactly when the line is the keyword followed by any text, so `importer` and `fromage` match |
| PyStr.SplitFieldsAreWords | main.py:42 | every field of `split()` is non-empty and free of whitespace |
| PyStr.SplitKeepsNonSpace | main.py:42 | the fields, glued together, are exactly the non-whitespace characters of the line in order |
| PyStr.SplitJoin | main.py:42 | splitting words joined by blanks gives the words back |
| PyStr.SplitTwoWords | main.py:42 | in `w1 w2 rest`, with `rest` empty or starting with whitespace, the second field is `w2` |
| PyStr.SplitLeadingSpace | main.py:42 | any whitespace character (tab, form feed, U+00A0, ...) in front of the text belongs to no field |
| PyStr.SplitWordThen | main.py:42 | a word followed by whitespace or the end of the line is the first field, and the rest is split on its own |
| PyStr.SplitTwoWordsSep | main.py:42 | in `w1`, any one whitespace character, `w2 rest`, the first two fields are `w1` and `w2`, so `import\trequests` splits like `import requests` |
| PyStr.SplitOfSpaces | main.py:42 | a line of whitespace only has no fields |
| PosixPath.DirName | main.py:60 | `os.path.dirname`: the path up to and including its last `/`, with the run of `/`s at its end stripped, except when that head is all `/`s (then it is kept whole); empty exactly when the path has no `/` |
| PosixPath.Join | main.py:60 | `os.path.join` of two parts: an absolute second part replaces the first; otherwise the result is exactly `a + b` when `a` is empty or ends in `/`, and `a + "/" + b` otherwise |
| PosixPath.AfterLastSep | main.py:60 | `rfind('/') + 1`: a separator just before the position and none after it |
| PosixPath.RStripSeps | main.py:60 | `rstrip('/')`: a prefix of the input, followed only by separators, not itself ending in one |
| Scanner.ScanLine | main.py:41-49 | a line that is not skipped has the raw import prefix; a kept name is a word that is neither dotted, nor a loaded module, nor standard-library |
| Scanner.VerdictMeans | main.py:41-50 | a line is kept iff it has the prefix, at least two fields and an unfiltered second field, and then its second field is kept; it crashes iff it has the prefix and fewer than two fields |
| Scanner.ClassifyLine | main.py:41-50 | the loop body on one line, with its `continue`s, reaches `ScanLine`'s verdict for that line |
| Scanner.Extend | main.py:42-50 | one step of the loop: a failed scan stays failed, a successful step grows the list by at most one name, and a new failure is a crash at this line |
| Scanner.ScanLines | main.py:40-50 | the scan of a file's lines never reports a missing file, finds at most one name per line, and fails only at a line of the file |
| Scanner.FindModulesSpec | main.py:33-55 | `find_modules` as a function: `None` exactly when the path is missing, otherwise the scan of its lines |
| Scanner.Run | main.py:40-50 | the loop never reports a missing file, finds at most one name per line, and a failure names a line that was read |
| Scanner.FoundNamesPassFilters | main.py:43-50 | every found name is a word that is not dotted, not a loaded module and not a standard-library name |
| Scanner.FindModules | main.py:33-55 | the loop returns exactly `FindModulesSpec`: the scan of the file, or `FileNotFound` when the path is absent |
| Scanner.ErrorPersists | main.py:42 | once a prefix of the file fails, the whole scan fails at the same line |
| Scanner.ScanSelects | main.py:40-50 | a successful scan returns, in line order and one per line, exactly the second fields of the import lines whose field survives the filters |
| Scanner.ScanCrashIff | main.py:41-42 | the scan fails iff some import line has fewer than two fields, and it fails at the first one |
| Scanner.ScanAppend | main.py:40-50 | the scan of two texts in sequence is the first scan followed by the second, with the first failure winning |
| Scanner.NonImportLineContributesNothing | main.py:41 | inserting a line without the raw prefix anywhere changes neither the found names nor whether the scan succeeds |
| Scanner.IndentedLineSkipped | main.py:41 | a line starting with whitespace is skipped |
| Scanner.DuplicateLinesKeptTwice | main.py:40-50 | a surviving import line that occurs at any two positions of a file that scans yields its name at two positions of the result |
| ScannerExamples.ImportLineVerdict | main.py:41-50 | a line `w1 w2 ...` whose first word has the raw prefix is kept as `w2` unless `w2` is filtered out, in which case it is skipped |
| ScannerExamples.NonImportLineSkipped | main.py:41 | a line starting with neither `f` nor `i` is skipped |
| ScannerExamples.StdlibImportsYieldNothing | main.py:48-49 | `import os`, `import sys`, `from json import loads` yield nothing when those are standard-library names |
| ScannerExamples.ThirdPartyImportsFound | main.py:40-50 | `import requests`, `from PIL import Image` yield `["requests", "PIL"]` |
| ScannerExamples.TabSeparatedImportKept | main.py:41-50 | `import<TAB>requests` yields `requests`, as with a blank |
| ScannerExamples.DottedImportSkipped | main.py:43-44 | `import os.path` is skipped |
| ScannerExamples.ImporterMatches | main.py:41-42 | `importer = 1` yields `=` |
| ScannerExamples.FromageMatches | main.py:41-42 | `fromage x` yields `x` |
| ScannerExamples.MidLineImportSkipped | main.py:41 | `import` inside a statement or after indentation is not seen |
| ScannerExamples.BareImportCrashes | main.py:42 | a bare `import` line raises `IndexError` |
| ScannerExamples.MissingFileNotFound | main.py:53-55 | a missing target file gives `None` |
| Resolver.PackageName | main.py:23-31 | `PIL` resolves to `Pillow`, checked before any lookup so it wins even over a distribution installed as `PIL`; any other name resolves iff it is installed, and then to its installed key |
| Resolver.ResolutionIsLocal | main.py:27-31 | the answer depends only on the installed entry of that very name |
| Installer.RequirementsPath | main.py:60 | the path of the requirements file ends in `requirements.txt` |
| Installer.RequirementsStep | main.py:60-62 | the batch install is one call when the requirements file exists and none otherwise |
| Installer.ScanUpgrades | main.py:64-68 | one upgrade per found module, in order, under the resolver's name; nothing when the scan gives no list |
| Installer.InstallPlan | main.py:57-68 | the pip calls of `install_modules`: at most one per line of the script plus the batch install |
| Installer.PipArgv | main.py:62-68 | each call runs `python -m pip install` with `-r <file>` or `--upgrade <package>`; an unresolved package gives no argument vector |
| Installer.UpgradeCommands | main.py:65-68 | one upgrade per module, in order, each under the resolver's name for it |
| Installer.RequirementsPathIsSibling | main.py:60 | the requirements path is the script's directory part followed by `requirements.txt`: that part is empty when the path has no `/`, ends in exactly one `/` unless it is the root run of `/`s, and is followed in the script path only by `/`s and the slash-free file name |
| Installer.RequirementsInstallFirst | main.py:60-64 | the batch install is in the plan iff the requirements file exists, and then it is first and the only batch install |
| Installer.UpgradesFollowScan | main.py:64-68 | after the optional batch install, exactly one upgrade per found module, in scan order |
| Installer.FailedScanInstallsOnlyRequirements | main.py:64-65 | when the scan gives no list, at most the requirements file is installed |
| Installer.PilInstalledAsPillow | main.py:25-26 | every upgrade of module `PIL` installs `Pillow` |
| Installer.DuplicateImportUpgradedTwice | main.py:64-68 | a surviving import on any two lines of a file that scans is upgraded at two positions of the plan |

## Left out

- Argument parsing, logging and console output (`__init__`, the `logging`
  calls, the `print` on a missing file): no behaviour beyond messages.
- Running pip and the script: the model produces the plan of pip calls and
  never executes them; `main` and its `os.system` call are not modelled
  (that call passes two arguments and raises `TypeError`, which `main`
  logs).
- Installer.UpgradesFollowScan: states one upgrade per found module even
  when a module resolves to `None`; the real `subprocess.call` raises
  `TypeError` on that `None`, which escapes `install_modules` and stops the
  remaining installs. Exception routing is not modelled; the plan keeps
  such a step as `UpgradeModule(name, None)` and `PipArgv` gives it no
  argument vector.
- When `find_modules` returns `None` or raises `IndexError`, the real run
  fails with an exception after the requirements install; the plan simply
  ends there.
- Reading the file: `open`, UTF-8 decoding, newline translation and the
  other `OSError`s of `open` are replaced by a map from path to lines.
- `pkg_resources` name normalisation is folded into the `Installed` map,
  which gives the key for each query directly.
- Resolver.PackageName: (a) `Installed` is one fixed map, read as the state
  after the requirements install; the real `pkg_resources` may pick up
  distributions that the requirements install or an earlier upgrade added,
  and the plan does not model that change. (b) A scanned name that
  `pkg_resources` cannot parse as a requirement (such as `=` from
  `importer = 1`, or `os,` from `import os, sys`) raises
  `InvalidRequirement`, which `get_pypi_package_name` does not catch; the
  model gives `None` (or the map's entry) for it instead.
- Windows path rules for `os.path` are not modelled; paths are not
  normalised, so two spellings of one file are two keys.
