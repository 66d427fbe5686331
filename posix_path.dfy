/**
 * The two `os.path` functions used to locate the requirements file next to
 * the target script, with POSIX semantics (separator '/').
 */
module PosixPath {

  const Sep: char := '/'

  predicate AllSeps(s: string) {
    forall i :: 0 <= i < |s| ==> s[i] == Sep
  }

  /** `p.rfind('/') + 1`: the position just past the last separator, or 0. */
  function AfterLastSep(p: string): (i: nat)
    ensures i <= |p|
    ensures i > 0 ==> p[i - 1] == Sep
    ensures forall j :: i <= j < |p| ==> p[j] != Sep
  {
    if p == [] then 0
    else if p[|p| - 1] == Sep then |p|
    else AfterLastSep(p[..|p| - 1])
  }

  /** `s.rstrip('/')`: `s` without its trailing separators. */
  function RStripSeps(s: string): (r: string)
    ensures |r| <= |s| && r == s[..|r|]
    ensures forall j :: |r| <= j < |s| ==> s[j] == Sep
    ensures r != [] ==> r[|r| - 1] != Sep
  {
    if s != [] && s[|s| - 1] == Sep then RStripSeps(s[..|s| - 1]) else s
  }

  /** `posixpath.dirname(p)`: everything up to the last separator; trailing
      separators are dropped unless the head consists of separators only. */
  function DirName(p: string): (r: string)
    ensures |r| <= |p| && r == p[..|r|]
    ensures Sep !in p ==> r == []
    ensures Sep in p ==> r != []
    ensures |r| <= AfterLastSep(p)
    ensures forall j :: |r| <= j < AfterLastSep(p) ==> p[j] == Sep
    ensures r != [] && !AllSeps(r) ==> r[|r| - 1] != Sep
    ensures AllSeps(r) ==> |r| == AfterLastSep(p)
  {
    var head := p[..AfterLastSep(p)];
    if head != [] && !AllSeps(head) then RStripSeps(head) else head
  }

  /** `posixpath.join(a, b)` for two components. */
  function Join(a: string, b: string): (r: string)
    ensures |b| <= |r| && r[|r| - |b|..] == b
    ensures (b == [] || b[0] != Sep) ==> |a| <= |r| && r[..|a|] == a
    ensures b != [] && b[0] == Sep ==> r == b
    ensures (b == [] || b[0] != Sep) ==>
              |r| == |a| + |b| + (if a == [] || a[|a| - 1] == Sep then 0 else 1)
    ensures (b == [] || b[0] != Sep) && a != [] && a[|a| - 1] != Sep ==> r[|a|] == Sep
  {
    if b != [] && b[0] == Sep then b
    else if a == [] || a[|a| - 1] == Sep then a + b
    else a + [Sep] + b
  }
}
