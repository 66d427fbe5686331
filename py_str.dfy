/**
 * The Python `str` built-ins the import scanner relies on: whitespace
 * classification, `str.startswith` and argument-less `str.split()`.
 */
module PyStr {

  /** Python's `str.isspace()` table: the fixed set of code points that the
      argument-less `str.split()` treats as separators (U+0009 to U+000D,
      U+001C to U+0020, U+0085, U+00A0, U+1680, U+2000 to U+200A, U+2028,
      U+2029, U+202F, U+205F, U+3000). */
  predicate IsSpace(c: char) {
    var n := c as int;
    if n <= 0x20 then (0x09 <= n <= 0x0D) || 0x1C <= n
    else if n < 0x1680 then n == 0x85 || n == 0xA0
    else n == 0x1680 || (0x2000 <= n <= 0x200A) || n == 0x2028 || n == 0x2029
         || n == 0x202F || n == 0x205F || n == 0x3000
  }

  /** A field that `str.split()` can produce: non-empty, free of whitespace. */
  predicate IsWord(w: string) {
    |w| > 0 && forall i :: 0 <= i < |w| ==> !IsSpace(w[i])
  }

  /** `s.startswith(prefix)`: a raw prefix test on characters, not on tokens. */
  predicate StartsWith(s: string, prefix: string): (b: bool)
    ensures b <==> |prefix| <= |s| && forall i :: 0 <= i < |prefix| ==> s[i] == prefix[i]
  {
    |prefix| <= |s| && s[..|prefix|] == prefix
  }

  lemma StartsWithIsPrefix(s: string, prefix: string)
    ensures StartsWith(s, prefix) <==> exists rest :: s == prefix + rest
  {
    if StartsWith(s, prefix) {
      assert s == prefix + s[|prefix|..];
    }
  }

  /** Length of the run of whitespace at the start of `s`. */
  function SpaceRun(s: string): (n: nat)
    ensures n <= |s|
    ensures forall i :: 0 <= i < n ==> IsSpace(s[i])
    ensures n < |s| ==> !IsSpace(s[n])
  {
    if s != [] && IsSpace(s[0]) then 1 + SpaceRun(s[1..]) else 0
  }

  /** Length of the run of non-whitespace characters at the start of `s`. */
  function WordRun(s: string): (n: nat)
    ensures n <= |s|
    ensures s != [] && !IsSpace(s[0]) ==> n > 0
    ensures forall i :: 0 <= i < n ==> !IsSpace(s[i])
    ensures n < |s| ==> IsSpace(s[n])
  {
    if s != [] && !IsSpace(s[0]) then 1 + WordRun(s[1..]) else 0
  }

  /** `s.split()`: the maximal runs of non-whitespace characters of `s`, in
      order; runs of whitespace separate fields and no field is empty. */
  function Split(s: string): seq<string>
    decreases |s|
  {
    var t := s[SpaceRun(s)..];
    if t == [] then []
    else
      var n := WordRun(t);
      [t[..n]] + Split(t[n..])
  }

  /** Every field is a word: non-empty and without whitespace. */
  lemma {:induction false} SplitFieldsAreWords(s: string)
    ensures forall k :: 0 <= k < |Split(s)| ==> IsWord(Split(s)[k])
    decreases |s|
  {
    var t := s[SpaceRun(s)..];
    if t != [] {
      var n := WordRun(t);
      SplitFirstField(s);
      SplitFieldsAreWords(t[n..]);
      AllWordsCons(t[..n], Split(t[n..]));
    }
  }

  /** Where a non-blank string has its first field: after the leading
      whitespace, up to the next whitespace. */
  lemma SplitFirstField(s: string)
    requires s[SpaceRun(s)..] != []
    ensures var t := s[SpaceRun(s)..];
            var n := WordRun(t);
            Split(s) == [t[..n]] + Split(t[n..]) && IsWord(t[..n])
  {
    var t := s[SpaceRun(s)..];
    var n := WordRun(t);
    var w := t[..n];
    forall i | 0 <= i < n ensures !IsSpace(w[i]) {
      assert w[i] == t[i];
    }
  }

  lemma AllWordsCons(w: string, rest: seq<string>)
    requires IsWord(w)
    requires forall k :: 0 <= k < |rest| ==> IsWord(rest[k])
    ensures forall k :: 0 <= k < |[w] + rest| ==> IsWord(([w] + rest)[k])
  {
    forall k | 0 <= k < |[w] + rest| ensures IsWord(([w] + rest)[k]) {
      if k > 0 {
        assert ([w] + rest)[k] == rest[k - 1];
      }
    }
  }

  /** The characters of `s` that are not whitespace, in order. */
  function NonSpace(s: string): string {
    if s == [] then []
    else (if IsSpace(s[0]) then [] else [s[0]]) + NonSpace(s[1..])
  }

  /** The fields glued back together without separators. */
  function Concat(words: seq<string>): string {
    if words == [] then [] else words[0] + Concat(words[1..])
  }

  /** The fields joined by one blank, as `" ".join(words)`. */
  function Join(words: seq<string>): string {
    if words == [] then []
    else if |words| == 1 then words[0]
    else words[0] + " " + Join(words[1..])
  }

  lemma {:induction false} NonSpaceAppend(a: string, b: string)
    ensures NonSpace(a + b) == NonSpace(a) + NonSpace(b)
    decreases |a|
  {
    if a != [] {
      assert (a + b)[1..] == a[1..] + b;
      NonSpaceAppend(a[1..], b);
    } else {
      assert a + b == b;
    }
  }

  lemma {:induction false} NonSpaceOfSpaces(s: string)
    requires forall i :: 0 <= i < |s| ==> IsSpace(s[i])
    ensures NonSpace(s) == []
    decreases |s|
  {
    if s != [] {
      NonSpaceOfSpaces(s[1..]);
    }
  }

  lemma {:induction false} NonSpaceOfWord(s: string)
    requires forall i :: 0 <= i < |s| ==> !IsSpace(s[i])
    ensures NonSpace(s) == s
    decreases |s|
  {
    if s != [] {
      NonSpaceOfWord(s[1..]);
      assert s == [s[0]] + s[1..];
    }
  }

  /** Splitting loses exactly the whitespace: the fields, glued together,
      are the non-whitespace characters of the input in their order. */
  lemma {:induction false} SplitKeepsNonSpace(s: string)
    ensures Concat(Split(s)) == NonSpace(s)
    decreases |s|
  {
    var m := SpaceRun(s);
    var t := s[m..];
    assert s == s[..m] + t;
    NonSpaceOfSpaces(s[..m]);
    NonSpaceAppend(s[..m], t);
    if t != [] {
      var n := WordRun(t);
      assert t == t[..n] + t[n..];
      SplitFirstField(s);
      NonSpaceOfWord(t[..n]);
      NonSpaceAppend(t[..n], t[n..]);
      SplitKeepsNonSpace(t[n..]);
      assert ([t[..n]] + Split(t[n..]))[1..] == Split(t[n..]);
    }
  }

  /** Splitting the blank-joined fields gives the fields back. */
  lemma {:induction false} SplitJoin(words: seq<string>)
    requires forall k :: 0 <= k < |words| ==> IsWord(words[k])
    ensures Split(Join(words)) == words
    decreases |words|
  {
    if |words| == 1 {
      SplitWordThen(words[0], []);
      assert words[0] + [] == words[0];
    } else if |words| > 1 {
      SplitJoin(words[1..]);
      SplitJoinStep(words);
    }
  }

  /** One step of `SplitJoin`: a first word in front of fields that already
      round-trip. */
  lemma SplitJoinStep(words: seq<string>)
    requires |words| > 1 && IsWord(words[0])
    requires Split(Join(words[1..])) == words[1..]
    ensures Split(Join(words)) == words
  {
    var rest := Join(words[1..]);
    assert Join(words) == words[0] + (" " + rest);
    SplitWordBlankThen(words[0], rest);
    assert words == [words[0]] + words[1..];
  }

  /** A word, a blank, then anything: the word is the first field. */
  lemma SplitWordBlankThen(w: string, rest: string)
    requires IsWord(w)
    ensures Split(w + (" " + rest)) == [w] + Split(rest)
  {
    var tail := " " + rest;
    assert IsSpace(tail[0]);
    SplitWordThen(w, tail);
    SplitLeadingBlank(rest);
  }

  /** A word followed by whitespace (or by nothing) is the first field. */
  lemma SplitWordThen(w: string, rest: string)
    requires IsWord(w)
    requires rest == [] || IsSpace(rest[0])
    ensures Split(w + rest) == [w] + Split(rest)
  {
    var s := w + rest;
    assert SpaceRun(s) == 0 by {
      assert s[0] == w[0];
    }
    assert s[0..] == s;
    WordRunOfWord(w, rest);
    assert s[..|w|] == w;
    assert s[|w|..] == rest;
  }

  lemma WordRunOfWord(w: string, rest: string)
    requires IsWord(w)
    requires rest == [] || IsSpace(rest[0])
    ensures WordRun(w + rest) == |w|
  {
    var s := w + rest;
    assert forall i :: 0 <= i < |w| ==> s[i] == w[i];
    assert |w| < |s| ==> s[|w|] == rest[0];
  }

  /** Leading whitespace of any kind is not part of any field. */
  lemma SplitLeadingSpace(c: char, s: string)
    requires IsSpace(c)
    ensures Split([c] + s) == Split(s)
  {
    var b := [c] + s;
    assert b[1..] == s;
    var m := SpaceRun(s);
    assert SpaceRun(b) == 1 + m;
    assert b[1 + m..] == s[m..];
  }

  lemma SplitLeadingBlank(s: string)
    ensures Split(" " + s) == Split(s)
  {
    SplitLeadingSpace(' ', s);
    assert " " + s == [' '] + s;
  }

  /** A text of whitespace only has no fields. */
  lemma SplitOfSpaces(s: string)
    requires forall i :: 0 <= i < |s| ==> IsSpace(s[i])
    ensures Split(s) == []
  {
    assert s[SpaceRun(s)..] == [];
  }

  /** A blank, a word, then whitespace or nothing: the word is the first field. */
  lemma SplitBlankWordThen(w: string, rest: string)
    requires IsWord(w)
    requires rest == [] || IsSpace(rest[0])
    ensures Split(" " + (w + rest)) == [w] + Split(rest)
  {
    SplitLeadingBlank(w + rest);
    SplitWordThen(w, rest);
  }

  /** The first two fields of `w1`, any whitespace character `c`, `w2` and
      `rest`, when `rest` is empty or starts with whitespace. */
  lemma SplitTwoWordsSep(w1: string, c: char, w2: string, rest: string)
    requires IsWord(w1) && IsWord(w2) && IsSpace(c)
    requires rest == [] || IsSpace(rest[0])
    ensures var words := Split(w1 + ([c] + (w2 + rest)));
            |words| >= 2 && words[0] == w1 && words[1] == w2
  {
    SplitLeadingSpace(c, w2 + rest);
    SplitWordThen(w2, rest);
    SplitWordThen(w1, [c] + (w2 + rest));
  }

  /** The first two fields of `w1 + " " + w2 + rest`, when `rest` is empty
      or starts with whitespace. */
  lemma SplitTwoWords(w1: string, w2: string, rest: string)
    requires IsWord(w1) && IsWord(w2)
    requires rest == [] || IsSpace(rest[0])
    ensures var words := Split(w1 + (" " + (w2 + rest)));
            |words| >= 2 && words[0] == w1 && words[1] == w2
  {
    SplitBlankWordThen(w2, rest);
    SplitWordThen(w1, " " + (w2 + rest));
  }

  /** A prefix of a prefix. */
  lemma StartsWithExtend(s: string, tail: string, prefix: string)
    requires StartsWith(s, prefix)
    ensures StartsWith(s + tail, prefix)
  {
    assert (s + tail)[..|prefix|] == s[..|prefix|];
  }
}
