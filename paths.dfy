/** The part of pathlib the renamer relies on: a path is a parent directory
    and a final component, `suffix` is the part of the final component from
    its last dot on, and names are lowercased with `str.lower`. */
module Paths {

  /** `dir / name`, as pathlib's `parent` and `name` of a path. */
  datatype Path = Path(dir: string, name: string)

  /** The prefix that marks a staged file during a rename. */
  const TempPrefix: string := "__temp_rename_"

  /** Index of the last occurrence of `c` in `s`, or -1 (Python's `str.rfind`). */
  function RFind(s: string, c: char): (r: int)
    ensures -1 <= r < |s|
    ensures r >= 0 ==> s[r] == c
    ensures forall j :: r < j < |s| ==> s[j] != c
  {
    if s == [] then -1
    else if s[|s| - 1] == c then |s| - 1
    else RFind(s[..|s| - 1], c)
  }

  /** The index the contract of RFind describes is the only one it can be. */
  lemma RFindUnique(s: string, c: char, r: int)
    requires -1 <= r < |s|
    requires r >= 0 ==> s[r] == c
    requires forall j :: r < j < |s| ==> s[j] != c
    ensures RFind(s, c) == r
  {
  }

  /** pathlib's `PurePath.suffix`: from the last dot on, provided that dot is
      neither the first nor the last character of the name; otherwise "". */
  function Suffix(name: string): (r: string)
    ensures r != [] ==> |r| >= 2 && r[0] == '.' && |r| < |name|
    ensures r != [] ==> r == name[|name| - |r|..]
    ensures forall j :: 0 < j < |r| ==> r[j] != '.'
  {
    var i := RFind(name, '.');
    if 0 < i < |name| - 1 then name[i..] else ""
  }

  /** A name has no suffix exactly when it ends in a dot or has no dot
      after its first character. */
  lemma SuffixEmpty(name: string)
    ensures Suffix(name) == [] <==>
              (forall j :: 0 < j < |name| - 1 ==> name[j] != '.') ||
              (|name| > 0 && name[|name| - 1] == '.')
  {
  }

  /** A name made of a non-empty stem and a dot-led extension with no other
      dot has that extension as its suffix. */
  lemma SuffixOfConcat(stem: string, ext: string)
    requires |stem| > 0 && |ext| >= 2 && ext[0] == '.'
    requires forall j :: 0 < j < |ext| ==> ext[j] != '.'
    ensures Suffix(stem + ext) == ext
  {
    RFindUnique(stem + ext, '.', |stem|);
    assert (stem + ext)[|stem|..] == ext;
  }

  /** A name whose only dot is its first character has no suffix. */
  lemma SuffixOfDotFile(name: string)
    requires |name| > 0 && name[0] == '.'
    requires forall j :: 0 < j < |name| ==> name[j] != '.'
    ensures Suffix(name) == ""
  {
    RFindUnique(name, '.', 0);
  }

  /** `str.lower` on one character, for the ASCII letters. */
  function LowerChar(c: char): char {
    if 'A' <= c <= 'Z' then (c as int + 32) as char else c
  }

  /** `str.lower`, character by character. */
  function Lower(s: string): (r: string)
    ensures |r| == |s|
    ensures forall i :: 0 <= i < |s| ==> r[i] == LowerChar(s[i])
  {
    seq(|s|, i requires 0 <= i < |s| => LowerChar(s[i]))
  }

  /** Lowercasing leaves no upper-case letter, moves no dot, and is idempotent. */
  lemma LowerFacts(s: string)
    ensures forall i :: 0 <= i < |s| ==> !('A' <= Lower(s)[i] <= 'Z')
    ensures forall i :: 0 <= i < |s| ==> (Lower(s)[i] == '.' <==> s[i] == '.')
    ensures Lower(Lower(s)) == Lower(s)
  {
  }

  /** The staging name of `p`: `p.parent / ("__temp_rename_" + p.name)`. */
  function TempPath(p: Path): Path {
    Path(p.dir, TempPrefix + p.name)
  }

  /** Distinct sources get distinct staging names. */
  lemma TempPathInjective(p: Path, q: Path)
    ensures TempPath(p) == TempPath(q) <==> p == q
  {
    if TempPath(p) == TempPath(q) {
      assert p.name == TempPath(p).name[|TempPrefix|..];
    }
  }
}
