/**
 * Choosing a file name that does not collide with an existing one:
 * Python's `os.path.splitext` (POSIX flavour) and `get_unique_filename`,
 * which tries `base(1).ext`, `base(2).ext`, ... until a name is free.
 */
module Naming {
  import opened Text

  /** Index of the last `c` in `s`, or -1 when there is none (Python's `rfind`). */
  function LastIndex(s: string, c: char): (k: int)
    ensures -1 <= k < |s|
    ensures k >= 0 ==> s[k] == c
    ensures forall i :: k < i < |s| ==> s[i] != c
  {
    if s == [] then -1
    else if s[|s| - 1] == c then |s| - 1
    else LastIndex(s[..|s| - 1], c)
  }

  /**
   * `os.path.splitext`: the extension starts at the last '.' of the last
   * path component, unless only dots precede it there (as in ".bashrc").
   */
  function SplitExt(path: string): (r: (string, string))
    ensures r.0 + r.1 == path
    ensures r.1 == [] || (r.1[0] == '.' && '/' !in r.1 && '.' !in r.1[1..])
  {
    var sep := LastIndex(path, '/');
    var dot := LastIndex(path, '.');
    if dot > sep && exists k :: sep < k < dot && path[k] != '.' then
      (path[..dot], path[dot..])
    else
      (path, "")
  }

  /** Text appended without `c` leaves the last `c` where it was. */
  lemma LastIndexAppend(a: string, b: string, c: char)
    requires c !in b
    ensures LastIndex(a + b, c) == LastIndex(a, c)
  {
    var k := LastIndex(a + b, c);
    var m := LastIndex(a, c);
    if m >= 0 {
      assert (a + b)[m] == a[m];
    }
    if 0 <= k < |a| {
      assert a[k] == (a + b)[k];
    }
  }

  /**
   * The names the program builds, `f"{title}.{ext}"`, split back into the
   * title and the dot-led extension, whenever the extension has neither
   * '.' nor '/' and the title's last component has a character other than
   * '.'.
   */
  lemma SplitExtOfTitle(title: string, ext: string)
    requires '.' !in ext && '/' !in ext
    requires exists k :: LastIndex(title, '/') < k < |title| && title[k] != '.'
    ensures SplitExt(title + "." + ext) == (title, "." + ext)
  {
    var path := title + "." + ext;
    assert path == title + ("." + ext);
    LastIndexAppend(title, "." + ext, '/');
    var sep := LastIndex(path, '/');
    var dot := LastIndex(path, '.');
    assert path[|title|] == '.';
    assert dot == |title|;
    var k :| LastIndex(title, '/') < k < |title| && title[k] != '.';
    assert sep < k < dot && path[k] != '.';
    assert path[..dot] == title;
    assert path[dot..] == "." + ext;
  }

  /** `f"{base_name}({index}){extension}"`. */
  function Candidate(root: string, ext: string, index: nat): string {
    root + "(" + Decimal(index) + ")" + ext
  }

  /** Different indices give different candidate names. */
  lemma CandidateInjective(root: string, ext: string, i: nat, j: nat)
    requires Candidate(root, ext, i) == Candidate(root, ext, j)
    ensures i == j
  {
    var s := Candidate(root, ext, i);
    assert s[|root| + 1..|s| - |ext| - 1] == Decimal(i);
    assert Candidate(root, ext, j)[|root| + 1..|s| - |ext| - 1] == Decimal(j);
    DecimalInjective(i, j);
  }

  /** The candidates for indices 1 to n. */
  ghost function Tried(root: string, ext: string, n: nat): set<string> {
    set j | 1 <= j <= n :: Candidate(root, ext, j)
  }

  lemma {:induction false} TriedSize(root: string, ext: string, n: nat)
    ensures |Tried(root, ext, n)| == n
  {
    if n > 0 {
      TriedSize(root, ext, n - 1);
      assert Tried(root, ext, n) == Tried(root, ext, n - 1) + {Candidate(root, ext, n)};
      if Candidate(root, ext, n) in Tried(root, ext, n - 1) {
        var j :| 1 <= j <= n - 1 && Candidate(root, ext, j) == Candidate(root, ext, n);
        CandidateInjective(root, ext, j, n);
      }
    }
  }

  /** If the first n candidates all exist, the folder holds at least n names. */
  lemma CandidatesCounted(existing: set<string>, root: string, ext: string, n: nat)
    requires forall j :: 1 <= j <= n ==> Candidate(root, ext, j) in existing
    ensures n <= |existing|
  {
    var tried := Tried(root, ext, n);
    TriedSize(root, ext, n);
    assert existing == tried + (existing - tried);
    assert tried * (existing - tried) == {};
  }

  /** The least index from `i` on whose candidate is free. */
  function LeastFreeFrom(existing: set<string>, root: string, ext: string, i: nat): (k: nat)
    requires 1 <= i
    requires forall j :: 1 <= j < i ==> Candidate(root, ext, j) in existing
    ensures i <= k && Candidate(root, ext, k) !in existing
    ensures forall j :: 1 <= j < k ==> Candidate(root, ext, j) in existing
    decreases |existing| + 1 - i
  {
    if Candidate(root, ext, i) !in existing then i
    else
      CandidatesCounted(existing, root, ext, i);
      LeastFreeFrom(existing, root, ext, i + 1)
  }

  /**
   * The name `get_unique_filename` settles on: the candidate with the least
   * index from 1 whose name is not taken. It is free, and it is never the
   * name it was derived from.
   */
  function UniqueName(existing: set<string>, base: string): (name: string)
    ensures name !in existing
    ensures name != base
    ensures exists i :: 1 <= i && name == Candidate(SplitExt(base).0, SplitExt(base).1, i)
              && forall j :: 1 <= j < i ==> Candidate(SplitExt(base).0, SplitExt(base).1, j) in existing
  {
    var (root, ext) := SplitExt(base);
    var i := LeastFreeFrom(existing, root, ext, 1);
    assert |Candidate(root, ext, i)| > |base|;
    Candidate(root, ext, i)
  }

  /** For a name `f"{title}.{ext}"` the number goes between title and extension: `title(i).ext`. */
  lemma UniqueNameOfTitle(existing: set<string>, title: string, ext: string)
    requires '.' !in ext && '/' !in ext
    requires exists k :: LastIndex(title, '/') < k < |title| && title[k] != '.'
    ensures exists i :: 1 <= i && UniqueName(existing, title + "." + ext) == title + "(" + Decimal(i) + ")" + ("." + ext)
  {
    var base := title + "." + ext;
    var name := UniqueName(existing, base);
    SplitExtOfTitle(title, ext);
    var i :| 1 <= i && name == Candidate(SplitExt(base).0, SplitExt(base).1, i)
             && forall j :: 1 <= j < i ==> Candidate(SplitExt(base).0, SplitExt(base).1, j) in existing;
    var digits := Decimal(i);
    assert name == title + "(" + digits + ")" + ("." + ext);
  }

  /** `get_unique_filename`: try the candidates in order until one is free. */
  method GetUniqueFilename(existing: set<string>, base: string) returns (name: string)
    ensures name == UniqueName(existing, base)
  {
    var (root, ext) := SplitExt(base);
    var index := 1;
    while true
      invariant 1 <= index
      invariant forall j :: 1 <= j < index ==> Candidate(root, ext, j) in existing
      invariant LeastFreeFrom(existing, root, ext, index) == LeastFreeFrom(existing, root, ext, 1)
      decreases |existing| + 1 - index
    {
      var candidate := Candidate(root, ext, index);
      if candidate !in existing {
        return candidate;
      }
      CandidatesCounted(existing, root, ext, index);
      index := index + 1;
    }
  }
}
