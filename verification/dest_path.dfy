/** resolve_safe_dest_path of core/transfer/receiver.py: a remote-supplied file
  * name becomes an unused path directly inside the downloads directory. */
module DestPaths {
  import opened Wrappers
  import opened Strings
  import opened FileReceivers

  // ---- os.path, POSIX flavour ------------------------------------------------------------------

  function ReplaceBackslashes(s: string): (r: string)
    ensures |r| == |s|
  {
    seq(|s|, i requires 0 <= i < |s| => if s[i] == '\\' then '/' else s[i])
  }

  /** The index of the last c in s, or -1. */
  function LastIndex(s: string, c: char): (k: int)
    ensures -1 <= k < |s|
    ensures k >= 0 ==> s[k] == c
    ensures forall i :: k < i < |s| ==> s[i] != c
  {
    if s == [] then -1
    else if s[|s| - 1] == c then |s| - 1
    else LastIndex(s[..|s| - 1], c)
  }

  function Basename(s: string): (r: string)
    ensures '/' !in r
  {
    s[LastIndex(s, '/') + 1..]
  }

  predicate AllDots(s: string) { forall i :: 0 <= i < |s| ==> s[i] == '.' }

  /** Leading dots do not begin an extension. */
  function SplitExt(name: string): (r: (string, string))
    ensures r.0 + r.1 == name
  {
    var dot := LastIndex(name, '.');
    if dot < 0 || AllDots(name[..dot]) then (name, "") else (name[..dot], name[dot..])
  }

  function Join(dir: Path, name: string): Path {
    if dir == [] || dir[|dir| - 1] == '/' then dir + name else dir + "/" + name
  }

  // ---- Candidate names -------------------------------------------------------------------------

  function Digit(d: nat): char
    requires d < 10
  {
    (48 + d) as char
  }

  function Decimal(n: nat): (s: string)
    ensures |s| > 0
  {
    if n < 10 then [Digit(n)] else Decimal(n / 10) + [Digit(n % 10)]
  }

  function SafeName(filename: string): Option<string> {
    var name := Strip(Basename(ReplaceBackslashes(filename)));
    if name == [] || name == "." || name == ".." then None else Some(name)
  }

  /** The k-th name tried: the name itself, then "base (k)ext". */
  function CandidateName(name: string, k: nat): string {
    var (base, ext) := SplitExt(name);
    if k == 0 then name else base + " (" + Decimal(k) + ")" + ext
  }

  function Candidate(dir: Path, name: string, k: nat): Path { Join(dir, CandidateName(name, k)) }

  predicate Free(existing: set<Path>, path: Path) { path !in existing && PartPath(path) !in existing }

  lemma {:induction false} DecimalInjective(m: nat, n: nat)
    requires Decimal(m) == Decimal(n)
    ensures m == n
  {
    var s, t := Decimal(m), Decimal(n);
    assert s[|s| - 1] == t[|t| - 1];
    assert Digit(m % 10) == Digit(n % 10);
    if m >= 10 && n >= 10 {
      assert s[..|s| - 1] == Decimal(m / 10) && t[..|t| - 1] == Decimal(n / 10);
      DecimalInjective(m / 10, n / 10);
    }
  }

  lemma CancelAround(pre: string, a: string, b: string, post: string)
    requires pre + a + post == pre + b + post
    ensures a == b
  {
    var s, t := pre + a + post, pre + b + post;
    assert |a| == |b|;
    assert s[|pre|..|pre| + |a|] == a && t[|pre|..|pre| + |b|] == b;
  }

  lemma CandidateInjective(dir: Path, name: string, j: nat, k: nat)
    requires Candidate(dir, name, j) == Candidate(dir, name, k)
    ensures j == k
  {
    var (base, ext) := SplitExt(name);
    var lead := if dir == [] || dir[|dir| - 1] == '/' then dir else dir + "/";
    var x, y := CandidateName(name, j), CandidateName(name, k);
    assert lead + x + [] == lead + x && lead + y + [] == lead + y;
    CancelAround(lead, x, y, []);
    var pre, post := base + " (", ")" + ext;
    assert forall n: nat :: n > 0 ==> CandidateName(name, n) == pre + Decimal(n) + post;
    if j > 0 && k > 0 {
      CancelAround(pre, Decimal(j), Decimal(k), post);
      DecimalInjective(j, k);
    } else {
      assert |name| == |base| + |ext|;
    }
  }

  /** The paths that block a candidate: those that exist, and those whose
    * .part exists. */
  function Blockers(existing: set<Path>): set<Path> {
    existing + set q | q in existing && |q| >= 5 && q[|q| - 5..] == PartExtension :: q[..|q| - 5]
  }

  lemma BlockedIsBlocker(existing: set<Path>, path: Path)
    requires !Free(existing, path)
    ensures path in Blockers(existing)
  {}

  // ---- The result is a direct child of the directory ---------------------------------------------

  /** A single path component other than the two special ones. */
  predicate PlainName(s: string) { s != [] && s != "." && s != ".." && '/' !in s }

  lemma SafeNameIsPlain(filename: string)
    requires SafeName(filename).Some?
    ensures PlainName(SafeName(filename).value)
  {
    var b := Basename(ReplaceBackslashes(filename));
    var i := StripLeftSlice(b);
    var j := StripRightSlice(b[i..]);
  }

  lemma {:induction false} DecimalHasNoSlash(n: nat)
    ensures '/' !in Decimal(n)
  {
    if n >= 10 { DecimalHasNoSlash(n / 10); }
  }

  lemma CandidateIsPlain(name: string, k: nat)
    requires PlainName(name)
    ensures PlainName(CandidateName(name, k))
  {
    var (base, ext) := SplitExt(name);
    assert '/' !in base && '/' !in ext by {
      assert forall c :: c in base || c in ext ==> c in base + ext;
    }
    DecimalHasNoSlash(k);
    if k > 0 {
      var s := CandidateName(name, k);
      assert s[|base|] == ' ' && |s| >= 4;
    }
  }

  // ---- The search -----------------------------------------------------------------------------------

  ghost predicate FirstFree(existing: set<Path>, dir: Path, name: string, k: nat, path: Path) {
    && path == Candidate(dir, name, k) && Free(existing, path)
    && forall j :: 0 <= j < k ==> !Free(existing, Candidate(dir, name, j))
  }

  /** The first k candidates are blocked, and left are the blockers that are
    * not among them. */
  ghost predicate Tried(existing: set<Path>, dir: Path, name: string, k: nat, left: set<Path>) {
    && (forall j :: 0 <= j < k ==> !Free(existing, Candidate(dir, name, j)))
    && (forall p :: p in Blockers(existing) && p !in left ==> exists j :: 0 <= j < k && p == Candidate(dir, name, j))
  }

  /** A blocked candidate is a blocker not met before. */
  lemma NextBlocker(existing: set<Path>, dir: Path, name: string, k: nat, left: set<Path>)
    requires Tried(existing, dir, name, k, left) && !Free(existing, Candidate(dir, name, k))
    ensures Candidate(dir, name, k) in left
    ensures Tried(existing, dir, name, k + 1, left - {Candidate(dir, name, k)})
  {
    var c := Candidate(dir, name, k);
    BlockedIsBlocker(existing, c);
    if c !in left {
      var j :| 0 <= j < k && c == Candidate(dir, name, j);
      CandidateInjective(dir, name, j, k);
    }
    forall p | p in Blockers(existing) && p !in left - {c}
      ensures exists j :: 0 <= j < k + 1 && p == Candidate(dir, name, j)
    {
      if p != c {
        var j :| 0 <= j < k && p == Candidate(dir, name, j);
        assert 0 <= j < k + 1;
      }
    }
  }

  /** The search ends on every finite file system: each name tried is a
    * different blocker. */
  lemma SearchEnds(existing: set<Path>, dir: Path, name: string)
    ensures exists k, path :: FirstFree(existing, dir, name, k, path)
  {
    var k := 0;
    var left := Blockers(existing);
    while !Free(existing, Candidate(dir, name, k))
      invariant Tried(existing, dir, name, k, left)
      decreases left
    {
      NextBlocker(existing, dir, name, k, left);
      left := left - {Candidate(dir, name, k)};
      k := k + 1;
    }
    assert FirstFree(existing, dir, name, k, Candidate(dir, name, k));
  }

  /** The path the search gives. */
  ghost function FirstFreePath(existing: set<Path>, dir: Path, name: string): (path: Path)
    ensures Free(existing, path) && exists k :: FirstFree(existing, dir, name, k, path)
  {
    SearchEnds(existing, dir, name);
    var path :| exists k :: FirstFree(existing, dir, name, k, path);
    path
  }

  lemma OneFirstFree(existing: set<Path>, dir: Path, name: string, j: nat, p: Path, k: nat, q: Path)
    requires FirstFree(existing, dir, name, j, p) && FirstFree(existing, dir, name, k, q)
    ensures j == k && p == q
  {}

  lemma FirstFreeUnique(existing: set<Path>, dir: Path, name: string, k: nat, path: Path)
    requires FirstFree(existing, dir, name, k, path)
    ensures path == FirstFreePath(existing, dir, name)
  {
    var p := FirstFreePath(existing, dir, name);
    var j: nat :| FirstFree(existing, dir, name, j, p);
    OneFirstFree(existing, dir, name, j, p, k, path);
  }

  method ResolveSafeDestPath(filename: string, dir: Path, existing: set<Path>) returns (r: Result<Path, ()>)
    ensures r == if SafeName(filename).None? then Err(())
                 else Ok(FirstFreePath(existing, dir, SafeName(filename).value))
    ensures r.Ok? ==> exists k :: FirstFree(existing, dir, SafeName(filename).value, k, r.value)
    ensures r.Ok? ==> exists child :: PlainName(child) && r.value == Join(dir, child)
  {
    var name := Strip(Basename(ReplaceBackslashes(filename)));
    if name == [] || name == "." || name == ".." {
      return Err(());
    }
    SafeNameIsPlain(filename);
    var (base, ext) := SplitExt(name);
    var candidate := Join(dir, name);
    var counter := 1;
    ghost var left := Blockers(existing);
    while candidate in existing || PartPath(candidate) in existing
      invariant counter >= 1 && candidate == Candidate(dir, name, counter - 1)
      invariant Tried(existing, dir, name, counter - 1, left)
      decreases left
    {
      NextBlocker(existing, dir, name, counter - 1, left);
      left := left - {candidate};
      candidate := Join(dir, base + " (" + Decimal(counter) + ")" + ext);
      counter := counter + 1;
    }
    FirstFreeUnique(existing, dir, name, counter - 1, candidate);
    CandidateIsPlain(name, counter - 1);
    return Ok(candidate);
  }

  // ---- What the names are -------------------------------------------------------------------------

  predicate IsSeparator(c: char) { c == '/' || c == '\\' }

  predicate NoSeparator(s: string) { forall i :: 0 <= i < |s| ==> !IsSeparator(s[i]) }

  predicate Trimmed(s: string) { s != [] && !IsSpace(s[0]) && !IsSpace(s[|s| - 1]) }

  /** name stands behind the last separator of a file name, of either kind, with
    * white space around it: from i to j, behind k. */
  ghost predicate PartAt(filename: string, name: string, k: int, i: int, j: int) {
    && 0 <= k <= i <= j <= |filename| && (k == 0 || IsSeparator(filename[k - 1]))
    && NoSeparator(filename[k..]) && AllSpace(filename[k..i]) && AllSpace(filename[j..]) && name == filename[i..j]
  }

  ghost predicate LastPart(filename: string, name: string) { exists k, i, j :: PartAt(filename, name, k, i, j) }

  lemma BasenameFrom(filename: string, k: nat)
    requires k <= |filename| && (k == 0 || IsSeparator(filename[k - 1])) && NoSeparator(filename[k..])
    ensures Basename(ReplaceBackslashes(filename)) == filename[k..]
  {
    var r := ReplaceBackslashes(filename);
    forall i | k <= i < |r| ensures r[i] == filename[i] && r[i] != '/' {
      assert filename[k..][i - k] == filename[i];
    }
    if k > 0 { assert r[k - 1] == '/'; }
    assert LastIndex(r, '/') == k - 1;
    assert r[k..] == filename[k..];
  }

  lemma {:induction false} TrimmedStays(s: string)
    requires Trimmed(s)
    ensures Strip(s) == s
  {}

  /** The safe name of a file name is exactly its last part, unless that is empty,
    * the directory itself or its parent. */
  lemma SafeNameExactly(filename: string, name: string)
    ensures SafeName(filename) == Some(name)
       <==> Trimmed(name) && name != "." && name != ".." && LastPart(filename, name)
  {
    if Trimmed(name) && LastPart(filename, name) {
      var k, i, j :| PartAt(filename, name, k, i, j);
      PartIsCut(filename, name, k, i, j);
    }
    if SafeName(filename) == Some(name) {
      SafeNameFound(filename, name);
    }
  }

  lemma PartIsCut(filename: string, name: string, k: nat, i: nat, j: nat)
    requires Trimmed(name) && PartAt(filename, name, k, i, j)
    ensures Strip(Basename(ReplaceBackslashes(filename))) == name
  {
    BasenameFrom(filename, k);
    ThreeSlices(filename, k, i, j);
    PaddedIsTrimmed(filename[k..i], name, filename[j..]);
  }

  lemma ThreeSlices(s: string, k: nat, i: nat, j: nat)
    requires k <= i <= j <= |s|
    ensures s[k..] == s[k..i] + s[i..j] + s[j..]
  {}

  lemma PaddedIsTrimmed(pre: string, name: string, post: string)
    requires AllSpace(pre) && AllSpace(post) && Trimmed(name)
    ensures Strip(pre + name + post) == name
  {
    StripPadded(pre, name, post);
    TrimmedStays(name);
  }

  lemma BehindLast(filename: string) returns (k: nat)
    ensures k <= |filename| && (k == 0 || IsSeparator(filename[k - 1])) && NoSeparator(filename[k..])
    ensures Basename(ReplaceBackslashes(filename)) == filename[k..]
  {
    var r := ReplaceBackslashes(filename);
    k := LastIndex(r, '/') + 1;
    forall i | 0 <= i < |filename[k..]| ensures !IsSeparator(filename[k..][i]) { assert r[k + i] != '/'; }
    BasenameFrom(filename, k);
  }

  lemma StripSlice(s: string) returns (i: nat, j: nat)
    ensures i <= j <= |s| && AllSpace(s[..i]) && AllSpace(s[j..]) && Strip(s) == s[i..j]
  {
    i := StripLeftSlice(s);
    var n := StripRightSlice(s[i..]);
    j := i + n;
    assert s[i..][..n] == s[i..j] && s[i..][n..] == s[j..];
  }

  lemma SubSlices(s: string, k: nat, i: nat, j: nat)
    requires k <= |s| && i <= j <= |s| - k
    ensures s[k..][..i] == s[k..k + i] && s[k..][j..] == s[k + j..] && s[k..][i..j] == s[k + i..k + j]
  {
    assert forall n :: 0 <= n < |s| - k ==> s[k..][n] == s[k + n];
  }

  lemma SafeNameFound(filename: string, name: string)
    requires SafeName(filename) == Some(name)
    ensures Trimmed(name) && LastPart(filename, name)
  {
    var k := BehindLast(filename);
    var part := filename[k..];
    var i, j := StripSlice(part);
    StripTrims(part);
    SubSlices(filename, k, i, j);
    assert PartAt(filename, name, k, k + i, k + j);
  }

  lemma {:induction false} StripLeftTrims(s: string)
    ensures StripLeft(s) != [] ==> !IsSpace(StripLeft(s)[0])
  {
    if s != [] && IsSpace(s[0]) { StripLeftTrims(s[1..]); }
  }

  lemma {:induction false} StripRightTrims(s: string)
    ensures StripRight(s) != [] ==> !IsSpace(StripRight(s)[|StripRight(s)| - 1]) && StripRight(s)[0] == s[0]
  {
    if s != [] && IsSpace(s[|s| - 1]) { StripRightTrims(s[..|s| - 1]); }
  }

  lemma StripTrims(s: string)
    ensures Strip(s) != [] ==> Trimmed(Strip(s))
  {
    StripLeftTrims(s);
    StripRightTrims(StripLeft(s));
  }

  /** A name has an extension exactly when some dot comes behind something else than
    * dots; then it begins at the last dot. */
  lemma SplitExtExactly(name: string, base: string, ext: string)
    ensures SplitExt(name) == (base, ext)
       <==> && base + ext == name
            && (if exists i, j :: 0 <= i < j < |name| && name[i] != '.' && name[j] == '.'
                then ext != [] && ext[0] == '.' && '.' !in ext[1..] else ext == [])
  {
    var dot := LastIndex(name, '.');
    if i, j :| 0 <= i < j < |name| && name[i] != '.' && name[j] == '.' {
      assert j <= dot && !AllDots(name[..dot]) by { assert name[..dot][i] == name[i]; }
      assert '.' !in name[dot..][1..];
      if base + ext == name && ext != [] && ext[0] == '.' && '.' !in ext[1..] {
        assert name[|base|] == '.';
        forall n | |base| < n < |name| ensures name[n] != '.' { assert name[n] == ext[1..][n - |base| - 1]; }
        assert dot == |base| && name[..dot] == base && name[dot..] == ext;
      }
    } else {
      assert dot >= 0 ==> AllDots(name[..dot]);
      assert base + [] == base && SplitExt(name) == (name, []);
    }
  }

  /** The number a text of decimal digits stands for. */
  function ReadDecimal(s: string): nat {
    if s == [] then 0
    else ReadDecimal(s[..|s| - 1]) * 10 + (if '0' <= s[|s| - 1] <= '9' then s[|s| - 1] as nat - 48 else 0)
  }

  lemma {:induction false} DecimalReads(n: nat)
    ensures ReadDecimal(Decimal(n)) == n && (forall i :: 0 <= i < |Decimal(n)| ==> '0' <= Decimal(n)[i] <= '9')
    ensures Decimal(n)[0] == '0' ==> n == 0
  {
    var s := Decimal(n);
    if n < 10 {
      assert s[..0] == [];
    } else {
      DecimalReads(n / 10);
      assert s[..|s| - 1] == Decimal(n / 10);
    }
  }

  // ---- How two destinations may collide -------------------------------------------------------------

  /** What a caller can see of whether a free path is separate from another
    * destination: which of the other's two files exist, and the names. */
  predicate SeparateByName(existing: set<Path>, path: Path, other: Path) {
    && (PartPath(other) in existing || (path != other && path != PartPath(other)))
    && (other in existing || PartPath(path) != other)
  }

  /** For a path the search may give, that is exactly separateness. In
    * particular it is separate from a destination whose .part file exists
    * precisely when its own .part is not that destination. */
  lemma SeparationOfFree(existing: set<Path>, path: Path, other: Path)
    requires Free(existing, path)
    ensures Separate(path, other) <==> SeparateByName(existing, path, other)
    ensures PartPath(other) in existing ==> (Separate(path, other) <==> PartPath(path) != other)
  {
    if path != other { PartsDiffer(path, other); }
  }

  /** A name that needs no cleaning. */
  predicate CleanName(name: string) {
    PlainName(name) && '\\' !in name && !IsSpace(name[0]) && !IsSpace(name[|name| - 1])
  }

  lemma CleanNameIsSafe(name: string)
    requires CleanName(name)
    ensures SafeName(name) == Some(name)
  {
    assert ReplaceBackslashes(name) == name;
    assert LastIndex(name, '/') == -1;
  }

  lemma CleanPartName(name: string)
    requires CleanName(name)
    ensures CleanName(name + PartExtension)
    ensures forall dir :: Join(dir, name + PartExtension) == PartPath(Join(dir, name))
  {
    var part := name + PartExtension;
    assert part[0] == name[0] && part[|part| - 1] == 't' && |part| > 2;
    forall c | c in part ensures c in name || c in PartExtension {}
    forall dir ensures Join(dir, part) == PartPath(Join(dir, name)) {
      assert dir + (name + PartExtension) == dir + name + PartExtension;
      assert dir + "/" + (name + PartExtension) == dir + "/" + name + PartExtension;
    }
  }

  /** A name whose own path is free gets it. */
  lemma FreeAtOnce(existing: set<Path>, dir: Path, name: string)
    requires CleanName(name) && Free(existing, Join(dir, name))
    ensures SafeName(name) == Some(name) && FirstFreePath(existing, dir, name) == Join(dir, name)
  {
    CleanNameIsSafe(name);
    FirstFreeUnique(existing, dir, name, 0, Join(dir, name));
  }
}
