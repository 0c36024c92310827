/**
 * Where an exported file goes: its path under the export root and under its
 * mod's directory, and the relative link from one exported page to it.
 */
module ExportPaths {
  import opened StringUtil

  /**
   * An exported file. `file` is never assigned by the constructor (its
   * parameter of the same name hides it), so it stays null.
   */
  datatype ExportPath = ExportPath(absolute: string, relative: string, relativeToMod: string, file: Option<string>)

  /** A directory that may be absent, as the start of a path. */
  function DirPrefix(dir: Option<string>): string
  {
    if dir.None? then [] else dir.value + "/"
  }

  /** The constructor: `dir/file` under the mod's directory, under `base`. */
  function NewExportPath(base: string, modDir: Option<string>, dir: Option<string>, file: string): (e: ExportPath)
    ensures e.absolute == base + "/" + DirPrefix(modDir) + DirPrefix(dir) + file
    ensures e.relative == DirPrefix(modDir) + e.relativeToMod
    ensures |e.relative| < |e.absolute| && e.absolute[|e.absolute| - |e.relative|..] == e.relative
    ensures e.file.None?
  {
    var relativeToMod := if dir.None? then file else dir.value + "/" + file;
    var relative := if modDir.None? then relativeToMod else modDir.value + "/" + relativeToMod;
    ExportPath(base + "/" + relative, relative, relativeToMod, None)
  }

  // ---------------------------------------------------------------------------
  // The common directory of two paths
  // ---------------------------------------------------------------------------

  /**
   * The first `k` characters of `b` are those of `a` followed by a `/`, and
   * end with a `/` (or `k` is 0): `b` lies under that directory of `a`.
   */
  predicate SlashPrefix(a: string, b: string, k: nat)
  {
    k == 0 || (k <= |a| + 1 && k <= |b| && (a + "/")[..k] == b[..k] && (a + "/")[k - 1] == '/')
  }

  /** The largest `SlashPrefix` at most `k`. */
  function SearchSlashPrefix(a: string, b: string, k: nat): (r: nat)
    ensures r <= k && SlashPrefix(a, b, r)
    ensures forall j :: r < j <= k ==> !SlashPrefix(a, b, j)
  {
    if k == 0 || SlashPrefix(a, b, k) then k else SearchSlashPrefix(a, b, k - 1)
  }

  /** The length of the longest directory `a` and `b` have in common, its final `/` included. */
  function LongestSlashPrefix(a: string, b: string): (r: nat)
    ensures SlashPrefix(a, b, r) && r <= |b|
    ensures forall k: nat :: SlashPrefix(a, b, k) ==> k <= r
  {
    SearchSlashPrefix(a, b, |b|)
  }

  /** Once the scan stops at `pos`, no longer common directory exists except `a` itself when `b` goes on with a `/`. */
  lemma ScanStop(a: string, b: string, pos: nat, k: nat)
    requires pos <= |a| && pos <= |b| && a[..pos] == b[..pos]
    requires pos == |a| || pos == |b| || a[pos] != b[pos]
    requires SlashPrefix(a, b, k) && k > pos
    ensures k == pos + 1 && pos == |a| && pos < |b| && b[pos] == '/'
  {
    assert (a + "/")[..k][pos] == b[..k][pos];
  }

  /** `commonPrefix`. */
  method CommonPrefix(a: string, b: string) returns (last: nat)
    ensures last == LongestSlashPrefix(a, b)
  {
    var pos := 0;
    last := 0;
    while pos < |a| && pos < |b| && a[pos] == b[pos]
      invariant pos <= |a| && pos <= |b| && a[..pos] == b[..pos]
      invariant last <= pos && SlashPrefix(a, b, last)
      invariant forall k :: last < k <= pos ==> !SlashPrefix(a, b, k)
    {
      if a[pos] == '/' {
        last := pos + 1;
        assert (a + "/")[..last] == a[..last] == b[..last];
      }
      pos := pos + 1;
    }
    if pos == |a| && pos < |b| && b[pos] == '/' {
      last := pos + 1;
      assert (a + "/")[..last] == a + "/" == b[..last];
    }
    assert SlashPrefix(a, b, last);
    forall k: nat | SlashPrefix(a, b, k)
      ensures k <= last
    {
      if k > pos {
        ScanStop(a, b, pos, k);
      }
    }
    var longest := LongestSlashPrefix(a, b);
    assert longest <= last && last <= longest;
  }

  // ---------------------------------------------------------------------------
  // Counting directories
  // ---------------------------------------------------------------------------

  /** The number of path components of `a`: none for the empty path, else one more than its slashes. */
  function Depth(a: string): nat
  {
    if |a| == 0 then 0 else 1 + CountChar(a, '/')
  }

  /** `countDir`. */
  method CountDir(a: string) returns (count: nat)
    ensures count == Depth(a)
  {
    if |a| == 0 {
      return 0;
    }
    count := 1;
    var i := 0;
    while i < |a|
      invariant i <= |a| && count == 1 + CountChar(a[..i], '/')
    {
      PrefixSnoc(a, i + 1);
      CountCharConcat(a[..i], [a[i]], '/');
      if a[i] == '/' {
        count := count + 1;
      }
      i := i + 1;
    }
    assert a[..|a|] == a;
  }

  // ---------------------------------------------------------------------------
  // Relative links
  // ---------------------------------------------------------------------------

  /** How many directories a link from `dir` to `absolute` climbs. */
  function UpCount(dir: string, absolute: string): nat
  {
    var prefix := LongestSlashPrefix(dir, absolute);
    if prefix < |dir| then Depth(dir[prefix..]) else 0
  }

  /** What `relativeTo` returns: one `../` per directory climbed, then the rest of the path below the common directory. */
  function RelativePath(dir: string, absolute: string): string
  {
    Repeat("../", UpCount(dir, absolute)) + absolute[LongestSlashPrefix(dir, absolute)..]
  }

  /** `relativeTo`. */
  method RelativeTo(e: ExportPath, dir: string) returns (out: string)
    ensures out == RelativePath(dir, e.absolute)
  {
    var prefix := CommonPrefix(dir, e.absolute);
    var n := 0;
    if prefix < |dir| {
      n := CountDir(dir[prefix..]);
    }
    out := "";
    var i := 0;
    while i < n
      invariant i <= n && out == Repeat("../", i)
    {
      out := out + "../";
      i := i + 1;
    }
    out := out + e.absolute[prefix..];
  }

  /** A file under `dir` is linked without climbing: the link is its path below `dir`. */
  lemma RelativePathBelow(dir: string, absolute: string)
    requires |dir| + 1 <= |absolute| && absolute[..|dir| + 1] == dir + "/"
    ensures RelativePath(dir, absolute) == absolute[|dir| + 1..]
  {
    assert SlashPrefix(dir, absolute, |dir| + 1);
  }

  /** The index of the last `/` among the first `i` characters of `s`, or -1. */
  function LastSlashBefore(s: string, i: nat): (r: int)
    requires i <= |s|
    ensures -1 <= r < i
    ensures r >= 0 ==> s[r] == '/'
    ensures forall k :: r < k < i ==> s[k] != '/'
  {
    if i == 0 then -1 else if s[i - 1] == '/' then i - 1 else LastSlashBefore(s, i - 1)
  }

  /**
   * Where the directory `d[..i]` (empty, or ending with `/`) ends after
   * climbing `n` directories: each climb drops the last component.
   */
  function UpIndex(d: string, i: nat, n: nat): (r: nat)
    requires i <= |d|
    ensures r <= i
    decreases n
  {
    if n == 0 || i == 0 then i else UpIndex(d, LastSlashBefore(d, i - 1) + 1, n - 1)
  }

  /** The directory `d`, ending with `/`, after climbing `n` directories. */
  function Up(d: string, n: nat): string
  {
    d[..UpIndex(d, |d|, n)]
  }

  /** The slashes of `d[p..i - 1]` are those of `d[p..j]` and the one at `j`, the last before `i - 1`. */
  lemma CountUpToSlash(d: string, p: nat, j: nat, i: nat)
    requires p <= j < i - 1 < |d| && d[j] == '/' && forall k :: j < k < i - 1 ==> d[k] != '/'
    ensures CountChar(d[p..i - 1], '/') == 1 + CountChar(d[p..j], '/')
  {
    assert d[p..i - 1] == d[p..j + 1] + d[j + 1..i - 1];
    assert d[p..j + 1] == d[p..j] + "/";
    assert '/' !in d[j + 1..i - 1];
    CountCharAbsent(d[j + 1..i - 1], '/');
    CountCharConcat(d[p..j + 1], d[j + 1..i - 1], '/');
    CountCharConcat(d[p..j], "/", '/');
  }

  /** When no `/` of `d[p..i - 1]` remains, one climb from `d[..i]` reaches `d[..p]`. */
  lemma ClimbLast(d: string, p: nat, i: nat)
    requires p < i <= |d| && (p == 0 || d[p - 1] == '/') && LastSlashBefore(d, i - 1) < p
    ensures CountChar(d[p..i - 1], '/') == 0 && LastSlashBefore(d, i - 1) + 1 == p
  {
    assert '/' !in d[p..i - 1];
    CountCharAbsent(d[p..i - 1], '/');
  }

  /**
   * From the directory `d[..i]` inside `d[..p]`, climbing once per component
   * of `d[p..i - 1]` reaches `d[..p]`.
   */
  lemma {:induction false} ClimbTo(d: string, p: nat, i: nat)
    requires p < i <= |d| && d[i - 1] == '/' && (p == 0 || d[p - 1] == '/')
    ensures UpIndex(d, i, 1 + CountChar(d[p..i - 1], '/')) == p
    decreases i, 1
  {
    if LastSlashBefore(d, i - 1) < p {
      ClimbLast(d, p, i);
    } else {
      ClimbPast(d, p, i);
    }
  }

  /** The climb from `d[..i]` when `d[p..i - 1]` still holds a `/`: one step to the last one, then the rest. */
  lemma {:induction false} ClimbPast(d: string, p: nat, i: nat)
    requires p < i <= |d| && d[i - 1] == '/' && (p == 0 || d[p - 1] == '/')
    requires p <= LastSlashBefore(d, i - 1)
    ensures UpIndex(d, i, 1 + CountChar(d[p..i - 1], '/')) == p
    decreases i, 0
  {
    var j := LastSlashBefore(d, i - 1);
    CountUpToSlash(d, p, j, i);
    ClimbTo(d, p, j + 1);
  }

  /**
   * The link resolves: climbing from `dir` as many directories as the link
   * has `../`, then following the rest of the link, reaches `absolute`.
   */
  lemma RelativePathResolves(dir: string, absolute: string)
    requires dir != [] && dir[|dir| - 1] != '/'
    ensures Up(dir + "/", UpCount(dir, absolute)) + absolute[LongestSlashPrefix(dir, absolute)..] == absolute
  {
    var d := dir + "/";
    var p := LongestSlashPrefix(dir, absolute);
    assert d[..p] == absolute[..p];
    assert UpIndex(d, |d|, UpCount(dir, absolute)) == p by {
      if p < |dir| {
        assert d[p..|d| - 1] == dir[p..];
        ClimbTo(d, p, |d|);
      } else {
        assert p == |dir| + 1;
      }
    }
    assert absolute[..p] + absolute[p..] == absolute;
  }
}
