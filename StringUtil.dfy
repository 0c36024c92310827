/** Java string operations the exporter relies on, stated on `seq<char>`. */
module StringUtil {

  /** A Java reference that may be null. */
  datatype Option<+T> = None | Some(value: T)

  /** `String.replace(pat, rep)`: literal, left to right, non-overlapping. */
  function ReplaceAll(s: string, pat: string, rep: string): string
    requires |pat| > 0
    decreases |s|
  {
    if |s| < |pat| then s
    else if s[..|pat|] == pat then rep + ReplaceAll(s[|pat|..], pat, rep)
    else [s[0]] + ReplaceAll(s[1..], pat, rep)
  }

  /** Replaces every occurrence of the single character `c` by `rep`, one character at a time. */
  function SubstChar(s: string, c: char, rep: string): string
  {
    if s == [] then [] else (if s[0] == c then rep else [s[0]]) + SubstChar(s[1..], c, rep)
  }

  lemma {:induction false} SubstCharConcat(x: string, y: string, c: char, rep: string)
    ensures SubstChar(x + y, c, rep) == SubstChar(x, c, rep) + SubstChar(y, c, rep)
  {
    if x != [] {
      assert (x + y)[1..] == x[1..] + y;
      SubstCharConcat(x[1..], y, c, rep);
    } else {
      assert x + y == y;
    }
  }

  /** Replacing a one-character pattern is the character-wise substitution. */
  lemma {:induction false} ReplaceSingleChar(s: string, c: char, rep: string)
    ensures ReplaceAll(s, [c], rep) == SubstChar(s, c, rep)
  {
    if s != [] {
      ReplaceSingleChar(s[1..], c, rep);
      assert s[..1] == [s[0]];
    }
  }

  /** A character that occurs nowhere is left alone. */
  lemma {:induction false} SubstCharAbsent(s: string, c: char, rep: string)
    requires c !in s
    ensures SubstChar(s, c, rep) == s
  {
    if s != [] {
      assert s == [s[0]] + s[1..];
      SubstCharAbsent(s[1..], c, rep);
    }
  }

  /** Number of occurrences of `c` in `s`. */
  function CountChar(s: string, c: char): nat
  {
    if s == [] then 0 else (if s[0] == c then 1 else 0) + CountChar(s[1..], c)
  }

  lemma {:induction false} CountCharConcat(x: string, y: string, c: char)
    ensures CountChar(x + y, c) == CountChar(x, c) + CountChar(y, c)
  {
    if x == [] {
      assert x + y == y;
    } else {
      assert (x + y)[1..] == x[1..] + y;
      CountCharConcat(x[1..], y, c);
    }
  }

  lemma {:induction false} CountCharAbsent(s: string, c: char)
    requires c !in s
    ensures CountChar(s, c) == 0
  {
    if s != [] {
      CountCharAbsent(s[1..], c);
    }
  }

  /** `s` repeated `n` times. */
  function Repeat(s: string, n: nat): string
  {
    if n == 0 then [] else Repeat(s, n - 1) + s
  }

  /** The words of `ws` separated by `sep`. */
  function Join(ws: seq<string>, sep: string): string
  {
    if |ws| == 0 then []
    else if |ws| == 1 then ws[0]
    else ws[0] + sep + Join(ws[1..], sep)
  }

  /** `String.startsWith(p, from)`. */
  predicate StartsWithAt(s: string, p: string, from: nat)
  {
    from + |p| <= |s| && s[from..from + |p|] == p
  }

  /** `Character.isWhitespace`, which is what `java.util.Scanner` splits on by default. */
  predicate IsJavaWhitespace(c: char)
  {
    || c == ' ' || c == '\t' || c == '\n' || c == '\U{000B}' || c == '\U{000C}' || c == '\r'
    || ('\U{001C}' <= c <= '\U{001F}')
    || c == '\U{1680}' || ('\U{2000}' <= c <= '\U{2006}') || ('\U{2008}' <= c <= '\U{200A}')
    || c == '\U{2028}' || c == '\U{2029}' || c == '\U{205F}' || c == '\U{3000}'
  }

  /** `\s` in a Java regular expression (without the Unicode flag). */
  predicate IsRegexSpace(c: char)
  {
    c == ' ' || c == '\t' || c == '\n' || c == '\U{000B}' || c == '\U{000C}' || c == '\r'
  }

  /** `toLowerCase`, restricted to ASCII letters. */
  function ToLowerAscii(s: string): (r: string)
    ensures |r| == |s|
    ensures forall i :: 0 <= i < |s| && !('A' <= s[i] <= 'Z') ==> r[i] == s[i]
  {
    if s == [] then []
    else [if 'A' <= s[0] <= 'Z' then (s[0] as int + 32) as char else s[0]] + ToLowerAscii(s[1..])
  }

  /** `String.compareTo`: the difference of the first differing characters, else of the lengths. */
  function JavaCompare(a: string, b: string): int
  {
    if a == [] || b == [] then |a| - |b|
    else if a[0] != b[0] then a[0] as int - b[0] as int
    else JavaCompare(a[1..], b[1..])
  }

  lemma {:induction false} JavaCompareZero(a: string, b: string)
    ensures JavaCompare(a, b) == 0 <==> a == b
  {
    if a != [] && b != [] && a[0] == b[0] {
      JavaCompareZero(a[1..], b[1..]);
      assert a == [a[0]] + a[1..] && b == [b[0]] + b[1..];
    }
  }

  lemma {:induction false} JavaCompareAntisymmetric(a: string, b: string)
    ensures JavaCompare(a, b) == -JavaCompare(b, a)
  {
    if a != [] && b != [] && a[0] == b[0] {
      JavaCompareAntisymmetric(a[1..], b[1..]);
    }
  }

  lemma {:induction false} JavaCompareTransitive(a: string, b: string, c: string)
    requires JavaCompare(a, b) <= 0 && JavaCompare(b, c) <= 0
    ensures JavaCompare(a, c) <= 0
  {
    if a != [] && b != [] && c != [] && a[0] == b[0] && b[0] == c[0] {
      JavaCompareTransitive(a[1..], b[1..], c[1..]);
    }
  }

  /** The characters of `s` that belong to `cs`, in order. */
  function Project(s: string, cs: set<char>): string
  {
    if s == [] then [] else (if s[0] in cs then [s[0]] else []) + Project(s[1..], cs)
  }

  lemma {:induction false} ProjectConcat(x: string, y: string, cs: set<char>)
    ensures Project(x + y, cs) == Project(x, cs) + Project(y, cs)
  {
    if x == [] {
      assert x + y == y;
    } else {
      var h := if x[0] in cs then [x[0]] else [];
      assert Project(x + y, cs) == h + Project(x[1..] + y, cs) by {
        assert (x + y)[0] == x[0];
        assert (x + y)[1..] == x[1..] + y;
      }
      ProjectConcat(x[1..], y, cs);
      AppendAssoc(h, Project(x[1..], cs), Project(y, cs));
    }
  }

  /** The characters of `s` that do not belong to `cs`, in order. */
  function Omit(s: string, cs: set<char>): string
  {
    if s == [] then [] else (if s[0] in cs then [] else [s[0]]) + Omit(s[1..], cs)
  }

  lemma {:induction false} OmitConcat(x: string, y: string, cs: set<char>)
    ensures Omit(x + y, cs) == Omit(x, cs) + Omit(y, cs)
  {
    if x == [] {
      assert x + y == y;
    } else {
      var h := if x[0] in cs then [] else [x[0]];
      assert Omit(x + y, cs) == h + Omit(x[1..] + y, cs) by {
        assert (x + y)[0] == x[0];
        assert (x + y)[1..] == x[1..] + y;
      }
      OmitConcat(x[1..], y, cs);
      AppendAssoc(h, Omit(x[1..], cs), Omit(y, cs));
    }
  }

  /** Omitting characters that do not occur changes nothing, and omitting all of them leaves nothing. */
  lemma {:induction false} OmitDisjoint(s: string, cs: set<char>)
    ensures (forall i :: 0 <= i < |s| ==> s[i] !in cs) ==> Omit(s, cs) == s
    ensures (forall i :: 0 <= i < |s| ==> s[i] in cs) ==> Omit(s, cs) == []
  {
    if s != [] {
      OmitDisjoint(s[1..], cs);
      assert forall i :: 0 <= i < |s| - 1 ==> s[1..][i] == s[i + 1];
      if forall i :: 0 <= i < |s| ==> s[i] !in cs {
        assert [s[0]] + s[1..] == s;
      }
    }
  }

  /** Appending a piece made only of omitted characters and then a piece with none of them adds just the latter. */
  lemma OmitSnoc(t: string, sep: string, w: string, cs: set<char>)
    requires forall i :: 0 <= i < |sep| ==> sep[i] in cs
    requires forall i :: 0 <= i < |w| ==> w[i] !in cs
    ensures Omit(t + sep + w, cs) == Omit(t, cs) + w
  {
    OmitConcat(t, sep, cs);
    OmitConcat(t + sep, w, cs);
    OmitDisjoint(sep, cs);
    OmitDisjoint(w, cs);
  }

  /** Nothing is kept exactly when no character of `s` is in `cs`. */
  lemma {:induction false} ProjectEmpty(s: string, cs: set<char>)
    ensures Project(s, cs) == [] <==> forall i :: 0 <= i < |s| ==> s[i] !in cs
  {
    if s != [] {
      ProjectEmpty(s[1..], cs);
      assert forall i :: 1 <= i < |s| ==> s[i] == s[1..][i - 1];
    }
  }

  /**
   * Replacing a pattern by a text with the same characters from `cs`, in the
   * same order, leaves the characters from `cs` of the whole string unchanged.
   */
  lemma {:induction false} ReplaceAllProject(s: string, pat: string, rep: string, cs: set<char>)
    requires |pat| > 0 && Project(pat, cs) == Project(rep, cs)
    ensures Project(ReplaceAll(s, pat, rep), cs) == Project(s, cs)
    decreases |s|
  {
    if |s| < |pat| {
    } else if s[..|pat|] == pat {
      ReplaceAllProject(s[|pat|..], pat, rep, cs);
      ProjectConcat(rep, ReplaceAll(s[|pat|..], pat, rep), cs);
      ProjectConcat(s[..|pat|], s[|pat|..], cs);
      assert s == s[..|pat|] + s[|pat|..];
    } else {
      ReplaceAllProject(s[1..], pat, rep, cs);
      ProjectConcat([s[0]], ReplaceAll(s[1..], pat, rep), cs);
      assert ([s[0]] + ReplaceAll(s[1..], pat, rep))[1..] == ReplaceAll(s[1..], pat, rep);
    }
  }

  /** Appending a word to a joined list adds one separator and the word. */
  lemma {:induction false} JoinSnoc(ws: seq<string>, w: string, sep: string)
    requires ws != []
    ensures Join(ws + [w], sep) == Join(ws, sep) + sep + w
    decreases |ws|
  {
    var t := ws + [w];
    if |ws| == 1 {
      assert t[1..] == [w];
    } else {
      assert t[1..] == ws[1..] + [w];
      JoinSnoc(ws[1..], w, sep);
    }
  }

  /** A prefix one longer is the shorter prefix and one more element. */
  lemma PrefixSnoc<T>(s: seq<T>, n: nat)
    requires 0 < n <= |s|
    ensures s[..n] == s[..n - 1] + [s[n - 1]]
  {
  }

  /** Concatenation is associative. */
  lemma AppendAssoc<T>(a: seq<T>, b: seq<T>, c: seq<T>)
    ensures (a + b) + c == a + (b + c)
  {
  }

  /**
   * The order of two records compared first by an enum (whose `compareTo`
   * is the difference of the ordinals) and then by name.
   */
  function RankedCompare(rank1: nat, name1: string, rank2: nat, name2: string): int
  {
    if rank1 != rank2 then rank1 - rank2 else JavaCompare(name1, name2)
  }

  lemma RankedCompareZero(rank1: nat, name1: string, rank2: nat, name2: string)
    ensures RankedCompare(rank1, name1, rank2, name2) == 0 <==> rank1 == rank2 && name1 == name2
  {
    JavaCompareZero(name1, name2);
  }

  lemma RankedCompareAntisymmetric(rank1: nat, name1: string, rank2: nat, name2: string)
    ensures RankedCompare(rank1, name1, rank2, name2) == -RankedCompare(rank2, name2, rank1, name1)
  {
    JavaCompareAntisymmetric(name1, name2);
  }

  lemma RankedCompareTransitive(rank1: nat, name1: string, rank2: nat, name2: string, rank3: nat, name3: string)
    requires RankedCompare(rank1, name1, rank2, name2) <= 0 && RankedCompare(rank2, name2, rank3, name3) <= 0
    ensures RankedCompare(rank1, name1, rank3, name3) <= 0
  {
    if rank1 == rank2 && rank2 == rank3 {
      JavaCompareTransitive(name1, name2, name3);
    }
  }
}
