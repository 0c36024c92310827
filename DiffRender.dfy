/**
 * The second half of the upgrade diff: the aligned words are written out
 * with markers that show which words belong to the base text, which to the
 * upgraded text and which to both, in one of the three output dialects, and
 * the result is tidied by a fixed chain of replacements.
 */
module DiffRender {
  import opened StringUtil
  import opened CardText
  import opened Alignment

  // ---------------------------------------------------------------------------
  // Parenthesis nesting
  // ---------------------------------------------------------------------------

  /** The parenthesis characters. */
  const ParenChars: set<char> := {'(', ')'}

  /** `s` holds no parenthesis. */
  predicate ParenFree(s: string)
  {
    Project(s, ParenChars) == []
  }

  /**
   * The parenthesis depth after reading `s` from depth `d`, where only the
   * depths 0 and 1 are allowed: an opening parenthesis at depth 1, a closing
   * one at depth 0, is an error, and an error (-1) is final.
   */
  function Nest(s: string, d: int): int
  {
    if s == [] || d < 0 then d
    else if s[0] == '(' then Nest(s[1..], if d == 0 then 1 else -1)
    else if s[0] == ')' then Nest(s[1..], if d == 1 then 0 else -1)
    else Nest(s[1..], d)
  }

  lemma {:induction false} NestConcat(x: string, y: string, d: int)
    ensures Nest(x + y, d) == Nest(y, Nest(x, d))
  {
    if x == [] {
      assert x + y == y;
    } else if d >= 0 {
      assert (x + y)[1..] == x[1..] + y;
      var d' := if x[0] == '(' then (if d == 0 then 1 else -1)
                else if x[0] == ')' then (if d == 1 then 0 else -1) else d;
      NestConcat(x[1..], y, d');
    } else {
      NestFailed(y, d);
    }
  }

  lemma {:induction false} NestFailed(s: string, d: int)
    requires d < 0
    ensures Nest(s, d) == d
  {
  }

  /** The nesting of `s` depends only on its parentheses. */
  lemma {:induction false} NestProject(s: string, d: int)
    ensures Nest(s, d) == Nest(Project(s, ParenChars), d)
  {
    if s != [] && d >= 0 {
      var d' := if s[0] == '(' then (if d == 0 then 1 else -1)
                else if s[0] == ')' then (if d == 1 then 0 else -1) else d;
      NestProject(s[1..], d');
      var p := Project(s, ParenChars);
      if s[0] in ParenChars {
        assert p == [s[0]] + Project(s[1..], ParenChars);
        assert p[0] == s[0] && p[1..] == Project(s[1..], ParenChars);
      } else {
        assert p == Project(s[1..], ParenChars);
      }
    } else if s != [] {
      NestFailed(Project(s, ParenChars), d);
    }
  }

  /** A text without parentheses leaves the depth alone. */
  lemma NestFree(s: string, d: int)
    requires ParenFree(s)
    ensures Nest(s, d) == d
  {
    NestProject(s, d);
  }

  /** Keyword markup adds no parenthesis. */
  lemma FormatKeywordParens(w: string, mode: TextMode, keywords: set<string>)
    ensures Project(FormatKeyword(w, mode, keywords), ParenChars) == Project(w, ParenChars)
  {
    var r := FormatKeyword(w, mode, keywords);
    if r != w {
      if mode == WikiFormat {
        ProjectConcat("[[" + w, "]]", ParenChars);
        ProjectConcat("[[", w, ParenChars);
      } else {
        ProjectConcat("#", w, ParenChars);
      }
    }
  }

  // ---------------------------------------------------------------------------
  // NORMAL and WIKI_FORMAT: parentheses
  // ---------------------------------------------------------------------------
  //
  // Upgraded-only words go in parentheses; a run of base-only words is
  // followed by "(not ...)" repeating it; combined words stand alone.

  /** " w" for each of `words[lo..hi]`, in order: the body of a "(not ...)". */
  function NotList(words: seq<string>, lo: nat, hi: nat): string
    requires hi <= |words|
    decreases hi
  {
    if hi <= lo then [] else NotList(words, lo, hi - 1) + " " + words[hi - 1]
  }

  /** The serializer's state between two words: the text so far, the previous source, and where the current base-only run began. */
  datatype ParenState = ParenState(out: string, prev: Source, astart: nat)

  /**
   * The markers the serializer writes in front of word `i`: the separating
   * space, the end of an upgraded-only run, the start of one, and the
   * "(not ...)" after a base-only run that a combined word ends.
   */
  function ParenMarkers(words: seq<string>, source: seq<Source>, st: ParenState, i: nat): string
    requires |words| == |source| && i < |words| && st.astart <= i
  {
    var x := source[i];
    var o1 := if i > 0 then st.out + " " else st.out;
    var o2 := if x != B && st.prev == B then o1 + ") " else o1;
    var o3 := if x == B && st.prev != B then o2 + "(" else o2;
    if x == C && st.prev == A then o3 + "(not" + NotList(words, st.astart, i) + ")" else o3
  }

  /** What the serializer appends for word `i`, with the state it leaves. */
  function ParenStep(words: seq<string>, source: seq<Source>, mode: TextMode, keywords: set<string>, st: ParenState, i: nat): ParenState
    requires |words| == |source| && i < |words| && st.astart <= i
  {
    var x := source[i];
    var astart := if x == A && st.prev != A then i else st.astart;
    ParenState(ParenMarkers(words, source, st, i) + FormatKeyword(words[i], mode, keywords), x, astart)
  }

  /** The state after the first `n` words. */
  function ParenPrefix(words: seq<string>, source: seq<Source>, mode: TextMode, keywords: set<string>, n: nat): (st: ParenState)
    requires |words| == |source| && n <= |words|
    ensures st.astart <= n
  {
    if n == 0 then ParenState([], C, 0)
    else ParenStep(words, source, mode, keywords, ParenPrefix(words, source, mode, keywords, n - 1), n - 1)
  }

  /** What follows the last word: the closing parenthesis of an upgraded-only run, or the "(not ...)" of a base-only run. */
  function ParenClose(words: seq<string>, st: ParenState): string
    requires st.astart <= |words|
  {
    var o := if st.prev == B then st.out + ")" else st.out;
    if st.prev == A then o + " (not" + NotList(words, st.astart, |words|) + ")" else o
  }

  /** The NORMAL / WIKI_FORMAT rendering of an alignment, before the tidying replacements. */
  function RenderParens(words: seq<string>, source: seq<Source>, mode: TextMode, keywords: set<string>): string
    requires |words| == |source|
  {
    ParenClose(words, ParenPrefix(words, source, mode, keywords, |words|))
  }

  /** Appends " w" for each of `words[lo..hi]`: the loop that writes the body of a "(not ...)". */
  method AppendNotList(out: string, words: seq<string>, lo: nat, hi: nat) returns (out': string)
    requires lo <= hi <= |words|
    ensures out' == out + NotList(words, lo, hi)
  {
    out' := out;
    for j := lo to hi
      invariant out' == out + NotList(words, lo, j)
    {
      out' := out' + " " + words[j];
    }
  }

  /** One turn of the serializer loop: the markers and the word for position `i`. */
  method SerializeWord(words: seq<string>, source: seq<Source>, mode: TextMode, keywords: set<string>,
                       out: string, prev: Source, astart: nat, i: nat)
    returns (out': string, prev': Source, astart': nat)
    requires |words| == |source| && i < |words| && astart <= i
    ensures ParenState(out', prev', astart') == ParenStep(words, source, mode, keywords, ParenState(out, prev, astart), i)
  {
    out', astart' := out, astart;
    if i > 0 {
      out' := out' + " ";
    }
    if source[i] == A && prev != A {
      astart' := i;
    }
    if source[i] != B && prev == B {
      out' := out' + ") ";
    }
    if source[i] == B && prev != B {
      out' := out' + "(";
    }
    if source[i] == C && prev == A {
      out' := AppendNotList(out' + "(not", words, astart', i);
      out' := out' + ")";
    }
    prev' := source[i];
    out' := out' + FormatKeyword(words[i], mode, keywords);
  }

  /** The NORMAL / WIKI_FORMAT serializer. */
  method SerializeParens(words: seq<string>, source: seq<Source>, mode: TextMode, keywords: set<string>) returns (out: string)
    requires |words| == |source|
    ensures out == RenderParens(words, source, mode, keywords)
  {
    var prev := C;
    var astart := 0;
    out := [];
    for i := 0 to |words|
      invariant ParenPrefix(words, source, mode, keywords, i) == ParenState(out, prev, astart)
    {
      out, prev, astart := SerializeWord(words, source, mode, keywords, out, prev, astart, i);
    }
    if prev == B {
      out := out + ")";
    }
    if prev == A {
      out := AppendNotList(out + " (not", words, astart, |words|);
      out := out + ")";
    }
  }

  // ---------------------------------------------------------------------------
  // Properties of the parenthesis rendering
  // ---------------------------------------------------------------------------

  /**
   * Words from one text alone hold no parenthesis, and a combined word's own
   * parentheses are balanced.
   */
  predicate WordsNestOk(words: seq<string>, source: seq<Source>)
    requires |words| == |source|
  {
    forall k :: 0 <= k < |words| ==>
      (source[k] != C ==> ParenFree(words[k])) && (source[k] == C ==> Nest(words[k], 0) == 0)
  }

  lemma {:induction false} NotListParenFree(words: seq<string>, lo: nat, hi: nat)
    requires hi <= |words| && forall k :: lo <= k < hi ==> ParenFree(words[k])
    ensures ParenFree(NotList(words, lo, hi))
    decreases hi
  {
    if hi > lo {
      NotListParenFree(words, lo, hi - 1);
      ProjectConcat(NotList(words, lo, hi - 1), " ", ParenChars);
      ProjectConcat(NotList(words, lo, hi - 1) + " ", words[hi - 1], ParenChars);
    }
  }

  /** A "(not ...)" over base-only words, written at depth 0, closes again. */
  lemma NotGroupNest(o: string, words: seq<string>, lo: nat, hi: nat, lead: string)
    requires hi <= |words| && forall k :: lo <= k < hi ==> ParenFree(words[k])
    requires lead == "(not" || lead == " (not"
    requires Nest(o, 0) == 0
    ensures Nest(o + lead + NotList(words, lo, hi) + ")", 0) == 0
  {
    NotListParenFree(words, lo, hi);
    var nl := NotList(words, lo, hi);
    assert "(not"[1..] == "not" && "not"[1..] == "ot" && "ot"[1..] == "t" && "t"[1..] == [];
    assert Nest("t", 1) == 1;
    assert Nest("(not", 0) == 1;
    if lead == " (not" {
      assert lead[1..] == "(not";
    }
    NestConcat(o, lead, 0);
    NestConcat(o + lead, nl, 0);
    NestFree(nl, 1);
    NestConcat(o + lead + nl, ")", 0);
  }

  /** The nesting facts the serializer keeps between two words. */
  predicate ParenShape(source: seq<Source>, n: nat, st: ParenState)
    requires n <= |source|
  {
    && Nest(st.out, 0) == (if st.prev == B then 1 else 0)
    && st.astart <= n
    && (st.prev == A ==> forall k :: st.astart <= k < n ==> source[k] == A)
  }

  /** The marked-up word leaves the depth where it found it. */
  lemma WordNest(words: seq<string>, source: seq<Source>, mode: TextMode, keywords: set<string>, i: nat, o: string, d: int)
    requires |words| == |source| && i < |words| && WordsNestOk(words, source)
    requires Nest(o, 0) == d && d == (if source[i] == B then 1 else 0)
    ensures Nest(o + FormatKeyword(words[i], mode, keywords), 0) == d
  {
    var fw := FormatKeyword(words[i], mode, keywords);
    FormatKeywordParens(words[i], mode, keywords);
    NestProject(fw, d);
    NestProject(words[i], d);
    NestConcat(o, fw, 0);
    if source[i] != C {
      NestFree(words[i], d);
    }
  }

  /** The markers in front of word `i` take the depth to 1 before an upgraded-only word and to 0 before any other. */
  lemma MarkersNest(words: seq<string>, source: seq<Source>, st: ParenState, i: nat)
    requires |words| == |source| && i < |words| && WordsNestOk(words, source)
    requires ParenShape(source, i, st)
    ensures Nest(ParenMarkers(words, source, st, i), 0) == (if source[i] == B then 1 else 0)
  {
    var x := source[i];
    var o1 := if i > 0 then st.out + " " else st.out;
    if i > 0 {
      NestConcat(st.out, " ", 0);
    }
    var o2 := if x != B && st.prev == B then o1 + ") " else o1;
    if x != B && st.prev == B {
      NestConcat(o1, ") ", 0);
    }
    var o3 := if x == B && st.prev != B then o2 + "(" else o2;
    if x == B && st.prev != B {
      NestConcat(o2, "(", 0);
    }
    if x == C && st.prev == A {
      NotGroupNest(o3, words, st.astart, i, "(not");
    }
  }

  /** One word keeps the nesting facts: depth 1 inside an upgraded-only run, 0 elsewhere. */
  lemma ParenStepShape(words: seq<string>, source: seq<Source>, mode: TextMode, keywords: set<string>, st: ParenState, i: nat)
    requires |words| == |source| && i < |words| && WordsNestOk(words, source)
    requires ParenShape(source, i, st)
    ensures ParenShape(source, i + 1, ParenStep(words, source, mode, keywords, st, i))
  {
    MarkersNest(words, source, st, i);
    WordNest(words, source, mode, keywords, i, ParenMarkers(words, source, st, i), if source[i] == B then 1 else 0);
  }

  /** After any number of words the nesting facts hold. */
  lemma {:induction false} ParenPrefixShape(words: seq<string>, source: seq<Source>, mode: TextMode, keywords: set<string>, n: nat)
    requires |words| == |source| && n <= |words| && WordsNestOk(words, source)
    ensures ParenShape(source, n, ParenPrefix(words, source, mode, keywords, n))
  {
    if n > 0 {
      ParenPrefixShape(words, source, mode, keywords, n - 1);
      ParenStepShape(words, source, mode, keywords, ParenPrefix(words, source, mode, keywords, n - 1), n - 1);
    }
  }

  /**
   * The parentheses of the rendering are balanced and never nested: every
   * upgraded-only run and every "(not ...)" is one flat group.
   */
  lemma RenderParensNest(words: seq<string>, source: seq<Source>, mode: TextMode, keywords: set<string>)
    requires |words| == |source| && WordsNestOk(words, source)
    ensures Nest(RenderParens(words, source, mode, keywords), 0) == 0
  {
    var st := ParenPrefix(words, source, mode, keywords, |words|);
    ParenPrefixShape(words, source, mode, keywords, |words|);
    var o := if st.prev == B then st.out + ")" else st.out;
    NestConcat(st.out, ")", 0);
    assert Nest(o, 0) == 0;
    if st.prev == A {
      NotGroupNest(o, words, st.astart, |words|, " (not");
    }
  }

  /** Each word with its keyword markup. */
  function Formatted(words: seq<string>, mode: TextMode, keywords: set<string>): (fs: seq<string>)
    ensures |fs| == |words|
    ensures forall k :: 0 <= k < |words| ==> fs[k] == FormatKeyword(words[k], mode, keywords)
  {
    seq(|words|, k requires 0 <= k < |words| => FormatKeyword(words[k], mode, keywords))
  }

  /** The body of a "(not ...)" is the words joined by spaces, after one more space. */
  lemma {:induction false} NotListJoin(words: seq<string>, hi: nat)
    requires 0 < hi <= |words|
    ensures NotList(words, 0, hi) == " " + Join(words[..hi], " ")
  {
    if hi == 1 {
      assert words[..1] == [words[0]];
    } else {
      NotListJoin(words, hi - 1);
      PrefixSnoc(words, hi);
      JoinSnoc(words[..hi - 1], words[hi - 1], " ");
    }
  }

  /** A step within a run of one kind of word writes a space and the word, and nothing else. */
  lemma ParenStepInRun(words: seq<string>, source: seq<Source>, mode: TextMode, keywords: set<string>, st: ParenState, i: nat)
    requires |words| == |source| && 0 < i < |words| && st.astart <= i && source[i] == st.prev
    ensures ParenStep(words, source, mode, keywords, st, i)
         == ParenState(st.out + " " + FormatKeyword(words[i], mode, keywords), st.prev, st.astart)
  {
  }

  /** The first step writes the word, after "(" when it is the upgraded text's alone. */
  lemma ParenStepFirst(words: seq<string>, source: seq<Source>, mode: TextMode, keywords: set<string>)
    requires |words| == |source| && 0 < |words|
    ensures ParenStep(words, source, mode, keywords, ParenState([], C, 0), 0)
         == ParenState((if source[0] == B then "(" else []) + FormatKeyword(words[0], mode, keywords), source[0], 0)
  {
    var st := ParenState([], C, 0);
    assert ParenMarkers(words, source, st, 0) == if source[0] == B then "(" else [];
  }

  lemma {:induction false} ParenPrefixAllC(words: seq<string>, mode: TextMode, keywords: set<string>, n: nat)
    requires n <= |words|
    ensures ParenPrefix(words, Run(C, |words|), mode, keywords, n) == ParenState(Join(Formatted(words, mode, keywords)[..n], " "), C, 0)
  {
    if n > 0 {
      var fs := Formatted(words, mode, keywords);
      var source := Run(C, |words|);
      ParenPrefixAllC(words, mode, keywords, n - 1);
      var st := ParenPrefix(words, source, mode, keywords, n - 1);
      PrefixSnoc(fs, n);
      if n > 1 {
        ParenStepInRun(words, source, mode, keywords, st, n - 1);
        JoinSnoc(fs[..n - 1], fs[n - 1], " ");
      } else {
        ParenStepFirst(words, source, mode, keywords);
        assert [] + fs[0] == fs[0];
      }
    }
  }

  /** When every word is common to both texts, the rendering is just the words, marked up and joined by spaces. */
  lemma RenderParensAllC(words: seq<string>, mode: TextMode, keywords: set<string>)
    ensures RenderParens(words, Run(C, |words|), mode, keywords) == Join(Formatted(words, mode, keywords), " ")
  {
    ParenPrefixAllC(words, mode, keywords, |words|);
    assert Formatted(words, mode, keywords)[..|words|] == Formatted(words, mode, keywords);
  }

  lemma {:induction false} ParenPrefixAllB(words: seq<string>, mode: TextMode, keywords: set<string>, n: nat)
    requires 0 < n <= |words|
    ensures ParenPrefix(words, Run(B, |words|), mode, keywords, n) == ParenState("(" + Join(Formatted(words, mode, keywords)[..n], " "), B, 0)
  {
    var fs := Formatted(words, mode, keywords);
    var source := Run(B, |words|);
    if n > 1 {
      var st := ParenPrefix(words, source, mode, keywords, n - 1);
      var j := Join(fs[..n - 1], " ");
      assert st == ParenState("(" + j, B, 0) by {
        ParenPrefixAllB(words, mode, keywords, n - 1);
      }
      assert ParenPrefix(words, source, mode, keywords, n) == ParenState(st.out + " " + fs[n - 1], B, 0) by {
        ParenStepInRun(words, source, mode, keywords, st, n - 1);
      }
      assert Join(fs[..n], " ") == j + " " + fs[n - 1] by {
        PrefixSnoc(fs, n);
        JoinSnoc(fs[..n - 1], fs[n - 1], " ");
      }
      AppendAssoc("(" + j, " ", fs[n - 1]);
      AppendAssoc("(", j, " ");
      AppendAssoc("(", j + " ", fs[n - 1]);
    } else {
      ParenStepFirst(words, source, mode, keywords);
      assert fs[..1] == [fs[0]];
    }
  }

  /** When every word is the upgraded text's alone, the rendering is all of them in one pair of parentheses. */
  lemma RenderParensAllB(words: seq<string>, mode: TextMode, keywords: set<string>)
    requires words != []
    ensures RenderParens(words, Run(B, |words|), mode, keywords) == "(" + Join(Formatted(words, mode, keywords), " ") + ")"
  {
    ParenPrefixAllB(words, mode, keywords, |words|);
    assert Formatted(words, mode, keywords)[..|words|] == Formatted(words, mode, keywords);
  }

  lemma {:induction false} ParenPrefixAllA(words: seq<string>, mode: TextMode, keywords: set<string>, n: nat)
    requires 0 < n <= |words|
    ensures ParenPrefix(words, Run(A, |words|), mode, keywords, n) == ParenState(Join(Formatted(words, mode, keywords)[..n], " "), A, 0)
  {
    var fs := Formatted(words, mode, keywords);
    var source := Run(A, |words|);
    if n > 1 {
      var st := ParenPrefix(words, source, mode, keywords, n - 1);
      var j := Join(fs[..n - 1], " ");
      assert st == ParenState(j, A, 0) by {
        ParenPrefixAllA(words, mode, keywords, n - 1);
      }
      assert ParenPrefix(words, source, mode, keywords, n) == ParenState(j + " " + fs[n - 1], A, 0) by {
        ParenStepInRun(words, source, mode, keywords, st, n - 1);
      }
      assert Join(fs[..n], " ") == j + " " + fs[n - 1] by {
        PrefixSnoc(fs, n);
        JoinSnoc(fs[..n - 1], fs[n - 1], " ");
      }
    } else {
      ParenStepFirst(words, source, mode, keywords);
      assert fs[..1] == [fs[0]];
      assert [] + fs[0] == fs[0];
    }
  }

  /**
   * When every word is the base text's alone, the rendering is the words,
   * then the same words, unmarked, after "(not".
   */
  lemma RenderParensAllA(words: seq<string>, mode: TextMode, keywords: set<string>)
    requires words != []
    ensures RenderParens(words, Run(A, |words|), mode, keywords)
         == Join(Formatted(words, mode, keywords), " ") + " (not " + Join(words, " ") + ")"
  {
    var fs := Formatted(words, mode, keywords);
    var j, n := Join(fs, " "), Join(words, " ");
    assert ParenPrefix(words, Run(A, |words|), mode, keywords, |words|) == ParenState(j, A, 0) by {
      ParenPrefixAllA(words, mode, keywords, |words|);
      assert fs[..|words|] == fs;
    }
    NotGroupClose(words, j);
  }

  /** After a base-only run that began at the first word, closing writes the run again inside "(not ...)". */
  lemma NotGroupClose(words: seq<string>, j: string)
    requires words != []
    ensures ParenClose(words, ParenState(j, A, 0)) == j + " (not " + Join(words, " ") + ")"
  {
    var n := Join(words, " ");
    assert NotList(words, 0, |words|) == " " + n by {
      NotListJoin(words, |words|);
      assert words[..|words|] == words;
    }
    assert j + " (not" + (" " + n) == j + " (not " + n by {
      assert " (not" + " " == " (not ";
      AppendAssoc(j + " (not", " ", n);
      AppendAssoc(j, " (not", " ");
    }
  }

  // Runs of one source inside any alignment.

  /** After the first word, the state remembers the source of the last word written. */
  lemma ParenPrefixPrev(words: seq<string>, source: seq<Source>, mode: TextMode, keywords: set<string>, n: nat)
    requires |words| == |source| && 0 < n <= |words|
    ensures ParenPrefix(words, source, mode, keywords, n).prev == source[n - 1]
  {
  }

  /** The first word of a run sets the source, and a base-only run starts at it. */
  lemma ParenRunStart(words: seq<string>, source: seq<Source>, mode: TextMode, keywords: set<string>, lo: nat)
    requires |words| == |source| && lo < |words|
    requires lo == 0 || source[lo - 1] != source[lo]
    ensures ParenPrefix(words, source, mode, keywords, lo + 1).prev == source[lo]
    ensures source[lo] == A ==> ParenPrefix(words, source, mode, keywords, lo + 1).astart == lo
  {
    var st := ParenPrefix(words, source, mode, keywords, lo);
    assert source[lo] == A ==> st.prev != A by {
      if lo > 0 {
        ParenPrefixPrev(words, source, mode, keywords, lo);
      }
    }
    assert ParenPrefix(words, source, mode, keywords, lo + 1) == ParenStep(words, source, mode, keywords, st, lo);
  }

  /** A word of the same source as the one before it adds a space and the marked-up word. */
  lemma ParenRunStep(words: seq<string>, source: seq<Source>, mode: TextMode, keywords: set<string>, i: nat)
    requires |words| == |source| && 0 < i < |words| && source[i] == source[i - 1]
    ensures var st := ParenPrefix(words, source, mode, keywords, i);
      ParenPrefix(words, source, mode, keywords, i + 1) == ParenState(st.out + " " + FormatKeyword(words[i], mode, keywords), st.prev, st.astart)
  {
    var st := ParenPrefix(words, source, mode, keywords, i);
    assert st.prev == source[i] by {
      ParenPrefixPrev(words, source, mode, keywords, i);
    }
    assert ParenPrefix(words, source, mode, keywords, i + 1) == ParenStep(words, source, mode, keywords, st, i);
    ParenStepInRun(words, source, mode, keywords, st, i);
  }

  /** Throughout a run, the state records the run's source, and for a base-only run where it began. */
  lemma {:induction false} ParenRunTag(words: seq<string>, source: seq<Source>, mode: TextMode, keywords: set<string>, lo: nat, hi: nat)
    requires |words| == |source| && lo < hi <= |words|
    requires forall k :: lo <= k < hi ==> source[k] == source[lo]
    requires lo == 0 || source[lo - 1] != source[lo]
    ensures ParenPrefix(words, source, mode, keywords, hi).prev == source[lo]
    ensures source[lo] == A ==> ParenPrefix(words, source, mode, keywords, hi).astart == lo
    decreases hi
  {
    if hi == lo + 1 {
      ParenRunStart(words, source, mode, keywords, lo);
    } else {
      var st := ParenPrefix(words, source, mode, keywords, hi - 1);
      assert st.prev == source[lo] && (source[lo] == A ==> st.astart == lo) by {
        ParenRunTag(words, source, mode, keywords, lo, hi - 1);
      }
      var next := ParenStep(words, source, mode, keywords, st, hi - 1);
      assert next.prev == source[lo] && (source[lo] == A ==> next.astart == lo) by {
        ParenStepTag(words, source, mode, keywords, st, hi - 1);
      }
      assert ParenPrefix(words, source, mode, keywords, hi) == next;
    }
  }

  /** What a step records: the word's source, and where the current base-only run began. */
  lemma ParenStepTag(words: seq<string>, source: seq<Source>, mode: TextMode, keywords: set<string>, st: ParenState, i: nat)
    requires |words| == |source| && i < |words| && st.astart <= i
    ensures ParenStep(words, source, mode, keywords, st, i).prev == source[i]
    ensures ParenStep(words, source, mode, keywords, st, i).astart == if source[i] == A && st.prev != A then i else st.astart
  {
  }

  /** An upgraded-only run opens with "(" in front of its first word, after the separating space. */
  lemma ParenOpensRun(words: seq<string>, source: seq<Source>, mode: TextMode, keywords: set<string>, lo: nat)
    requires |words| == |source| && lo < |words| && source[lo] == B
    requires lo == 0 || source[lo - 1] != B
    ensures var out := ParenPrefix(words, source, mode, keywords, lo).out;
      ParenPrefix(words, source, mode, keywords, lo + 1).out == (if lo > 0 then out + " " else out) + "(" + FormatKeyword(words[lo], mode, keywords)
  {
    var st := ParenPrefix(words, source, mode, keywords, lo);
    assert st.prev != B by {
      if lo > 0 {
        ParenPrefixPrev(words, source, mode, keywords, lo);
      }
    }
    ParenStepOpens(words, source, mode, keywords, st, lo);
    assert ParenPrefix(words, source, mode, keywords, lo + 1) == ParenStep(words, source, mode, keywords, st, lo);
  }

  /** A step from outside an upgraded-only run into one writes the separator, "(" and the word. */
  lemma ParenStepOpens(words: seq<string>, source: seq<Source>, mode: TextMode, keywords: set<string>, st: ParenState, i: nat)
    requires |words| == |source| && i < |words| && st.astart <= i
    requires source[i] == B && st.prev != B
    ensures ParenStep(words, source, mode, keywords, st, i).out
         == (if i > 0 then st.out + " " else st.out) + "(" + FormatKeyword(words[i], mode, keywords)
  {
  }

  /** A base-only run that follows a combined word writes only the separator and its first word. */
  lemma ParenOpensDeletion(words: seq<string>, source: seq<Source>, mode: TextMode, keywords: set<string>, lo: nat)
    requires |words| == |source| && lo < |words| && source[lo] == A
    requires lo == 0 || source[lo - 1] == C
    ensures var out := ParenPrefix(words, source, mode, keywords, lo).out;
      ParenPrefix(words, source, mode, keywords, lo + 1).out == (if lo > 0 then out + " " else out) + FormatKeyword(words[lo], mode, keywords)
  {
    var st := ParenPrefix(words, source, mode, keywords, lo);
    assert st.prev == C by {
      if lo > 0 {
        ParenPrefixPrev(words, source, mode, keywords, lo);
      }
    }
    assert ParenPrefix(words, source, mode, keywords, lo + 1) == ParenStep(words, source, mode, keywords, st, lo);
  }

  /** The first word after an upgraded-only run is preceded by the run's closing ") ". */
  lemma ParenClosesRun(words: seq<string>, source: seq<Source>, mode: TextMode, keywords: set<string>, hi: nat)
    requires |words| == |source| && 0 < hi < |words| && source[hi - 1] == B && source[hi] != B
    ensures ParenPrefix(words, source, mode, keywords, hi + 1).out
         == ParenPrefix(words, source, mode, keywords, hi).out + " ) " + FormatKeyword(words[hi], mode, keywords)
  {
    var out := ParenPrefix(words, source, mode, keywords, hi).out;
    ParenPrefixPrev(words, source, mode, keywords, hi);
    AppendAssoc(out, " ", ") ");
  }

  /**
   * A combined word that ends a base-only run `lo .. hi` is preceded by
   * " (not", the run's words unmarked, and ")".
   */
  lemma ParenNotGroup(words: seq<string>, source: seq<Source>, mode: TextMode, keywords: set<string>, lo: nat, hi: nat)
    requires |words| == |source| && lo < hi < |words|
    requires forall k :: lo <= k < hi ==> source[k] == A
    requires lo == 0 || source[lo - 1] != A
    requires source[hi] == C
    ensures ParenPrefix(words, source, mode, keywords, hi + 1).out
         == ParenPrefix(words, source, mode, keywords, hi).out + " (not" + NotList(words, lo, hi) + ")" + FormatKeyword(words[hi], mode, keywords)
  {
    var st := ParenPrefix(words, source, mode, keywords, hi);
    assert st.prev == A && st.astart == lo by {
      ParenRunTag(words, source, mode, keywords, lo, hi);
    }
    var nl := NotList(words, lo, hi);
    assert ParenMarkers(words, source, st, hi) == st.out + " " + "(not" + nl + ")";
    assert st.out + " " + "(not" == st.out + " (not" by {
      AppendAssoc(st.out, " ", "(not");
    }
    assert ParenPrefix(words, source, mode, keywords, hi + 1).out
        == ParenMarkers(words, source, st, hi) + FormatKeyword(words[hi], mode, keywords);
  }

  /** A base-only run at the end is repeated inside " (not ...)" after the last word. */
  lemma ParenTrailingNot(words: seq<string>, source: seq<Source>, mode: TextMode, keywords: set<string>, lo: nat)
    requires |words| == |source| && lo < |words|
    requires forall k :: lo <= k < |words| ==> source[k] == A
    requires lo == 0 || source[lo - 1] != A
    ensures RenderParens(words, source, mode, keywords)
         == ParenPrefix(words, source, mode, keywords, |words|).out + " (not" + NotList(words, lo, |words|) + ")"
  {
    ParenRunTag(words, source, mode, keywords, lo, |words|);
  }

  /** An upgraded-only run at the end is closed with ")" after the last word. */
  lemma ParenTrailingClose(words: seq<string>, source: seq<Source>, mode: TextMode, keywords: set<string>)
    requires |words| == |source| && 0 < |words| && source[|words| - 1] == B
    ensures RenderParens(words, source, mode, keywords) == ParenPrefix(words, source, mode, keywords, |words|).out + ")"
  {
    ParenPrefixPrev(words, source, mode, keywords, |words|);
  }

  // ---------------------------------------------------------------------------
  // WIKI_DATA: brackets
  // ---------------------------------------------------------------------------
  //
  // A change is meant to read "[base|upgraded]": a base-only run opens a
  // bracket, an upgraded-only run follows a bar, and a combined word closes
  // whatever is open.

  /** The serializer's state between two words: the text so far and the previous source. */
  datatype WikiState = WikiState(out: string, prev: Source)

  /** The separator the serializer writes in front of word `i`, given the source of the word before it. */
  function WikiSep(x: Source, prev: Source, i: nat): string
  {
    if x == C && prev == A then "|] "
    else if x == C && prev == B then "] "
    else if x == B && prev == A then "|"
    else if x == B && prev == C then (if i > 0 then "| " else "|")
    else if x == A && prev == C then (if i > 0 then " [" else "[")
    else if x == A && prev == B then "] ["
    else if i > 0 then " "
    else []
  }

  /** The text so far followed by the separator in front of word `i`. */
  function WikiMarked(source: seq<Source>, st: WikiState, i: nat): string
    requires i < |source|
  {
    st.out + WikiSep(source[i], st.prev, i)
  }

  /** What the serializer appends for word `i`, with the state it leaves. */
  function WikiStep(words: seq<string>, source: seq<Source>, mode: TextMode, keywords: set<string>, st: WikiState, i: nat): WikiState
    requires |words| == |source| && i < |words|
  {
    WikiState(WikiMarked(source, st, i) + FormatKeyword(words[i], mode, keywords), source[i])
  }

  /** The state after the first `n` words. */
  function WikiPrefix(words: seq<string>, source: seq<Source>, mode: TextMode, keywords: set<string>, n: nat): (st: WikiState)
    requires |words| == |source| && n <= |words|
    ensures st.prev == if n == 0 then C else source[n - 1]
  {
    if n == 0 then WikiState([], C)
    else WikiStep(words, source, mode, keywords, WikiPrefix(words, source, mode, keywords, n - 1), n - 1)
  }

  /** What follows the last word: "]" after an upgraded-only run, "|" after a base-only one. */
  function WikiClose(st: WikiState): string
  {
    var o := if st.prev == B then st.out + "]" else st.out;
    if st.prev == A then o + "|" else o
  }

  /** The WIKI_DATA rendering of an alignment, before the tidying replacements. */
  function RenderWiki(words: seq<string>, source: seq<Source>, mode: TextMode, keywords: set<string>): string
    requires |words| == |source|
  {
    WikiClose(WikiPrefix(words, source, mode, keywords, |words|))
  }

  /** One turn of the serializer loop: the separator and the word for position `i`. */
  method WikiWord(words: seq<string>, source: seq<Source>, mode: TextMode, keywords: set<string>,
                  out: string, prev: Source, i: nat)
    returns (out': string, prev': Source)
    requires |words| == |source| && i < |words|
    ensures WikiState(out', prev') == WikiStep(words, source, mode, keywords, WikiState(out, prev), i)
  {
    var sep: string := [];
    if source[i] == C && prev == A {
      sep := "|] ";
    } else if source[i] == C && prev == B {
      sep := "] ";
    } else if source[i] == B && prev == A {
      sep := "|";
    } else if source[i] == B && prev == C {
      if i > 0 {
        sep := "| ";
      } else {
        sep := "|";
      }
    } else if source[i] == A && prev == C {
      if i > 0 {
        sep := " [";
      } else {
        sep := "[";
      }
    } else if source[i] == A && prev == B {
      sep := "] [";
    } else if i > 0 {
      sep := " ";
    }
    out', prev' := out + sep + FormatKeyword(words[i], mode, keywords), source[i];
  }

  /** The WIKI_DATA serializer. */
  method SerializeWiki(words: seq<string>, source: seq<Source>, mode: TextMode, keywords: set<string>) returns (out: string)
    requires |words| == |source|
    ensures out == RenderWiki(words, source, mode, keywords)
  {
    var prev;
    out, prev := WikiWords(words, source, mode, keywords);
    out := CloseWiki(out, prev);
  }

  /** The serializer loop over the words. */
  method WikiWords(words: seq<string>, source: seq<Source>, mode: TextMode, keywords: set<string>) returns (out: string, prev: Source)
    requires |words| == |source|
    ensures WikiState(out, prev) == WikiPrefix(words, source, mode, keywords, |words|)
  {
    prev := C;
    out := [];
    for i := 0 to |words|
      invariant WikiPrefix(words, source, mode, keywords, i) == WikiState(out, prev)
    {
      out, prev := WikiWord(words, source, mode, keywords, out, prev, i);
    }
  }

  /** The end of the serializer: the bracket or bar that closes the last run. */
  method CloseWiki(out: string, prev: Source) returns (out': string)
    ensures out' == WikiClose(WikiState(out, prev))
  {
    out' := out;
    if prev == B {
      out' := out' + "]";
    }
    if prev == A {
      out' := out' + "|";
    }
  }

  // ---------------------------------------------------------------------------
  // Properties of the bracket rendering
  // ---------------------------------------------------------------------------

  lemma {:induction false} WikiPrefixAllC(words: seq<string>, mode: TextMode, keywords: set<string>, n: nat)
    requires n <= |words|
    ensures WikiPrefix(words, Run(C, |words|), mode, keywords, n) == WikiState(Join(Formatted(words, mode, keywords)[..n], " "), C)
  {
    if n > 0 {
      var fs := Formatted(words, mode, keywords);
      var source := Run(C, |words|);
      var st := WikiPrefix(words, source, mode, keywords, n - 1);
      var j := Join(fs[..n - 1], " ");
      assert st == WikiState(j, C) by {
        WikiPrefixAllC(words, mode, keywords, n - 1);
      }
      if n > 1 {
        assert WikiMarked(source, st, n - 1) == j + " ";
        assert Join(fs[..n], " ") == j + " " + fs[n - 1] by {
          PrefixSnoc(fs, n);
          JoinSnoc(fs[..n - 1], fs[n - 1], " ");
        }
      } else {
        assert WikiMarked(source, st, 0) == [];
        assert fs[..1] == [fs[0]];
        assert [] + fs[0] == fs[0];
      }
    }
  }

  /** When every word is common to both texts, the rendering is just the words, marked up and joined by spaces. */
  lemma RenderWikiAllC(words: seq<string>, mode: TextMode, keywords: set<string>)
    ensures RenderWiki(words, Run(C, |words|), mode, keywords) == Join(Formatted(words, mode, keywords), " ")
  {
    WikiPrefixAllC(words, mode, keywords, |words|);
    assert Formatted(words, mode, keywords)[..|words|] == Formatted(words, mode, keywords);
  }

  /** The first word, after the separator the serializer writes at the start. */
  lemma WikiFirst(words: seq<string>, source: seq<Source>, mode: TextMode, keywords: set<string>)
    requires |words| == |source| && 0 < |words|
    ensures WikiPrefix(words, source, mode, keywords, 1)
         == WikiState((if source[0] == B then "|" else if source[0] == A then "[" else []) + FormatKeyword(words[0], mode, keywords), source[0])
  {
    var st0 := WikiState([], C);
    assert WikiPrefix(words, source, mode, keywords, 0) == st0;
    assert WikiPrefix(words, source, mode, keywords, 1) == WikiStep(words, source, mode, keywords, st0, 0);
    assert WikiMarked(source, st0, 0) == if source[0] == B then "|" else if source[0] == A then "[" else [];
  }

  /** A base word replaced by an upgraded one reads "[base|upgraded]". */
  lemma RenderWikiReplaced(a: string, b: string, mode: TextMode, keywords: set<string>)
    ensures RenderWiki([a, b], [A, B], mode, keywords)
         == "[" + FormatKeyword(a, mode, keywords) + "|" + FormatKeyword(b, mode, keywords) + "]"
  {
    WikiFirst([a, b], [A, B], mode, keywords);
  }

  /** A base word that is dropped reads "[base|]" when a common word follows. */
  lemma RenderWikiDropped(a: string, c: string, mode: TextMode, keywords: set<string>)
    ensures RenderWiki([a, c], [A, C], mode, keywords)
         == "[" + FormatKeyword(a, mode, keywords) + "|] " + FormatKeyword(c, mode, keywords)
  {
    WikiFirst([a, c], [A, C], mode, keywords);
  }

  /**
   * An upgraded word that is added after a common word reads "common| added]":
   * the bar and the closing bracket are written but no opening bracket.
   */
  lemma RenderWikiAddedAfterCommon(c: string, b: string, mode: TextMode, keywords: set<string>)
    ensures RenderWiki([c, b], [C, B], mode, keywords)
         == FormatKeyword(c, mode, keywords) + "| " + FormatKeyword(b, mode, keywords) + "]"
  {
    WikiFirst([c, b], [C, B], mode, keywords);
  }

  /** A dropped base word at the very end reads " [base|", with no closing bracket. */
  lemma RenderWikiDroppedAtEnd(c: string, a: string, mode: TextMode, keywords: set<string>)
    ensures RenderWiki([c, a], [C, A], mode, keywords)
         == FormatKeyword(c, mode, keywords) + " [" + FormatKeyword(a, mode, keywords) + "|"
  {
    WikiFirst([c, a], [C, A], mode, keywords);
  }

  // The bracket markup only adds layout: taking out the brackets, bars and
  // spaces leaves the marked-up words, in order.

  /** The characters the bracket rendering writes around the words. */
  const WikiLayout: set<char> := {'[', ']', '|', ' '}

  /** A word with none of the layout characters in it. */
  predicate LayoutFree(w: string)
  {
    forall i :: 0 <= i < |w| ==> w[i] !in WikiLayout
  }

  /** The separator in front of a word is layout only. */
  lemma WikiSepLayout(x: Source, prev: Source, i: nat)
    ensures forall k :: 0 <= k < |WikiSep(x, prev, i)| ==> WikiSep(x, prev, i)[k] in WikiLayout
  {
  }

  /** Outside WIKI_FORMAT a layout-free word stays layout-free once marked up. */
  lemma FormatKeywordLayoutFree(w: string, mode: TextMode, keywords: set<string>)
    requires mode != WikiFormat && LayoutFree(w)
    ensures LayoutFree(FormatKeyword(w, mode, keywords))
  {
    var r := FormatKeyword(w, mode, keywords);
    if r != w {
      assert r == "#" + w;
      assert forall i :: 1 <= i < |r| ==> r[i] == w[i - 1];
    }
  }

  lemma ConcatSnoc(ws: seq<string>, w: string)
    ensures Concat(ws + [w]) == Concat(ws) + w
  {
    if ws == [] {
      assert [w][1..] == [];
    } else {
      assert (ws + [w])[1..] == ws[1..] + [w];
      ConcatSnoc(ws[1..], w);
      AppendAssoc(ws[0], Concat(ws[1..]), w);
    }
  }

  /** The first `n` marked-up words run together. */
  function WordsText(words: seq<string>, mode: TextMode, keywords: set<string>, n: nat): string
    requires n <= |words|
  {
    if n == 0 then [] else WordsText(words, mode, keywords, n - 1) + FormatKeyword(words[n - 1], mode, keywords)
  }

  lemma {:induction false} WordsTextConcat(words: seq<string>, mode: TextMode, keywords: set<string>, n: nat)
    requires n <= |words|
    ensures WordsText(words, mode, keywords, n) == Concat(Formatted(words, mode, keywords)[..n])
  {
    if n > 0 {
      var fs := Formatted(words, mode, keywords);
      assert WordsText(words, mode, keywords, n - 1) == Concat(fs[..n - 1]) by {
        WordsTextConcat(words, mode, keywords, n - 1);
      }
      assert fs[..n] == fs[..n - 1] + [fs[n - 1]];
      ConcatSnoc(fs[..n - 1], fs[n - 1]);
    } else {
      assert Formatted(words, mode, keywords)[..0] == [];
    }
  }

  /** The source of the word before word `i`; before the first word the serializer acts as after a combined one. */
  function PrevSource(source: seq<Source>, i: nat): Source
    requires i <= |source|
  {
    if i == 0 then C else source[i - 1]
  }

  /**
   * A stateless reference for the text after `n` words: every marked-up
   * word behind the separator that its own source and its predecessor's
   * call for.
   */
  function WikiText(words: seq<string>, source: seq<Source>, mode: TextMode, keywords: set<string>, n: nat): string
    requires |words| == |source| && n <= |words|
  {
    if n == 0 then []
    else WikiText(words, source, mode, keywords, n - 1)
         + WikiSep(source[n - 1], PrevSource(source, n - 1), n - 1)
         + FormatKeyword(words[n - 1], mode, keywords)
  }

  /** The serializer's text after `n` words is the stateless reference text. */
  lemma {:induction false} WikiPrefixText(words: seq<string>, source: seq<Source>, mode: TextMode, keywords: set<string>, n: nat)
    requires |words| == |source| && n <= |words|
    ensures WikiPrefix(words, source, mode, keywords, n).out == WikiText(words, source, mode, keywords, n)
  {
    if n > 0 {
      var st := WikiPrefix(words, source, mode, keywords, n - 1);
      WikiPrefixText(words, source, mode, keywords, n - 1);
      assert WikiPrefix(words, source, mode, keywords, n) == WikiStep(words, source, mode, keywords, st, n - 1);
    }
  }

  /** After `n` words, the reference text without its layout is the first `n` marked-up words run together. */
  lemma {:induction false} WikiTextWords(words: seq<string>, source: seq<Source>, mode: TextMode, keywords: set<string>, n: nat)
    requires |words| == |source| && n <= |words| && mode != WikiFormat
    requires forall k :: 0 <= k < |words| ==> LayoutFree(words[k])
    ensures Omit(WikiText(words, source, mode, keywords, n), WikiLayout) == WordsText(words, mode, keywords, n)
  {
    if n > 0 {
      var t := WikiText(words, source, mode, keywords, n - 1);
      var sep := WikiSep(source[n - 1], PrevSource(source, n - 1), n - 1);
      var w := FormatKeyword(words[n - 1], mode, keywords);
      WikiTextWords(words, source, mode, keywords, n - 1);
      WikiSepLayout(source[n - 1], PrevSource(source, n - 1), n - 1);
      FormatKeywordLayoutFree(words[n - 1], mode, keywords);
      OmitSnoc(t, sep, w, WikiLayout);
      assert WordsText(words, mode, keywords, n) == WordsText(words, mode, keywords, n - 1) + w;
      assert WikiText(words, source, mode, keywords, n) == t + sep + w;
    }
  }

  /**
   * Taking the brackets, bars and spaces out of the WIKI_DATA rendering
   * leaves every marked-up word, in order, when no word contains them.
   */
  lemma RenderWikiWords(words: seq<string>, source: seq<Source>, mode: TextMode, keywords: set<string>)
    requires |words| == |source| && mode != WikiFormat
    requires forall k :: 0 <= k < |words| ==> LayoutFree(words[k])
    ensures Omit(RenderWiki(words, source, mode, keywords), WikiLayout) == Concat(Formatted(words, mode, keywords))
  {
    var st := WikiPrefix(words, source, mode, keywords, |words|);
    assert Omit(st.out, WikiLayout) == Concat(Formatted(words, mode, keywords)) by {
      WikiPrefixText(words, source, mode, keywords, |words|);
      WikiTextWords(words, source, mode, keywords, |words|);
      WordsTextConcat(words, mode, keywords, |words|);
      assert Formatted(words, mode, keywords)[..|words|] == Formatted(words, mode, keywords);
    }
    var tail := RenderWiki(words, source, mode, keywords)[|st.out|..];
    assert RenderWiki(words, source, mode, keywords) == st.out + tail;
    assert forall k :: 0 <= k < |tail| ==> tail[k] in WikiLayout;
    OmitConcat(st.out, tail, WikiLayout);
    OmitDisjoint(tail, WikiLayout);
  }

  // ---------------------------------------------------------------------------
  // Tidying
  // ---------------------------------------------------------------------------

  /** The NORMAL / WIKI_FORMAT clean-up: spaces before punctuation and inside parentheses go, and line breaks move out of the parentheses. */
  function TidyParens(s: string): string
  {
    var s1 := ReplaceAll(s, " .", ".");
    var s2 := ReplaceAll(s1, " ,", ",");
    var s3 := ReplaceAll(s2, " )", ")");
    var s4 := ReplaceAll(s3, "( ", "(");
    var s5 := ReplaceAll(s4, " NL)", ") NL ");
    ReplaceAll(s5, "(NL ", " NL (")
  }

  /** The WIKI_DATA clean-up: spaces before punctuation and inside brackets go, and line breaks get a space on both sides. */
  function TidyWiki(s: string): string
  {
    var s1 := ReplaceAll(s, " .", ".");
    var s2 := ReplaceAll(s1, " ,", ",");
    var s3 := ReplaceAll(s2, " ]", "]");
    var s4 := ReplaceAll(s3, "[ ", "[");
    var s5 := ReplaceAll(s4, " NL]", " NL ]");
    var s6 := ReplaceAll(s5, "[NL ", "[ NL ");
    var s7 := ReplaceAll(s6, " NL|", " NL |");
    ReplaceAll(s7, "|NL ", "| NL ")
  }

  /** The clean-up neither adds, drops nor reorders a parenthesis. */
  lemma TidyParensKeepsParens(s: string)
    ensures Project(TidyParens(s), ParenChars) == Project(s, ParenChars)
    ensures Nest(TidyParens(s), 0) == Nest(s, 0)
  {
    var s1 := ReplaceAll(s, " .", ".");
    var s2 := ReplaceAll(s1, " ,", ",");
    var s3 := ReplaceAll(s2, " )", ")");
    var s4 := ReplaceAll(s3, "( ", "(");
    var s5 := ReplaceAll(s4, " NL)", ") NL ");
    ReplaceAllProject(s, " .", ".", ParenChars);
    ReplaceAllProject(s1, " ,", ",", ParenChars);
    ReplaceAllProject(s2, " )", ")", ParenChars);
    ReplaceAllProject(s3, "( ", "(", ParenChars);
    ReplaceAllProject(s4, " NL)", ") NL ", ParenChars);
    ReplaceAllProject(s5, "(NL ", " NL (", ParenChars);
    NestProject(TidyParens(s), 0);
    NestProject(s, 0);
  }

  /** The bracket and bar characters of the WIKI_DATA markup. */
  const WikiChars: set<char> := {'[', ']', '|'}

  // Each line-break replacement of the WIKI_DATA clean-up only adds a space.

  /** Spacing a line break off a following marker `m` keeps the markers. */
  lemma NLBeforeKeepsMarkers(s: string, m: char)
    requires m in WikiChars
    ensures Project(ReplaceAll(s, " NL" + [m], " NL " + [m]), WikiChars) == Project(s, WikiChars)
  {
    ProjectConcat(" NL", [m], WikiChars);
    ProjectConcat(" NL ", [m], WikiChars);
    assert Project(" NL", WikiChars) == [] && Project(" NL ", WikiChars) == [] by {
      assert " NL"[1..] == "NL" && "NL"[1..] == "L" && "L"[1..] == [];
      assert " NL "[1..] == "NL " && "NL "[1..] == "L " && "L "[1..] == " " && " "[1..] == [];
    }
    ReplaceAllProject(s, " NL" + [m], " NL " + [m], WikiChars);
  }

  /** Spacing a line break off a preceding marker `m` keeps the markers. */
  lemma NLAfterKeepsMarkers(s: string, m: char)
    requires m in WikiChars
    ensures Project(ReplaceAll(s, [m] + "NL ", [m] + " NL "), WikiChars) == Project(s, WikiChars)
  {
    ProjectConcat([m], "NL ", WikiChars);
    ProjectConcat([m], " NL ", WikiChars);
    assert Project("NL ", WikiChars) == [] && Project(" NL ", WikiChars) == [] by {
      assert " NL "[1..] == "NL " && "NL "[1..] == "L " && "L "[1..] == " " && " "[1..] == [];
    }
    ReplaceAllProject(s, [m] + "NL ", [m] + " NL ", WikiChars);
  }

  /** The clean-up neither adds, drops nor reorders a bracket or a bar. */
  lemma TidyWikiKeepsMarkers(s: string)
    ensures Project(TidyWiki(s), WikiChars) == Project(s, WikiChars)
  {
    var s1 := ReplaceAll(s, " .", ".");
    var s2 := ReplaceAll(s1, " ,", ",");
    var s3 := ReplaceAll(s2, " ]", "]");
    var s4 := ReplaceAll(s3, "[ ", "[");
    var s5 := ReplaceAll(s4, " NL]", " NL ]");
    var s6 := ReplaceAll(s5, "[NL ", "[ NL ");
    var s7 := ReplaceAll(s6, " NL|", " NL |");
    ReplaceAllProject(s, " .", ".", WikiChars);
    ReplaceAllProject(s1, " ,", ",", WikiChars);
    ReplaceAllProject(s2, " ]", "]", WikiChars);
    ReplaceAllProject(s3, "[ ", "[", WikiChars);
    var s8 := ReplaceAll(s7, "|NL ", "| NL ");
    assert Project(s5, WikiChars) == Project(s4, WikiChars) by {
      assert " NL" + "]" == " NL]" && " NL " + "]" == " NL ]";
      NLBeforeKeepsMarkers(s4, ']');
    }
    assert Project(s6, WikiChars) == Project(s5, WikiChars) by {
      assert "[" + "NL " == "[NL " && "[" + " NL " == "[ NL ";
      NLAfterKeepsMarkers(s5, '[');
    }
    assert Project(s7, WikiChars) == Project(s6, WikiChars) by {
      assert " NL" + "|" == " NL|" && " NL " + "|" == " NL |";
      NLBeforeKeepsMarkers(s6, '|');
    }
    assert Project(s8, WikiChars) == Project(s7, WikiChars) by {
      assert "|" + "NL " == "|NL " && "|" + " NL " == "| NL ";
      NLAfterKeepsMarkers(s7, '|');
    }
    assert TidyWiki(s) == s8;
  }
}
