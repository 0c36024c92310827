/**
 * `combineDescriptions`: a card's base description and its upgraded
 * description merged into one text that marks what the upgrade adds and
 * removes, built from the preprocessing and tokenisation of `CardText`, the
 * alignment of `Alignment` and the renderings of `DiffRender`.
 */
module UpgradeDiff {
  import opened StringUtil
  import opened CardText
  import opened Alignment
  import opened DiffRender

  /**
   * What `combineDescriptions` returns for base text `a` and upgraded text
   * `b`. `keywords` is the game dictionary's set of (lower-case) keywords.
   */
  function Combined(a: string, b: string, mode: TextMode, keywords: set<string>): string
  {
    if a == b && mode == NormalMode then a
    else
      var aw := Tokens(Preprocessed(a, mode));
      var bw := Tokens(Preprocessed(b, mode));
      Rendered(AlignedWords(aw, bw, mode), Aligned(aw, bw, mode), mode, keywords)
  }

  /** `combineDescriptions`: preprocess, split, align, render, tidy. */
  method CombineDescriptions(a: string, b: string, mode: TextMode, keywords: set<string>) returns (r: string)
    ensures r == Combined(a, b, mode, keywords)
  {
    if a == b && mode == NormalMode {
      return a;
    }
    var pa := PreprocessText(a, mode);
    var pb := PreprocessText(b, mode);
    var aw := Words(pa);
    var bw := Words(pb);
    var score := FillScore(aw, bw, mode);
    var words, source := WalkBack(aw, bw, mode, score);
    RowsOfFilled(aw, bw, mode, score);
    assert source == Aligned(aw, bw, mode);
    assert words == AlignedWords(aw, bw, mode);
    r := Render(words, source, mode, keywords);
  }

  /** The rendering in the dialect's markup, tidied. */
  function Rendered(words: seq<string>, source: seq<Source>, mode: TextMode, keywords: set<string>): string
    requires |words| == |source|
  {
    if mode == WikiData then TidyWiki(RenderWiki(words, source, mode, keywords))
    else TidyParens(RenderParens(words, source, mode, keywords))
  }

  /** The serializer of the dialect, then the clean-up of the dialect. */
  method Render(words: seq<string>, source: seq<Source>, mode: TextMode, keywords: set<string>) returns (r: string)
    requires |words| == |source|
    ensures r == Rendered(words, source, mode, keywords)
  {
    var out;
    if mode == NormalMode || mode == WikiFormat {
      out := SerializeParens(words, source, mode, keywords);
    } else {
      out := SerializeWiki(words, source, mode, keywords);
    }
    if mode == WikiData {
      r := TidyWiki(out);
    } else {
      r := TidyParens(out);
    }
  }

  // ---------------------------------------------------------------------------
  // Texts that do not change, or change completely
  // ---------------------------------------------------------------------------

  /** The rendering's clean-up in dialect `mode`. */
  function Tidy(s: string, mode: TextMode): string
  {
    if mode == WikiData then TidyWiki(s) else TidyParens(s)
  }

  /**
   * An unchanged text comes back as its own words, with keyword markup,
   * joined by single spaces and tidied: no marker is written.
   */
  lemma CombinedUnchanged(a: string, mode: TextMode, keywords: set<string>)
    requires mode != NormalMode
    ensures var aw := Tokens(Preprocessed(a, mode));
      Combined(a, a, mode, keywords) == Tidy(Join(Formatted(aw, mode, keywords), " "), mode)
  {
    var aw := Tokens(Preprocessed(a, mode));
    AlignedIdentical(aw, mode);
    if mode == WikiData {
      RenderWikiAllC(aw, mode, keywords);
    } else {
      RenderParensAllC(aw, mode, keywords);
    }
  }

  /** When the base text has no words, the whole upgraded text is one added group. */
  lemma CombinedAllAdded(a: string, b: string, mode: TextMode, keywords: set<string>)
    requires mode != WikiData
    requires Tokens(Preprocessed(a, mode)) == [] && Tokens(Preprocessed(b, mode)) != []
    ensures var bw := Tokens(Preprocessed(b, mode));
      Combined(a, b, mode, keywords) == TidyParens("(" + Join(Formatted(bw, mode, keywords), " ") + ")")
  {
    var bw := Tokens(Preprocessed(b, mode));
    AlignedFromNothing(bw, mode);
    RenderParensAllB(bw, mode, keywords);
  }

  /** When the upgraded text has no words, the whole base text is shown and then repeated in "(not ...)". */
  lemma CombinedAllDropped(a: string, b: string, mode: TextMode, keywords: set<string>)
    requires mode != WikiData
    requires Tokens(Preprocessed(a, mode)) != [] && Tokens(Preprocessed(b, mode)) == []
    ensures var aw := Tokens(Preprocessed(a, mode));
      Combined(a, b, mode, keywords)
      == TidyParens(Join(Formatted(aw, mode, keywords), " ") + " (not " + Join(aw, " ") + ")")
  {
    var aw := Tokens(Preprocessed(a, mode));
    AlignedToNothing(aw, mode);
    RenderParensAllA(aw, mode, keywords);
  }

  // ---------------------------------------------------------------------------
  // Parenthesis nesting of the whole pipeline
  // ---------------------------------------------------------------------------

  /** A paired word has balanced, flat parentheses when both words have none. */
  lemma WordReplacementNest(aw: string, bw: string, mode: TextMode)
    requires ParenFree(aw) && ParenFree(bw)
    ensures Nest(WordReplacement(aw, bw, mode), 0) == 0
  {
    NestFree(aw, 0);
    if aw != bw {
      if mode != WikiData && bw == aw + "s" {
        assert "(s)"[1..] == "s)" && "s)"[1..] == ")";
        NestConcat(aw, "(s)", 0);
      } else {
        assert " ("[1..] == "(";
        NestConcat(aw, " (", 0);
        NestConcat(aw + " (", bw, 0);
        NestFree(bw, 1);
        NestConcat(aw + " (" + bw, ")", 0);
      }
    }
  }

  /** The words of a walk from `[i][j]` satisfy the nesting precondition of the rendering. */
  lemma {:induction false} WalkWordsNestOk(aw: seq<string>, bw: seq<string>, mode: TextMode, T: seq<seq<int>>, i: nat, j: nat)
    requires Shaped(T, |aw|, |bw|) && i <= |aw| && j <= |bw|
    requires forall k :: 0 <= k < |aw| ==> ParenFree(aw[k])
    requires forall k :: 0 <= k < |bw| ==> ParenFree(bw[k])
    ensures |WalkWords(aw, bw, mode, T, i, j)| == |Walk(aw, bw, mode, T, i, j)|
    ensures WordsNestOk(WalkWords(aw, bw, mode, T, i, j), Walk(aw, bw, mode, T, i, j))
    decreases i + j
  {
    if i > 0 || j > 0 {
      var x := Pick(aw, bw, mode, T, i, j);
      WalkWordsNestOk(aw, bw, mode, T, PrevA(x, i), PrevB(x, j));
      WalkUnfold(aw, bw, mode, T, i, j);
      var w := StepWord(aw, bw, mode, x, i, j);
      assert (x != C ==> ParenFree(w)) && (x == C ==> Nest(w, 0) == 0) by {
        if x == C {
          WordReplacementNest(aw[i - 1], bw[j - 1], mode);
        }
      }
      ConsNestOk(w, x, WalkWords(aw, bw, mode, T, PrevA(x, i), PrevB(x, j)), Walk(aw, bw, mode, T, PrevA(x, i), PrevB(x, j)));
    }
  }

  /** One more word whose nesting is in order keeps the nesting precondition. */
  lemma ConsNestOk(w: string, x: Source, words: seq<string>, source: seq<Source>)
    requires |words| == |source| && WordsNestOk(words, source)
    requires (x != C ==> ParenFree(w)) && (x == C ==> Nest(w, 0) == 0)
    ensures WordsNestOk([w] + words, [x] + source)
  {
    assert forall k :: 0 < k <= |words| ==> ([w] + words)[k] == words[k - 1] && ([x] + source)[k] == source[k - 1];
  }

  /** Reversing the words and their sources together keeps the nesting precondition. */
  lemma ReverseNestOk(words: seq<string>, source: seq<Source>)
    requires |words| == |source| && WordsNestOk(words, source)
    ensures WordsNestOk(Reverse(words), Reverse(source))
  {
    ReverseIndex(words);
    ReverseIndex(source);
  }

  /** The alignment of two lists of parenthesis-free words satisfies the nesting precondition. */
  lemma AlignedNestOk(aw: seq<string>, bw: seq<string>, mode: TextMode)
    requires forall k :: 0 <= k < |aw| ==> ParenFree(aw[k])
    requires forall k :: 0 <= k < |bw| ==> ParenFree(bw[k])
    ensures WordsNestOk(AlignedWords(aw, bw, mode), Aligned(aw, bw, mode))
  {
    var T := Table(aw, bw, mode);
    WalkWordsNestOk(aw, bw, mode, T, |aw|, |bw|);
    ReverseNestOk(WalkWords(aw, bw, mode, T, |aw|, |bw|), Walk(aw, bw, mode, T, |aw|, |bw|));
  }

  /** Each energy run, and the text that replaces it, is free of parentheses. */
  lemma EnergyParenFree()
    ensures forall i :: 0 <= i < |EnergySymbols| ==>
      |EnergySymbols[i]| > 0 && ParenFree(EnergySymbols[i]) && ParenFree(EnergyText(EnergySymbols[i]))
  {
    forall i | 0 <= i < |EnergySymbols|
      ensures |EnergySymbols[i]| > 0 && ParenFree(EnergySymbols[i]) && ParenFree(EnergyText(EnergySymbols[i]))
    {
      var x := "RGB"[i / 3];
      assert x !in ParenChars by {
        assert x in "RGB";
      }
      var e := EnergySymbols[i];
      assert e == IconRun(x, 3 - i % 3) by {
        EnergySymbolsAreRuns();
      }
      IconRunParenFree(x, 3 - i % 3);
      assert |e| > 0 && ParenFree(e);
      EnergyTextParenFree(e);
    }
  }

  lemma EnergyTextParenFree(e: string)
    ensures ParenFree(EnergyText(e))
  {
    NatToStringParenFree((|e| + 1) / 4);
    ProjectConcat(NatToString((|e| + 1) / 4), " Energy", ParenChars);
  }

  lemma {:induction false} IconRunParenFree(x: char, n: nat)
    requires n >= 1 && x !in ParenChars
    ensures |IconRun(x, n)| > 0 && ParenFree(IconRun(x, n))
  {
    var icon: string := ['[', x, ']'];
    assert icon[1..] == [x, ']'] && icon[1..][1..] == [']'] && icon[1..][1..][1..] == [];
    assert Project([']'], ParenChars) == [];
    assert Project([x, ']'], ParenChars) == [];
    assert ParenFree(icon);
    if n > 1 {
      IconRunParenFree(x, n - 1);
      assert ([' '] + icon)[1..] == icon;
      assert IconRun(x, n) == IconRun(x, n - 1) + ([' '] + icon);
      ProjectConcat(IconRun(x, n - 1), [' '] + icon, ParenChars);
    }
  }

  lemma {:induction false} NatToStringParenFree(n: nat)
    ensures ParenFree(NatToString(n))
  {
    if n >= 10 {
      NatToStringParenFree(n / 10);
      ProjectConcat(NatToString(n / 10), ["0123456789"[n % 10]], ParenChars);
    }
  }

  lemma {:induction false} ReplaceEnergyParenFree(s: string, syms: seq<string>)
    requires forall i :: 0 <= i < |syms| ==> |syms[i]| > 0 && ParenFree(syms[i]) && ParenFree(EnergyText(syms[i]))
    requires ParenFree(s)
    ensures ParenFree(ReplaceEnergy(s, syms))
  {
    if syms != [] {
      var e := syms[|syms| - 1];
      ReplaceEnergyParenFree(s, syms[..|syms| - 1]);
      ReplaceAllProject(ReplaceEnergy(s, syms[..|syms| - 1]), e, EnergyText(e), ParenChars);
    }
  }

  /** Preprocessing brings in no parenthesis. */
  lemma PreprocessedParenFree(a: string, mode: TextMode)
    requires ParenFree(a)
    ensures ParenFree(Preprocessed(a, mode))
  {
    var d := ReplaceAll(a, ".", " .");
    assert ParenFree(d) by {
      ReplaceAllProject(a, ".", " .", ParenChars);
    }
    var p := ReplaceAll(d, ",", " ,");
    assert ParenFree(p) by {
      ReplaceAllProject(d, ",", " ,", ParenChars);
    }
    if mode == WikiData {
      var r := ReplaceAll(p, "[R]", "<R>");
      assert ParenFree(r) by {
        ReplaceAllProject(p, "[R]", "<R>", ParenChars);
      }
      var g := ReplaceAll(r, "[G]", "<G>");
      assert ParenFree(g) by {
        ReplaceAllProject(r, "[G]", "<G>", ParenChars);
      }
      assert ParenFree(ReplaceAll(g, "[B]", "<B>")) by {
        ReplaceAllProject(g, "[B]", "<B>", ParenChars);
      }
    } else if mode == WikiFormat {
      EnergyParenFree();
      ReplaceEnergyParenFree(p, EnergySymbols);
    }
  }

  /** The words of a parenthesis-free text are parenthesis-free. */
  lemma TokensParenFree(s: string)
    requires ParenFree(s)
    ensures forall k :: 0 <= k < |Tokens(s)| ==> ParenFree(Tokens(s)[k])
  {
    var ws := Tokens(s);
    TokensKeepCharacters(s);
    ProjectEmpty(s, ParenChars);
    NonWhitespaceParenFree(s);
    ConcatParenFree(ws);
  }

  lemma {:induction false} NonWhitespaceParenFree(s: string)
    requires ParenFree(s)
    ensures ParenFree(NonWhitespace(s))
  {
    if s != [] {
      assert ParenFree(s[1..]) by {
        assert s == [s[0]] + s[1..];
        ProjectConcat([s[0]], s[1..], ParenChars);
      }
      NonWhitespaceParenFree(s[1..]);
      ProjectConcat(if IsJavaWhitespace(s[0]) then [] else [s[0]], NonWhitespace(s[1..]), ParenChars);
    }
  }

  lemma {:induction false} ConcatParenFree(ws: seq<string>)
    requires ParenFree(Concat(ws))
    ensures forall k :: 0 <= k < |ws| ==> ParenFree(ws[k])
  {
    if ws != [] {
      ProjectConcat(ws[0], Concat(ws[1..]), ParenChars);
      ConcatParenFree(ws[1..]);
      assert forall k :: 1 <= k < |ws| ==> ws[k] == ws[1..][k - 1];
    }
  }

  /**
   * In NORMAL and WIKI_FORMAT, when neither description has parentheses of
   * its own, the parentheses of the combined description are balanced and
   * never nested.
   */
  lemma CombinedNest(a: string, b: string, mode: TextMode, keywords: set<string>)
    requires mode != WikiData && ParenFree(a) && ParenFree(b)
    ensures Nest(Combined(a, b, mode, keywords), 0) == 0
  {
    if a == b && mode == NormalMode {
      NestFree(a, 0);
    } else {
      var aw := Tokens(Preprocessed(a, mode));
      var bw := Tokens(Preprocessed(b, mode));
      PreprocessedParenFree(a, mode);
      PreprocessedParenFree(b, mode);
      TokensParenFree(Preprocessed(a, mode));
      TokensParenFree(Preprocessed(b, mode));
      AlignedNestOk(aw, bw, mode);
      var rendered := RenderParens(AlignedWords(aw, bw, mode), Aligned(aw, bw, mode), mode, keywords);
      RenderParensNest(AlignedWords(aw, bw, mode), Aligned(aw, bw, mode), mode, keywords);
      TidyParensKeepsParens(rendered);
    }
  }
}
