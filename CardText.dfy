/**
 * The word-level rules of the card exporter: output dialects, scalar upgrade
 * notation, word costs and replacements, keyword markup, text preprocessing,
 * tokenisation and the card image file name.
 */
module CardText {
  import opened StringUtil

  /** The three output dialects of the upgrade diff. */
  datatype TextMode = NormalMode | WikiData | WikiFormat

  // ---------------------------------------------------------------------------
  // Scalar fields
  // ---------------------------------------------------------------------------

  /** A scalar field (cost, block, damage, magic number) together with its upgraded value. */
  function CombineUpgrade(a: string, b: Option<string>, mode: TextMode): (r: string)
    ensures r == a <==> b.None? || b.value == a
    ensures b.Some? && b.value != a && mode == WikiData ==> r == "[" + a + "|" + b.value + "]"
    ensures b.Some? && b.value != a && mode != WikiData ==> r == a + "(" + b.value + ")"
  {
    if b.None? || b.value == a then a
    else if mode == WikiData then "[" + a + "|" + b.value + "]"
    else a + "(" + b.value + ")"
  }

  // ---------------------------------------------------------------------------
  // Word costs for the alignment
  // ---------------------------------------------------------------------------

  /** The upgraded word is the base word with a plural "s", outside WIKI_DATA. */
  predicate IsPlural(aw: string, bw: string, mode: TextMode)
  {
    mode != WikiData && bw == aw + "s"
  }

  /** Cost of pairing base word `aw` with upgraded word `bw`. */
  function WordCost(aw: string, bw: string, mode: TextMode): nat
  {
    if aw == bw then 0
    else if mode != WikiData && bw == aw + "s" then 10
    else 21
  }

  /** Equal words pair for free, a plural for less than an insertion and a deletion, anything else for more. */
  lemma WordCostMeaning(aw: string, bw: string, mode: TextMode)
    ensures WordCost(aw, bw, mode) == 0 <==> aw == bw
    ensures WordCost(aw, bw, mode) == 10 <==> aw != bw && IsPlural(aw, bw, mode)
    ensures WordCost(aw, bw, mode) == 21 <==> aw != bw && !IsPlural(aw, bw, mode)
  {
  }

  /** The single output word that stands for a paired base and upgraded word. */
  function WordReplacement(aw: string, bw: string, mode: TextMode): string
  {
    if aw == bw then aw
    else if mode != WikiData && bw == aw + "s" then aw + "(s)"
    else aw + " (" + bw + ")"
  }

  /**
   * A pair of equal words stands for itself, a plural pair for the base word
   * marked "(s)", any other pair for the base word followed by the upgraded
   * one in parentheses; the base word always comes first.
   */
  lemma WordReplacementMeaning(aw: string, bw: string, mode: TextMode)
    ensures WordReplacement(aw, bw, mode) == aw <==> WordCost(aw, bw, mode) == 0
    ensures WordCost(aw, bw, mode) == 10 ==> WordReplacement(aw, bw, mode) == aw + "(s)"
    ensures WordCost(aw, bw, mode) == 21 ==> WordReplacement(aw, bw, mode) == aw + " (" + bw + ")"
    ensures WordReplacement(aw, bw, mode)[..|aw|] == aw
  {
    var r := WordReplacement(aw, bw, mode);
    assert r[..|aw|] == aw;
    assert aw != bw ==> |r| > |aw|;
  }

  // ---------------------------------------------------------------------------
  // Keyword markup
  // ---------------------------------------------------------------------------

  /** `w` is a game keyword (looked up in lower case) or the word "energy". */
  predicate IsKeyword(w: string, keywords: set<string>)
  {
    ToLowerAscii(w) in keywords || ToLowerAscii(w) == "energy"
  }

  function FormatKeyword(w: string, mode: TextMode, keywords: set<string>): (r: string)
    ensures r != w ==> IsKeyword(w, keywords) && mode != NormalMode
    ensures IsKeyword(w, keywords) && mode == WikiFormat ==> r == "[[" + w + "]]"
    ensures IsKeyword(w, keywords) && mode == WikiData ==> r == "#" + w
  {
    if IsKeyword(w, keywords) then
      if mode == WikiFormat then "[[" + w + "]]"
      else if mode == WikiData then "#" + w
      else w
    else w
  }

  /**
   * Marking a word up twice does not wrap it twice, as long as no keyword
   * begins with the markup characters.
   */
  lemma FormatKeywordIdempotent(w: string, mode: TextMode, keywords: set<string>)
    requires forall k :: k in keywords ==> k == [] || (k[0] != '[' && k[0] != '#')
    ensures FormatKeyword(FormatKeyword(w, mode, keywords), mode, keywords) == FormatKeyword(w, mode, keywords)
  {
    var r := FormatKeyword(w, mode, keywords);
    if r != w {
      var low := ToLowerAscii(r);
      assert low[0] == r[0];
      assert !IsKeyword(r, keywords);
    }
  }

  // ---------------------------------------------------------------------------
  // Preprocessing
  // ---------------------------------------------------------------------------

  /** The energy icon runs of WIKI_FORMAT, longest first for each colour. */
  const EnergySymbols: seq<string> :=
    ["[R] [R] [R]", "[R] [R]", "[R]", "[G] [G] [G]", "[G] [G]", "[G]", "[B] [B] [B]", "[B] [B]", "[B]"]

  /** Decimal rendering of a natural number, as `String.valueOf`. */
  function NatToString(n: nat): string
  {
    if n < 10 then ["0123456789"[n]] else NatToString(n / 10) + ["0123456789"[n % 10]]
  }

  /** The text that replaces an energy icon run in WIKI_FORMAT. */
  function EnergyText(e: string): string
  {
    NatToString((|e| + 1) / 4) + " Energy"
  }

  /** `n` icons of colour `x` separated by single spaces. */
  function IconRun(x: char, n: nat): string
    requires n >= 1
  {
    if n == 1 then ['[', x, ']'] else IconRun(x, n - 1) + [' ', '[', x, ']']
  }

  /** A run of `n` icons is `4n - 1` characters long and holds `n` opening brackets. */
  lemma {:induction false} IconRunCount(x: char, n: nat)
    requires n >= 1 && x != '['
    ensures |IconRun(x, n)| == 4 * n - 1
    ensures CountChar(IconRun(x, n), '[') == n
  {
    var icon: string := ['[', x, ']'];
    assert icon[1..] == [x, ']'] && icon[1..][1..] == [']'] && icon[1..][1..][1..] == [];
    assert CountChar([']'], '[') == 0;
    assert CountChar([x, ']'], '[') == 0;
    assert CountChar(icon, '[') == 1;
    if n > 1 {
      IconRunCount(x, n - 1);
      CountCharConcat(IconRun(x, n - 1), [' '] + icon, '[');
      assert ([' '] + icon)[1..] == icon;
      assert CountChar([' '] + icon, '[') == 1;
      assert IconRun(x, n) == IconRun(x, n - 1) + ([' '] + icon);
    }
  }

  /**
   * The table lists, for red, green and blue in turn, the runs of three, two
   * and one icons, and the number written for each run is its icon count.
   */
  lemma EnergySymbolsAreRuns()
    ensures forall i :: 0 <= i < |EnergySymbols| ==>
      EnergySymbols[i] == IconRun("RGB"[i / 3], 3 - i % 3) && (|EnergySymbols[i]| + 1) / 4 == 3 - i % 3
  {
    forall i | 0 <= i < |EnergySymbols|
      ensures EnergySymbols[i] == IconRun("RGB"[i / 3], 3 - i % 3) && (|EnergySymbols[i]| + 1) / 4 == 3 - i % 3
    {
      var x := "RGB"[i / 3];
      assert IconRun(x, 2) == ['[', x, ']', ' ', '[', x, ']'];
      assert IconRun(x, 3) == ['[', x, ']', ' ', '[', x, ']', ' ', '[', x, ']'];
    }
  }

  /** The energy runs `syms` replaced one after the other, in order. */
  function ReplaceEnergy(s: string, syms: seq<string>): string
    requires forall e :: e in syms ==> |e| > 0
  {
    if syms == [] then s
    else
      var e := syms[|syms| - 1];
      ReplaceAll(ReplaceEnergy(s, syms[..|syms| - 1]), e, EnergyText(e))
  }

  /** What `preprocessText` makes of a text. */
  function Preprocessed(a: string, mode: TextMode): string
  {
    var p := ReplaceAll(ReplaceAll(a, ".", " ."), ",", " ,");
    if mode == WikiData then ReplaceAll(ReplaceAll(ReplaceAll(p, "[R]", "<R>"), "[G]", "<G>"), "[B]", "<B>")
    else if mode == WikiFormat then ReplaceEnergy(p, EnergySymbols)
    else p
  }

  /**
   * Every occurrence of `c` is preceded by a space; at index 0, `before`
   * says whether the character before the string is a space.
   */
  ghost predicate SpacedBefore(s: string, c: char, before: bool)
  {
    forall i :: 0 <= i < |s| && s[i] == c ==> SpaceAt(s, i, before)
  }

  /** The character before index `i` is a space. */
  predicate SpaceAt(s: string, i: nat, before: bool)
    requires i < |s|
  {
    if i == 0 then before else s[i - 1] == ' '
  }

  /** Every '.' and ',' is preceded by a space, so that it is a word of its own. */
  ghost predicate PunctuationSpaced(s: string)
  {
    SpacedBefore(s, '.', false) && SpacedBefore(s, ',', false)
  }

  lemma SpacedBeforeConcat(x: string, y: string, c: char, before: bool)
    requires SpacedBefore(x, c, before)
    requires SpacedBefore(y, c, if x == [] then before else x[|x| - 1] == ' ')
    ensures SpacedBefore(x + y, c, before)
  {
    var xy := x + y;
    forall i | 0 <= i < |xy| && xy[i] == c
      ensures SpaceAt(xy, i, before)
    {
      if i < |x| {
        assert x[i] == c;
        if i > 0 {
          assert xy[i - 1] == x[i - 1];
        }
      } else {
        var j := i - |x|;
        assert y[j] == c;
        if j > 0 {
          assert xy[i - 1] == y[j - 1];
        } else if x != [] {
          assert xy[i - 1] == x[|x| - 1];
        }
      }
    }
  }

  /** Putting a space in front of every `c` leaves every `c` preceded by a space. */
  lemma {:induction false} SubstSpacedBefore(s: string, c: char, before: bool)
    requires c != ' '
    ensures SpacedBefore(SubstChar(s, c, [' ', c]), c, before)
  {
    if s != [] {
      var piece := if s[0] == c then [' ', c] else [s[0]];
      SubstSpacedBefore(s[1..], c, piece[|piece| - 1] == ' ');
      SpacedBeforeConcat(piece, SubstChar(s[1..], c, [' ', c]), c, before);
    }
  }

  /**
   * A later replacement keeps a space in front of `c` when neither the pattern
   * nor the replacement contains `c` and the pattern does not end in a space.
   */
  lemma {:induction false} ReplaceKeepsSpacedBefore(s: string, pat: string, rep: string, c: char, before: bool)
    requires |pat| > 0 && c !in pat && c !in rep && pat[|pat| - 1] != ' '
    requires SpacedBefore(s, c, before)
    ensures SpacedBefore(ReplaceAll(s, pat, rep), c, before)
    decreases |s|
  {
    if |s| < |pat| {
    } else if s[..|pat|] == pat {
      var t := s[|pat|..];
      assert t == [] || t[0] != c;
      var after := if rep == [] then before else rep[|rep| - 1] == ' ';
      assert SpacedBefore(t, c, after) by {
        forall i | 0 <= i < |t| && t[i] == c ensures SpaceAt(t, i, after) {
          assert s[i + |pat|] == c;
        }
      }
      ReplaceKeepsSpacedBefore(t, pat, rep, c, after);
      SpacedBeforeConcat(rep, ReplaceAll(t, pat, rep), c, before);
    } else {
      var t := s[1..];
      assert SpacedBefore(t, c, s[0] == ' ') by {
        forall i | 0 <= i < |t| && t[i] == c ensures SpaceAt(t, i, s[0] == ' ') {
          assert s[i + 1] == c;
        }
      }
      ReplaceKeepsSpacedBefore(t, pat, rep, c, s[0] == ' ');
      assert s[0] == c ==> before;
      SpacedBeforeConcat([s[0]], ReplaceAll(t, pat, rep), c, before);
    }
  }

  lemma ReplaceKeepsPunctuationSpaced(s: string, pat: string, rep: string)
    requires |pat| > 0 && '.' !in pat && ',' !in pat && '.' !in rep && ',' !in rep && pat[|pat| - 1] != ' '
    requires PunctuationSpaced(s)
    ensures PunctuationSpaced(ReplaceAll(s, pat, rep))
  {
    ReplaceKeepsSpacedBefore(s, pat, rep, '.', false);
    ReplaceKeepsSpacedBefore(s, pat, rep, ',', false);
  }

  lemma NatToStringDigits(n: nat)
    ensures '.' !in NatToString(n) && ',' !in NatToString(n)
  {
  }

  lemma {:induction false} ReplaceEnergyPunctuationSpaced(s: string, syms: seq<string>)
    requires forall e :: e in syms ==> |e| > 0 && '.' !in e && ',' !in e && e[|e| - 1] == ']'
    requires PunctuationSpaced(s)
    ensures PunctuationSpaced(ReplaceEnergy(s, syms))
  {
    if syms != [] {
      var e := syms[|syms| - 1];
      assert e in syms;
      ReplaceEnergyPunctuationSpaced(s, syms[..|syms| - 1]);
      NatToStringDigits((|e| + 1) / 4);
      ReplaceKeepsPunctuationSpaced(ReplaceEnergy(s, syms[..|syms| - 1]), e, EnergyText(e));
    }
  }

  /** In every dialect, preprocessing leaves each '.' and ',' preceded by a space. */
  lemma PreprocessedPunctuationSpaced(a: string, mode: TextMode)
    ensures PunctuationSpaced(Preprocessed(a, mode))
  {
    var d := ReplaceAll(a, ".", " .");
    ReplaceSingleChar(a, '.', " .");
    SubstSpacedBefore(a, '.', false);
    var p := ReplaceAll(d, ",", " ,");
    ReplaceSingleChar(d, ',', " ,");
    SubstSpacedBefore(d, ',', false);
    ReplaceKeepsSpacedBefore(d, ",", " ,", '.', false);
    assert PunctuationSpaced(p);
    if mode == WikiData {
      ReplaceKeepsPunctuationSpaced(p, "[R]", "<R>");
      ReplaceKeepsPunctuationSpaced(ReplaceAll(p, "[R]", "<R>"), "[G]", "<G>");
      ReplaceKeepsPunctuationSpaced(ReplaceAll(ReplaceAll(p, "[R]", "<R>"), "[G]", "<G>"), "[B]", "<B>");
    } else if mode == WikiFormat {
      ReplaceEnergyPunctuationSpaced(p, EnergySymbols);
    }
  }

  /** `preprocessText`: punctuation becomes separate words; energy icons are rewritten per dialect. */
  method PreprocessText(a: string, mode: TextMode) returns (r: string)
    ensures r == Preprocessed(a, mode)
    ensures PunctuationSpaced(r)
  {
    r := ReplaceAll(ReplaceAll(a, ".", " ."), ",", " ,");
    if mode == WikiData {
      r := ReplaceAll(ReplaceAll(ReplaceAll(r, "[R]", "<R>"), "[G]", "<G>"), "[B]", "<B>");
    } else if mode == WikiFormat {
      ghost var p := r;
      for i := 0 to |EnergySymbols|
        invariant r == ReplaceEnergy(p, EnergySymbols[..i])
      {
        var e := EnergySymbols[i];
        assert EnergySymbols[..i + 1][..i] == EnergySymbols[..i];
        r := ReplaceAll(r, e, EnergyText(e));
      }
      assert EnergySymbols[..|EnergySymbols|] == EnergySymbols;
    }
    PreprocessedPunctuationSpaced(a, mode);
  }

  // ---------------------------------------------------------------------------
  // Tokenisation
  // ---------------------------------------------------------------------------

  /** Length of the word at the start of `s`. */
  function WordEnd(s: string): (k: nat)
    requires s != [] && !IsJavaWhitespace(s[0])
    ensures 1 <= k <= |s|
    ensures forall i :: 0 <= i < k ==> !IsJavaWhitespace(s[i])
    ensures k == |s| || IsJavaWhitespace(s[k])
  {
    if |s| == 1 || IsJavaWhitespace(s[1]) then 1 else 1 + WordEnd(s[1..])
  }

  /** A word as `Scanner.next` returns it: non-empty, without whitespace. */
  predicate IsWord(w: string)
  {
    w != [] && forall i :: 0 <= i < |w| ==> !IsJavaWhitespace(w[i])
  }

  /** The words of `s`: its maximal runs of non-whitespace characters. */
  function Tokens(s: string): (ws: seq<string>)
    ensures forall i :: 0 <= i < |ws| ==> IsWord(ws[i])
    decreases |s|
  {
    if s == [] then []
    else if IsJavaWhitespace(s[0]) then Tokens(s[1..])
    else var k := WordEnd(s); [s[..k]] + Tokens(s[k..])
  }

  /** The characters of `s` that are not whitespace, in order. */
  function NonWhitespace(s: string): string
  {
    if s == [] then [] else (if IsJavaWhitespace(s[0]) then [] else [s[0]]) + NonWhitespace(s[1..])
  }

  /** Concatenation of a list of words. */
  function Concat(ws: seq<string>): string
  {
    if ws == [] then [] else ws[0] + Concat(ws[1..])
  }

  lemma {:induction false} NonWhitespaceConcat(x: string, y: string)
    ensures NonWhitespace(x + y) == NonWhitespace(x) + NonWhitespace(y)
  {
    if x == [] {
      assert x + y == y;
    } else {
      assert (x + y)[1..] == x[1..] + y;
      NonWhitespaceConcat(x[1..], y);
    }
  }

  lemma {:induction false} NonWhitespaceOfWord(w: string)
    requires forall i :: 0 <= i < |w| ==> !IsJavaWhitespace(w[i])
    ensures NonWhitespace(w) == w
  {
    if w != [] {
      NonWhitespaceOfWord(w[1..]);
    }
  }

  /** No character is lost or reordered: the words hold exactly the non-whitespace characters. */
  lemma {:induction false} TokensKeepCharacters(s: string)
    ensures Concat(Tokens(s)) == NonWhitespace(s)
    decreases |s|
  {
    if s == [] {
    } else if IsJavaWhitespace(s[0]) {
      TokensKeepCharacters(s[1..]);
    } else {
      var k := WordEnd(s);
      TokensKeepCharacters(s[k..]);
      var ws := Tokens(s);
      assert ws[0] == s[..k] && ws[1..] == Tokens(s[k..]);
      assert s == s[..k] + s[k..];
      NonWhitespaceConcat(s[..k], s[k..]);
      NonWhitespaceOfWord(s[..k]);
    }
  }

  lemma {:induction false} TokensOfWordThen(w: string, rest: string)
    requires IsWord(w)
    requires rest == [] || IsJavaWhitespace(rest[0])
    ensures Tokens(w + rest) == [w] + Tokens(rest)
  {
    var s := w + rest;
    var k := WordEnd(s);
    assert s[..|w|] == w && s[|w|..] == rest;
  }

  /** Splitting words joined by single spaces gives the words back. */
  lemma {:induction false} TokensOfJoin(ws: seq<string>)
    requires forall i :: 0 <= i < |ws| ==> IsWord(ws[i])
    ensures Tokens(Join(ws, " ")) == ws
  {
    if |ws| == 1 {
      TokensOfWordThen(ws[0], []);
      assert ws[0] + [] == ws[0];
    } else if |ws| > 1 {
      var rest := Join(ws[1..], " ");
      TokensOfJoin(ws[1..]);
      assert Join(ws, " ") == ws[0] + (" " + rest);
      TokensOfWordThen(ws[0], " " + rest);
      assert (" " + rest)[1..] == rest;
    }
  }

  /** A whitespace character in front contributes no word. */
  lemma TokensSkip(str: string, pos: nat)
    requires pos < |str| && IsJavaWhitespace(str[pos])
    ensures Tokens(str[pos..]) == Tokens(str[pos + 1..])
  {
    assert str[pos..][1..] == str[pos + 1..];
  }

  /** A maximal run of non-whitespace at `pos` is the next word. */
  lemma TokensTake(str: string, pos: nat, end: nat)
    requires pos < end <= |str|
    requires forall i :: pos <= i < end ==> !IsJavaWhitespace(str[i])
    requires end == |str| || IsJavaWhitespace(str[end])
    ensures Tokens(str[pos..]) == [str[pos..end]] + Tokens(str[end..])
  {
    var t := str[pos..];
    assert WordEnd(t) == end - pos;
    assert t[..end - pos] == str[pos..end] && t[end - pos..] == str[end..];
  }

  /** `words`: reads the words one by one, as a `Scanner` does. */
  method Words(str: string) returns (out: seq<string>)
    ensures out == Tokens(str)
  {
    out := [];
    var pos := 0;
    while pos < |str|
      invariant 0 <= pos <= |str|
      invariant out + Tokens(str[pos..]) == Tokens(str)
    {
      if IsJavaWhitespace(str[pos]) {
        TokensSkip(str, pos);
        pos := pos + 1;
      } else {
        var end := ScanWord(str, pos);
        assert out + [str[pos..end]] + Tokens(str[end..]) == out + Tokens(str[pos..]) by {
          TokensTake(str, pos, end);
          AppendAssoc(out, [str[pos..end]], Tokens(str[end..]));
        }
        out := out + [str[pos..end]];
        pos := end;
      }
    }
    assert str[|str|..] == [];
  }

  /** The end of the word that starts at `pos`: the next whitespace, or the end of the text. */
  method ScanWord(str: string, pos: nat) returns (end: nat)
    requires pos < |str| && !IsJavaWhitespace(str[pos])
    ensures pos < end <= |str|
    ensures forall i :: pos <= i < end ==> !IsJavaWhitespace(str[i])
    ensures end == |str| || IsJavaWhitespace(str[end])
  {
    end := pos;
    while end < |str| && !IsJavaWhitespace(str[end])
      invariant pos <= end <= |str|
      invariant forall i :: pos <= i < end ==> !IsJavaWhitespace(str[i])
    {
      end := end + 1;
    }
  }

  // ---------------------------------------------------------------------------
  // Card image file name
  // ---------------------------------------------------------------------------

  /** The card name with spaces and slashes dropped and '+' spelled out. */
  function SafeName(name: string): (r: string)
    ensures ' ' !in r && '/' !in r && '+' !in r
  {
    var r := ReplaceAll(ReplaceAll(ReplaceAll(name, " ", ""), "/", ""), "+", "Plus");
    SafeNameIsCharwise(name);
    SafeCharsClean(name);
    r
  }

  /** What one character of a card name becomes in the safe name. */
  function SafeChar(c: char): string
  {
    if c == ' ' || c == '/' then "" else if c == '+' then "Plus" else [c]
  }

  /** The safe name, one character at a time. */
  function SafeChars(s: string): string
  {
    if s == [] then [] else SafeChar(s[0]) + SafeChars(s[1..])
  }

  lemma {:induction false} SafeCharsClean(s: string)
    ensures ' ' !in SafeChars(s) && '/' !in SafeChars(s) && '+' !in SafeChars(s)
  {
    if s != [] {
      SafeCharsClean(s[1..]);
    }
  }

  lemma {:induction false} SubstThreeCharwise(s: string)
    ensures SubstChar(SubstChar(SubstChar(s, ' ', ""), '/', ""), '+', "Plus") == SafeChars(s)
  {
    if s != [] {
      SubstThreeCharwise(s[1..]);
      var x1 := SubstChar(s, ' ', "");
      var p1 := if s[0] == ' ' then "" else [s[0]];
      assert x1 == p1 + SubstChar(s[1..], ' ', "");
      SubstCharConcat(p1, SubstChar(s[1..], ' ', ""), '/', "");
      var p2 := SubstChar(p1, '/', "");
      SubstCharConcat(p2, SubstChar(SubstChar(s[1..], ' ', ""), '/', ""), '+', "Plus");
      if p1 != [] {
        assert p1[1..] == [];
        if p2 != [] {
          assert p2[1..] == [];
        }
      }
    }
  }

  /** The chain of replacements at CardExportData is a character-by-character rewrite. */
  lemma SafeNameIsCharwise(name: string)
    ensures ReplaceAll(ReplaceAll(ReplaceAll(name, " ", ""), "/", ""), "+", "Plus") == SafeChars(name)
  {
    ReplaceSingleChar(name, ' ', "");
    ReplaceSingleChar(SubstChar(name, ' ', ""), '/', "");
    ReplaceSingleChar(SubstChar(SubstChar(name, ' ', ""), '/', ""), '+', "Plus");
    SubstThreeCharwise(name);
  }

  /** The three image paths a card gets. */
  datatype CardImage = CardImage(image: string, absImage: string, relImage: string)

  /** `exportImageToDir` without the rendering: the file name and its two paths. */
  function CardImagePaths(name: string, imageDir: string): (p: CardImage)
    ensures p.image == SafeChars(name) + ".png"
    ensures p.absImage == imageDir + "/" + p.image
    ensures p.relImage == "card-images/" + p.image
  {
    var safe := SafeName(name);
    SafeNameIsCharwise(name);
    CardImage(safe + ".png", imageDir + "/" + safe + ".png", "card-images/" + safe + ".png")
  }
}
