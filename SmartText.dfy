/**
 * The relic text converter: the game's "smart text" (with `NL`/`TAB`
 * escapes, `#x` word colours, `[color]...[]` colour tags and `[[` escapes)
 * turned into HTML or plain text, and the order in which relics are listed.
 */
module SmartText {
  import opened StringUtil

  /** The three switches of the converter. */
  datatype Flags = Flags(smart: bool, markup: bool, html: bool)

  /**
   * The converter's variables between two characters: the position, whether
   * a space is pending, whether a word starts here, the number of tags that
   * close at the end of the word, the number of tags open in all, and the
   * text so far.
   */
  datatype Parser = Parser(pos: nat, space: bool, wordStart: bool, wordTags: int, openTags: int, out: string)

  /** The state at the start of a text. */
  const Start: Parser := Parser(0, false, true, 0, 0, [])

  const CloseSpan: string := "</span>"

  /** The tag a `[name]` colour tag opens. */
  function StyleTag(name: string): string
  {
    "<span style=\"color:" + name + "\">"
  }

  /** The tag a `#x` word colour opens. */
  function ClassTag(x: char): string
  {
    "<span class=\"color-" + [x] + "\">"
  }

  /** `String.indexOf(c, from)`: the first index at or after `from` holding `c`, or -1. */
  function IndexOf(s: string, c: char, from: nat): (r: int)
    ensures r == -1 || from <= r < |s|
    ensures r == -1 ==> forall k :: from <= k < |s| ==> s[k] != c
    ensures r != -1 ==> s[r] == c && forall k :: from <= k < r ==> s[k] != c
    decreases |s| - from
  {
    if from >= |s| then -1
    else if s[from] == c then from
    else IndexOf(s, c, from + 1)
  }

  /** One character of the output, with `<`, `>` and `&` escaped in HTML. */
  function Escape(c: char, html: bool): string
  {
    if html && c == '<' then "&lt;"
    else if html && c == '>' then "&gt;"
    else if html && c == '&' then "&amp;"
    else [c]
  }

  /** The pending space, written before anything visible. */
  function Pending(p: Parser): Parser
  {
    if p.space then p.(out := p.out + " ", space := false) else p
  }

  /** The tags of the current word are closed at its end. */
  function EndWord(p: Parser, html: bool): Parser
    decreases p.wordTags
  {
    if p.wordTags > 0 then
      var q := p.(wordTags := p.wordTags - 1, openTags := p.openTags - 1);
      EndWord(if html then q.(out := q.out + CloseSpan) else q, html)
    else p
  }

  /** Every tag still open is closed at the end of the text. */
  function Drain(p: Parser, html: bool): Parser
    decreases p.openTags
  {
    if p.openTags > 0 then
      var q := p.(openTags := p.openTags - 1);
      Drain(if html then q.(out := q.out + CloseSpan) else q, html)
    else p
  }

  /** Visible text: the pending space, then `t`; the word has started. */
  function Emit(p: Parser, t: string): Parser
  {
    var p1 := Pending(p);
    p1.(wordStart := false, out := p1.out + t)
  }

  /** `[]` closes the last tag opened, which may be one of the word's. */
  function CloseTag(p: Parser, html: bool): Parser
  {
    if p.openTags > 0 then
      var q := p.(wordTags := if p.wordTags > 0 then p.wordTags - 1 else p.wordTags, openTags := p.openTags - 1);
      if html then q.(out := q.out + CloseSpan) else q
    else p
  }

  /** `[name]` opens a colour tag; under smart text, or inside a coloured word, it closes with the word. */
  function OpenTag(p: Parser, f: Flags, name: string): Parser
  {
    var p1 := if f.html then p.(out := p.out + StyleTag(name)) else p;
    p1.(openTags := p1.openTags + 1, wordTags := if f.smart || p1.wordTags > 0 then p1.wordTags + 1 else p1.wordTags)
  }

  /** `#x` at the start of a word colours the word. */
  function WordColor(p: Parser, html: bool, x: char): Parser
  {
    var p1 := Pending(p);
    var p2 := if html then p1.(out := p1.out + ClassTag(x)) else p1;
    p2.(openTags := p2.openTags + 1, wordTags := p2.wordTags + 1)
  }

  /**
   * A `[` with a character after it, under markup: an escape, an energy orb
   * or an unterminated bracket is copied, `[]` closes the last open tag, and
   * `[name]` opens a colour tag when `name` starts with `#` or is a known
   * colour.
   */
  function Bracket(s: string, f: Flags, isColor: string -> bool, p: Parser): (r: Parser)
    requires p.pos + 1 < |s| && s[p.pos] == '['
    ensures p.pos < r.pos <= |s|
  {
    var close := IndexOf(s, ']', p.pos);
    if close == -1 || (close == p.pos + 1 && p.openTags == 0) || close == p.pos + 2 then Emit(p, "[").(pos := p.pos + 1)
    else if close == p.pos + 1 then CloseTag(Pending(p), f.html).(pos := close + 1)
    else
      var colorName := s[p.pos + 1..close];
      if colorName[0] != '#' && !isColor(colorName) then Emit(p, "[").(pos := p.pos + 1)
      else OpenTag(Pending(p), f, colorName).(pos := close + 1)
  }

  /** What the converter does with the text at `p.pos`. */
  function Step(s: string, f: Flags, isColor: string -> bool, p: Parser): (r: Parser)
    requires p.pos < |s|
    ensures p.pos < r.pos <= |s|
  {
    var c := s[p.pos];
    if c == ' ' then
      EndWord(p, f.html).(pos := p.pos + 1, wordStart := true, space := true)
    else if c == '\n' || c == '\t' then
      EndWord(p, f.html).(pos := p.pos + 1, wordStart := true, space := false)
    else if f.smart && p.wordStart && StartsWithAt(s, "NL ", p.pos) then
      p.(out := p.out + "\n", pos := p.pos + 3, space := false)
    else if f.smart && p.wordStart && StartsWithAt(s, "TAB ", p.pos) then
      p.(out := p.out + "\t", pos := p.pos + 4, space := false)
    else if f.smart && p.wordStart && c == '#' && p.pos + 1 < |s| then
      WordColor(p, f.html, s[p.pos + 1]).(pos := p.pos + 2)
    else if f.markup && c == '[' && p.pos + 1 < |s| && s[p.pos + 1] == '[' then
      Emit(p, "[").(pos := p.pos + 2)
    else if f.markup && c == '[' && p.pos + 1 < |s| then
      Bracket(s, f, isColor, p)
    else
      Emit(p, Escape(c, f.html)).(pos := p.pos + 1)
  }

  /** The state after the rest of the text from `p`. */
  function Run(s: string, f: Flags, isColor: string -> bool, p: Parser): (r: Parser)
    requires p.pos <= |s|
    ensures r.pos == |s|
    decreases |s| - p.pos
  {
    if p.pos == |s| then p else Run(s, f, isColor, Step(s, f, isColor, p))
  }

  /** What `parseSmartText` returns; a null text gives the empty string. */
  function Parsed(s: Option<string>, f: Flags, isColor: string -> bool): string
  {
    if s.None? then [] else Drain(Run(s.value, f, isColor, Start), f.html).out
  }

  // ---------------------------------------------------------------------------
  // The converter loop
  // ---------------------------------------------------------------------------

  /** The loop that closes the current word's tags. */
  method CloseWordTags(p: Parser, html: bool) returns (r: Parser)
    ensures r == EndWord(p, html)
  {
    r := p;
    while r.wordTags > 0
      invariant EndWord(r, html) == EndWord(p, html)
      decreases r.wordTags
    {
      r := r.(wordTags := r.wordTags - 1, openTags := r.openTags - 1);
      if html {
        r := r.(out := r.out + CloseSpan);
      }
    }
  }

  /** `[]` with a tag open: the last tag opened is closed. */
  method CloseLastTag(p: Parser, html: bool) returns (r: Parser)
    ensures r == CloseTag(p, html)
  {
    r := p;
    if r.openTags > 0 {
      if r.wordTags > 0 {
        r := r.(wordTags := r.wordTags - 1);
      }
      r := r.(openTags := r.openTags - 1);
      if html {
        r := r.(out := r.out + CloseSpan);
      }
    }
  }

  /** `[name]` with a colour name: a colour tag is opened. */
  method OpenColorTag(p: Parser, f: Flags, name: string) returns (r: Parser)
    ensures r == OpenTag(p, f, name)
  {
    r := p;
    if f.html {
      r := r.(out := r.out + StyleTag(name));
    }
    r := r.(openTags := r.openTags + 1);
    if f.smart || r.wordTags > 0 {
      r := r.(wordTags := r.wordTags + 1);
    }
  }

  /** The `[` branch of the loop. */
  method ParseBracket(s: string, f: Flags, isColor: string -> bool, p: Parser) returns (r: Parser)
    requires p.pos + 1 < |s| && s[p.pos] == '['
    ensures r == Bracket(s, f, isColor, p)
  {
    r := p;
    if r.space {
      r := r.(out := r.out + " ", space := false);
    }
    assert r == Pending(p);
    var close := IndexOf(s, ']', p.pos);
    if close == -1 || (close == p.pos + 1 && r.openTags == 0) || close == p.pos + 2 {
      r := r.(wordStart := false, out := r.out + "[", pos := p.pos + 1);
    } else if close == p.pos + 1 {
      r := CloseLastTag(r, f.html);
      r := r.(pos := close + 1);
    } else {
      var colorName := s[p.pos + 1..close];
      if colorName[0] != '#' && !isColor(colorName) {
        r := r.(wordStart := false, out := r.out + "[", pos := p.pos + 1);
      } else {
        r := OpenColorTag(r, f, colorName);
        r := r.(pos := close + 1);
      }
    }
  }

  /** One turn of the converter loop. */
  method ParseOne(s: string, f: Flags, isColor: string -> bool, p: Parser) returns (r: Parser)
    requires p.pos < |s|
    ensures r == Step(s, f, isColor, p)
  {
    var c := s[p.pos];
    if c == ' ' {
      r := CloseWordTags(p, f.html);
      r := r.(pos := p.pos + 1, wordStart := true, space := true);
    } else if c == '\n' || c == '\t' {
      r := CloseWordTags(p, f.html);
      r := r.(pos := p.pos + 1, wordStart := true, space := false);
    } else if f.smart && p.wordStart && StartsWithAt(s, "NL ", p.pos) {
      r := p.(out := p.out + "\n", pos := p.pos + 3, space := false);
    } else if f.smart && p.wordStart && StartsWithAt(s, "TAB ", p.pos) {
      r := p.(out := p.out + "\t", pos := p.pos + 4, space := false);
    } else if f.smart && p.wordStart && c == '#' && p.pos + 1 < |s| {
      r := p;
      if r.space {
        r := r.(out := r.out + " ", space := false);
      }
      if f.html {
        r := r.(out := r.out + ClassTag(s[p.pos + 1]));
      }
      r := r.(pos := p.pos + 2, openTags := r.openTags + 1, wordTags := r.wordTags + 1);
    } else if f.markup && c == '[' && p.pos + 1 < |s| && s[p.pos + 1] == '[' {
      r := p;
      if r.space {
        r := r.(out := r.out + " ", space := false);
      }
      r := r.(wordStart := false, out := r.out + "[", pos := p.pos + 2);
    } else if f.markup && c == '[' && p.pos + 1 < |s| {
      r := ParseBracket(s, f, isColor, p);
    } else {
      r := p;
      if r.space {
        r := r.(out := r.out + " ", space := false);
      }
      r := r.(wordStart := false);
      if f.html && c == '<' {
        r := r.(out := r.out + "&lt;");
      } else if f.html && c == '>' {
        r := r.(out := r.out + "&gt;");
      } else if f.html && c == '&' {
        r := r.(out := r.out + "&amp;");
      } else {
        r := r.(out := r.out + [c]);
      }
      r := r.(pos := p.pos + 1);
    }
  }

  /**
   * `parseSmartText`. `isColor` stands for the colour table lookup
   * (`Colors.get(name) != null`).
   */
  method ParseSmartText(s: Option<string>, f: Flags, isColor: string -> bool) returns (out: string)
    ensures out == Parsed(s, f, isColor)
  {
    if s.None? {
      return "";
    }
    var str := s.value;
    var p := Start;
    while p.pos < |str|
      invariant p.pos <= |str|
      invariant Run(str, f, isColor, p) == Run(str, f, isColor, Start)
      decreases |str| - p.pos
    {
      p := ParseOne(str, f, isColor, p);
    }
    while p.openTags > 0
      invariant Drain(p, f.html).out == Parsed(s, f, isColor)
      decreases p.openTags
    {
      p := p.(openTags := p.openTags - 1);
      if f.html {
        p := p.(out := p.out + CloseSpan);
      }
    }
    out := p.out;
  }

  /** `smartTextToHTML`. */
  method SmartTextToHtml(s: Option<string>, smart: bool, markup: bool, isColor: string -> bool) returns (r: string)
    ensures r == Parsed(s, Flags(smart, markup, true), isColor)
  {
    r := ParseSmartText(s, Flags(smart, markup, true), isColor);
  }

  /** `smartTextToPlain`. */
  method SmartTextToPlain(s: Option<string>, smart: bool, markup: bool, isColor: string -> bool) returns (r: string)
    ensures r == Parsed(s, Flags(smart, markup, false), isColor)
  {
    r := ParseSmartText(s, Flags(smart, markup, false), isColor);
  }

  // ---------------------------------------------------------------------------
  // Tags in the output
  // ---------------------------------------------------------------------------

  /** The number of closing tags in `s`: places where `<` is followed by `/`. */
  function CloseCount(s: string): nat
  {
    if |s| < 2 then 0 else (if s[0] == '<' && s[1] == '/' then 1 else 0) + CloseCount(s[1..])
  }

  /** `s` does not end in the middle of a `</`. */
  predicate NoTrailingLt(s: string)
  {
    s == [] || s[|s| - 1] != '<'
  }

  lemma {:induction false} CloseCountConcat(x: string, y: string)
    requires NoTrailingLt(x)
    ensures CloseCount(x + y) == CloseCount(x) + CloseCount(y)
  {
    if x == [] {
      assert x + y == y;
    } else if |x| == 1 {
      assert (x + y)[1..] == y;
    } else {
      assert (x + y)[1..] == x[1..] + y;
      CloseCountConcat(x[1..], y);
    }
  }

  lemma {:induction false} CloseCountAbsent(s: string)
    requires '<' !in s
    ensures CloseCount(s) == 0
  {
    if |s| >= 2 {
      CloseCountAbsent(s[1..]);
    }
  }

  /**
   * An HTML text whose `<` characters all start tags: each opening tag
   * holds one `<`, each closing tag holds `</`, and `open` tags are still
   * open.
   */
  predicate Tagged(out: string, open: int)
  {
    NoTrailingLt(out) && CountChar(out, '<') == 2 * CloseCount(out) + open
  }

  /** Text without `<` leaves the tags alone. */
  lemma AppendText(out: string, t: string, open: int)
    requires Tagged(out, open) && '<' !in t
    ensures Tagged(out + t, open)
  {
    CloseCountConcat(out, t);
    CloseCountAbsent(t);
    CountCharConcat(out, t, '<');
    CountCharAbsent(t, '<');
  }

  /** An opening tag: a `<` followed by something other than `/` and without another `<`. */
  lemma AppendOpen(out: string, t: string, open: int)
    requires Tagged(out, open) && |t| >= 2 && t[0] == '<' && t[1] != '/' && '<' !in t[1..]
    ensures Tagged(out + t, open + 1)
  {
    CloseCountConcat(out, t);
    CloseCountAbsent(t[1..]);
    CountCharConcat(out, t, '<');
    CountCharConcat(t[..1], t[1..], '<');
    CountCharAbsent(t[1..], '<');
    assert t == t[..1] + t[1..];
  }

  lemma StyleTagShape(name: string)
    requires '<' !in name
    ensures var t := StyleTag(name); |t| >= 2 && t[0] == '<' && t[1] != '/' && '<' !in t[1..]
  {
    var t := StyleTag(name);
    assert t[1..] == "span style=\"color:" + name + "\">";
  }

  lemma ClassTagShape(x: char)
    requires x != '<'
    ensures var t := ClassTag(x); |t| >= 2 && t[0] == '<' && t[1] != '/' && '<' !in t[1..]
  {
    var t := ClassTag(x);
    assert t[1..] == "span class=\"color-" + [x] + "\">";
  }

  lemma AppendClose(out: string, open: int)
    requires Tagged(out, open)
    ensures Tagged(out + CloseSpan, open - 1)
  {
    CloseCountConcat(out, CloseSpan);
    CloseCountAbsent(CloseSpan[1..]);
    CountCharConcat(out, CloseSpan, '<');
    CountCharConcat("<", CloseSpan[1..], '<');
    CountCharAbsent(CloseSpan[1..], '<');
    assert CloseSpan == "<" + CloseSpan[1..];
  }

  // ---------------------------------------------------------------------------
  // What every step keeps
  // ---------------------------------------------------------------------------

  /** A character the converter writes of its own accord: a space, a line break or a tab. */
  predicate IsSeparator(c: char)
  {
    c == ' ' || c == '\n' || c == '\t'
  }

  /** Every character of `o` is a character of `s` or a separator. */
  predicate FromInput(s: string, o: string)
  {
    forall k :: 0 <= k < |o| ==> o[k] in s || IsSeparator(o[k])
  }

  lemma AppendFrom(s: string, o: string, t: string)
    requires FromInput(s, o) && FromInput(s, t)
    ensures FromInput(s, o + t)
  {
    assert forall k :: |o| <= k < |o + t| ==> (o + t)[k] == t[k - |o|];
  }

  /**
   * What the text written so far satisfies: in HTML, when the input holds no
   * `<` of its own, the `<` characters written are the opening and closing
   * tags, and the tags not closed are those still open; in plain text every
   * character written comes from the input or is a separator.
   */
  predicate Written(s: string, html: bool, p: Parser)
  {
    && 0 <= p.openTags
    && (html && '<' !in s ==> Tagged(p.out, p.openTags))
    && (!html ==> FromInput(s, p.out))
  }

  /** What holds between two characters: besides `Written`, the word's tags are among the open ones. */
  predicate Inv(s: string, html: bool, p: Parser)
  {
    0 <= p.wordTags <= p.openTags && Written(s, html, p)
  }

  lemma {:induction false} EndWordInv(s: string, html: bool, p: Parser)
    requires Inv(s, html, p)
    ensures Inv(s, html, EndWord(p, html)) && EndWord(p, html).wordTags == 0
    decreases p.wordTags
  {
    if p.wordTags > 0 {
      var q := p.(wordTags := p.wordTags - 1, openTags := p.openTags - 1);
      if html && '<' !in s {
        AppendClose(p.out, p.openTags);
      }
      EndWordInv(s, html, if html then q.(out := q.out + CloseSpan) else q);
    }
  }

  lemma {:induction false} DrainWritten(s: string, html: bool, p: Parser)
    requires Written(s, html, p)
    ensures Written(s, html, Drain(p, html)) && Drain(p, html).openTags == 0
    decreases p.openTags
  {
    if p.openTags > 0 {
      var q := p.(openTags := p.openTags - 1);
      if html && '<' !in s {
        AppendClose(p.out, p.openTags);
      }
      DrainWritten(s, html, if html then q.(out := q.out + CloseSpan) else q);
    }
  }

  /** Appending text that opens and closes no tag keeps `Inv`. */
  lemma AppendPlain(s: string, html: bool, p: Parser, t: string)
    requires Inv(s, html, p) && (html && '<' !in s ==> '<' !in t) && (!html ==> FromInput(s, t))
    ensures Inv(s, html, p.(out := p.out + t))
  {
    if html && '<' !in s {
      AppendText(p.out, t, p.openTags);
    }
    if !html {
      AppendFrom(s, p.out, t);
    }
  }

  lemma PendingInv(s: string, html: bool, p: Parser)
    requires Inv(s, html, p)
    ensures Inv(s, html, Pending(p))
  {
    if p.space {
      AppendPlain(s, html, p, " ");
    }
  }

  lemma EmitInv(s: string, html: bool, p: Parser, t: string)
    requires Inv(s, html, p) && (html && '<' !in s ==> '<' !in t) && (!html ==> FromInput(s, t))
    ensures Inv(s, html, Emit(p, t))
  {
    PendingInv(s, html, p);
    AppendPlain(s, html, Pending(p), t);
  }

  lemma CloseTagInv(s: string, html: bool, p: Parser)
    requires Inv(s, html, p)
    ensures Inv(s, html, CloseTag(p, html))
  {
    if p.openTags > 0 && html && '<' !in s {
      AppendClose(p.out, p.openTags);
    }
  }

  lemma OpenTagInv(s: string, f: Flags, p: Parser, name: string)
    requires Inv(s, f.html, p) && (f.html && '<' !in s ==> '<' !in name)
    ensures Inv(s, f.html, OpenTag(p, f, name))
  {
    if f.html && '<' !in s {
      StyleTagShape(name);
      AppendOpen(p.out, StyleTag(name), p.openTags);
    }
  }

  lemma WordColorInv(s: string, html: bool, p: Parser, x: char)
    requires Inv(s, html, p) && (html && '<' !in s ==> x != '<')
    ensures Inv(s, html, WordColor(p, html, x))
  {
    PendingInv(s, html, p);
    if html && '<' !in s {
      ClassTagShape(x);
      AppendOpen(Pending(p).out, ClassTag(x), p.openTags);
    }
  }

  /** `Inv` looks only at the tags and the text written. */
  lemma InvSameTags(s: string, html: bool, p: Parser, q: Parser)
    requires Inv(s, html, p) && q.out == p.out && q.openTags == p.openTags && q.wordTags == p.wordTags
    ensures Inv(s, html, q)
  {
  }

  lemma BracketInv(s: string, f: Flags, isColor: string -> bool, p: Parser)
    requires p.pos + 1 < |s| && s[p.pos] == '[' && Inv(s, f.html, p)
    ensures Inv(s, f.html, Bracket(s, f, isColor, p))
  {
    var r := Bracket(s, f, isColor, p);
    var close := IndexOf(s, ']', p.pos);
    var q1 := Emit(p, "[");
    var q2 := CloseTag(Pending(p), f.html);
    PendingInv(s, f.html, p);
    if close == -1 || (close == p.pos + 1 && p.openTags == 0) || close == p.pos + 2 {
      assert FromInput(s, "[") by { assert "["[0] == s[p.pos]; }
      EmitInv(s, f.html, p, "[");
      InvSameTags(s, f.html, q1, r);
    } else if close == p.pos + 1 {
      CloseTagInv(s, f.html, Pending(p));
      InvSameTags(s, f.html, q2, r);
    } else {
      var colorName := s[p.pos + 1..close];
      if colorName[0] != '#' && !isColor(colorName) {
        assert FromInput(s, "[") by { assert "["[0] == s[p.pos]; }
        EmitInv(s, f.html, p, "[");
        InvSameTags(s, f.html, q1, r);
      } else {
        assert f.html && '<' !in s ==> '<' !in colorName by {
          assert forall k :: 0 <= k < |colorName| ==> colorName[k] == s[p.pos + 1 + k];
        }
        OpenTagInv(s, f, Pending(p), colorName);
        InvSameTags(s, f.html, OpenTag(Pending(p), f, colorName), r);
      }
    }
  }

  lemma StepInv(s: string, f: Flags, isColor: string -> bool, p: Parser)
    requires p.pos < |s| && Inv(s, f.html, p)
    ensures Inv(s, f.html, Step(s, f, isColor, p))
  {
    var c := s[p.pos];
    if IsSeparator(c) {
      EndWordInv(s, f.html, p);
      InvSameTags(s, f.html, EndWord(p, f.html), Step(s, f, isColor, p));
    } else if SmartEscape(s, f, p) {
      SmartStepInv(s, f, isColor, p);
    } else {
      MarkupStepInv(s, f, isColor, p);
    }
  }

  /** The branches of `Step` that only smart text has: `NL`, `TAB` and `#x` at the start of a word. */
  predicate SmartEscape(s: string, f: Flags, p: Parser)
    requires p.pos < |s|
  {
    f.smart && p.wordStart && (StartsWithAt(s, "NL ", p.pos) || StartsWithAt(s, "TAB ", p.pos) || (s[p.pos] == '#' && p.pos + 1 < |s|))
  }

  lemma SmartStepInv(s: string, f: Flags, isColor: string -> bool, p: Parser)
    requires p.pos < |s| && Inv(s, f.html, p) && !IsSeparator(s[p.pos]) && SmartEscape(s, f, p)
    ensures Inv(s, f.html, Step(s, f, isColor, p))
  {
    var r := Step(s, f, isColor, p);
    if StartsWithAt(s, "NL ", p.pos) {
      AppendPlain(s, f.html, p, "\n");
      InvSameTags(s, f.html, p.(out := p.out + "\n"), r);
    } else if StartsWithAt(s, "TAB ", p.pos) {
      AppendPlain(s, f.html, p, "\t");
      InvSameTags(s, f.html, p.(out := p.out + "\t"), r);
    } else {
      WordColorInv(s, f.html, p, s[p.pos + 1]);
      InvSameTags(s, f.html, WordColor(p, f.html, s[p.pos + 1]), r);
    }
  }

  lemma MarkupStepInv(s: string, f: Flags, isColor: string -> bool, p: Parser)
    requires p.pos < |s| && Inv(s, f.html, p) && !IsSeparator(s[p.pos]) && !SmartEscape(s, f, p)
    ensures Inv(s, f.html, Step(s, f, isColor, p))
  {
    var c := s[p.pos];
    var r := Step(s, f, isColor, p);
    if f.markup && c == '[' && p.pos + 1 < |s| && s[p.pos + 1] == '[' {
      assert FromInput(s, "[") by { assert "["[0] == s[p.pos]; }
      EmitInv(s, f.html, p, "[");
      InvSameTags(s, f.html, Emit(p, "["), r);
    } else if f.markup && c == '[' && p.pos + 1 < |s| {
      BracketInv(s, f, isColor, p);
    } else {
      var t := Escape(c, f.html);
      assert (f.html && '<' !in s ==> '<' !in t) && (!f.html ==> FromInput(s, t)) by {
        if !f.html {
          assert t == [c] && t[0] == s[p.pos];
        }
      }
      EmitInv(s, f.html, p, t);
      InvSameTags(s, f.html, Emit(p, t), r);
    }
  }

  lemma {:induction false} RunInv(s: string, f: Flags, isColor: string -> bool, p: Parser)
    requires p.pos <= |s| && Inv(s, f.html, p)
    ensures Inv(s, f.html, Run(s, f, isColor, p))
    decreases |s| - p.pos
  {
    if p.pos < |s| {
      StepInv(s, f, isColor, p);
      RunInv(s, f, isColor, Step(s, f, isColor, p));
    }
  }

  /**
   * In HTML, when the text holds no `<` of its own, the output holds as many
   * closing tags as opening ones; in plain text every character of the
   * output is a character of the text, a space, a line break or a tab, so no
   * tag is written.
   */
  lemma ParsedTags(s: string, f: Flags, isColor: string -> bool)
    ensures var o := Parsed(Some(s), f, isColor);
      && (f.html && '<' !in s ==> CountChar(o, '<') == 2 * CloseCount(o))
      && (!f.html ==> FromInput(s, o))
  {
    assert Inv(s, f.html, Start) by {
      assert CountChar([], '<') == 0 && CloseCount([]) == 0;
    }
    RunInv(s, f, isColor, Start);
    var r := Run(s, f, isColor, Start);
    DrainWritten(s, f.html, r);
    var d := Drain(r, f.html);
    assert Parsed(Some(s), f, isColor) == d.out;
    assert Written(s, f.html, d) && d.openTags == 0;
  }

  // ---------------------------------------------------------------------------
  // Text without smart escapes or markup
  // ---------------------------------------------------------------------------

  /** The characters of `s` other than separators. */
  function Visible(s: string): string
  {
    if s == [] then [] else (if IsSeparator(s[0]) then [] else [s[0]]) + Visible(s[1..])
  }

  lemma {:induction false} VisibleConcat(x: string, y: string)
    ensures Visible(x + y) == Visible(x) + Visible(y)
  {
    if x == [] {
      assert x + y == y;
    } else {
      assert (x + y)[1..] == x[1..] + y;
      VisibleConcat(x[1..], y);
    }
  }

  /** Every character of `s` escaped. */
  function EscapeAll(s: string, html: bool): string
  {
    if s == [] then [] else Escape(s[0], html) + EscapeAll(s[1..], html)
  }

  lemma {:induction false} EscapeAllSnoc(s: string, c: char, html: bool)
    ensures EscapeAll(s + [c], html) == EscapeAll(s, html) + Escape(c, html)
  {
    if s == [] {
      assert s + [c] == [c];
    } else {
      assert (s + [c])[1..] == s[1..] + [c];
      EscapeAllSnoc(s[1..], c, html);
    }
  }

  /** An escaped character other than a separator is all visible. */
  lemma EscapeVisible(c: char, html: bool)
    requires !IsSeparator(c)
    ensures Visible(Escape(c, html)) == Escape(c, html)
  {
    if html && c == '<' {
      assert Visible("&lt;") == "&lt;";
    } else if html && c == '>' {
      assert Visible("&gt;") == "&gt;";
    } else if html && c == '&' {
      assert Visible("&amp;") == "&amp;";
    } else {
      assert Visible([c]) == [c] + Visible([]);
    }
  }

  /** The loop state when neither smart text nor markup is on: no tags, and the visible text so far escaped. */
  predicate Copying(s: string, html: bool, p: Parser)
  {
    p.pos <= |s| && p.wordTags == 0 && p.openTags == 0 && Visible(p.out) == EscapeAll(Visible(s[..p.pos]), html)
  }

  lemma CopyingStep(s: string, f: Flags, isColor: string -> bool, p: Parser)
    requires !f.smart && !f.markup && p.pos < |s| && Copying(s, f.html, p)
    ensures Copying(s, f.html, Step(s, f, isColor, p))
  {
    var c := s[p.pos];
    PrefixSnoc(s, p.pos + 1);
    VisibleConcat(s[..p.pos], [c]);
    if !IsSeparator(c) {
      var p1 := Pending(p);
      assert Visible(p1.out) == Visible(p.out) by {
        if p.space {
          VisibleConcat(p.out, " ");
        }
      }
      VisibleConcat(p1.out, Escape(c, f.html));
      EscapeVisible(c, f.html);
      EscapeAllSnoc(Visible(s[..p.pos]), c, f.html);
      assert Visible([c]) == [c];
    } else {
      assert Visible([c]) == [];
      assert EndWord(p, f.html) == p;
      var r := Step(s, f, isColor, p);
      assert r.out == p.out && r.pos == p.pos + 1 && r.wordTags == 0 && r.openTags == 0;
      assert Visible(s[..r.pos]) == Visible(s[..p.pos]);
    }
  }

  lemma {:induction false} CopyingRun(s: string, f: Flags, isColor: string -> bool, p: Parser)
    requires !f.smart && !f.markup && Copying(s, f.html, p)
    ensures Copying(s, f.html, Run(s, f, isColor, p))
    decreases |s| - p.pos
  {
    if p.pos < |s| {
      CopyingStep(s, f, isColor, p);
      CopyingRun(s, f, isColor, Step(s, f, isColor, p));
    }
  }

  /**
   * With neither smart text nor markup, the converter only changes the
   * spacing: the characters other than spaces, line breaks and tabs reach
   * the output unchanged and in order, escaped for HTML.
   */
  lemma ParsedCopies(s: string, f: Flags, isColor: string -> bool)
    requires !f.smart && !f.markup
    ensures Visible(Parsed(Some(s), f, isColor)) == EscapeAll(Visible(s), f.html)
  {
    assert s[..0] == [];
    CopyingRun(s, f, isColor, Start);
    assert s[..|s|] == s;
  }

  // ---------------------------------------------------------------------------
  // Examples
  // ---------------------------------------------------------------------------

  /** Under smart text, `NL` at the start of a word is a line break, and the space before it is dropped. */
  lemma LineBreakExample(isColor: string -> bool)
    ensures Parsed(Some("a NL b"), Flags(true, false, false), isColor) == "a\nb"
  {
    var s, f := "a NL b", Flags(true, false, false);
    var p1 := Parser(1, false, false, 0, 0, "a");
    var p2 := Parser(2, true, true, 0, 0, "a");
    var p3 := Parser(5, false, true, 0, 0, "a\n");
    var p4 := Parser(6, false, false, 0, 0, "a\nb");
    assert Run(s, f, isColor, p4) == p4;
    assert Run(s, f, isColor, p3) == p4 by {
      assert Step(s, f, isColor, p3) == p4;
    }
    assert Run(s, f, isColor, p2) == p4 by {
      assert Step(s, f, isColor, p2) == p3 by {
        assert s[2..5] == "NL ";
      }
    }
    assert Run(s, f, isColor, p1) == p4 by {
      assert Step(s, f, isColor, p1) == p2;
    }
    assert Run(s, f, isColor, Start) == p4 by {
      assert Step(s, f, isColor, Start) == p1;
    }
  }

  /** Under markup, `[[` is an escaped `[`. */
  lemma BracketEscapeExample(isColor: string -> bool)
    ensures Parsed(Some("[[x"), Flags(false, true, false), isColor) == "[x"
  {
    var s, f := "[[x", Flags(false, true, false);
    var p1 := Parser(2, false, false, 0, 0, "[");
    var p2 := Parser(3, false, false, 0, 0, "[x");
    assert Run(s, f, isColor, p2) == p2;
    assert Run(s, f, isColor, p1) == p2 by {
      assert Step(s, f, isColor, p1) == p2;
    }
    assert Run(s, f, isColor, Start) == p2 by {
      assert Step(s, f, isColor, Start) == p1;
    }
  }

  /** A one-letter bracket group such as an energy orb `[R]` is copied as it is. */
  lemma EnergyOrbExample(isColor: string -> bool)
    ensures Parsed(Some("[R]"), Flags(false, true, false), isColor) == "[R]"
  {
    var s, f := "[R]", Flags(false, true, false);
    var p1 := Parser(1, false, false, 0, 0, "[");
    var p2 := Parser(2, false, false, 0, 0, "[R");
    var p3 := Parser(3, false, false, 0, 0, "[R]");
    assert IndexOf(s, ']', 0) == 2;
    assert Step(s, f, isColor, Start) == p1;
    assert Step(s, f, isColor, p1) == p2;
    assert Step(s, f, isColor, p2) == p3;
    assert Run(s, f, isColor, p3) == p3;
  }

  /** `[#rgb]` opens a colour tag and `[]` closes it. */
  lemma ColorTagExample(isColor: string -> bool)
    ensures Parsed(Some("[#f00]x[]"), Flags(false, true, true), isColor) == StyleTag("#f00") + "x" + CloseSpan
  {
    var s, f := "[#f00]x[]", Flags(false, true, true);
    var open := StyleTag("#f00");
    var p1 := Parser(6, false, true, 0, 1, open);
    var p2 := Parser(7, false, false, 0, 1, open + "x");
    var p3 := Parser(9, false, false, 0, 0, open + "x" + CloseSpan);
    assert Run(s, f, isColor, p3) == p3;
    assert Run(s, f, isColor, p2) == p3 by {
      assert Step(s, f, isColor, p2) == Bracket(s, f, isColor, p2);
      assert Bracket(s, f, isColor, p2) == p3 by {
        assert IndexOf(s, ']', 7) == 8;
        assert CloseTag(p2, true) == p3.(pos := 7);
      }
    }
    assert Run(s, f, isColor, p1) == p3 by {
      assert Step(s, f, isColor, p1) == p2;
    }
    assert Run(s, f, isColor, Start) == p3 by {
      assert Step(s, f, isColor, Start) == Bracket(s, f, isColor, Start);
      assert Bracket(s, f, isColor, Start) == p1 by {
        assert IndexOf(s, ']', 0) == 5;
        assert s[1..5] == "#f00";
        assert OpenTag(Start, f, "#f00") == p1.(pos := 0);
      }
    }
  }

  /** Under smart text, `#y` colours the rest of the word, and the tag closes at the space. */
  lemma WordColorExample(isColor: string -> bool)
    ensures Parsed(Some("#yA c"), Flags(true, false, true), isColor) == ClassTag('y') + "A" + CloseSpan + " c"
  {
    var s, f := "#yA c", Flags(true, false, true);
    var open := ClassTag('y');
    var p1 := Parser(2, false, true, 1, 1, open);
    var p2 := Parser(3, false, false, 1, 1, open + "A");
    var p3 := Parser(4, true, true, 0, 0, open + "A" + CloseSpan);
    var p4 := Parser(5, false, false, 0, 0, open + "A" + CloseSpan + " c");
    assert Run(s, f, isColor, p4) == p4;
    assert Run(s, f, isColor, p3) == p4 by {
      assert Step(s, f, isColor, p3) == p4;
    }
    assert Run(s, f, isColor, p2) == p4 by {
      assert Step(s, f, isColor, p2) == p3 by {
        assert EndWord(p2, true) == Parser(3, false, false, 0, 0, open + "A" + CloseSpan);
      }
    }
    assert Run(s, f, isColor, p1) == p4 by {
      assert Step(s, f, isColor, p1) == p2;
    }
    assert Run(s, f, isColor, Start) == p4 by {
      assert Step(s, f, isColor, Start) == p1;
    }
  }

  /**
   * A colour name is written into the tag unescaped, so a `<` in it adds a
   * `<` to the output that starts no tag: `ParsedTags` needs its text to
   * hold no `<`.
   */
  lemma UnescapedColorExample(isColor: string -> bool)
    ensures Parsed(Some("[#<]x"), Flags(false, true, true), isColor) == StyleTag("#<") + "x" + CloseSpan
  {
    var s, f := "[#<]x", Flags(false, true, true);
    var open := StyleTag("#<");
    var p1 := Parser(4, false, true, 0, 1, open);
    var p2 := Parser(5, false, false, 0, 1, open + "x");
    assert IndexOf(s, ']', 0) == 3;
    assert s[1..3] == "#<";
    assert Step(s, f, isColor, Start) == p1;
    assert Step(s, f, isColor, p1) == p2;
    assert Run(s, f, isColor, p2) == p2;
    assert Drain(p2, true) == Parser(5, false, false, 0, 0, open + "x" + CloseSpan);
  }
}
