/**
 * The exporter's naming policy: the directory of each mod and colour, the
 * file name derived from an item id, and which mods take part in an export.
 */
module ExportHelper {
  import opened StringUtil
  import opened ExportPaths

  /** The id of the pseudo-mod that holds the base game's items. */
  const BaseGameId := "Slay the Spire"

  /** A mod (only its id matters here). */
  datatype Mod = Mod(id: string)

  /** A card colour: the `CardColor` enum value as its ordinal, and its id. */
  datatype Color = Color(color: nat, id: string)

  /** The settings and collected colours of one export. */
  datatype Helper = Helper(dir: string, includeBaseGame: bool, colors: seq<Color>)

  /** `exportDir(mod)`: the directory of a mod's pages. */
  function ModDir(h: Helper, mod: Mod): (r: string)
    ensures |r| == |h.dir| + 1 + |mod.id|
    ensures r[..|h.dir|] == h.dir && r[|h.dir|] == '/' && r[|h.dir| + 1..] == mod.id
  {
    h.dir + "/" + mod.id
  }

  /** `exportDir(color)`: the directory of a colour's pages. */
  function ColorDir(h: Helper, c: Color): (r: string)
    ensures |r| == |h.dir| + 8 + |c.id|
    ensures r[..|h.dir|] == h.dir && r[|h.dir|..|h.dir| + 8] == "/colors/" && r[|h.dir| + 8..] == c.id
  {
    h.dir + "/colors/" + c.id
  }

  /** Two mods share a directory exactly when they are the same mod. */
  lemma ModDirInjective(h: Helper, m1: Mod, m2: Mod)
    ensures ModDir(h, m1) == ModDir(h, m2) <==> m1 == m2
  {
    if ModDir(h, m1) == ModDir(h, m2) {
      assert m1.id == ModDir(h, m1)[|h.dir| + 1..];
    }
  }

  /** Two colours share a directory exactly when their ids are equal. */
  lemma ColorDirInjective(h: Helper, c1: Color, c2: Color)
    ensures ColorDir(h, c1) == ColorDir(h, c2) <==> c1.id == c2.id
  {
    if ColorDir(h, c1) == ColorDir(h, c2) {
      assert c1.id == ColorDir(h, c1)[|h.dir| + 8..];
    }
  }

  /** A colour's directory is the directory a mod named `colors/` followed by the colour's id would get. */
  lemma ColorDirUnderColors(h: Helper, c: Color)
    ensures ColorDir(h, c) == ModDir(h, Mod("colors/" + c.id))
  {
    AppendAssoc(h.dir, "/", "colors/");
    AppendAssoc(h.dir + "/", "colors/", c.id);
  }

  // ---------------------------------------------------------------------------
  // File names
  // ---------------------------------------------------------------------------

  /** The characters the final `replaceAll` deletes: `\s` and `\ / : * ? " ' < > | + %`. */
  predicate IsForbidden(c: char)
  {
    || IsRegexSpace(c)
    || c == '\\' || c == '/' || c == ':' || c == '*' || c == '?' || c == '"' || c == '\''
    || c == '<' || c == '>' || c == '|' || c == '+' || c == '%'
  }

  /** Deletes every forbidden character. */
  function Strip(s: string): string
  {
    if s == [] then [] else (if IsForbidden(s[0]) then [] else [s[0]]) + Strip(s[1..])
  }

  /** `makeFilename`: `:` to `-`, `+` to `Plus`, `*` to `Star`, then the forbidden characters are deleted. */
  function MakeFilename(id: string): string
  {
    Strip(ReplaceAll(ReplaceAll(ReplaceAll(id, ":", "-"), "+", "Plus"), "*", "Star"))
  }

  /** What `makeFilename` turns one character into. */
  function FilenameChar(c: char): string
  {
    if c == ':' then "-"
    else if c == '+' then "Plus"
    else if c == '*' then "Star"
    else if IsForbidden(c) then []
    else [c]
  }

  /** A reference definition: `makeFilename` character by character. */
  function Sanitize(s: string): string
  {
    if s == [] then [] else FilenameChar(s[0]) + Sanitize(s[1..])
  }

  /** No character of `s` is forbidden in a file name. */
  predicate Clean(s: string)
  {
    forall i :: 0 <= i < |s| ==> !IsForbidden(s[i])
  }

  lemma {:induction false} StripConcat(x: string, y: string)
    ensures Strip(x + y) == Strip(x) + Strip(y)
  {
    if x == [] {
      assert x + y == y;
    } else {
      assert (x + y)[1..] == x[1..] + y;
      StripConcat(x[1..], y);
    }
  }

  lemma {:induction false} SanitizeConcat(x: string, y: string)
    ensures Sanitize(x + y) == Sanitize(x) + Sanitize(y)
  {
    if x == [] {
      assert x + y == y;
    } else {
      assert (x + y)[1..] == x[1..] + y;
      SanitizeConcat(x[1..], y);
    }
  }

  /** The three substitutions and the deletion, applied to one character. */
  function Chain(s: string): string
  {
    Strip(SubstChar(SubstChar(SubstChar(s, ':', "-"), '+', "Plus"), '*', "Star"))
  }

  lemma SubstOne(c: char, d: char, rep: string)
    ensures SubstChar([c], d, rep) == if c == d then rep else [c]
  {
    assert [c][1..] == [];
  }

  lemma {:induction false} StripClean(s: string)
    requires Clean(s)
    ensures Strip(s) == s
  {
    if s != [] {
      StripClean(s[1..]);
      assert s == [s[0]] + s[1..];
    }
  }

  lemma SubstChain(c: char)
    ensures SubstChar(SubstChar(SubstChar([c], ':', "-"), '+', "Plus"), '*', "Star")
      == if c == ':' then "-" else if c == '+' then "Plus" else if c == '*' then "Star" else [c]
  {
    SubstOne(c, ':', "-");
    if c == ':' {
      SubstCharAbsent("-", '+', "Plus");
      SubstCharAbsent("-", '*', "Star");
    } else if c == '+' {
      SubstOne(c, '+', "Plus");
      SubstCharAbsent("Plus", '*', "Star");
    } else {
      SubstOne(c, '+', "Plus");
      SubstOne(c, '*', "Star");
    }
  }

  lemma StripOne(c: char)
    ensures Strip([c]) == if IsForbidden(c) then [] else [c]
  {
    assert [c][1..] == [];
  }

  lemma ChainChar(c: char)
    ensures Chain([c]) == FilenameChar(c)
  {
    SubstChain(c);
    if c == ':' {
      StripClean("-");
    } else if c == '+' {
      StripClean("Plus");
    } else if c == '*' {
      StripClean("Star");
    } else {
      StripOne(c);
    }
  }

  lemma {:induction false} ChainSanitize(s: string)
    ensures Chain(s) == Sanitize(s)
  {
    if s != [] {
      var c, t := s[0], s[1..];
      assert s == [c] + t;
      var a1, a2 := SubstChar([c], ':', "-"), SubstChar(t, ':', "-");
      SubstCharConcat([c], t, ':', "-");
      var b1, b2 := SubstChar(a1, '+', "Plus"), SubstChar(a2, '+', "Plus");
      SubstCharConcat(a1, a2, '+', "Plus");
      SubstCharConcat(b1, b2, '*', "Star");
      StripConcat(SubstChar(b1, '*', "Star"), SubstChar(b2, '*', "Star"));
      ChainChar(c);
      ChainSanitize(t);
    }
  }

  /** `makeFilename` is the character-by-character rewriting. */
  lemma MakeFilenameCharwise(id: string)
    ensures MakeFilename(id) == Sanitize(id)
  {
    ReplaceSingleChar(id, ':', "-");
    ReplaceSingleChar(SubstChar(id, ':', "-"), '+', "Plus");
    ReplaceSingleChar(SubstChar(SubstChar(id, ':', "-"), '+', "Plus"), '*', "Star");
    ChainSanitize(id);
  }

  lemma CleanConcat(x: string, y: string)
    requires Clean(x) && Clean(y)
    ensures Clean(x + y)
  {
    assert forall i :: |x| <= i < |x| + |y| ==> (x + y)[i] == y[i - |x|];
  }

  lemma {:induction false} SanitizeClean(s: string)
    ensures Clean(Sanitize(s))
  {
    if s != [] {
      SanitizeClean(s[1..]);
      assert Clean(FilenameChar(s[0]));
      CleanConcat(FilenameChar(s[0]), Sanitize(s[1..]));
    }
  }

  lemma {:induction false} SanitizeOfClean(s: string)
    requires Clean(s)
    ensures Sanitize(s) == s
  {
    if s != [] {
      assert !IsForbidden(s[0]);
      SanitizeOfClean(s[1..]);
      assert s == [s[0]] + s[1..];
    }
  }

  /** A file name holds no white space and none of `\ / : * ? " ' < > | + %`. */
  lemma MakeFilenameClean(id: string)
    ensures forall i :: 0 <= i < |MakeFilename(id)| ==> !IsForbidden(MakeFilename(id)[i])
  {
    MakeFilenameCharwise(id);
    SanitizeClean(id);
  }

  /** A file name is left alone by `makeFilename`. */
  lemma MakeFilenameIdempotent(id: string)
    ensures MakeFilename(MakeFilename(id)) == MakeFilename(id)
  {
    MakeFilenameCharwise(id);
    SanitizeClean(id);
    MakeFilenameCharwise(Sanitize(id));
    SanitizeOfClean(Sanitize(id));
  }

  lemma SanitizeSplit(x: string, c: char, y: string)
    ensures Sanitize(x + [c] + y) == Sanitize(x) + FilenameChar(c) + Sanitize(y)
  {
    assert Sanitize([c]) == FilenameChar(c) by {
      assert [c][0] == c && [c][1..] == [];
    }
    assert Sanitize(x + [c]) == Sanitize(x) + FilenameChar(c) by {
      SanitizeConcat(x, [c]);
    }
    SanitizeConcat(x + [c], y);
  }

  /**
   * `:`, `+` and `*` survive as `-`, `Plus` and `Star`; every other forbidden
   * character disappears; the rest of the id is rewritten independently.
   */
  lemma MakeFilenameSplit(x: string, c: char, y: string)
    ensures c == ':' ==> MakeFilename(x + [c] + y) == MakeFilename(x) + "-" + MakeFilename(y)
    ensures c == '+' ==> MakeFilename(x + [c] + y) == MakeFilename(x) + "Plus" + MakeFilename(y)
    ensures c == '*' ==> MakeFilename(x + [c] + y) == MakeFilename(x) + "Star" + MakeFilename(y)
    ensures c != ':' && c != '+' && c != '*' && IsForbidden(c) ==> MakeFilename(x + [c] + y) == MakeFilename(x) + MakeFilename(y)
    ensures !IsForbidden(c) ==> MakeFilename(x + [c] + y) == MakeFilename(x) + [c] + MakeFilename(y)
  {
    MakeFilenameCharwise(x + [c] + y);
    MakeFilenameCharwise(x);
    MakeFilenameCharwise(y);
    SanitizeSplit(x, c, y);
  }

  // ---------------------------------------------------------------------------
  // Export paths
  // ---------------------------------------------------------------------------

  /** Drops a leading `modId:` from an id. */
  function StripModPrefix(modId: string, id: string): (r: string)
    ensures StartsWithAt(id, modId + ":", 0) <==> id == modId + ":" + r
    ensures !StartsWithAt(id, modId + ":", 0) ==> r == id
  {
    if StartsWithAt(id, modId + ":", 0) then id[|modId| + 1..] else id
  }

  /** Stripping undoes prefixing an id with its mod. */
  lemma StripModPrefixInverse(modId: string, x: string)
    ensures StripModPrefix(modId, modId + ":" + x) == x
  {
    assert (modId + ":" + x)[..|modId| + 1] == modId + ":";
  }

  /** `exportPath`: the file of item `id` in directory `d` of the mod's pages. */
  function ItemPath(h: Helper, mod: Mod, d: string, id: string, suffix: string): (e: ExportPath)
    ensures e.relativeToMod == d + "/" + MakeFilename(StripModPrefix(mod.id, id)) + suffix
    ensures e.relative == mod.id + "/" + e.relativeToMod
    ensures e.absolute == ModDir(h, mod) + "/" + e.relativeToMod
  {
    NewExportPath(h.dir, Some(mod.id), Some(d), MakeFilename(StripModPrefix(mod.id, id)) + suffix)
  }

  /** From a page in the mod's directory, an item of that mod is linked by its path under the mod. */
  lemma ModPageLink(h: Helper, mod: Mod, d: string, id: string, suffix: string)
    ensures RelativePath(ModDir(h, mod), ItemPath(h, mod, d, id, suffix).absolute) == ItemPath(h, mod, d, id, suffix).relativeToMod
  {
    var e := ItemPath(h, mod, d, id, suffix);
    var dir := ModDir(h, mod);
    assert e.absolute[..|dir| + 1] == dir + "/";
    RelativePathBelow(dir, e.absolute);
    assert e.absolute[|dir| + 1..] == e.relativeToMod;
  }

  /** From a colour's page, a file at the export root is two directories up. */
  lemma ColorPageLink(h: Helper, c: Color, f: string)
    requires '/' !in c.id && '/' !in f
    ensures RelativePath(ColorDir(h, c), h.dir + "/" + f) == "../../" + f
  {
    var a, b := ColorDir(h, c), h.dir + "/" + f;
    var p := LongestSlashPrefix(a, b);
    assert p == |h.dir| + 1 by {
      var q := |h.dir| + 1;
      assert (a + "/")[..q] == h.dir + "/" == b[..q];
      assert SlashPrefix(a, b, q);
    }
    assert UpCount(a, b) == 2 by {
      assert a[p..] == "colors" + "/" + c.id;
      assert CountChar("/", '/') == 1;
      CountCharAbsent("colors", '/');
      CountCharAbsent(c.id, '/');
      CountCharConcat("colors", "/", '/');
      CountCharConcat("colors" + "/", c.id, '/');
    }
    assert Repeat("../", 2) == "../../";
    assert b[p..] == f;
  }

  /** `modIncludedInExport`: only the base game can be left out, and only when it is not wanted. */
  function ModIncluded(h: Helper, mod: Mod): (r: bool)
    ensures !r <==> mod.id == BaseGameId && !h.includeBaseGame
  {
    if mod.id == BaseGameId then h.includeBaseGame else true
  }

  /** `findColor`: the first collected colour with the given enum value, or none. */
  method FindColor(h: Helper, color: nat) returns (r: Option<Color>)
    ensures r.None? <==> forall c :: c in h.colors ==> c.color != color
    ensures r.Some? ==> exists i :: (0 <= i < |h.colors| && h.colors[i] == r.value && r.value.color == color
      && forall j :: 0 <= j < i ==> h.colors[j].color != color)
  {
    var i := 0;
    while i < |h.colors|
      invariant i <= |h.colors|
      invariant forall j :: 0 <= j < i ==> h.colors[j].color != color
    {
      if h.colors[i].color == color {
        return Some(h.colors[i]);
      }
      i := i + 1;
    }
    return None;
  }
}
