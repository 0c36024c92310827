# sts-exporter core, modelled in Dafny

The sts-exporter mod writes the cards, relics, potions, keywords and
creatures of Slay the Spire, and of any loaded mods, to HTML, Markdown and
wiki pages. This project models the parts of the exporter that compute
text and paths. It leaves out the parts that render images or write files.

- **Upgrade text** (`CardExportData`). `combineUpgrade` shows a scalar
  field with its upgraded value. `combineDescriptions` merges a card's base
  description and its upgraded description into one text:
  1. preprocess punctuation and energy icons;
  2. split both texts into words;
  3. fill a Needleman–Wunsch score table;
  4. walk the table back and reverse the walk;
  5. render it in one of three dialects (`NORMAL_MODE`, `WIKI_FORMAT`, `WIKI_DATA`);
  6. tidy the spaces.

  It also models the rewrite of a card name into the name of its image file.
- **Smart text** (`RelicExportData.parseSmartText`). This is the game's
  description markup: `NL` and `TAB`, `#x` word colours, `[#rrggbb]` and
  `[name]` colour spans, `[]` closing a span, and `[[` escaping a bracket.
  It becomes HTML or plain text.
- **Export paths** (`ExportPath`, `ExportHelper`):
  - the absolute, root-relative and mod-relative path of an exported file;
  - links from one page to another (`relativeTo`, `commonPrefix`, `countDir`);
  - file names built from item ids (`makeFilename`, `exportPath`);
  - whether a mod is exported (`modIncludedInExport`);
  - the look-up of a card colour (`findColor`).
- **Potions and keywords**:
  - which class a potion belongs to (`getAllPotionIds`);
  - the fields of a potion record;
  - grouping of keywords under their parent word (`exportAllKeywords`);
  - the orders in which relics, potions and keywords are listed (`compareTo`).

Modules, one per file:

- `StringUtil`: Java string operations as functions: `replace`, `compareTo`, whitespace, ASCII lower case.
- `CardText`: word cost, word replacement, keyword format, preprocessing, word splitting, card image names.
- `Alignment`: the score table (an `array2`) and the walk back, with the optimality of the walk.
- `DiffRender`: the parenthesised and wiki serializers and the tidying replacements.
- `UpgradeDiff`: `combineDescriptions` assembled from the above.
- `SmartText`: `parseSmartText` as a parser state machine. `ParseOne` handles one character and writes most branches of the source loop inline. The `[` branch is the separate method `ParseBracket`, which uses `CloseLastTag` and `OpenColorTag`. Closing the tags of a word is `CloseWordTags`. `ParseOne` and each of these helpers is proved equal to a step function.
- `ExportPaths`: `ExportPath`.
- `ExportHelper`: `exportDir`, `exportPath`, `makeFilename`, `modIncludedInExport` and `findColor`.
- `Potions`, `Keywords` and `Relics`: the records, their look-ups and their orders.

The code that changes variables step by step is written as methods with
loops:

- the table fill, the walk back and the serializers;
- the smart-text parser and the word scanner;
- `commonPrefix`, `countDir` and `relativeTo`;
- `getAllPotionIds`, `exportAllKeywords` and `findColor`.

Most of these methods are proved equal to a function, and lemmas then
prove what the exporter promises about that function. Two methods have
contracts that relate their result to the input instead of naming a
function:

- `ExportHelper.FindColor` returns the first colour with the asked card colour, and returns none exactly when there is no such colour.
- `Keywords.ExportAllKeywords` returns a sorted permutation of the grouped keywords, and fails exactly when some parent is not a root keyword.

## Model

| member | source | states |
|---|---|---|
| CardText.CombineUpgrade | src/main/java/sts_exporter/CardExportData.java:273-279 | The result is the base value exactly when there is no upgrade or the upgrade is equal. Otherwise it is `a(b)`, or `[a\|b]` in WIKI_DATA. |
| CardText.WordCostMeaning | src/main/java/sts_exporter/CardExportData.java:413-417 | The cost is 0 exactly for equal words. It is 10 exactly for a plural `s` outside WIKI_DATA, and 21 for any other pair. |
| CardText.WordReplacementMeaning | src/main/java/sts_exporter/CardExportData.java:418-422 | The replacement is the base word exactly when the cost is 0. It is `w(s)` for a plural and `a (b)` otherwise. It always starts with the base word. |
| CardText.FormatKeyword | src/main/java/sts_exporter/CardExportData.java:424-434 | A word changes only if it is a keyword (or "energy", case-insensitively) and the mode is not NORMAL. It becomes `[[w]]` in WIKI_FORMAT and `#w` in WIKI_DATA. |
| CardText.FormatKeywordIdempotent | src/main/java/sts_exporter/CardExportData.java:424-434 | Formatting a formatted word changes nothing, when no keyword starts with `[` or `#`. |
| CardText.IconRunCount | src/main/java/sts_exporter/CardExportData.java:405-407 | A run of n energy icons is 4n-1 characters long and holds n icons, so `(length+1)/4` is the icon count. |
| CardText.EnergySymbolsAreRuns | src/main/java/sts_exporter/CardExportData.java:405-407 | The energy table lists runs of 3, 2 and 1 icons for R, G and B. The number written for each is its icon count. |
| CardText.PreprocessedPunctuationSpaced | src/main/java/sts_exporter/CardExportData.java:400-411 | In every mode, every `.` and `,` in the preprocessed text has a space before it, so each becomes a word of its own. |
| CardText.PreprocessText | src/main/java/sts_exporter/CardExportData.java:400-411 | The replacement chain equals the preprocessing function, and its result has spaced punctuation. |
| CardText.Tokens | src/main/java/sts_exporter/CardExportData.java:436-444 | Every word is non-empty and holds no whitespace. |
| CardText.TokensKeepCharacters | src/main/java/sts_exporter/CardExportData.java:436-444 | The words, concatenated, are exactly the non-whitespace characters of the text, in order. |
| CardText.TokensOfJoin | src/main/java/sts_exporter/CardExportData.java:436-444 | Splitting words joined by single spaces gives the same words back. |
| CardText.Words | src/main/java/sts_exporter/CardExportData.java:436-444 | The scanner loop returns exactly the words of the text. |
| CardText.ScanWord | src/main/java/sts_exporter/CardExportData.java:439-441 | The word the scanner returns is a maximal run of non-whitespace characters. |
| CardText.SafeName | src/main/java/sts_exporter/CardExportData.java:98-101 | The safe name holds no space, `/` or `+`. |
| CardText.SafeNameIsCharwise | src/main/java/sts_exporter/CardExportData.java:98-101 | The three `replace` calls rewrite each character on its own: spaces and slashes are dropped and `+` becomes `Plus`. |
| CardText.CardImagePaths | src/main/java/sts_exporter/CardExportData.java:97-104 | The image is the safe name plus `.png`. The absolute path is under the image directory and the relative one under `card-images/`. |
| Alignment.FillScore | src/main/java/sts_exporter/CardExportData.java:290-306 | Every cell of the new table holds the edit score of the two word prefixes. |
| Alignment.FillRow | src/main/java/sts_exporter/CardExportData.java:301-305 | Filling one row keeps the filled rows and makes row `ai` correct. |
| Alignment.ScoreCell | src/main/java/sts_exporter/CardExportData.java:302-304 | An inner cell is the minimum of the insert-A, insert-B and pairing costs. |
| Alignment.Pick | src/main/java/sts_exporter/CardExportData.java:311-338 | The step taken at a cell is one the cell allows: no A or pairing step on the top row and no B or pairing step in the left column. |
| Alignment.PickCheapest | src/main/java/sts_exporter/CardExportData.java:314-326 | The walk back takes a cheapest allowed step. Among equally cheap steps it prefers an upgraded word alone, then a base word alone, then a pair. |
| Alignment.StepAt | src/main/java/sts_exporter/CardExportData.java:312-328 | The step and the word chosen from the array cell are the ones the walk function chooses. |
| Alignment.TakeRemaining | src/main/java/sts_exporter/CardExportData.java:330-339 | After the table's edge, the remaining B words and then the remaining A words are taken in reverse order. |
| Alignment.WalkBack | src/main/java/sts_exporter/CardExportData.java:307-339 | The words and sources collected equal the reversed walk back from the corner. |
| Alignment.WalkFits | src/main/java/sts_exporter/CardExportData.java:307-339 | The walk uses every word of both texts once, in order, and the words it emits are those of its steps. |
| Alignment.Reverse | src/main/java/sts_exporter/CardExportData.java:341-342 | Reversing keeps the length. |
| Alignment.ReverseReverse | src/main/java/sts_exporter/CardExportData.java:341-342 | Reversing twice gives the original list. |
| Alignment.ReverseMultiset | src/main/java/sts_exporter/CardExportData.java:341-342 | Reversing is a permutation. |
| Alignment.ReverseAt | src/main/java/sts_exporter/CardExportData.java:341-342 | Element k of the reversal is element n-1-k of the original. |
| Alignment.Table | src/main/java/sts_exporter/CardExportData.java:293-306 | The table function has the table's shape, and every cell holds the score. |
| Alignment.TableRecurrent | src/main/java/sts_exporter/CardExportData.java:294-306 | The table satisfies the Needleman–Wunsch recurrence. |
| Alignment.RowsOfFilled | src/main/java/sts_exporter/CardExportData.java:293-306 | The filled array, read as rows, is the table function. |
| Alignment.RecurrentIsMinimal | src/main/java/sts_exporter/CardExportData.java:290-306 | A cell of any table satisfying the recurrence is no more than the cost of any alignment of the prefixes. |
| Alignment.RecurrentWalkCost | src/main/java/sts_exporter/CardExportData.java:307-339 | The walk back through such a table costs exactly the corner cell. |
| Alignment.RecurrentPairsCheaply | src/main/java/sts_exporter/CardExportData.java:311-328 | Every pairing step of the walk costs less than a deletion plus an insertion. |
| Alignment.WalkIsOptimal | src/main/java/sts_exporter/CardExportData.java:290-339 | The alignment found costs the score of the two texts, and no alignment costs less. |
| Alignment.WalkPairsCheaply | src/main/java/sts_exporter/CardExportData.java:311-328 | The alignment found pairs only words that differ by at most a plural `s` or are equal. |
| Alignment.AlignedIdentical | src/main/java/sts_exporter/CardExportData.java:290-342 | Two equal texts align word for word, with every word marked common. |
| Alignment.AlignedFromNothing | src/main/java/sts_exporter/CardExportData.java:330-342 | An empty base text aligns as all upgrade words, in order. |
| Alignment.AlignedToNothing | src/main/java/sts_exporter/CardExportData.java:335-342 | An empty upgraded text aligns as all base words, in order. |
| Alignment.AlignedCounts | src/main/java/sts_exporter/CardExportData.java:307-342 | The alignment has one A or C step per base word and one B or C step per upgraded word. |
| Alignment.ScoreDiagonal | src/main/java/sts_exporter/CardExportData.java:294-306 | The score of a text against itself is 0. |
| Alignment.DiagonalWalk | src/main/java/sts_exporter/CardExportData.java:311-328 | On a zero diagonal, the walk pairs each word with itself. |
| DiffRender.SerializeParens | src/main/java/sts_exporter/CardExportData.java:345-375 | The loop builds the parenthesised rendering function. |
| DiffRender.SerializeWord | src/main/java/sts_exporter/CardExportData.java:350-365 | One loop iteration is one step of the rendering function. |
| DiffRender.AppendNotList | src/main/java/sts_exporter/CardExportData.java:357-360 | The loop appends the deleted words, each after a space. |
| DiffRender.RenderParensAllC | src/main/java/sts_exporter/CardExportData.java:345-375 | A text with no changes renders as its formatted words joined by spaces. |
| DiffRender.RenderParensAllB | src/main/java/sts_exporter/CardExportData.java:352-367 | A text that is all added renders as `(` + words + `)`. |
| DiffRender.RenderParensAllA | src/main/java/sts_exporter/CardExportData.java:368-375 | A text that is all deleted renders as its words followed by `(not` + the words + `)`. |
| DiffRender.NotGroupClose | src/main/java/sts_exporter/CardExportData.java:368-375 | A trailing deletion run closes with ` (not` + the run + `)`. |
| DiffRender.ParenPrefixPrev | src/main/java/sts_exporter/CardExportData.java:363 | After a word, the state holds that word's source. |
| DiffRender.ParenStepTag | src/main/java/sts_exporter/CardExportData.java:351-363 | A step records the word's source. It moves the start of the base-only run to this word exactly when a base-only run begins here. |
| DiffRender.ParenRunStart | src/main/java/sts_exporter/CardExportData.java:351-363 | At the first word of a run, the state takes the run's source, and a base-only run starts there. |
| DiffRender.ParenRunTag | src/main/java/sts_exporter/CardExportData.java:349-366 | At every word of a run, the state holds the run's source. For a base-only run, it holds the index where the run began. |
| DiffRender.ParenRunStep | src/main/java/sts_exporter/CardExportData.java:350-365 | Inside a run, in any alignment, a word adds only a space and the marked-up word. |
| DiffRender.ParenStepOpens | src/main/java/sts_exporter/CardExportData.java:350-365 | A step into an upgraded-only run writes the separator, `(` and the word. |
| DiffRender.ParenOpensRun | src/main/java/sts_exporter/CardExportData.java:350-365 | In any alignment, the first word of an upgraded-only run is written as the separator, `(`, then the word. |
| DiffRender.ParenOpensDeletion | src/main/java/sts_exporter/CardExportData.java:350-365 | A base-only run after a combined word, or at the start, writes only the separator and its first word. |
| DiffRender.ParenClosesRun | src/main/java/sts_exporter/CardExportData.java:350-365 | The word after an upgraded-only run is written after ` ) `. |
| DiffRender.ParenNotGroup | src/main/java/sts_exporter/CardExportData.java:350-365 | A combined word that ends a base-only run is written after ` (not`, the run's words each after a space, and `)`, with no space before the word. |
| DiffRender.ParenTrailingNot | src/main/java/sts_exporter/CardExportData.java:367-375 | A base-only run at the end is followed by ` (not`, its words each after a space, and `)`. |
| DiffRender.ParenTrailingClose | src/main/java/sts_exporter/CardExportData.java:367 | An upgraded-only run at the end is closed with `)`. |
| DiffRender.RenderParensNest | src/main/java/sts_exporter/CardExportData.java:345-375 | With words that keep their parentheses balanced, the parenthesised rendering has balanced parentheses. |
| DiffRender.FormatKeywordParens | src/main/java/sts_exporter/CardExportData.java:424-434 | Keyword formatting adds no parentheses. |
| DiffRender.SerializeWiki | src/main/java/sts_exporter/CardExportData.java:376-391 | The loop builds the wiki rendering function. |
| DiffRender.WikiWords | src/main/java/sts_exporter/CardExportData.java:377-388 | The word loop reaches the state of the rendering after all words. |
| DiffRender.WikiWord | src/main/java/sts_exporter/CardExportData.java:378-387 | One loop iteration is one step of the wiki rendering. |
| DiffRender.CloseWiki | src/main/java/sts_exporter/CardExportData.java:389-390 | An open run is closed with `]` after added words and with `\|` after deleted words. |
| DiffRender.RenderWikiAllC | src/main/java/sts_exporter/CardExportData.java:376-391 | A text with no changes renders as its formatted words joined by spaces. |
| DiffRender.WikiFirst | src/main/java/sts_exporter/CardExportData.java:381-382 | The first word opens with `\|` or `[`, without a space, when it is added or deleted. |
| DiffRender.RenderWikiReplaced | src/main/java/sts_exporter/CardExportData.java:376-391 | A replaced word renders as `[a\|b]`. |
| DiffRender.RenderWikiDropped | src/main/java/sts_exporter/CardExportData.java:378-382 | A deleted word before a common word renders as `[a\|] c`. |
| DiffRender.RenderWikiAddedAfterCommon | src/main/java/sts_exporter/CardExportData.java:381-389 | A word added after a common word renders as `c\| b]`. |
| DiffRender.RenderWikiDroppedAtEnd | src/main/java/sts_exporter/CardExportData.java:382-390 | A deleted last word renders as `c [a\|`. |
| DiffRender.WikiSepLayout | src/main/java/sts_exporter/CardExportData.java:378-384 | The separator written in front of a word contains only brackets, bars and spaces. |
| DiffRender.FormatKeywordLayoutFree | src/main/java/sts_exporter/CardExportData.java:424-434 | Outside WIKI_FORMAT, marking up a word adds no bracket, bar or space. |
| DiffRender.WikiPrefixText | src/main/java/sts_exporter/CardExportData.java:377-388 | The serializer's text after `n` words equals a stateless reference in which each separator depends only on the word's source and its predecessor's. |
| DiffRender.WikiTextWords | src/main/java/sts_exporter/CardExportData.java:377-388 | Without its layout, the reference text after `n` words is the first `n` marked-up words run together. |
| DiffRender.WordsTextConcat | src/main/java/sts_exporter/CardExportData.java:387 | The marked-up words run together in order. |
| DiffRender.RenderWikiWords | src/main/java/sts_exporter/CardExportData.java:376-391 | If no word contains a bracket, bar or space, then deleting those characters from the WIKI_DATA rendering leaves every marked-up word, in order. |
| DiffRender.TidyParensKeepsParens | src/main/java/sts_exporter/CardExportData.java:396 | Tidying keeps the sequence of parentheses, so it keeps their balance. |
| DiffRender.TidyWikiKeepsMarkers | src/main/java/sts_exporter/CardExportData.java:394 | Tidying keeps the sequence of `[`, `]` and `\|` markers. |
| UpgradeDiff.CombineDescriptions | src/main/java/sts_exporter/CardExportData.java:281-398 | The method equals the composition: preprocess, split, fill, walk back, reverse, render and tidy. |
| UpgradeDiff.Render | src/main/java/sts_exporter/CardExportData.java:343-397 | The dialect's serializer is followed by the dialect's tidying. |
| UpgradeDiff.CombinedUnchanged | src/main/java/sts_exporter/CardExportData.java:281-398 | Outside NORMAL_MODE, a description equal to its upgrade renders as its formatted words, tidied. |
| UpgradeDiff.CombinedAllAdded | src/main/java/sts_exporter/CardExportData.java:281-398 | Upgrading from an empty description puts the whole upgrade in parentheses. |
| UpgradeDiff.CombinedAllDropped | src/main/java/sts_exporter/CardExportData.java:281-398 | Upgrading to an empty description marks the whole base text `(not …)`. |
| UpgradeDiff.CombinedNest | src/main/java/sts_exporter/CardExportData.java:281-398 | In the parenthesised dialects, descriptions without parentheses combine into a text with balanced parentheses. |
| UpgradeDiff.AlignedNestOk | src/main/java/sts_exporter/CardExportData.java:307-342 | Every word of the alignment is paren-free, or for a pairing, balanced. |
| UpgradeDiff.WordReplacementNest | src/main/java/sts_exporter/CardExportData.java:418-422 | The replacement of two paren-free words has balanced parentheses. |
| UpgradeDiff.PreprocessedParenFree | src/main/java/sts_exporter/CardExportData.java:400-411 | Preprocessing adds no parentheses. |
| SmartText.IndexOf | src/main/java/sts_exporter/RelicExportData.java:271 | The result is the first `]` at or after the position, or -1 when there is none. |
| SmartText.Step | src/main/java/sts_exporter/RelicExportData.java:218-323 | Each step of the parser consumes at least one character and stays within the text. |
| SmartText.Bracket | src/main/java/sts_exporter/RelicExportData.java:266-305 | The bracket branch consumes at least one character. |
| SmartText.Run | src/main/java/sts_exporter/RelicExportData.java:218-323 | The loop ends at the end of the text. |
| SmartText.CloseWordTags | src/main/java/sts_exporter/RelicExportData.java:221-224 | The loop closes the spans that end with the word. |
| SmartText.CloseLastTag | src/main/java/sts_exporter/RelicExportData.java:277-283 | `[]` closes the innermost open span, if there is one. |
| SmartText.OpenColorTag | src/main/java/sts_exporter/RelicExportData.java:291-304 | A colour tag opens a span that lasts to the end of the word when smart or already inside word spans. |
| SmartText.ParseBracket | src/main/java/sts_exporter/RelicExportData.java:266-305 | The bracket branch equals its step function. |
| SmartText.ParseOne | src/main/java/sts_exporter/RelicExportData.java:219-322 | One iteration of the loop equals one parser step. |
| SmartText.ParseSmartText | src/main/java/sts_exporter/RelicExportData.java:211-329 | The method equals the parse function, including `null` giving the empty string. |
| SmartText.SmartTextToHtml | src/main/java/sts_exporter/RelicExportData.java:199-201 | HTML output is the parse with `html` set. |
| SmartText.SmartTextToPlain | src/main/java/sts_exporter/RelicExportData.java:203-205 | Plain output is the parse with `html` cleared. |
| SmartText.StepInv | src/main/java/sts_exporter/RelicExportData.java:218-323 | Each step keeps the parser invariant. In HTML, the open spans are counted by the output's tags. In plain text, the output uses only characters of the input, spaces, line breaks and tabs. |
| SmartText.BracketInv | src/main/java/sts_exporter/RelicExportData.java:266-305 | The bracket branch keeps the parser invariant. |
| SmartText.RunInv | src/main/java/sts_exporter/RelicExportData.java:218-323 | The whole loop keeps the parser invariant. |
| SmartText.DrainWritten | src/main/java/sts_exporter/RelicExportData.java:324-327 | Draining closes every open span. |
| SmartText.ParsedTags | src/main/java/sts_exporter/RelicExportData.java:211-329 | In HTML, for input without `<`, every `<span …>` in the output is closed: there are as many `<` as twice the `</span>` count. Plain output holds only input characters, spaces, line breaks and tabs. |
| SmartText.ParsedCopies | src/main/java/sts_exporter/RelicExportData.java:306-322 | Without smart text and markup, the visible characters are the input's, escaped for HTML. |
| SmartText.LineBreakExample | src/main/java/sts_exporter/RelicExportData.java:236-239 | `a NL b` becomes a line break without the surrounding spaces. |
| SmartText.BracketEscapeExample | src/main/java/sts_exporter/RelicExportData.java:257-265 | `[[` stands for one `[`. |
| SmartText.EnergyOrbExample | src/main/java/sts_exporter/RelicExportData.java:272-276 | `[R]` is an energy orb and is copied. |
| SmartText.ColorTagExample | src/main/java/sts_exporter/RelicExportData.java:277-304 | `[#f00]x[]` becomes a styled span around `x`. |
| SmartText.WordColorExample | src/main/java/sts_exporter/RelicExportData.java:244-256 | `#y` colours the rest of its word, and the span closes at the next space. |
| SmartText.UnescapedColorExample | src/main/java/sts_exporter/RelicExportData.java:285-296 | The colour name is copied into the style unescaped. |
| Relics.Compare | src/main/java/sts_exporter/RelicExportData.java:361-364 | Relics are ordered by tier, then by name, and compare equal only when both agree. |
| Relics.CompareAntisymmetric | src/main/java/sts_exporter/RelicExportData.java:361-364 | Swapping the arguments negates the comparison. |
| Relics.CompareTransitive | src/main/java/sts_exporter/RelicExportData.java:361-364 | The order is transitive. |
| ExportPaths.NewExportPath | src/main/java/sts_exporter/ExportPath.java:11-15 | The absolute path is `base/` + the relative path, and the relative path is the mod directory + the mod-relative path. The relative path is a suffix of the absolute one. `file` stays unset. |
| ExportPaths.SearchSlashPrefix | src/main/java/sts_exporter/ExportPath.java:31-38 | The result is the largest shared prefix length up to k that ends at a directory boundary. |
| ExportPaths.LongestSlashPrefix | src/main/java/sts_exporter/ExportPath.java:31-38 | The result is the longest common prefix of the two paths that ends at a directory boundary. |
| ExportPaths.ScanStop | src/main/java/sts_exporter/ExportPath.java:33-36 | Past the scanned prefix, the only longer boundary is one where `a` ends and `b` continues with `/`. |
| ExportPaths.CommonPrefix | src/main/java/sts_exporter/ExportPath.java:31-38 | The loop returns the longest common directory prefix. |
| ExportPaths.CountDir | src/main/java/sts_exporter/ExportPath.java:39-46 | The count is 0 for the empty path and otherwise 1 + the number of `/`. |
| ExportPaths.RelativeTo | src/main/java/sts_exporter/ExportPath.java:22-30 | The result is one `../` per directory left in `dir` past the common prefix, followed by the rest of the absolute path. |
| ExportPaths.RelativePathBelow | src/main/java/sts_exporter/ExportPath.java:22-30 | A path inside `dir` is reached by the remainder after `dir/`. |
| ExportPaths.RelativePathResolves | src/main/java/sts_exporter/ExportPath.java:22-30 | Going up the computed number of directories from `dir/`, then following the rest, gives the absolute path. |
| ExportPaths.LastSlashBefore | src/main/java/sts_exporter/ExportPath.java:22-30 | The result is the last `/` before a position, or -1 when there is none. |
| ExportHelper.ModDir | src/main/java/sts_exporter/ExportHelper.java:113-115 | A mod's directory is the export directory, a slash, then the mod id. |
| ExportHelper.ModDirInjective | src/main/java/sts_exporter/ExportHelper.java:113-115 | Two mods get the same directory exactly when they are the same mod. |
| ExportHelper.ColorDir | src/main/java/sts_exporter/ExportHelper.java:116-118 | A colour's directory is the export directory, `/colors/`, then the colour id. |
| ExportHelper.ColorDirInjective | src/main/java/sts_exporter/ExportHelper.java:116-118 | Two colours get the same directory exactly when their ids are equal. |
| ExportHelper.ColorDirUnderColors | src/main/java/sts_exporter/ExportHelper.java:113-118 | A colour's directory is the one a mod with id `colors/` plus the colour id would get. |
| ExportHelper.ItemPath | src/main/java/sts_exporter/ExportHelper.java:120-126 | An item's path is under the mod's directory and item directory, and its file name is built from the id without the mod prefix. |
| ExportHelper.StripModPrefix | src/main/java/sts_exporter/ExportHelper.java:121-123 | The prefix `modId:` is removed exactly when present. |
| ExportHelper.StripModPrefixInverse | src/main/java/sts_exporter/ExportHelper.java:121-123 | Stripping the prefix undoes adding it. |
| ExportHelper.ModPageLink | src/main/java/sts_exporter/ExportHelper.java:113-126 | From the mod's page, the link to an item is its mod-relative path. |
| ExportHelper.ColorPageLink | src/main/java/sts_exporter/ExportHelper.java:116-118 | From a colour's page, a file in the export root is two directories up. |
| ExportHelper.MakeFilenameCharwise | src/main/java/sts_exporter/ExportHelper.java:128-133 | The four replacements rewrite the id one character at a time. |
| ExportHelper.MakeFilenameClean | src/main/java/sts_exporter/ExportHelper.java:128-133 | A file name contains no whitespace and none of `\ / : * ? " ' < > \| + %`. |
| ExportHelper.MakeFilenameIdempotent | src/main/java/sts_exporter/ExportHelper.java:128-133 | Making a file name from a file name changes nothing. |
| ExportHelper.MakeFilenameSplit | src/main/java/sts_exporter/ExportHelper.java:128-133 | `:` becomes `-`, `+` becomes `Plus`, `*` becomes `Star`, other forbidden characters are dropped and the rest are kept, each independently of its neighbours. |
| ExportHelper.ModIncluded | src/main/java/sts_exporter/ExportHelper.java:182-188 | A mod is left out exactly when it is the base game and the base game is not included. |
| ExportHelper.FindColor | src/main/java/sts_exporter/ExportHelper.java:190-195 | The result is the first colour with the given card colour, or none exactly when no colour has it. |
| Potions.GetAllPotionIds | src/main/java/sts_exporter/PotionExportData.java:61-74 | A potion is listed exactly when some class has it. Its class is null exactly when it occurs more than once. Otherwise it is the class whose list holds it. |
| Potions.TallyEntry | src/main/java/sts_exporter/PotionExportData.java:61-74 | The same three facts about the tally function. |
| Potions.OnceMeansOneClass | src/main/java/sts_exporter/PotionExportData.java:65-70 | A potion that occurs once is in exactly one class's list. |
| Potions.NewPotion | src/main/java/sts_exporter/PotionExportData.java:19-30 | The record keeps the id and the name, and the rarity as the enum ordinal that `compareTo` reads. `playerClass` is always `""`. The image is `potions/<file name>.png` under the mod directory. |
| Potions.Compare | src/main/java/sts_exporter/PotionExportData.java:77-80 | Potions are ordered by rarity, then by name. |
| Potions.CompareAntisymmetric | src/main/java/sts_exporter/PotionExportData.java:77-80 | Swapping the arguments negates the comparison. |
| Potions.CompareTransitive | src/main/java/sts_exporter/PotionExportData.java:77-80 | The order is transitive. |
| Keywords.CollectRoots | src/main/java/sts_exporter/KeywordExportData.java:30-37 | The entries are the keywords that are their own root. The look-up maps each entry's name to its index. |
| Keywords.RootsExactly | src/main/java/sts_exporter/KeywordExportData.java:30-37 | A name is an entry exactly when it is a keyword with no other parent. |
| Keywords.RootsNamesAreKeys | src/main/java/sts_exporter/KeywordExportData.java:30-37 | Every entry is a root keyword and starts with no alternative names. |
| Keywords.DistinctRootNames | src/main/java/sts_exporter/KeywordExportData.java:30-37 | No two entries share a name. |
| Keywords.AttachNames | src/main/java/sts_exporter/KeywordExportData.java:38-41 | Every word is added to its parent's names, in order. The call fails exactly when some parent is not an entry. |
| Keywords.InsertPermutation | src/main/java/sts_exporter/KeywordExportData.java:42 | Insertion adds one element and loses none. |
| Keywords.InsertSorted | src/main/java/sts_exporter/KeywordExportData.java:42 | Insertion keeps a sorted list sorted. |
| Keywords.SortByNameCorrect | src/main/java/sts_exporter/KeywordExportData.java:42 | The sort returns a sorted permutation of its input. |
| Keywords.ExportAllKeywords | src/main/java/sts_exporter/KeywordExportData.java:27-44 | The result is a sorted permutation of the root keywords with their alternative names. It fails exactly when a parent word is not a root keyword. |
| Keywords.Compare | src/main/java/sts_exporter/KeywordExportData.java:46-49 | Keywords compare by name and are equal exactly when their names are. The order is antisymmetric. |
| Keywords.CompareTransitive | src/main/java/sts_exporter/KeywordExportData.java:46-49 | The order is transitive. |

## Left out

- Image rendering, file and directory creation (`mkdir`), templates, logging and reflection over the game's classes (`findMod`) are I/O or calls into the game. They are not modelled.
- The game's keyword dictionary, the colour table (`Colors.get`) and the potion lists per class are parameters:
  - a set of lower-case keywords;
  - an `isColor` predicate;
  - one sequence of ids per class, in class order.
- `HashMap` iteration order is not known. The keyword dictionaries are sequences in an arbitrary fixed order.
- Enum values (tier, rarity, class, card colour) are natural numbers ordered by their ordinal, as `Enum.compareTo` orders them.
- Strings are sequences of characters. UTF-16 surrogate pairs are not distinguished.
- `toLowerCase` maps only ASCII letters.
- `Scanner` whitespace is the set of Java whitespace characters.
- `Collections.sort` is modelled as an insertion sort. The model proves that the result is sorted and a permutation, not that it is stable. Keyword names are distinct, so sortedness and permutation together fix the order.
- Keyword entries are values, looked up through an index map. They are not shared objects. `names` lists are appended to in the order of the parent dictionary.
- The keyword record's `descriptionHTML` and `descriptionPlain` fields are not modelled, and neither is its `mod` field: the constructor finds that mod and adds the keyword to it, which are calls into the game and the mod records (KeywordExportData.java:21-24). The smart-text conversions themselves are modelled in `SmartText`.
- The potion record's `description` and `descriptionHTML` fields are not modelled. The potion constructor calls `smartTextToHTML` with one argument (PotionExportData.java:26), but RelicExportData.java defines only the three-argument version (lines 199-205), so that call has no definition to model. The mod look-up and `mod.potions.add` are calls into the game.
- Potions.NewPotion: the record's `rarity` field is a display string in the source, `Exporter.rarityName(potion.rarity)` (PotionExportData.java:27). But `rarityName` is defined only for card rarities (Exporter.java:232), so that call has no definition for potion rarities. The model stores the potion rarity's ordinal instead, which is the value the order reads (PotionExportData.java:78).
- The unused parameter `cls` of the potion constructor: the record's `playerClass` reads the still-unset field, so it is always `""`. The model keeps that behaviour.
- `ExportPath.file` is never assigned, so it stays unset (`None`).
- SmartText.ParsedTags: the HTML balance is proved only for input without `<`. Inside a colour tag, the colour name is copied into the output unescaped, so a `<` there breaks the count (see `SmartText.UnescapedColorExample`).
- `parseSmartText`'s `int` counters are unbounded here. A Java overflow would need more than 2^31 tags.
- Keywords.ExportAllKeywords: a parent word that is not a root entry makes Java throw a `NullPointerException`. The model returns `None` instead.
- UpgradeDiff.CombinedNest: balance is stated for NORMAL_MODE and WIKI_FORMAT. For WIKI_DATA, the model proves only that tidying keeps the `[`, `]` and `|` markers (`DiffRender.TidyWikiKeepsMarkers`).
- In NORMAL_MODE and WIKI_FORMAT, a deletion run followed by a common word is written `(not X)Y`, with no space before `Y`. The model keeps this as the code writes it.
- Several methods split a source loop into phases:
  - `ScanWord` (the scanner);
  - `WikiWords` and `CloseWiki` (the wiki serializer);
  - `CollectRoots` and `AttachNames` (`exportAllKeywords`);
  - `FillRow` (the inner table loop);
  - `CloseLastTag` and `OpenColorTag` (the bracket branch).

  Each phase is proved against the same function as the whole loop.
