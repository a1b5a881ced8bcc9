# webpack SVG sprite generator — a Dafny model

The plugin collects the SVG icons of a folder into one sprite sheet. It nests every icon's root
element into one outer `<svg>`, placed where a packer puts it. Around the sheet it writes:

- a stylesheet: one rule for a configured selector, then one background-position rule per icon;
- a TypeScript declaration file: a union of class names, an enum, the entry list;
- a small JavaScript module that exports the same data at run time.

This project models that generation pipeline (`plugin/generator.ts`). It also models the pure
parts of the webpack plugin class (`plugin/plugin.ts`):

- the option defaults;
- resolving a module request to a sprite configuration;
- the asset name and URL of the sheet;
- the stylesheet built from every CSS variant;
- the escaping that carries the stylesheet into the generated module;
- the generated module's source.

Modules, one per file:

| module | models |
|---|---|
| `Wrappers` | `Option` and `Result` |
| `Text` | `join`, `split`, `replace(/c/g, …)`, `substr`, `endsWith` on strings |
| `Dict` | plain JavaScript objects as insertion-ordered key/value lists (`d[k]`, `d[k] = v`, `delete d[k]`, `Object.keys`) |
| `Xml` | `generateAttributes` and `jsNode2xml` over the parser's node tree |
| `Sprite` | icons, bounds, the generated sprite, the packer, and the JavaScript built-ins the generator calls |
| `Loader` | the filtering part of `generateSprite`: names from paths, `viewBox` parsing, which files are kept |
| `Composite` | `generateSpriteSvg` |
| `Geometry` | the size tally, the canonical icon size, and the scale factors of `generateSpriteCss` |
| `Css` | `generateSpriteCss`, including its `unit` helper |
| `Declarations` | `generateEnumMembers` and `generateSpriteDts` |
| `Runtime` | `generateSpriteJs` |
| `Plugin` | the pure pieces of `plugin/plugin.ts` |

JavaScript numbers are `real`, and `NaN` from `parseFloat` is `None`. Outside code the generator
calls is passed in as a `Sprite.Foreign` value:

- `Number#toString` and template-literal formatting;
- `parseFloat`;
- `pascalCase` from change-case;
- `sha1`;
- `encodeURIComponent`.

The packer (potpack) is a `Sprite.Packer`: any function that returns one position per box.

## Model

| member | source | states |
|---|---|---|
| Text.Split | plugin/plugin.ts:161 | `split` on one character yields at least one piece, and no piece contains the separator |
| Text.JoinSplit | plugin/plugin.ts:161 | joining the pieces of `split("\n")` with `"\n"` gives the string back |
| Text.SplitJoin | plugin/plugin.ts:161 | splitting a join of separator-free pieces gives the pieces back |
| Text.ReplaceAll | plugin/generator.ts:144 | a global one-character replace leaves no occurrence of the character unless the replacement has one, and adds only replacement characters |
| Text.Substr | plugin/generator.ts:171 | `substr(start)` is a suffix of the string; a negative start counts from the end and is clamped, a start past the end gives `""` |
| Dict.PutKeys | plugin/generator.ts:148 | assigning a property keeps the key order; a new key is appended at the end |
| Dict.PutGet | plugin/generator.ts:148 | after `d[k] = v`, `k` reads `v` and every other key reads what it read before |
| Dict.RemoveGet | plugin/generator.ts:58-59 | after `delete d[k]`, `k` reads `undefined` and every other key is unchanged |
| Xml.AttributesText | plugin/generator.ts:10-15 | no attributes print as `""`; otherwise one ` k="v"` per attribute, each opening with a space |
| Xml.ParsePrinted | plugin/generator.ts:14 | printable attributes read back from their printed text as the same list |
| Xml.PrintParsed | plugin/generator.ts:14 | any text that reads as an attribute list is exactly the printing of what it reads as |
| Xml.PrintsIffValid | plugin/generator.ts:17-19 | `jsNode2xml` throws exactly when some element in the tree has both text and children |
| Xml.ChildTexts | plugin/generator.ts:24 | each child prints at the indent plus two spaces, in child order |
| Xml.ElementLayout | plugin/generator.ts:21-32 | an element with children prints its open tag, a line per child, then its close tag on a line at its own indent |
| Xml.EmptyElement | plugin/generator.ts:25-31 | an element with no children and empty text prints `<name …></name>` and is never self-closed |
| Xml.UndefinedContent | plugin/generator.ts:24-26 | an element without children or content prints the word `undefined` on its own line |
| Loader.Stem | plugin/generator.ts:279 | the icon name is the file's base name up to the extension |
| Loader.StemOf | plugin/generator.ts:279 | a file `dir/name.ext` with no dot in the extension gives the icon name `name`, dots in the name included |
| Loader.ClassifyCases | plugin/generator.ts:278-292 | a document without a root element throws, and so does an `svg` root without `viewBox`; every other file is either kept or warned about, never both; an icon is kept exactly when its root is `svg` and its third and fourth `viewBox` items parse as numbers, whatever their sign; a root of another name is reported with that name, and a non-numeric width or height with the `viewBox` |
| Loader.EveryFileAccounted | plugin/generator.ts:275-303 | when no file throws, every file is either kept or warned about, so the icons and the warnings together number the files |
| Loader.SurvivorOrigins | plugin/generator.ts:275-303 | the kept icons are exactly the kept files, in input order, each with its own size, duplicates included |
| Loader.GenerateSprite | plugin/generator.ts:270-317 | the load fails at the first file with no root element or with an `svg` root without a `viewBox`, after the warnings about the files before it; otherwise the entries are the kept files placed by the packer, on a sheet of the packer's size, and one warning is written per skipped file, in input order |
| Composite.OuterAttributesSpec | plugin/generator.ts:53 | the outer `<svg>` has the sheet's width and height and a view box from the origin over the whole sheet |
| Composite.PrologueStart | plugin/generator.ts:50-53 | the document opens with the XML declaration |
| Composite.RewriteRootSpec | plugin/generator.ts:56-66 | a nested root loses `xmlns` and `xmlns:xlink`, gets id `client-<name>` and the icon's bounds as x, y, width and height, and keeps every other attribute, its name, children and text |
| Composite.RewriteRootKeys | plugin/generator.ts:58-66 | the rewritten attributes are the original ones except the namespace declarations, each in its old place, followed by whichever of `id`, `x`, `y`, `width`, `height` the root did not have, in that order |
| Composite.RewriteRootDistinct | plugin/generator.ts:58-66 | the rewritten attribute list still has distinct names |
| Composite.RewriteKeepsValid | plugin/generator.ts:56-68 | rewriting the roots does not change which icons print |
| Composite.SpriteSvg | plugin/generator.ts:49-73 | the sheet is produced exactly when every icon prints; it starts with the XML declaration and ends with `</svg>` |
| Composite.SpriteSvgLayout | plugin/generator.ts:55-71 | the sheet is the prologue, then each icon's rewritten root printed two spaces deep on its own line, in entry order, then `</svg>` |
| Geometry.TallyCounts | plugin/generator.ts:82-86 | the size tally holds exactly the sizes seen, each with its number of occurrences |
| Geometry.TallyOrder | plugin/generator.ts:82-87 | the tally lists sizes in order of first sighting |
| Geometry.CanonicalSizeSpec | plugin/generator.ts:87-88 | the canonical size occurs among the icons, no size occurs more often, and every size first seen before it occurs strictly less often |
| Geometry.CanonicalSizeExample | plugin/generator.ts:87 | three 24×24 icons and one 32×32 in second place give 24×24 |
| Geometry.CanonicalSizeTie | plugin/generator.ts:87 | with equal counts the size seen first wins |
| Geometry.ScaleFactorsSpec | plugin/generator.ts:90-91 | in `px` both factors are the scale; in `em` a canonical icon measures exactly `scale` em each way |
| Css.OffsetText | plugin/generator.ts:111-114 | `unit(v)` starts with the number's text, however the number prints; the unit name follows exactly when the value is not zero |
| Css.CssRulesSpec | plugin/generator.ts:81-130 | the stylesheet fails exactly for an empty sprite or an `em` sheet with a zero canonical side; otherwise there is one base rule and then one rule per icon, in icon order, under `selector.prefixname`; an icon rule has extra declarations exactly when the icon is not of the canonical size, and then it repeats the base rule's `background-size` |
| Css.BaseRuleSize | plugin/generator.ts:90-99 | the base rule is an inline block showing the sheet at the asset URL without repetition; its `background-size` is the sprite's width and height times the horizontal and vertical factors; its height and width are `scale` em in `em`, and the canonical size times `scale` in `px` |
| Css.IconPosition | plugin/generator.ts:116-117 | an icon's background position is minus its offset times the horizontal and vertical factors |
| Css.IconOverrideSize | plugin/generator.ts:119-124 | an off-size icon's width is scaled by the vertical factor and its height by the horizontal one |
| Css.SpriteCss | plugin/generator.ts:81-130 | the stylesheet text fails exactly when its rules do, with the same error |
| Css.SpriteCssLayout | plugin/generator.ts:93-129 | the text is the base rule's block followed by each icon's block, in icon order |
| Css.RuleFrames | plugin/generator.ts:94-126 | every block opens with its selector and `{` and closes with `}` |
| Declarations.StripNonWord | plugin/generator.ts:145 | only `[a-zA-Z0-9_]` characters remain, and a name made only of them is unchanged |
| Declarations.SanitizeIsByChar | plugin/generator.ts:144-145 | the two replace passes equal one pass mapping `-` and space to `_` and dropping other non-word characters |
| Declarations.SanitizeSpec | plugin/generator.ts:143-145 | a sanitized name holds only word characters, a name made of word characters is unchanged, and sanitizing is idempotent |
| Declarations.EnumMembersDistinct | plugin/generator.ts:139-152 | the enum object never repeats a key |
| Declarations.EnumMembersGet | plugin/generator.ts:142-149 | a key reads the class of the last icon with that key, and is missing when no icon has it |
| Declarations.EnumMembersKeys | plugin/generator.ts:142-149 | the member keys are the icons' keys without repetitions, in order of first occurrence |
| Declarations.EnumMember | plugin/generator.ts:139-152 | member `i` is the `i`-th distinct key with the class of the last icon that has it |
| Declarations.UnionIsJoin | plugin/generator.ts:166-171 | the union type is the quoted class names joined with ` \| `, in icon order, and empty without icons |
| Declarations.SpriteDtsLines | plugin/generator.ts:153-215 | the file is the comment block, then the declarations, with the block's empty line merged into the next line; with `module` set, the declarations are indented and wrapped in `declare module "<prefix><name>" {` … `}` |
| Runtime.EnumObjectTwoWay | plugin/generator.ts:224 | when keys and class names are kept apart, the run-time enum maps every key to its class and every class back to its key, and holds nothing else |
| Runtime.EnumObjectStep | plugin/generator.ts:224 | one enum statement sets the class under the key, then the key under the class |
| Runtime.EntriesLinesAt | plugin/generator.ts:230-242 | icon `j`'s frozen record is lines `8j` to `8j+7` of the entry list |
| Runtime.ClassListHoles | plugin/generator.ts:250 | the class list literal separates names by `, ,`, which leaves a hole between every two names, and ends in `, ]` |
| Runtime.RuntimeLineCount | plugin/generator.ts:217-260 | the module has `16 + members + 8 × icons` lines, with one enum statement per distinct key |
| Runtime.RuntimeEnumLine | plugin/generator.ts:221-225 | line `1+i` fills the `i`-th distinct key with the class of the last icon that has it |
| Runtime.RuntimeRecords | plugin/generator.ts:227-244 | after the enum statements come the icons' frozen records, in icon order |
| Plugin.WithDefaults | plugin/plugin.ts:194-198 | a missing options object counts as `{}`; missing configurations become `{}`; a missing or empty module prefix becomes `svg-sprites/`; everything else is kept |
| Plugin.ResolveSpec | plugin/plugin.ts:67-69 | a module is produced exactly for a request made of the prefix and a configured name; it carries that configuration, and its identifier is the request |
| Plugin.ResolveAsWritten | plugin/plugin.ts:203-212 | the hook as written: a resolved request is the prefix followed by the configuration name |
| Plugin.InheritedConfiguration | plugin/plugin.ts:208-212 | with no configurations at all, `svg-sprites/constructor` still makes a module, and the corrected hook makes none |
| Plugin.ResolveAgrees | plugin/plugin.ts:203-212 | the hook as written and the corrected one differ only on names inherited from `Object.prototype` |
| Plugin.EscapeCss | plugin/plugin.ts:149-152 | the escaped stylesheet contains no double quote and no line feed |
| Plugin.EscapeInOnePass | plugin/plugin.ts:149-152 | because `%` is replaced first, the three passes escape each character exactly once |
| Plugin.CssRoundTrip | plugin/plugin.ts:149-157 | decoding `%25`, `%22` and `%0A` in the escaped text restores the stylesheet exactly |
| Plugin.AssetName | plugin/plugin.ts:129 | the asset name is `sprite-`, then the last 20 characters of the hash (all of it if shorter), then `.svg` |
| Plugin.AssetNameNames | plugin/plugin.ts:129 | two sheets get the same asset name exactly when the last 20 characters of their hashes agree |
| Plugin.AssetUrl | plugin/plugin.ts:130 | the URL ends with the asset name, preceded by the public path when there is one |
| Plugin.CombineCss | plugin/plugin.ts:134-137 | the stylesheet is every variant's stylesheet in `cssOptions` order, starting from `""`; the first variant that fails stops the build with its error |
| Plugin.Build | plugin/plugin.ts:125-139 | a build succeeds exactly when the sheet prints and every variant's stylesheet can be written; it produces the sheet, its asset name and URL, the combined stylesheet and the run-time script for that URL |
| Plugin.ModuleSourceLayout | plugin/plugin.ts:146-163 | the module source is the six-line prelude followed by the run-time script unchanged; the stylesheet travels in one string literal on the third line and decodes back to itself |

## Left out

- Reading files, hashing the icon folder, writing the declaration file, asset registration, the
  logger, and the rest of the webpack module lifecycle (`needBuild`, `build`, `updateHash`,
  cache dependencies). These are host I/O. `Plugin.Build` starts from an already generated sprite.
- The packing algorithm (potpack). It is an abstract `Packer` that returns one position per box.
- The XML parser. Each file arrives as its parsed root `Xml.Node`, or as `None` when the parser
  found no root element.
- Loader.GenerateSprite: a warning is a `Loader.Warning` value with the path and either the root's
  name or the `viewBox`. The console's formatting of the message (`%d`, `%o`) is not modelled.
- `pascalCase`, `sha1`, `encodeURIComponent` and number formatting are outside functions. The
  model assumes nothing about them beyond their types.
- Floating point. Numbers are exact reals, so rounding, `Infinity` and `-0` are not modelled.
  `NaN` from `parseFloat` appears as `None`.
- Geometry.ScaleFactors: in `em`, a canonical width or height of zero makes JavaScript divide by
  zero, and the text then holds `Infinity` or `NaN`. The model reports the `ZeroCanonicalSide`
  error instead.
- Css.CssRules: the same zero-side case fails with `ZeroCanonicalSide`. An empty sprite fails
  with `EmptySprite`, because `best` is `undefined` and `best.split` throws
  (plugin/generator.ts:87-88). The stylesheet is therefore never produced for zero icons.
- Declarations.EnumMembers: JavaScript lists integer-like property names (such as `"12"`) first,
  in numeric order. The model keeps plain insertion order. This matters only if `pascalCase`
  turns an icon name into digits alone. The size tally's keys contain a space, so they are never
  integer-like.
- Geometry.Tally: the tally is keyed on the `(w, h)` pair itself, not on the `"w h"` string.
  This skips the `toString`/`parseFloat` round trip, which is exact for finite numbers.
- Plugin.DecodeEscapes: it decodes only `%25`, `%22` and `%0A`, the three escapes the encoder
  writes. Other percent escapes give `None`.
- Plugin.ModuleSourceLayout: the stylesheet sits inside a JavaScript string literal. A backslash
  in it would be read as a JavaScript escape, because the encoder does not escape backslashes.
  The model takes the literal's value to be the escaped text.
- Runtime.EnumObjectTwoWay: stated only when no enum key equals a class name and no class name
  repeats. Otherwise the statements overwrite each other, and `Runtime.EnumObject` models that
  as written.
- Loader.BaseName: the model takes the part after the last `/`. Trailing separators, Windows
  paths and `path.join` normalisation are not modelled.
- Three places where the code differs from a natural reading. Each is modelled as written:
  - the nested icon ids always use `client-`, whatever class prefix is configured (plugin/generator.ts:61);
  - tags are never self-closed (plugin/generator.ts:28-32);
  - an off-size icon's width is scaled by the vertical factor and its height by the horizontal
    one (plugin/generator.ts:122-123).
- The class list's holes come from a template literal joining the array with commas
  (plugin/generator.ts:250). They are modelled as written, with `Runtime.ClassListHoles`.
  `Object.freeze` and the run-time behaviour of the emitted JavaScript are not modelled, except
  for the enum object.

## Findings

| source | as written | input that shows it | evidently intended | confidence | as-written member | corrected member |
|---|---|---|---|---|---|---|
| plugin/plugin.ts:208-212 | `!this.options.configurations[configName]` reads inherited `Object.prototype` members | request `svg-sprites/constructor` with no configuration named `constructor`: the hook creates a module whose configuration is the `Object` function | only configurations the user declared resolve; other requests fall through | medium, not executed | Plugin.ResolveAsWritten (shown by Plugin.InheritedConfiguration) | Plugin.Resolve (proved by Plugin.ResolveSpec, related by Plugin.ResolveAgrees) |
