# Claude SVG to PNG exporter: the filename and the export size

The userscript `claude-svg-exporter.user.js` adds an export button to the
artifact viewer. When pressed, it draws the SVG artifact on a canvas at the
preset scale the user picked (1x to 8x) and downloads the canvas as a PNG.
This project models the script's computational core in Dafny and proves
properties of it:

- **The download name** (`generateFilename`):
  - the artifact title is trimmed, lower-cased, and each run of characters
    outside `[a-z0-9]` replaced by one hyphen;
  - hyphens are stripped from both ends and the result is cut to 50 characters;
  - the title defaults to `svg-export`;
  - the name is `<slug>-<date>-<quality>.png`.
- **The quality presets** (`QUALITY_PRESETS`, and the `currentQuality` label
  the selector stores).
- **The export size** (inside `img.onload`):
  - the first `viewBox="…"` or `viewBox='…'` in the SVG source is found and its
    value split;
  - two fields are read with `parseFloat`, or else the image's natural size is
    used;
  - both dimensions are multiplied by the scale and assigned to
    `canvas.width`/`canvas.height`;
  - the export then ends either with a file or without one.

Modules, one per file:

- `Wrappers` holds `Option`.
- `Text` holds the character classes, ASCII lower-casing, and trimming and
  deleting a class of characters.
- `Filename` models the slug and the filename:
  - `Filename.EffectiveTitle` is the title or `svg-export` (line 134);
  - `Text.Lower` lower-cases the title (line 136);
  - `Collapse` turns each run of characters other than `a`-`z` and `0`-`9`
    into one hyphen (line 137);
  - `Strip` removes the hyphens at both ends (line 138);
  - `Truncate` keeps at most 50 characters (line 139);
  - `Filename.Filename` joins slug, date and quality label (line 141).
- `Quality` models the preset table and the selected label; `Quality.Scale`
  is the lookup at line 160.
- `Number` models JavaScript numbers:
  - `Number.ParseFloat` is `parseFloat` over the `StrDecimalLiteral` grammar,
    as exact reals (lines 169-170);
  - `Number.Times` is multiplication with its `NaN` and infinity rules
    (lines 177-178);
  - `Number.CanvasDimension` is the Web IDL `unsigned long` conversion with
    the HTML limit of 2147483647, which an assignment to a canvas dimension
    performs (lines 177-178).
- `ViewBox` models the regular-expression scan, the split and the two fields:
  - `ViewBox.Match` is the `match` call at line 164;
  - `ViewBox.Split` and `ViewBox.ViewBoxSize` are the split and the two
    `parseFloat` calls at lines 168-170.
- `Export` models one button press from the SVG source to the outcome:
  - `Export.ChosenSize` picks the `viewBox` size or the natural size
    (lines 164-174);
  - `Export.CanvasSize` multiplies both by the scale and stores them on the
    canvas (lines 176-178).

Line 168 does not do what the comment at line 163 (take the size from the
`viewBox`) and the SVG `viewBox` grammar `min-x min-y width height` call for:

- `split(/\\s+/)` is a regular-expression literal that matches a backslash
  followed by one or more `s`, so an ordinary value is not split at its spaces.
- `[, , , vbWidth, vbHeight]` takes array elements 3 and 4, while the grammar
  puts the width and the height at elements 2 and 3.

The model follows the code. So for `<svg viewBox="0 0 100 50">` at 2x, the
code as written makes a 0 by 0 canvas and saves nothing, where the grammar
gives a 200 by 100 PNG. A field that does not parse gives `NaN`; the code has
no fallback to the natural size for it.

Both readings are in the model:

- `ViewBox.AsWritten` is the code as written.
- `ViewBox.Intended` adds the two corrections below.
- `Export.Export` takes the reading as a parameter.

## Model

| member | source | states |
|---|---|---|
| Text.LowerIdempotent | claude-svg-exporter.user.js:136 | lower-casing an already lower-cased string changes nothing |
| Text.LowerConcat | claude-svg-exporter.user.js:136 | lower-casing a concatenation lower-cases each part |
| Text.LowerWithout | claude-svg-exporter.user.js:136-137 | the letters and digits of the lower-cased text are exactly its ASCII letters and digits, in order, lower-cased |
| Text.LowerChar | claude-svg-exporter.user.js:136 | lower-casing maps `A`-`Z` to `a`-`z`, keeps every other character, never leaves an upper-case ASCII letter, and a result is in `[a-z0-9]` exactly when the input was a letter or digit |
| Text.LeadingRunSpec | claude-svg-exporter.user.js:138 | the leading run of a class is all of that class and is followed by a character outside it |
| Text.RunBeforeSpec | claude-svg-exporter.user.js:138 | the run of a class ending at a position is all of that class and is preceded by a character outside it |
| Text.TrailingRunSpec | claude-svg-exporter.user.js:138 | the trailing run of a class is all of that class and is preceded by a character outside it |
| Text.LeadingRunUnique | claude-svg-exporter.user.js:138 | the leading run is the only length with those two properties |
| Text.TrimBothSlice | claude-svg-exporter.user.js:134-138 | trimming a class off both ends keeps one slice; all that is cut off is of the class and what is left neither starts nor ends with it |
| Text.TrimBothNoOp | claude-svg-exporter.user.js:134-138 | a string that neither starts nor ends with the class is not changed by trimming |
| Text.TrimEmptyIff | claude-svg-exporter.user.js:134 | `trim()` gives the empty string exactly when the text is all white space |
| Text.WithoutConcat | claude-svg-exporter.user.js:136-139 | deleting a class of characters distributes over concatenation |
| Filename.Assemble | claude-svg-exporter.user.js:141 | the name is the slug, `-`, the date, `-`, the quality label and `.png`, each piece at its position |
| Filename.CollapseHead | claude-svg-exporter.user.js:137 | collapsing gives the empty string only for the empty string, and starts with `-` exactly when the input starts outside `[a-z0-9]` |
| Filename.CollapseAlphabet | claude-svg-exporter.user.js:137 | after `replace(/[^a-z0-9]+/g, '-')` only `a`-`z`, `0`-`9` and `-` remain |
| Filename.CollapseNoDoubleHyphen | claude-svg-exporter.user.js:137 | after that replacement no two hyphens are adjacent |
| Filename.CollapseKeepsAlnums | claude-svg-exporter.user.js:137 | deleting the hyphens of the replacement gives exactly the letters and digits of the input, in order |
| Filename.CollapseSlugPrefix | claude-svg-exporter.user.js:137 | a leading part of letters and digits passes through the replacement unchanged |
| Filename.CollapseFixed | claude-svg-exporter.user.js:137 | the replacement is idempotent: a string over the slug alphabet without double hyphens is unchanged |
| Filename.StripShape | claude-svg-exporter.user.js:138 | stripping the leading and trailing hyphens keeps the alphabet and the absence of double hyphens, leaves no hyphen at either end and deletes no letter or digit |
| Filename.StripKeepsLetters | claude-svg-exporter.user.js:138 | cutting hyphen runs off both ends deletes no letter or digit |
| Filename.CleanTextShape | claude-svg-exporter.user.js:136-138 | lower-casing, replacing and stripping any text gives a string over the slug alphabet with no double hyphen and no hyphen at either end, holding every letter and digit of the lower-cased text |
| Filename.CleanedShape | claude-svg-exporter.user.js:134-138 | before truncation the title is over the slug alphabet, has no double hyphen, has no hyphen at either end and holds every letter and digit of the lower-cased title |
| Filename.SlugIsPrefix | claude-svg-exporter.user.js:139 | `slice(0, 50)` gives a prefix of at most 50 characters, the whole string when it fits and exactly 50 otherwise |
| Filename.TruncateShape | claude-svg-exporter.user.js:139 | `slice(0, 50)` keeps the slug alphabet and the absence of double hyphens |
| Filename.TruncateEnds | claude-svg-exporter.user.js:139 | `slice(0, 50)` of a string without a hyphen at either end is at most 50 long, does not start with `-`, and is the whole string when that fits |
| Filename.TruncateKeeps | claude-svg-exporter.user.js:139 | the letters and digits kept by `slice(0, 50)` are a prefix of those of the whole string, and all of them when the string fits in 50 characters |
| Filename.TextSlugShape | claude-svg-exporter.user.js:136-139 | the slug of any text uses only `a`-`z`, `0`-`9` and `-` and has no double hyphen |
| Filename.TextSlugEnds | claude-svg-exporter.user.js:136-139 | the slug of any text is at most 50 long, does not start with `-`, and ends with `-` only when cut |
| Filename.TextSlugKeeps | claude-svg-exporter.user.js:136-139 | the slug of any text holds a prefix of its lower-cased letters and digits, and all of them when the cleaned text fits in 50 characters |
| Filename.SlugShape | claude-svg-exporter.user.js:136-139 | the slug uses only `a`-`z`, `0`-`9` and `-` and never holds two hyphens in a row |
| Filename.SlugEnds | claude-svg-exporter.user.js:138-139 | the slug is at most 50 characters, never starts with `-`, and ends with `-` only when truncation cut it |
| Filename.SlugKeepsAlnums | claude-svg-exporter.user.js:136-139 | the slug without its hyphens is a prefix of the letters and digits of the lower-cased title, and all of them when the cleaned title fits in 50 characters, so nothing was cut |
| Filename.DefaultTitleClean | claude-svg-exporter.user.js:134-138 | `svg-export` comes through lower-casing, replacement and stripping unchanged |
| Filename.MissingTitleSlug | claude-svg-exporter.user.js:134 | with no title or a blank one the title is `svg-export` and so is the slug |
| Filename.CleanEmptyIff | claude-svg-exporter.user.js:136-138 | a cleaned string is empty exactly when the text it came from has no letter or digit |
| Filename.CleanTextEmptyIff | claude-svg-exporter.user.js:136-139 | the slug of any text is empty exactly when the lower-cased text has no letter or digit |
| Filename.EmptySlugIff | claude-svg-exporter.user.js:136-141 | the slug is empty exactly when the title has no letter or digit, and then the filename starts with `-` |
| Filename.TruncationLeavesHyphen | claude-svg-exporter.user.js:138-139 | a 49-character word, a space and another word give a slug ending in the hyphen, since the strip runs before the cut |
| Filename.TitleAsIs | claude-svg-exporter.user.js:134-136 | a title without upper case that starts and ends with a letter or digit is used as it is |
| Filename.CollapseOneSpace | claude-svg-exporter.user.js:137 | one space between two words becomes one hyphen |
| Filename.SlugOfClean | claude-svg-exporter.user.js:134-139 | a string of at most 50 characters over the slug alphabet, with no double hyphen and a letter or digit at each end, is its own slug |
| Filename.SlugIdempotent | claude-svg-exporter.user.js:134-139 | a non-empty slug that was not cut, used as the title, gives itself back |
| Filename.FilenameDecodes | claude-svg-exporter.user.js:141 | with a ten-character date and a two-character label, the filename determines the slug, the date and the label |
| Quality.LabelsSpec | claude-svg-exporter.user.js:15-22 | the labels are `1x`, `2x`, `3x`, `4x`, `6x`, `8x` in key order, all different, and the initial label `2x` is one of them |
| Quality.LookupSpec | claude-svg-exporter.user.js:160 | the lookup among the table's own entries finds nothing exactly when no entry has the label, and otherwise the value of the first entry that has it |
| Quality.ScaleOfLabel | claude-svg-exporter.user.js:15-22 | a label has a scale exactly when it is a preset; the scale is 1, 2, 3, 4, 6 or 8, and it is the digit the label spells before `x` |
| Quality.CurrentQuality | claude-svg-exporter.user.js:24-67 | starting from `2x` and after any choices in the selector, the current label is one of the presets |
| Quality.ScaleAlwaysPreset | claude-svg-exporter.user.js:160 | the scale read at export time is always defined and one of 1, 2, 3, 4, 6, 8 |
| Number.Times | claude-svg-exporter.user.js:177-178 | the product is `NaN` exactly when a factor is `NaN` or an infinity meets zero, and finite factors multiply exactly |
| Number.CanvasDimension | claude-svg-exporter.user.js:177-178 | assignment to a canvas dimension stores at most 2147483647; `NaN` and infinities store 0, and a value from 0 to the limit stores its whole part |
| Number.DimensionEdges | claude-svg-exporter.user.js:177-178 | a value strictly between -1 and 0 stores 0; a value above -2^31 and at most -1, or one from 2^31 up to 2^32, stores the default (300 or 150); a value from 2^32 up to 1.5 times 2^32 stores its whole part minus 2^32 |
| Number.NatToStringDigits | claude-svg-exporter.user.js:169-170 | the decimal numeral of a natural number is a non-empty run of digits that denotes it |
| Number.ParseDigits | claude-svg-exporter.user.js:169-170 | `parseFloat` reads a run of digits as its value and ignores what follows when that cannot continue a numeral |
| Number.ParseNatToString | claude-svg-exporter.user.js:169-170 | `parseFloat` gives back the number any decimal numeral denotes |
| Number.ParseUndefined | claude-svg-exporter.user.js:169-170 | `parseFloat(undefined)` is `NaN` |
| Number.ParseNotNumeral | claude-svg-exporter.user.js:169-170 | text whose first non-space character cannot begin a numeral parses to `NaN` |
| ViewBox.MatchAtIff | claude-svg-exporter.user.js:164 | the matcher at a position captures a value exactly when `viewBox=`, a quote, one or more non-quotes and a quote occur there |
| ViewBox.SearchFromSpec | claude-svg-exporter.user.js:164 | the scan reports the first position from which the matcher succeeds, or nothing when it succeeds nowhere |
| ViewBox.MatchNoneIff | claude-svg-exporter.user.js:164-167 | `match` yields `null` exactly when the pattern matches nowhere |
| ViewBox.MatchFirstIff | claude-svg-exporter.user.js:164 | `match` reports a position and capture exactly when the pattern matches there with it and nowhere earlier |
| ViewBox.CaptureShape | claude-svg-exporter.user.js:164 | the captured value is non-empty and holds neither quote |
| ViewBox.NoMatchBefore | claude-svg-exporter.user.js:164 | no match starts before a `viewBox=` that has no capital `B` ahead of it |
| ViewBox.MatchAfter | claude-svg-exporter.user.js:164 | after text without a capital `B`, the attribute is what `match` finds, with the same or different quote kinds |
| ViewBox.MatchNoB | claude-svg-exporter.user.js:164-173 | text without a capital `B` has no match, so the natural size is used |
| ViewBox.SeparatorAt | claude-svg-exporter.user.js:168 | a separator match stays inside the string and starts with a character that can start the separator |
| ViewBox.SkipPlain | claude-svg-exporter.user.js:168 | positions where the separator cannot start do not end a field |
| ViewBox.TokenMatch | claude-svg-exporter.user.js:168 | the separator's shortest text, not followed by a character that lengthens it, is one whole separator match |
| ViewBox.FieldThenToken | claude-svg-exporter.user.js:168 | a plain field followed by a whole separator match is one element of the split |
| ViewBox.SplitJoinStep | claude-svg-exporter.user.js:168 | the first of two or more plain fields joined by the separator is cut off with the separator that follows it |
| ViewBox.SplitJoinFrom | claude-svg-exporter.user.js:168 | splitting from a field start gives back the plain fields that were joined there |
| ViewBox.SplitJoin | claude-svg-exporter.user.js:168 | `split` undoes joining plain fields with the separator |
| ViewBox.SplitWhole | claude-svg-exporter.user.js:168 | a value in which the separator can start nowhere splits into itself alone |
| ViewBox.ValueQuoteFree | claude-svg-exporter.user.js:164 | helper about the model's own value builders `Join` and `Fields`: a value written from four fields holds no quote when its first two fields hold none |
| ViewBox.NumeralPlain | claude-svg-exporter.user.js:168 | helper about the model's own numeral builder `NatToString`: a decimal numeral is a field neither separator can cut |
| ViewBox.AsWrittenPlainValue | claude-svg-exporter.user.js:168-170 | as written, a value without a backslash gives `NaN` for both width and height |
| ViewBox.AsWrittenBackslashValue | claude-svg-exporter.user.js:168-170 | as written, four fields separated by `\s` give the height as the width and `NaN` as the height |
| ViewBox.SeparatorFixAlone | claude-svg-exporter.user.js:168-170 | with only the separator corrected, `min-x min-y width height` still gives the height as the width and `NaN` as the height |
| ViewBox.IntendedValue | claude-svg-exporter.user.js:168-170 | corrected, `min-x min-y width height` gives that width and height |
| Export.Export | claude-svg-exporter.user.js:145-213 | no SVG source (`null` or empty) exactly when the alert case; a decode error exactly when the source is present and does not load; a saved file is named by the label selected at save time and is 1 to 2147483647 pixels each way; otherwise the canvas has a zero side; either way the two sides are the canvas size that the chosen width and height and the scale give |
| Export.ScaledDimension | claude-svg-exporter.user.js:177-178 | a whole size times the scale within the limit is stored as it is |
| Export.CanvasScaled | claude-svg-exporter.user.js:160-178 | for a chosen size of whole numbers whose products with the preset scale are within 2147483647, the canvas is that width and height each times the scale |
| Export.NaNDimension | claude-svg-exporter.user.js:177-178 | a `NaN` size gives a canvas side of 0 whatever the scale |
| Export.NaturalSizeSaved | claude-svg-exporter.user.js:171-178 | without a `viewBox`, the natural size times the scale is saved when both products are between 1 and 2147483647 (a natural size of 0 gives no file) |
| Export.AsWrittenNoFile | claude-svg-exporter.user.js:164-178 | as written, any SVG whose `viewBox` value has no backslash gives a 0 by 0 canvas and no file |
| Export.IntendedSaved | claude-svg-exporter.user.js:164-178 | corrected, a `viewBox` with whole width and height is saved at that size times the scale when both products are between 1 and 2147483647 |
| Export.AsWrittenWithViewBox | claude-svg-exporter.user.js:164-178 | as written, the same SVG gives no file |
| Export.NoBackslash | claude-svg-exporter.user.js:168 | helper about the model's own value builders `Join` and `Fields`: a value written with spaces from fields without a backslash holds none |
| Export.UntitledName | claude-svg-exporter.user.js:134-141 | with no title or a blank one the file is `svg-export-<date>-<label>.png` |
| Export.ViewBoxExample | claude-svg-exporter.user.js:164-178 | at `2x`, `<svg viewBox="0 0 100 50"></svg>` read as corrected is saved at 200 by 100 |
| Export.ViewBoxExampleAsWritten | claude-svg-exporter.user.js:164-178 | at `2x`, the same SVG read as written gives a 0 by 0 canvas and no file |
| Export.SizedSvgShape | claude-svg-exporter.user.js:164-173 | `<svg width="300" height="150"></svg>` has no `viewBox` match |
| Export.NaturalExample | claude-svg-exporter.user.js:171-178 | that SVG, decoded at 300 by 150 and exported at `3x`, is saved at 900 by 450 |

## Left out

- The panel, its styling, hover handlers, the button's text and disabled state, and the alerts (lines 29-99, 149, 153-154, 200-213) are DOM updates; the alerts appear only as the outcomes `NoSvgFound` and `LoadError`.
- `getSVGCode` (lines 102-129) reads the DOM and iframes. Its result is the `svgCode` parameter.
- The image decode is the `loads` parameter, and the natural size it yields is the `naturalWidth`/`naturalHeight` parameters.
- The title element's text and `new Date().toISOString().slice(0, 10)` (lines 133-135) are parameters. The date format is not checked.
- Blob and object-URL handling, `fillRect`, `scale`, `drawImage`, PNG encoding, the download link and the timers (lines 156-215) are browser calls. The model keeps only their effect on the outcome: a canvas with a zero side hands `null` to the `toBlob` callback, whose `URL.createObjectURL(null)` throws, so nothing is saved.
- The button left disabled after that exception is not modelled.
- A canvas larger than the browser's own size limit is not modelled. That limit is implementation-defined.
- `checkForSVG`, the polling interval, the `MutationObserver` and the start-up code (lines 219-259) are event plumbing.
- Text.Lower: only ASCII `A`-`Z` are lower-cased. Other characters are kept, so full Unicode case mapping is not modelled. A character that full `toLowerCase` maps into `a`-`z` (the Kelvin sign to `k`, `İ` to `i` and a combining dot) keeps a letter in the program's slug but becomes a hyphen in the model's.
- Quality.LookupSpec: `QUALITY_PRESETS[name]` is modelled as a search of the table's own entries. A label naming an inherited property such as `toString` or `constructor` yields a function in the program, not `undefined`. Multiplying by it still gives `NaN`, so `Export.Export` is unaffected.
- Number.ParseFloat: numbers are exact reals. Binary floating-point rounding of `parseFloat` and of `width * scale` is not modelled.
- The corrected reading `ViewBox.Intended` splits on white space only. Commas, which the SVG `viewBox` grammar also allows, are not treated as separators, and there is no fallback for a field that does not parse; the code has neither.
- The scale is read when the button is pressed (line 160). The label in the name is read when the PNG is ready (line 190 calling line 141). They are two parameters of `Export.Export` and are not tied to a timeline of selector changes.

## Findings

| source | as written | input that shows it | evidently intended | confidence | as-written member | corrected member |
|---|---|---|---|---|---|---|
| claude-svg-exporter.user.js:168 | `split(/\\s+/)`: in a regular-expression literal `\\` is a backslash, so the pattern matches a backslash followed by one or more `s` | `<svg viewBox="0 0 100 50">`: the value is one field, both sizes are `parseFloat(undefined)`, i.e. `NaN`, the canvas is 0 by 0 and no file is saved | `split(/\s+/)`, splitting on white space | high; not executed | ViewBox.AsWrittenPlainValue | ViewBox.IntendedValue |
| claude-svg-exporter.user.js:168 | `[, , , vbWidth, vbHeight]` skips three elements and takes elements 3 and 4 | `0 0 100 50` split on white space: the width is read from `50` and the height from the missing fifth field, `NaN` | `[, , vbWidth, vbHeight]`, elements 2 and 3 (`width` and `height` of `min-x min-y width height`) | high; not executed | ViewBox.SeparatorFixAlone | ViewBox.IntendedValue |
