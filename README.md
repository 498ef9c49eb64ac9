# Proxa UI — a verified model of its layout, chart, panel and storage rules

Proxa UI is a small presentation-building front end with a local development
server and a few serverless endpoints. This project models its rule-bearing
core in Dafny and proves what those rules promise:

- **Slide layout builder.** The aspect-ratio table, the preset catalogue,
  copy-on-write region edits, the padding rules, the column-split clamp and
  its substitution into the column template, and the placement plan (a
  stacked flow or a grid). A `Session` class holds the builder's state and
  the drag controller behind the column divider.
- **File panel.** Spreadsheet column letters (bijective base 26), attribute
  escaping, and the per-file comment and settings stores kept in browser
  storage.
- **Development server.** `path.extname` and the file-type table, upload
  routing, the two upload allow-lists, the anchored glob matcher, the
  byte-size formatter and the scoring of the design-system audit.
- **Charts.** The waterfall's running-total fold, the variance chart's
  percentage, clamp and favourable rule, and sparkline coordinates, all over
  `real`.
- **UI state machines.** Dropdown menus over a set of open menus, and
  slide-over panels with one active panel, an overlay and the body's scroll
  style.
- **Blob-backed endpoints.** Page notes, page status and shared notes over a
  map from pathname to stored content, plus the listing and attachment
  endpoints' entry building, size labels, type labels and filename choice.

Modules: `Wrappers` (Option), `Text` (decimal text, ASCII lower-casing,
split/join), `SlideLayout`, `LayoutSession`, `FilePanel`, `Server`,
`Waterfall`, `VarianceChart`, `Sparkline`, `Dropdown`, `SlidePanel`,
`BlobApi` (page notes, status, notes) and `Listing` (files and attachments).

Inputs from outside the program are parameters:

- the pointer position and the container's bounding box;
- the clock (`Date.now()`), and the date and time strings of a saved comment;
- the result of `decodeURIComponent`;
- the blob listing and the blob service's answer to an upload;
- the colour hits, console.log count and stylesheet count the audit reads
  from disk;
- the decimal text of the column split.

## Model

| member | source | states |
|---|---|---|
| SlideLayout.LookupRatio | slide-layout-builder.tsx:3-8 | exactly the four catalogued identifiers have an entry, and every entry has positive width and height |
| SlideLayout.IsCompact | slide-layout-builder.tsx:521 | definition; its promises are proved in SlideLayout.RatioModes |
| SlideLayout.ShouldStack | slide-layout-builder.tsx:519-520 | a catalogued ratio stacks exactly when it is '9:16' |
| SlideLayout.RatioModes | slide-layout-builder.tsx:3-8 | stacking is exactly "taller than wide"; compact is exactly portrait or at least four times wider than high; every stacking ratio is compact |
| SlideLayout.PresetsWellFormed | slide-layout-builder.tsx:10-53 | every catalogued preset has unique region ids and a stack order that is a permutation of them, and no two presets share a name |
| SlideLayout.PresetWellFormedEach | slide-layout-builder.tsx:10-53 | each of the four presets is well formed |
| SlideLayout.TwoWellFormed | slide-layout-builder.tsx:27-38 | two regions with distinct ids stacked in either order form a well-formed layout |
| SlideLayout.ThreeWellFormed | slide-layout-builder.tsx:11-26 | three regions with distinct ids stacked in their own order or with the last two swapped form a well-formed layout |
| SlideLayout.StackOrderCoversRegions | slide-layout-builder.tsx:698-700 | in a well-formed layout an id is in the stack order exactly when some region has it |
| SlideLayout.FindPresetIn | slide-layout-builder.tsx:605 | `find` returns the first entry with the name, and nothing only when no entry has it |
| SlideLayout.FindPreset | slide-layout-builder.tsx:604-607 | a preset is found exactly when a catalogued name is given; the result is that catalogue entry, carries the name and is well formed |
| SlideLayout.FindTwoColumns | slide-layout-builder.tsx:604-607 | selecting "Two Columns" yields the second preset |
| SlideLayout.EditRegions | slide-layout-builder.tsx:547 | the region list keeps its length and order; matching regions get the edit, all others are unchanged |
| SlideLayout.UpdateRegionComponent | slide-layout-builder.tsx:544-549 | only the component of regions with the id changes; name, rows, cols, stack order, count and all other regions are kept |
| SlideLayout.UpdateRegionPadding | slide-layout-builder.tsx:551-556 | only the padding of regions with the id changes; everything else is kept |
| SlideLayout.UpdateUnknownId | slide-layout-builder.tsx:544-556 | an edit naming no region yields an equal layout |
| SlideLayout.UpdatePreservesWellFormed | slide-layout-builder.tsx:544-556 | both edits keep a layout well formed |
| SlideLayout.UpdatesIdempotentAndCommute | slide-layout-builder.tsx:544-556 | repeating a component edit changes nothing more; a component edit and a padding edit commute |
| SlideLayout.EffectivePadding | slide-layout-builder.tsx:434 | without compact rendering the padding is kept; with it the result is max(4, padding − 4), so never below 4 |
| SlideLayout.OverlayPaddingAsWritten | slide-layout-builder.tsx:448 | the overlay shows any non-zero padding as it is (0 falls through to 12) |
| SlideLayout.OverlayHidesZeroPadding | slide-layout-builder.tsx:434-448 | for padding 0 the overlay shows 12 while the content is drawn with 0 |
| SlideLayout.OverlayPadding | slide-layout-builder.tsx:433-434 | the overlay shows the padding the (non-compact) content is drawn with |
| SlideLayout.ClampSplit | slide-layout-builder.tsx:530 | the split is in [20, 80]; a positive width always yields one, equal to the pointer percentage when that is already in the band; a zero width yields NaN exactly for a pointer on the left edge |
| SlideLayout.ClampSplitMonotone | slide-layout-builder.tsx:530 | moving the pointer right never makes the split smaller |
| SlideLayout.PercentTokenUnique | slide-layout-builder.tsx:564 | a /\d+%/ match starting at a given position has one end |
| SlideLayout.RunEnd | slide-layout-builder.tsx:564 | the digit run from a position ends at the first non-digit |
| SlideLayout.NoTokenAt | slide-layout-builder.tsx:564 | no match starts where the digit run is not followed by '%' |
| SlideLayout.FindPercentToken | slide-layout-builder.tsx:564 | the leftmost /\d+%/ match at or after a position, or none when no match exists there |
| SlideLayout.ResolveColumns | slide-layout-builder.tsx:563-565 | a template without '%' is returned unchanged |
| SlideLayout.ResolveColumnsLeftmost | slide-layout-builder.tsx:563-565 | the substitution rewrites exactly the leftmost /\d+%/ match into the split text and '%' |
| SlideLayout.ResolveColumnsNoToken | slide-layout-builder.tsx:563-565 | a template with no match is unchanged whatever the split |
| SlideLayout.ResolveColumnsExamples | slide-layout-builder.tsx:563-565 | "35% 1fr" with split 42 becomes "42% 1fr"; "1fr 1fr" is kept |
| SlideLayout.ResolveColumnsFirstTokenOnly | slide-layout-builder.tsx:564 | in "1fr 30% 20%" only the first match is replaced |
| SlideLayout.RegionBody | slide-layout-builder.tsx:433-448 | layout view shows the region's name with the padding its content is drawn with, which differs from the source's `padding \|\| 12` exactly at padding 0; content view renders exactly the known components, with the effective padding (kept, or max(4, padding − 4) when compact); the padding rules themselves are proved in SlideLayout.EffectivePadding and SlideLayout.OverlayHidesZeroPadding, the placement in SlideLayout.GridCells |
| SlideLayout.StackBlocks | slide-layout-builder.tsx:697-734 | definition; its promises are proved in SlideLayout.StackBlocksIds, SlideLayout.StackBlocksFound and SlideLayout.StackFollowsOrder |
| SlideLayout.FindRegion | slide-layout-builder.tsx:699 | the first region with the id, and nothing exactly when no region has it |
| SlideLayout.BlockFor | slide-layout-builder.tsx:702-731 | a stacked block carries the region's id and body; charts are 200 high, everything else auto |
| SlideLayout.PresentIdsAll | slide-layout-builder.tsx:698-700 | when every stack-order id names a region, none is skipped |
| SlideLayout.StackBlocksIds | slide-layout-builder.tsx:698-700 | stack mode emits one block per stack-order id that names a region, in stack order |
| SlideLayout.StackBlocksFound | slide-layout-builder.tsx:699-731 | each stacked block is drawn from the first region with its id |
| SlideLayout.StackFollowsOrder | slide-layout-builder.tsx:698-734 | for a well-formed layout the stacked blocks follow the stack order exactly, one for one |
| SlideLayout.AutoRow | slide-layout-builder.tsx:739-740 | definition; its promises are proved in SlideLayout.AutoRowOfTracks and SlideLayout.GridCells |
| SlideLayout.AutoRowOfTracks | slide-layout-builder.tsx:739-740 | a line number names an auto row exactly when that track of the row template is "auto" |
| SlideLayout.GridCells | slide-layout-builder.tsx:737-750 | grid mode places every region, in order, at its own row and column with its body; the 60-unit minimum height applies exactly to auto rows in layout view |
| SlideLayout.Resolve | slide-layout-builder.tsx:558-567 | the plan stacks exactly at '9:16'; a grid keeps the rows, substitutes the split into the columns, places every region, and shows the divider exactly for a '%' template in content view |
| SlideLayout.TwoColumnsScenario | slide-layout-builder.tsx:544-567 | in "Two Columns" at 16:9 in content view, making the right region a table keeps the left markdown in column 1, puts the table in column 2 and leaves "1fr 1fr" untouched |
| LayoutSession.Session.constructor | slide-layout-builder.tsx:512-517 | the builder starts on the first preset, at 16:9, in layout view, with a 35% split and no drag |
| LayoutSession.Session.SelectPreset | slide-layout-builder.tsx:604-610 | a catalogued name installs that preset and resets the split to 35; an unknown name changes nothing; nothing else changes |
| LayoutSession.Session.SelectAspect | slide-layout-builder.tsx:630-632 | only the aspect ratio changes |
| LayoutSession.Session.SelectMode | slide-layout-builder.tsx:652-654 | only the view mode changes |
| LayoutSession.Session.UpdateRegionComponent | slide-layout-builder.tsx:544-549 | the layout becomes its component-edited copy; nothing else changes |
| LayoutSession.Session.UpdateRegionPadding | slide-layout-builder.tsx:551-556 | the layout becomes its padding-edited copy; nothing else changes |
| LayoutSession.Session.MouseDown | slide-layout-builder.tsx:523-542 | a press on the divider raises the resizing flag and attaches one more listener pair |
| LayoutSession.Session.MouseMove | slide-layout-builder.tsx:527-532 | while listeners are attached and the container is mounted the split becomes the clamped pointer position, otherwise nothing changes; the split stays in [20, 80] |
| LayoutSession.Session.MouseUp | slide-layout-builder.tsx:534-538 | a release clears the flag and leaves no listener attached |
| LayoutSession.SwitchToStackAndBack | slide-layout-builder.tsx:519-567 | switching from a grid ratio to the stacking one and back restores the same plan |
| FilePanel.Letter | js/file-panel.js:27 | digit d becomes the capital letter at offset d from 'A' |
| FilePanel.ColumnName | js/file-panel.js:24-31 | every column name is made of capital letters |
| FilePanel.ColumnIndex | js/file-panel.js:24-31 | a non-empty name denotes a non-negative index |
| FilePanel.GetColumnLetter | js/file-panel.js:24-31 | the loop builds the bijective base-26 name of the index |
| FilePanel.ColumnIndexOfName | js/file-panel.js:24-31 | reading a generated name back gives the index |
| FilePanel.ColumnNameOfIndex | js/file-panel.js:24-31 | every capital-letter name is generated by the index it denotes |
| FilePanel.ColumnNameBijective | js/file-panel.js:24-31 | a non-negative index gets a non-empty capital-letter name, a negative index "", and different indices different names |
| FilePanel.ColumnNameExamples | js/file-panel.js:24-31 | 0→"A", 25→"Z", 26→"AA", 701→"ZZ", 702→"AAA" |
| FilePanel.ReplaceAllMembers | js/file-panel.js:18-21 | a global single-character replacement keeps only characters of the text other than the replaced one, plus those of the replacement |
| FilePanel.ReplaceAllConcat | js/file-panel.js:18-21 | replacement distributes over concatenation |
| FilePanel.EscapeAttr | js/file-panel.js:16-22 | the escaped text contains no '"', '<' or '>' |
| FilePanel.EscapeAttrChar | js/file-panel.js:16-22 | a one-character text is escaped to that character's entity, or kept |
| FilePanel.EscapeAmpersand | js/file-panel.js:18 | "&" becomes "&amp;" |
| FilePanel.EscapeQuote | js/file-panel.js:19 | '"' becomes "&quot;", whose '&' is not escaped again |
| FilePanel.EscapeLess | js/file-panel.js:20 | "<" becomes "&lt;" |
| FilePanel.EscapeGreater | js/file-panel.js:21 | ">" becomes "&gt;" |
| FilePanel.EntityUnchanged | js/file-panel.js:19-21 | a text without '"', '<' and '>' passes the last three replacements unchanged |
| FilePanel.AnglesUnchanged | js/file-panel.js:20-21 | a text without '<' and '>' passes the last two replacements unchanged |
| FilePanel.ReplaceOne | js/file-panel.js:18-21 | replacement in a one-character text |
| FilePanel.ReplaceAbsent | js/file-panel.js:18-21 | a text without the character is left alone |
| FilePanel.EscapeAttrIsPerChar | js/file-panel.js:16-22 | because '&' goes first, the chain equals escaping each character by itself |
| FilePanel.DecodeHead | js/file-panel.js:16-22 | decoding the head of a text consumes between one character and all of it |
| FilePanel.DecodeHeadEscaped | js/file-panel.js:16-22 | the head of an escaped character decodes to that character |
| FilePanel.UnescapeStep | js/file-panel.js:16-22 | decoding an escaped character followed by any text yields that character first |
| FilePanel.UnescapeEscapeAttr | js/file-panel.js:16-22 | decoding the entities gives the original text back, so escaping loses nothing |
| FilePanel.UnescapeEach | js/file-panel.js:16-22 | decoding a per-character escape gives the text back |
| FilePanel.CommentsOf | js/file-panel.js:40 | a file's comment list, or the empty list for a file with none |
| FilePanel.WithComment | js/file-panel.js:46-47 | appending adds the file to the stored keys and no other key |
| FilePanel.RemoveAt | js/file-panel.js:59 | `splice(index, 1)` drops exactly one element, keeps the order of the others, and is a permutation minus that element |
| FilePanel.SaveComment | js/file-panel.js:43-53 | saving appends exactly the one comment to that file's list and leaves other files' lists unchanged |
| FilePanel.DeleteComment | js/file-panel.js:55-62 | deleting an index the guard accepts removes exactly that comment of that file and nothing else |
| FilePanel.CommentStore.constructor | js/file-panel.js:38-39 | the store starts from the stored entry, if any |
| FilePanel.CommentStore.GetFileComments | js/file-panel.js:37-41 | the file's list, or an empty list for a file with none |
| FilePanel.CommentStore.SaveFileComment | js/file-panel.js:43-53 | the entry written back is the old store with the comment appended |
| FilePanel.CommentStore.DeleteFileComment | js/file-panel.js:55-62 | a guarded index is spliced out and written back; otherwise nothing is written |
| FilePanel.SettingsOf | js/file-panel.js:71 | a file's settings, or an empty object for an unknown file |
| FilePanel.WithSetting | js/file-panel.js:77-78 | setting a key adds the file to the stored keys and no other key |
| FilePanel.SaveSetting | js/file-panel.js:74-80 | the key gets the value; the file's other keys and every other file are unchanged |
| FilePanel.SettingsStore.constructor | js/file-panel.js:69-70 | the store starts from the stored entry, if any |
| FilePanel.SettingsStore.GetFileSettings | js/file-panel.js:68-72 | the file's settings, or an empty object for an unknown file |
| FilePanel.SettingsStore.SaveFileSetting | js/file-panel.js:74-80 | the entry written back is the old store with that one key set |
| Server.LastIndexOf | server.js:28 | the last occurrence of a character, and none exactly when it is absent |
| Server.StripTrailingSlashes | server.js:28 | the path minus a run of trailing slashes, ending in something else |
| Server.BaseName | server.js:28 | the last component holds no '/' |
| Server.ExtName | server.js:28 | an extension is empty or a '.' followed by no further '.', and holds no '/' |
| Server.ExtNameOf | server.js:28 | `stem.suffix` has the extension ".suffix"; a name without '.' has none |
| Server.ExtNameOfDotFiles | server.js:28 | a leading dot starts no extension, and ".." has none |
| Server.GetFileType | server.js:472-486 | definition; its promises are proved in Server.TypeTable, Server.TypedIffUploadAllowed and Server.CaseInsensitive |
| Server.UploadAllowed | server.js:50-58 | definition; its promises are proved in Server.TypedIffUploadAllowed and Server.CaseInsensitive |
| Server.AttachmentAllowed | server.js:145-153 | definition; its promises are proved in Server.AttachmentTypes and Server.ImageAttachment |
| Server.TypeOfExt | server.js:474-485 | the type table gives one of pdf, xlsx, csv, pptx, doc or file |
| Server.TypeTable | server.js:472-486 | .xls is xlsx, .key is pptx, .docx is doc, .png and no extension are file; an upper-case extension is lower-cased first |
| Server.TypedIffUploadAllowed | server.js:50-58 | a file gets a type other than 'file' exactly when the main upload filter accepts it |
| Server.TypedIffListed | server.js:51 | the type table covers exactly the nine upload extensions |
| Server.UploadFolder | server.js:26-40 | every upload goes to one of the four folders |
| Server.UploadFolderMatchesType | server.js:26-40 | presentations hold the pptx types, spreadsheets the xlsx and csv types, documents the pdf type, and the base folder everything else |
| Server.FolderMatchesType | server.js:31-37 | the routing by extension agrees with the type table |
| Server.AttachmentTypes | server.js:145-153 | a name is an attachment but not an upload exactly when its extension is an image one, and image extensions are typed 'file' |
| Server.ImageExts | server.js:146 | the attachment list minus the upload list is exactly the four image extensions, all typed 'file' |
| Server.ExtOf | server.js:28 | the rules see `stem.suffix`'s extension lower-cased |
| Server.CaseInsensitive | server.js:50-58 | names differing only in the case of their extension are filtered, typed and routed alike |
| Server.ImageAttachment | server.js:145-153 | a PNG is accepted as an attachment only, and typed 'file' |
| Server.PngExt | server.js:28 | `stem.png` has the extension ".png" |
| Server.MatchGlob | server.js:396-399 | definition; its promises are proved in Server.LiteralsMatchOnlyThemselves, Server.StarAlone, Server.QuestionAlone and Server.DotMatchesAnyCharacter |
| Server.MatchGlobLiteralDot | server.js:396-399 | definition; its promises are proved in Server.StarSuffix, Server.LiteralDotRequiresDot and Server.LiteralSuffixMatches |
| Server.GlobAtoms | server.js:397 | the expression has one atom per pattern character |
| Server.AnyRunSplits | server.js:397 | '.*' followed by more atoms matches a text exactly when some line-terminator-free prefix is followed by what the rest matches |
| Server.LiteralsMatchOnlyThemselves | server.js:396-399 | a pattern without wildcards or '.' matches exactly itself (anchored both ends) |
| Server.StarAlone | server.js:396-399 | "*" matches every single-line text, the empty one included |
| Server.QuestionAlone | server.js:396-399 | "?" matches exactly one character (a Unicode scalar value; see "## Left out") |
| Server.DotMatchesAnyCharacter | server.js:397 | as written, "*.css" also accepts a name with any character in place of the dot |
| Server.GlobAtomsLiteralDot | server.js:397 | under the intended reading every non-wildcard character, '.' included, is a literal |
| Server.StarSuffix | server.js:396-399 | with a literal dot, "*" plus a wildcard-free suffix matches exactly the single-line names ending with it |
| Server.LiteralDotRequiresDot | server.js:396-399 | with a literal dot, "*.css" accepts `stem?css` exactly when '?' is '.' |
| Server.LiteralSuffixMatches | server.js:397 | with a literal dot, a wildcard-free pattern matches exactly itself |
| Server.FormatFileSize | server.js:466-470 | bytes below 1024, KB below 1 MiB with 1 ≤ kb < 1024, MB otherwise; the figure times the unit is the byte count |
| Server.ByteTextRoundTrip | server.js:467 | the byte branch prints the count's digits and " B", and reading the digits back gives the count |
| Server.HardcodedMembers | server.js:263-276 | the hardcoded hits are exactly the hits whose lower-cased colour is not allowed |
| Server.HardcodedAppend | server.js:269-272 | one more hit adds itself to the hardcoded list exactly when its colour is not allowed |
| Server.CollectHardcoded | server.js:263-276 | the colour loop collects exactly the hardcoded hits, in order |
| Server.RunAudit | server.js:234-327 | the count and first 20 issues are those of the hardcoded hits; high, low and medium are raised by hardcoded colours, console.log lines and more than ten stylesheets without '@media'; critical stays 0 and total is always their sum |
| Waterfall.BarFor | js/waterfall.js:29-54 | definition; its promises are proved in Waterfall.TotalsStartAtZero, Waterfall.ChangeSpansLevels and Waterfall.BarClassRule |
| Waterfall.Level | js/waterfall.js:28-50 | definition; its promises are proved in Waterfall.LevelStep and Waterfall.LevelAccumulates |
| Waterfall.Bars | js/waterfall.js:28-69 | one bar per item |
| Waterfall.LevelStep | js/waterfall.js:31-39 | after an item the running total is its value for a total or subtotal and the previous total plus its value otherwise |
| Waterfall.TotalsStartAtZero | js/waterfall.js:31-35 | a total or subtotal bar starts at 0, is value·scale tall and resets the running total |
| Waterfall.ChangeSpansLevels | js/waterfall.js:37-49 | a change bar spans exactly from the level before to the level after; a decrease hangs from the previous level, an increase builds up from it |
| Waterfall.BarClassRule | js/waterfall.js:52-54 | total, subtotal, decrease exactly for a negative change and increase otherwise |
| Waterfall.LevelAccumulates | js/waterfall.js:28-50 | after the last total the running total is that value plus the sum of the changes after it |
| Waterfall.FirstTotal | js/waterfall.js:22 | the first 'total' item, or none when there is none |
| Waterfall.MaxAbs | js/waterfall.js:22 | the largest absolute value among the items |
| Waterfall.ScaleMax | js/waterfall.js:22 | a non-zero maxValue, else a non-zero first total, else the largest absolute value |
| Waterfall.ItemBar | js/waterfall.js:29-54 | the loop body's bar and running-total update agree with the fold |
| Waterfall.RenderWaterfall | js/waterfall.js:13-72 | empty data renders nothing; a zero scale maximum gives unusable geometry; otherwise the bars are those of the fold at scale height / scaleMax |
| Waterfall.FormatValue | js/waterfall.js:6-11 | M (2 decimals) from 1,000,000, K (no decimals) from 1,000, none below, always of the absolute value |
| Waterfall.FormatValueDropsSign | js/waterfall.js:7 | a value and its negation are shown the same way |
| VarianceChart.CalculateVariance | js/variance-chart.js:6-9 | a zero prior gives 100 exactly for a positive current and −100 otherwise; else variance·\|prior\| equals (current − prior)·100 |
| VarianceChart.VarianceSign | js/variance-chart.js:8 | with a non-zero prior the variance has the sign of current − prior |
| VarianceChart.ZeroOverZero | js/variance-chart.js:7 | both values at zero count as −100 |
| VarianceChart.Clamp | js/variance-chart.js:28 | definition; its promises are proved in VarianceChart.ClampBounds |
| VarianceChart.BarWidth | js/variance-chart.js:29 | definition; its promises are proved in VarianceChart.ClampBounds |
| VarianceChart.Favourable | js/variance-chart.js:32-37 | definition; its promises are proved in VarianceChart.FavourableRule |
| VarianceChart.RowFor | js/variance-chart.js:20-46 | definition; its promises are proved in VarianceChart.SectionIsDivider, VarianceChart.FavourableRule and VarianceChart.PositiveIffPlus |
| VarianceChart.ClampBounds | js/variance-chart.js:28-29 | for a positive maximum the clamped variance lies in ±maxPercent, equals the variance inside that band, and the width lies in [0, 50] |
| VarianceChart.SectionIsDivider | js/variance-chart.js:21-25 | a section item renders only its divider |
| VarianceChart.FavourableRule | js/variance-chart.js:32-37 | favourable is growth for 'up' items and shrinkage otherwise; no change is favourable either way |
| VarianceChart.PositiveIffPlus | js/variance-chart.js:39-44 | the positive bar class and the '+' sign go together, exactly when the variance is not negative |
| VarianceChart.RenderVarianceChart | js/variance-chart.js:16-56 | one row per item, in item order, each the item's rendering |
| Sparkline.MaxOf | js/sparkline.js:72 | an upper bound attained by some value |
| Sparkline.MinOf | js/sparkline.js:73 | a lower bound attained by some value |
| Sparkline.Range | js/sparkline.js:74 | max − min, or 1 for flat data; always positive |
| Sparkline.LevelInUnit | js/sparkline.js:78 | every value normalises into [0, 1] |
| Sparkline.LevelOfMin | js/sparkline.js:78 | the minimum normalises to 0 |
| Sparkline.LevelOfMax | js/sparkline.js:78 | the maximum of non-flat data normalises to 1 |
| Sparkline.SvgX | js/sparkline.js:77 | definition; its promises are proved in Sparkline.SvgXEnds and Sparkline.SvgXIncreasing |
| Sparkline.SvgY | js/sparkline.js:78 | definition; its promises are proved in Sparkline.SvgYInBox and Sparkline.SvgYExtremes |
| Sparkline.SvgPoints | js/sparkline.js:70-80 | no SVG for fewer than two values; otherwise one point per value |
| Sparkline.SvgXEnds | js/sparkline.js:77 | the x coordinates start at 0 and end at the width |
| Sparkline.SvgXIncreasing | js/sparkline.js:77 | the x coordinates strictly increase |
| Sparkline.SvgYInBox | js/sparkline.js:78 | every y lies in [0, height] |
| Sparkline.SvgYExtremes | js/sparkline.js:78 | the minimum is drawn at the bottom, the maximum of non-flat data at the top, and flat data along the bottom |
| Sparkline.CanvasPoint | js/sparkline.js:39-44 | definition; its promises are proved in Sparkline.CanvasYInBand and Sparkline.EndDot |
| Sparkline.CanvasX | js/sparkline.js:30-40 | definition; its promises are proved in Sparkline.EndDot |
| Sparkline.CanvasY | js/sparkline.js:41 | definition; its promises are proved in Sparkline.CanvasYInBand and Sparkline.EndDot |
| Sparkline.CanvasYInBand | js/sparkline.js:39-44 | with room for the padding every canvas y lies in [padding, height − padding] |
| Sparkline.EndDot | js/sparkline.js:48-50 | the end dot sits on the last point of the line |
| Dropdown.ClickStep | js/dropdown.js:7-31 | definition; its promises are proved in Dropdown.TriggerClick, Dropdown.TriggerTwice, Dropdown.OtherClicks and Dropdown.ClickKeepsAtMostOne |
| Dropdown.TriggerClick | js/dropdown.js:22-31 | a wired trigger click leaves at most its own menu open, and opens it exactly when it was closed |
| Dropdown.TriggerTwice | js/dropdown.js:22-31 | two clicks on the same trigger close every menu except that one, which returns to its state |
| Dropdown.OtherClicks | js/dropdown.js:7-14 | an outside click closes every menu; a click inside a dropdown off a wired trigger changes nothing |
| Dropdown.ClickKeepsAtMostOne | js/dropdown.js:7-31 | at most one open menu stays so under every click |
| Dropdown.OpenThenClose | js/dropdown.js:36-44 | opening and closing a dropdown change only that dropdown's menu |
| Dropdown.DropdownPage.constructor | js/dropdown.js:17-21 | the wired dropdowns are exactly those with both a trigger and a menu |
| Dropdown.DropdownPage.CloseAllBut | js/dropdown.js:26-28 | every open menu except the kept one loses the open class |
| Dropdown.DropdownPage.Click | js/dropdown.js:7-31 | one click, through the trigger or the document handler, leaves the open menus of the click rule |
| Dropdown.DropdownPage.OpenDropdown | js/dropdown.js:36-39 | the dropdown's menu, if any, is added to the open ones |
| Dropdown.DropdownPage.CloseDropdown | js/dropdown.js:41-44 | the dropdown's menu is removed from the open ones |
| Dropdown.DropdownPage.CloseAllDropdowns | js/dropdown.js:46-50 | no menu is left open |
| SlidePanel.Resolve | js/slide-panel.js:9 | the element with the id (never for the empty id), else the first with that `data-panel`, else none |
| SlidePanel.OpenStep | js/slide-panel.js:8-28 | definition; its promises are proved in SlidePanel.OpenFound, SlidePanel.OpenMissing, SlidePanel.OpenTwice and SlidePanel.AtMostOneActive |
| SlidePanel.CloseStep | js/slide-panel.js:30-44 | definition; its promises are proved in SlidePanel.CloseResets and SlidePanel.AtMostOneActive |
| SlidePanel.KeyStep | js/slide-panel.js:59-63 | definition; its promises are proved in SlidePanel.EscapeNeedsActivePanel |
| SlidePanel.OpenFound | js/slide-panel.js:12-27 | opening a found panel makes it the active one with the class, shows the overlay, stops scrolling, and removes only the previous panel's class |
| SlidePanel.OpenMissing | js/slide-panel.js:12 | an id that finds nothing changes nothing |
| SlidePanel.CloseResets | js/slide-panel.js:30-44 | closing leaves no active panel, hides the overlay, restores scrolling, removes only the active panel's class; closing twice is closing once |
| SlidePanel.OpenTwice | js/slide-panel.js:8-28 | opening the same panel twice is opening it once |
| SlidePanel.StepsKeepConsistent | js/slide-panel.js:8-63 | every handler keeps the active panel marked, the body unscrollable and the overlay shown while a panel is active |
| SlidePanel.AtMostOneActive | js/slide-panel.js:14-19 | starting from no stray active class, at most the active panel carries the class |
| SlidePanel.EscapeNeedsActivePanel | js/slide-panel.js:59-63 | Escape closes only when a panel is active; otherwise even the scroll style is left alone |
| SlidePanel.PanelPage.constructor | js/slide-panel.js:6 | the page starts with no active panel |
| SlidePanel.PanelPage.OpenPanel | js/slide-panel.js:8-28 | the new state is the open step of the old one |
| SlidePanel.PanelPage.ClosePanel | js/slide-panel.js:30-44 | the new state is the close step of the old one |
| SlidePanel.PanelPage.KeyDown | js/slide-panel.js:59-63 | the new state is the key step of the old one |
| SlidePanel.PanelPage.GetActivePanel | js/slide-panel.js:66-68 | the recorded panel, which carries the active class while the body does not scroll |
| BlobApi.KeyOf | api/page-notes.js:30 | definition; its promises are proved in Text.IntToDecimalInjective and BlobApi.StatusWithoutPage |
| BlobApi.JsonKey | api/status.js:49 | definition; its promises are proved in Text.IntToDecimalInjective |
| BlobApi.PageNotesStep | api/page-notes.js:10-76 | definition; its promises are proved in BlobApi.PageNotesGetEmpty, BlobApi.PageNotesGetPage, BlobApi.PageNotesNeedPage, BlobApi.PageNotesPostSets and BlobApi.PageNotesRoundTrip |
| BlobApi.StatusStep | api/status.js:10-65 | definition; its promises are proved in BlobApi.StatusPostSets, BlobApi.StatusWithoutPage and BlobApi.StatusRoundTrip |
| BlobApi.StoredText | api/notes.js:38 | definition; its promises are proved in BlobApi.NotesRoundTrip |
| BlobApi.NotesStep | api/notes.js:10-50 | definition; its promises are proved in BlobApi.NotesRoundTrip, BlobApi.NotesGetEmpty and BlobApi.DispatchRules |
| BlobApi.Assign | api/page-notes.js:60-63 | the key gets the value, or disappears when the value is undefined; every other key is kept |
| BlobApi.PageNotesGetEmpty | api/page-notes.js:20-22 | a GET with nothing stored returns {} |
| BlobApi.PageNotesGetPage | api/page-notes.js:28-31 | a GET for a page returns its notes, or '' when they are absent or falsy |
| BlobApi.PageNotesNeedPage | api/page-notes.js:45-47 | a POST without a truthy page is refused with 400 and stores nothing |
| BlobApi.PageNotesPostSets | api/page-notes.js:41-69 | a POST sets exactly that page's notes, starting from {} when nothing is stored; other pages and other blobs are kept |
| BlobApi.PageNotesRoundTrip | api/page-notes.js:15-69 | saving a page's notes and then asking for that page returns them |
| BlobApi.StatusPostSets | api/status.js:34-58 | a POST sets the one key with no page check; the response carries exactly the stored map; nothing else changes |
| BlobApi.StatusWithoutPage | api/status.js:36-49 | without a page the status is stored under "undefined" |
| BlobApi.StatusRoundTrip | api/status.js:15-58 | a GET after a POST returns the POST's response map |
| BlobApi.NotesRoundTrip | api/notes.js:15-43 | a POST replaces the whole text with `content \|\| ''` and a later GET returns it |
| BlobApi.NotesGetEmpty | api/notes.js:20-22 | a GET with nothing stored returns empty content |
| BlobApi.DispatchRules | api/page-notes.js:10-76 | in all three handlers OPTIONS answers 200 with no body, any other method than GET, POST and OPTIONS 405, and only POST changes the store |
| BlobApi.BlobStore.constructor | api/page-notes.js:17-18 | the store starts from the given blobs |
| BlobApi.BlobStore.LoadEntries | api/page-notes.js:50-57 | the stored page map, or {} when there is none |
| BlobApi.BlobStore.PageNotes | api/page-notes.js:5-77 | the handler's response and new store are those of the page-notes step |
| BlobApi.BlobStore.Status | api/status.js:14-66 | the handler's response and new store are those of the status step |
| BlobApi.BlobStore.Notes | api/notes.js:5-51 | the handler's response and new store are those of the notes step |
| Listing.FileType | api/files.js:36-39 | the type is the lower-cased last '.'-separated piece |
| Listing.AfterLast | api/attachments.js:89 | the last piece starts within the name |
| Listing.LastPiece | api/attachments.js:89 | `split('.').pop()` is the text after the last '.', or the whole name |
| Listing.FileTypeIsSuffix | api/attachments.js:88-91 | the type is the lower-cased text after the last '.', or the whole name lower-cased when it has none |
| Listing.FileTypeHasNoDot | api/attachments.js:88-91 | the type never contains a '.' |
| Listing.AttachmentSize | api/attachments.js:81-86 | a missing or zero size is '0 B'; any other size is labelled as the server labels it |
| Listing.ListingSize | api/files.js:30-34 | a missing size is 'NaN MB'; any present size is labelled as the server labels it |
| Listing.SizesAgree | api/files.js:30-34 | both routes label a present size alike, and sizes below 1024 as 'n B' |
| Listing.ZeroBytes | api/attachments.js:82 | zero bytes is '0 B' |
| Listing.FileEntry | api/files.js:11-21 | definition; its promises are proved in Listing.FilesEntryNames, Listing.ListingSize and Listing.FileTypeIsSuffix |
| Listing.AttachmentEntry | api/attachments.js:18-29 | definition; its promises are proved in Listing.Attachments, Listing.AttachmentSize and Listing.FileTypeIsSuffix |
| Listing.FilesHandler | api/files.js:3-23 | only GET lists; the entries follow the blobs one for one, in order |
| Listing.FilesEntryNames | api/files.js:11-21 | each entry is named by its blob's pathname, has no path, and its type holds no '.' |
| Listing.FilenameCandidate | api/attachments.js:42 | the query parameter, else the non-empty header, else 'file-' and the clock's digits |
| Listing.Attachments | api/attachments.js:3-72 | OPTIONS answers 200, GET lists one entry per blob in order, POST answers with the decoded (or kept) filename, the blob's url and size label, other methods 405 |
| Text.NatToDecimal | api/attachments.js:83 | the decimal text of a count is non-empty digits without a leading zero |
| Text.ParseNatToDecimal | api/attachments.js:83 | reading the decimal text back gives the count |
| Text.NatToDecimalInjective | api/attachments.js:83 | different counts have different texts |
| Text.IntToDecimal | api/status.js:49 | a number's text starts with '-' exactly when it is negative |
| Text.IntToDecimalInjective | api/status.js:49 | different numbers have different texts, so they are different keys |
| Text.Lower | server.js:28 | lower-casing keeps the length and lower-cases each letter |
| Text.Split | api/files.js:37 | `split` gives at least one piece and no piece holds the separator |
| Text.JoinSplit | slide-layout-builder.tsx:740 | joining the pieces of a split gives the text back |
| Text.SplitJoin | slide-layout-builder.tsx:740 | splitting a join of separator-free pieces gives the pieces back |

## Left out

- Rendering: React, JSX styles, the DOM, canvas drawing, SVG markup, the sparkline's gradient id from `Math.random`, and `escapeHtml` are not modelled; only the values these draw from are.
- Decimal text of reals: `toFixed`, `Math.round` of the split label and `toLocaleString` are outside the model. The size, value and split formatters are modelled by their unit or branch choice, and the split's text is a parameter.
- Dates: `toLocaleDateString`, `toLocaleTimeString` and `Date.now()` are parameters or raw timestamps.
- Floating point: chart and split arithmetic is over exact reals, so rounding, infinities and NaN beyond the cases named below are not modelled.
- LayoutSession.Session.MouseMove: requires a container of positive width; the zero-width case (NaN for a pointer on the edge) is covered by `SlideLayout.ClampSplit` alone.
- The `!containerRef.current` guard of the mousemove handler is the `hasContainer` parameter; layout effects and re-renders are not modelled.
- The AI endpoints, `api/upload.js`, `js/toast.js` and `js/index.js` are not modelled; they are SDK calls, timers and re-exports.
- File-system and HTTP plumbing of the server are not modelled: express, multer, directory scanning, `globFiles`, XLSX conversion and the markdown report.
- The audit's inputs are parameters: the colour regular expression, the `console.log` search and the `@media` search; the ten-item console.log issue list and the coverage percentage are not modelled.
- Server.MatchGlob: patterns are restricted to letters, digits, '.', '*' and '?'; other regular-expression metacharacters are not modelled.
- Server.MatchGlob: texts are sequences of Unicode scalar values, while the source's regular expression has no `u` flag and its '.' consumes one UTF-16 code unit. For characters outside the Basic Multilingual Plane the two disagree: "😀" matches "?" in the model but not in the source, and "😀.md" matches "?.md" only in the model. The same holds for Server.QuestionAlone, Server.StarAlone and Server.MatchGlobLiteralDot.
- FilePanel, BlobApi and Listing: three edges of JavaScript values are not modelled. A localStorage entry that parses to a non-object ("null", "[]") makes the file panel's lookups throw, and the model reads it as no entry. `String(n)` of an integer of at least 1e21 gives exponent text ("1e+21"), while Text.IntToDecimal writes every digit. A `filename` query parameter given as an array in the attachments route is not modelled.
- Text.Lower: lower-cases ASCII letters only; Unicode case mapping is not modelled.
- Waterfall.RenderWaterfall: for a zero scale maximum it reports `ZeroScale` instead of the infinite or NaN geometry the browser would receive.
- Waterfall.RenderWaterfall: no lemma bounds the bars by the container height; with a caller-supplied maxValue they need not fit.
- SlidePanel.Resolve: an id containing a quote breaks the `[data-panel="…"]` selector; that case is not modelled.
- SlideLayout.RegionBody: the layout-view overlay carries the corrected padding (the padding the content is drawn with), not the source's `padding || 12`; for padding 0 the source shows and selects 12 where the plan shows 0. The as-written value is `SlideLayout.OverlayPaddingAsWritten`, and the first finding below records the difference.
- FilePanel.SettingsStore.SaveFileSetting: setting values are assumed to be JSON-representable, so the plain update is what is read back. The JSON round trip of `JSON.stringify`/`JSON.parse` is not modelled: NaN and ±Infinity come back as null, a Date as its ISO string, and undefined or a function as a missing key.
- FilePanel and BlobApi: the JavaScript objects used as dictionaries are modelled as maps, so keys inherited from `Object.prototype` (`constructor`, `toString`, `__proto__`, …) are not modelled. For such keys the source reads an inherited function where the model reads nothing, `__proto__` assignments create no own key, and `saveFileComment("constructor", …)` throws.
- Dropdown: menus outside any `.dropdown` and nested dropdowns are not modelled; each dropdown has at most one menu.
- BlobApi: JSON numbers are integers, and stored content that is not a JSON object is not modelled (the handlers would answer 500).
- BlobApi: the 500 error paths, CORS headers and the race between concurrent POSTs are not modelled.
- BlobApi: a `page` query parameter given as an array is not modelled.
- BlobApi: other routes writing the handlers' pathnames are not modelled.
- BlobApi.NotesRoundTrip: a non-string `content` is assumed to be stored as its `String(v)` form; the fetch body conversion is not modelled beyond that.
- Listing.Attachments: `decodeURIComponent` is a parameter, absent when it throws.

## Findings

| source | as written | input that shows it | evidently intended | confidence | as-written member | corrected member |
|---|---|---|---|---|---|---|
| slide-layout-builder.tsx:448 | the overlay shows `region.padding \|\| 12`, so a padding of 0 is shown (and selected) as 12 | a region with padding 0 in layout view: the overlay shows 12, while content view draws it with 0 (line 434) | the default applies only to a missing padding, as in `RegionContent`'s default parameter (line 433) | not executed | SlideLayout.OverlayPaddingAsWritten, SlideLayout.OverlayHidesZeroPadding | SlideLayout.OverlayPadding, SlideLayout.RegionBody |
| server.js:397 | `matchGlob` escapes nothing, so a '.' in the pattern matches any character | "buttoncss" matches "*.css" | a '.' in a glob is a literal dot | not executed | Server.MatchGlob, Server.DotMatchesAnyCharacter | Server.MatchGlobLiteralDot, Server.LiteralDotRequiresDot, Server.StarSuffix |
