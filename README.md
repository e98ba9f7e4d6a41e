# OCR_Medical in Dafny

This project models the logic of OCR_Medical, a set of scripts and screens. They read medical records with a text detector (PaddleOCR) and a text recogniser (VietOCR or Qwen-VL), then show or save the text. The detector, the recogniser and the image library are not modelled: their outputs are inputs to the model. What is modelled is the code that decides things around them:

- **The line assembler of `BV/test5.py`.** This part is the centre of the model. The detector returns four-point boxes in no particular order. The assembler does the following:
  - turns each box into an axis-aligned box (`Geometry`);
  - groups the boxes into text lines, first match wins, using vertical overlap and a median-based line centre (`LineGrouping`, a `LineGrouper` class whose line list is updated box by box);
  - sorts the lines top to bottom and each line left to right;
  - reads each padded crop;
  - joins the texts of a line, with a space where the gap between boxes is wide enough (`Assembly`);
  - normalises the punctuation with a chain of rewrites and a quote-curling loop (`Punctuation`).
- **The medical-record page `n6_ocrmedical/src/app.py`.** This covers the brightness decision, the choice of the sharpest variant, the safe crops, the recognition loop and the pairing of boxes with texts for the overlay (`MedicalApp`).
- **The Streamlit page `st_ocr/app.py`.** This covers the brightness decision, the variant pick and the confidence filter that builds the text shown and saved (`StreamlitOcr`, `Selection`).
- **The LM Studio client.** This covers the media type guessed from a file name and the `data:` URL of RFC 2397 (`LmStudio`).
- **The desktop dashboard `n6_ocrmedical/src/app_ver3.py`.** This covers the size text, the greeting of the hour, and the numbered file list with its history and total (`Dashboard`, class `FileListPanel`).

Shared building blocks:

- `Ordering`: a stable sort by key, with sortedness, permutation and stability proved; the first maximum (`np.argmax`, `max` with a key); the median; `zip`.
- `Text`: Python's `str.isspace`, ASCII lower-casing, `str(n)` with its inverse, and Python's string order.
- `Pixels`: 8-bit images as flat sequences of values, with `bitwise_not` and the mean.

Coordinates and scores are exact `real`s. Python's `int()` on a float truncates toward zero (`Geometry.Trunc`).

Some behaviours of the code may surprise a reader. The model follows the code:

- `re.sub(r'([?!])\s*:', r'\1', t)` (BV/test5.py:211) drops the colon: `"!:"` becomes `"!"` (`Punctuation.MarkColonDropsColon`).
- `_quad_to_bbox` clamps each side on its own. A box lying right of the image therefore comes out with `x1 > x2` (`Geometry.QuadToBBoxCanInvert`).
- `_need_space` measures the gap against `max(1, mean height)`, not the bare mean height.
- `.replace("''", '"').replace('""', '"')` is one pass: three straight quotes leave two (`Punctuation.ReplaceDoubleKeepsPair`).
- `_smart_punct_vn` is not idempotent. `?::` becomes `? :`, and normalising that again gives `?` (`Punctuation.SmartPunctNotIdempotent`). Line 211 is a single left-to-right pass, so it removes only the first colon.
- Some boxes make the script stop with an exception before it prints any paragraph (`Assembly.AssembleText` returns `None`). In BV/test5.py, only `predict` is inside the `try` (lines 261-264). The crop, the resize and the enhancement at lines 256-260 are outside it. A box lying outside the image gives an inverted crop, which Pillow's `crop` refuses (`Assembly.InvertedCropFails`). A box narrower than one pixel gives a crop of width 0 (`Assembly.ZeroWidthCropFails`): the resize to width 0, or, when the size is unchanged and the resize returns a copy, the enhancement of the empty image at line 260, raises. So does any crop whose width times 64 is below its height. The rows below call such a crop refused.

## Model

| member | source | states |
|---|---|---|
| Geometry.Trunc | BV/test5.py:145-146 | `int(x)` rounds toward zero: for `x >= 0` the result is the floor, for `x < 0` the ceiling |
| Geometry.TruncMonotone | BV/test5.py:145-148 | truncation is monotone, so the least truncated coordinate is the truncated least one |
| Geometry.QuadToABox | BV/test5.py:151-154 | `_quad_to_abbox` gives a box that is not inverted |
| Geometry.QuadToABoxIsHull | BV/test5.py:151-154 | each side of the axis box touches a corner, and every corner lies inside it: it is the hull |
| Geometry.QuadToBBox | BV/test5.py:144-149 | the clamped box lies in `[0, w-1] x [0, h-1]`; when the truncated hull is already inside, it is returned unchanged |
| Geometry.QuadToBBoxCanInvert | BV/test5.py:144-149 | a box right of a 100-pixel-wide image gives `x1 = 150 > x2 = 99`: the sides are clamped independently |
| Geometry.PadBox | BV/test5.py:51-60 | the padded box never leaves the image on its clamped sides; with non-negative ratios a box inside the image stays inside and is contained in its padded box |
| Geometry.VerticalIou | BV/test5.py:156-161 | the overlap ratio lies in `[0, 1)` and is 0 exactly when the y-intervals do not overlap |
| Geometry.VerticalIouSymmetric | BV/test5.py:156-161 | the ratio does not depend on argument order |
| Geometry.VerticalIouIgnoresX | BV/test5.py:156-158 | the ratio reads only the y-coordinates |
| Geometry.NeedSpace | BV/test5.py:198-203 | no space when the current box starts at or before the previous right edge; otherwise a space exactly when the gap exceeds a quarter of `max(1, mean height)` |
| Geometry.NeedSpaceMonotone | BV/test5.py:198-203 | moving the current box further right never removes a space |
| LineGrouping.Accepts | BV/test5.py:172 | a line takes a box when their vertical overlap ratio is at least 0.3, or when the box centre lies within `0.6 * h_avg` of `y_mid`; `FirstAccepting` and `FirstAcceptingUnique` state which line is picked |
| LineGrouping.FirstAccepting | BV/test5.py:171-172 | the index of the first line, in creation order, that accepts the box; no earlier line accepts it |
| LineGrouping.FirstAcceptingUnique | BV/test5.py:171-181 | the first accepting line is the only index with those two properties |
| LineGrouping.Seed | BV/test5.py:182-189 | the line a box starts when no line takes it; `SeedValid` proves it satisfies the line invariant |
| LineGrouping.SeedValid | BV/test5.py:183-189 | a new line (`y_mid` the box centre, `h_avg = max(1, height)`, extent the box's own) satisfies the line invariant |
| LineGrouping.HullYBounds | BV/test5.py:179 | the line's y-extent contains every member and attains the least top and the greatest bottom |
| LineGrouping.HullYIsMinMax | BV/test5.py:175-179 | the y-extent is `(0, min(tops), 0, max(bottoms))` |
| LineGrouping.HullYOrdered | BV/test5.py:179 | the y-extent of boxes that are not inverted is not inverted |
| LineGrouping.HeightsNonNegative | BV/test5.py:178 | the heights of boxes that are not inverted are not negative |
| LineGrouping.StatsFacts | BV/test5.py:175-179 | after a join, `y_mid` (mean of median top and median bottom) lies inside the y-extent and `h_avg` (median height) is not negative |
| LineGrouping.Join | BV/test5.py:173-179 | a line after taking a box: the pair appended and `y_mid`, `h_avg` and `bbox_y` recomputed; `JoinPaired`, `JoinValid`, `JoinMembers` and `StatsFacts` state its properties |
| LineGrouping.JoinPaired | BV/test5.py:173-174 | a join appends the box and its own quad together |
| LineGrouping.JoinValid | BV/test5.py:173-179 | a join preserves the line invariant |
| LineGrouping.JoinMembers | BV/test5.py:173-174 | a join adds exactly the pair `(box, quad)` at the end of the line |
| LineGrouping.PlaceInto | BV/test5.py:167-189 | one pass of the outer loop over the lines; `PlaceIntoFirstMatch`, `PlaceIntoValid` and `PlaceIntoMembers` state its properties |
| LineGrouping.PlaceIntoValid | BV/test5.py:167-189 | placing a box preserves the invariant of every line |
| LineGrouping.PlaceIntoFirstMatch | BV/test5.py:170-189 | the box joins the first accepting line and no other line changes; a new line is appended exactly when no line accepts it |
| LineGrouping.PlaceIntoMembers | BV/test5.py:167-189 | placing a box adds exactly that box, with its quad, to the lines |
| LineGrouping.PlaceAll | BV/test5.py:166-189 | placing the boxes in turn leaves valid lines, no more lines than boxes, and no line for no box |
| LineGrouping.PlaceAllMembers | BV/test5.py:166-189 | the placed lines hold exactly the placed boxes, as a multiset |
| LineGrouping.TagAll | BV/test5.py:164 | every detector quad is paired with its hull, in detector order |
| LineGrouping.VisitOrder | BV/test5.py:164-165 | sorting the boxes into `(y_top, x_left)` order keeps each paired with its hull |
| LineGrouping.VisitOrderSorted | BV/test5.py:164-165 | the visit order is sorted by `(y_top, x_left)`, and boxes with the same top-left corner keep their detector order, as Python's stable `sort` does |
| LineGrouping.SortMembersPermutes | BV/test5.py:191-195 | sorting a line reorders its `(box, quad)` pairs together, by left edge |
| LineGrouping.SortEachMembers | BV/test5.py:191-195 | sorting every line keeps the boxes of all lines, as a multiset |
| LineGrouping.PairedMembers | BV/test5.py:192-195 | a line pairs each box with its quad's hull exactly when each of its members is so paired |
| LineGrouping.SortMembersFacts | BV/test5.py:191-195 | a sorted line is still paired and its boxes are in non-decreasing left edge |
| LineGrouping.Finished | BV/test5.py:190-195 | the lines sorted by `y_mid`, then each line's members sorted by left edge; `FinishedFacts` states its properties |
| LineGrouping.FinishedFacts | BV/test5.py:190-195 | the finishing sorts keep the number of lines, order lines by `y_mid` and each line's boxes by left edge |
| LineGrouping.Grouped | BV/test5.py:163-196 | what `_group_lines_ratio` returns; `GroupedPartition` and `GroupedOrdered` state its properties |
| LineGrouping.GroupedPartition | BV/test5.py:163-196 | every detector box lands in exactly one line, paired with its own hull, and the lines hold nothing else |
| LineGrouping.GroupedEmpty | BV/test5.py:163-196 | no box, no line |
| LineGrouping.GroupedOrdered | BV/test5.py:190-196 | lines in non-decreasing `y_mid`, boxes in non-decreasing left edge, every box paired, at most as many lines as boxes |
| LineGrouping.LineOrderStable | BV/test5.py:190 | lines with equal `y_mid` keep their creation order |
| LineGrouping.MemberOrderStable | BV/test5.py:193 | boxes with equal left edge keep their order in the line |
| LineGrouping.LineGrouper.constructor | BV/test5.py:166 | the grouper starts with no line |
| LineGrouping.LineGrouper.FindLine | BV/test5.py:171-172 | the loop over the lines finds the first accepting line, or reports none |
| LineGrouping.LineGrouper.Place | BV/test5.py:167-189 | placing one box updates the line list as `PlaceInto` says and keeps it valid |
| LineGrouping.LineGrouper.Finish | BV/test5.py:190-195 | the in-place sorts leave the finished lines |
| LineGrouping.GroupLinesRatio | BV/test5.py:163-196 | `_group_lines_ratio` returns the grouping the lemmas above describe |
| Punctuation.LeadSpaces | BV/test5.py:223 | the length of the leading whitespace run |
| Punctuation.TrailSpaces | BV/test5.py:223 | the length of the trailing whitespace run |
| Punctuation.DropSpaceBefore | BV/test5.py:206 | removing whitespace before marks never lengthens the text |
| Punctuation.DropSpaceBeforeMeets | BV/test5.py:206-208 | after lines 206 and 208, no whitespace stands before a mark or a closing bracket |
| Punctuation.DropSpaceBeforeKeepsVisible | BV/test5.py:206-208 | those steps remove only whitespace |
| Punctuation.DropSpaceAfterFrom | BV/test5.py:207 | removing whitespace after opening brackets never lengthens the text |
| Punctuation.DropSpaceAfterHead | BV/test5.py:207 | text that follows an opener comes out without leading whitespace |
| Punctuation.DropSpaceAfterMeets | BV/test5.py:207 | after line 207, no opening bracket is followed by whitespace |
| Punctuation.DropSpaceAfterKeepsVisible | BV/test5.py:207 | that step removes only whitespace |
| Punctuation.CollapseDots | BV/test5.py:209 | collapsing dot runs never lengthens the text and keeps a first character that is not a dot |
| Punctuation.CollapseDotsMeets | BV/test5.py:209 | after line 209, no two periods are adjacent |
| Punctuation.ColonQuestion | BV/test5.py:210 | `:\s*\?` replaced by `": "` in one left-to-right pass; the text never grows longer |
| Punctuation.ColonQuestionExample | BV/test5.py:210 | `:?`, with or without spaces between, becomes `: ` |
| Punctuation.MarkColon | BV/test5.py:211 | `([?!])\s*:` replaced by the mark alone in one left-to-right pass; the text never grows longer |
| Punctuation.MarkColonDropsColon | BV/test5.py:211 | `?:` and `!:`, spaces between or not, lose the colon |
| Punctuation.SpaceAfterComma | BV/test5.py:212 | the step keeps the first character |
| Punctuation.SpaceAfterCommaMeets | BV/test5.py:212 | after line 212, every comma is followed by whitespace |
| Punctuation.SpaceAfterMark | BV/test5.py:213 | the step keeps the first character |
| Punctuation.SpaceAfterMarkMeets | BV/test5.py:213 | after line 213, every mark is followed by whitespace or is the last character |
| Punctuation.ReplaceDouble | BV/test5.py:215 | `str.replace` of a pair never lengthens the text |
| Punctuation.ReplaceDoubleMeets | BV/test5.py:215 | replacing `''` by `"` leaves no `''` |
| Punctuation.ReplaceDoubleKeepsPair | BV/test5.py:215 | `"""` becomes `""`: one pass of the replacement leaves a pair |
| Punctuation.ReplaceDoubleKeepsSpaced | BV/test5.py:215 | the replacements keep marks followed by whitespace |
| Punctuation.Curl | BV/test5.py:214-220 | the quote loop keeps the length |
| Punctuation.CurlAt | BV/test5.py:214-220 | the quote at `i` becomes “ exactly when an even number of quotes precede it, and ” otherwise |
| Punctuation.CurlStep | BV/test5.py:215-220 | one more character extends the output and the quote count by that character's share |
| Punctuation.Uncurl | BV/test5.py:217 | straightening the curly quotes again, the reference inverse of the loop |
| Punctuation.CurlRoundTrip | BV/test5.py:214-220 | on text without curly quotes, straightening the curled text gives it back |
| Punctuation.CurlMeets | BV/test5.py:214-220 | no straight `"` is left, and every other character is unchanged |
| Punctuation.CurlKeepsSpaced | BV/test5.py:214-221 | curling keeps marks followed by whitespace |
| Punctuation.CollapseSpaces | BV/test5.py:222 | collapsing whitespace runs keeps the first character's kind |
| Punctuation.CollapseSpacesMeets | BV/test5.py:222 | after line 222, no two whitespace characters are adjacent |
| Punctuation.CollapseSpacesKeepsSpaced | BV/test5.py:222 | the collapse keeps marks followed by whitespace |
| Punctuation.CollapseSpacesKeepsAbsent | BV/test5.py:222 | the collapse introduces no new non-whitespace character (a whitespace run may become a space that was not in the input) |
| Punctuation.Strip | BV/test5.py:223 | `str.strip()`; `StripSlice` states what it removes |
| Punctuation.StripSlice | BV/test5.py:223 | `strip()` is the slice that drops exactly the whitespace at both ends, and leaves none there |
| Punctuation.StripKeeps | BV/test5.py:223 | stripping keeps the other guarantees |
| Punctuation.SmartPunctMeets | BV/test5.py:205-223 | the output is trimmed, has no whitespace run, has every `, . ; : ! ?` followed by whitespace unless it is last, and has no straight `"` |
| Punctuation.CurlQuotes | BV/test5.py:214-221 | the `buf`/`open_q` loop computes `Curl` |
| Punctuation.Rewrite | BV/test5.py:206-213 | the eight `re.sub` rewrites in their order; `SmartPunctMeets` states what they guarantee together with the later steps |
| Punctuation.SmartPunct | BV/test5.py:205-223 | what `_smart_punct_vn` returns; `SmartPunctMeets` and `SmartPunctNotIdempotent` state its properties |
| Punctuation.RewriteQuestionColons | BV/test5.py:206-213 | the rewrites turn `?::` into `? :`: line 211 removes one colon, line 213 adds a space after `?` |
| Punctuation.RewriteSpacedColon | BV/test5.py:206-213 | the rewrites turn `? :` into `?`: line 206 removes the space, line 211 the colon |
| Punctuation.SmartPunctNotIdempotent | BV/test5.py:205-223 | the normaliser is not idempotent: `?::` normalises to `? :`, which normalises to `?` |
| Punctuation.SmartPunctVn | BV/test5.py:205-223 | `_smart_punct_vn` computes `SmartPunct`, whose guarantees `SmartPunctMeets` proves |
| Assembly.CropBox | BV/test5.py:253-255 | the clamped and padded pixel box of a detector box; `InvertedCropFails` and `ZeroWidthCropFails` show refused crops, those on which the crop, the resize or the enhancement raises |
| Assembly.CropFailsCases | BV/test5.py:256-260 | the script stops on a crop exactly when it is inverted, or when 64 times its width is below its height (at least 1): the resized width `int(cw * 64 / max(1, ch))` is then below 1, and the resize or the enhancement raises |
| Assembly.InvertedCropFails | BV/test5.py:253-256 | a box at x 150-170 in a 100 by 100 image has the crop `x1 = 150 > x2 = 99`, which is refused |
| Assembly.ZeroWidthCropFails | BV/test5.py:253-260 | a box whose x-range is 50.2-50.8 has a crop of width 0, on which the resize or the enhancement raises |
| Assembly.MemberIsBox | BV/test5.py:163-196 | every member of the grouped lines carries a detector box |
| Assembly.BoxIsMember | BV/test5.py:163-196 | every detector box, with its hull, is a member of the grouped lines |
| Assembly.GroupedCropFails | BV/test5.py:248-260 | some member of the grouped lines has a refused crop exactly when some detector box has one |
| Assembly.BoxText | BV/test5.py:261-264 | the text read from one box's crop, `""` when `predict` raises; `ReadingAt` states it per member |
| Assembly.Readings | BV/test5.py:252-264 | one reading per member of the line |
| Assembly.ReadingAt | BV/test5.py:252-264 | the `j`-th reading is the `j`-th box with the text of its crop, or `""` when the recogniser fails |
| Assembly.Kept | BV/test5.py:265 | the kept readings all have non-empty text and come from the line |
| Assembly.Step | BV/test5.py:265-269 | one pass of the inner loop; `StepAgrees` and `TokensAreSpaced` state what the passes build |
| Assembly.StepAgrees | BV/test5.py:265-269 | one non-empty text extends the tokens as the reference join says, against the last box that gave text |
| Assembly.TokensAreSpaced | BV/test5.py:250-269 | the inner loop joins the non-empty texts as `Spaced` does: empty texts are skipped and never become `prev_ab`, and there is never a space before the first token |
| Assembly.TokensSnoc | BV/test5.py:252-269 | one more box is one more loop step |
| Assembly.ConcatSnoc | BV/test5.py:271 | `"".join` of one more token appends it |
| Assembly.LineParagraphAgrees | BV/test5.py:270-271 | a line contributes its normalised text, or nothing when it gave no token |
| Assembly.Paragraphs | BV/test5.py:248-271 | `final_paragraphs` after the given lines, when no crop is refused; `ParagraphsByLine`, `ParagraphsBound` and `ParagraphsNormalised` state its properties |
| Assembly.ParagraphsByLine | BV/test5.py:248-271 | the output follows line order: the paragraphs are those of each line in turn |
| Assembly.ParagraphsBound | BV/test5.py:248-271 | at most one paragraph per line |
| Assembly.ParagraphsSnoc | BV/test5.py:249-271 | one more line adds its paragraph, if any |
| Assembly.ParagraphsNormalised | BV/test5.py:271 | every paragraph carries the normaliser's guarantees |
| Assembly.AllNormalisedSnoc | BV/test5.py:271 | appending a normalised paragraph keeps all paragraphs normalised |
| Assembly.ReadLine | BV/test5.py:250-269 | the inner loop fails exactly when some box's crop is refused; otherwise its tokens join to `Spaced(Kept(...))`, and they are empty exactly when no box gave text |
| Assembly.EmitLine | BV/test5.py:249-271 | one outer iteration fails exactly when some box of the line has a refused crop; otherwise it appends the line's paragraph, if any |
| Assembly.AssembleParagraphs | BV/test5.py:248-271 | the outer loop gives `None` exactly when some member of some line has a refused crop, and otherwise `Paragraphs` |
| Assembly.AssembleText | BV/test5.py:236-271 | the script stops (`None`) exactly when the crop of some detector box is refused; otherwise it gives the paragraphs of the grouped lines, no more than there are boxes |
| MedicalApp.AutoInvertDark | n6_ocrmedical/src/app.py:21-24 | the image is returned as it is or inverted |
| MedicalApp.AutoInvertDarkDecision | n6_ocrmedical/src/app.py:21-24 | a non-empty image is inverted exactly when its mean is above 127 |
| MedicalApp.AutoInvertDarkMean | n6_ocrmedical/src/app.py:21-24 | the result's mean is always below 128 |
| MedicalApp.BestSharpIsFirstMaximum | n6_ocrmedical/src/app.py:40-42 | the chosen candidate has the largest score, and no earlier candidate has as large a score |
| MedicalApp.SafeCut | n6_ocrmedical/src/app.py:56-62 | the crop rule of `safe_crops` as a function of a box; `SafeRect` states what it keeps |
| MedicalApp.SafeRect | n6_ocrmedical/src/app.py:56-62 | every kept rectangle satisfies `0 <= x1 < x2 <= w` and `0 <= y1 < y2 <= h` |
| MedicalApp.SafeRectKeepsInside | n6_ocrmedical/src/app.py:57-62 | a box whose truncated hull is already inside is kept as it is |
| MedicalApp.SafeRectDropsOutside | n6_ocrmedical/src/app.py:59-61 | a box starting at or beyond the right or bottom edge is dropped |
| MedicalApp.Kept | n6_ocrmedical/src/app.py:56-62 | the accepted boxes are no more than the boxes |
| MedicalApp.Cuts | n6_ocrmedical/src/app.py:56-62 | the crops are no more than the boxes |
| MedicalApp.CutsOfKept | n6_ocrmedical/src/app.py:56-62 | the `i`-th crop is the slice of the `i`-th accepted box, in input order |
| MedicalApp.CutsAll | n6_ocrmedical/src/app.py:56-63 | there are as many crops as boxes exactly when no box is dropped |
| MedicalApp.CutsAppend | n6_ocrmedical/src/app.py:56-63 | the crops of two runs of boxes are those of each in turn |
| MedicalApp.KeptAll | n6_ocrmedical/src/app.py:56-63 | when no box is dropped, the accepted boxes are all the boxes |
| MedicalApp.SafeCropsInBounds | n6_ocrmedical/src/app.py:52-63 | every crop `safe_crops` returns is non-empty and inside the image |
| MedicalApp.SafeCrops | n6_ocrmedical/src/app.py:52-63 | the loop computes the crops described above |
| MedicalApp.Texts | n6_ocrmedical/src/app.py:119-127 | no more texts than crops |
| MedicalApp.TextsOnePerCrop | n6_ocrmedical/src/app.py:119-127 | for safe crops, exactly one text per crop: the recogniser's, or `""` when it fails |
| MedicalApp.PositiveArea | n6_ocrmedical/src/app.py:121 | a crop with positive extents has a positive size |
| MedicalApp.Recognise | n6_ocrmedical/src/app.py:119-127 | the recognition loop computes `Texts` |
| MedicalApp.OverlayAsWritten | n6_ocrmedical/src/app.py:44-49 | `zip(boxes, txts)` as the overlay draws it; `OverlayShiftsTexts` and `OverlayShiftExample` show the shift |
| MedicalApp.OverlayShiftsTexts | n6_ocrmedical/src/app.py:44-45 | when the first box is dropped and the second kept, the first box is labelled with the second box's text |
| MedicalApp.BoxInsideKept | n6_ocrmedical/src/app.py:56-62 | an axis-aligned box inside the image is kept with its own corners |
| MedicalApp.BoxRightDropped | n6_ocrmedical/src/app.py:56-62 | an axis-aligned box right of the image is dropped |
| MedicalApp.OverlayShiftExample | n6_ocrmedical/src/app.py:44-45 | concretely, in a 100 by 100 image, a box at x 150-170 followed by a box at x 10-30 gives one label: the outside box with the inside box's text |
| MedicalApp.Overlay | n6_ocrmedical/src/app.py:44-49 | the corrected pairing of the kept boxes with their texts; `OverlayOwnText` states it |
| MedicalApp.OverlayOwnText | n6_ocrmedical/src/app.py:44-45 | the corrected pairing labels each accepted box with its own slice's text; with no box dropped it is what the page draws |
| Selection.BestIndex | n6_ocrmedical/src/app.py:41-42 | the index of the first candidate with the largest score |
| Selection.PickVariant | st_ocr/app.py:61-66 | the variant `max` picks by sharpness; `PickVariantCases` states which |
| Selection.PickVariantCases | st_ocr/app.py:61-66 | the variant is the sharpest; ties go to the denoised image, then to the thinned one (the same pick as BV/test5.py lines 106-111) |
| StreamlitOcr.AutoInvertLight | st_ocr/app.py:14-18 | the image is returned as it is or inverted, same size |
| StreamlitOcr.AutoInvertLightDecision | st_ocr/app.py:14-18 | a non-empty image is inverted exactly when its grey mean is below 120 |
| StreamlitOcr.AutoInvertLightMean | st_ocr/app.py:14-18 | for an image that is its own grey version, the result's mean is at least 120 |
| StreamlitOcr.KeptTexts | st_ocr/app.py:97-101 | no more kept texts than detected lines |
| StreamlitOcr.KeptTextsAppend | st_ocr/app.py:97-101 | the filter works line by line: two runs of lines are filtered in turn |
| StreamlitOcr.KeptTextsOne | st_ocr/app.py:99-100 | a line is kept exactly when its confidence is at least 0.40 |
| StreamlitOcr.ThresholdIsInclusive | st_ocr/app.py:94-100 | a confidence of exactly 0.40 is kept |
| StreamlitOcr.KeptTextsAll | st_ocr/app.py:97-101 | when every line reaches the threshold, all texts are kept in detector order |
| StreamlitOcr.KeptTextsNone | st_ocr/app.py:97-101 | when no line reaches the threshold, nothing is kept |
| StreamlitOcr.LinesSnoc | st_ocr/app.py:101 | one more kept text appends it and one line break |
| StreamlitOcr.BreakAt | st_ocr/app.py:101 | the first line break, used to read the text back |
| StreamlitOcr.SplitLinesOfLines | st_ocr/app.py:96-101 | each kept text is followed by exactly one `"\n"`: reading the text back line by line gives the kept texts |
| StreamlitOcr.ExtractText | st_ocr/app.py:94-104 | with no detection the text is `""`; otherwise it is the kept texts in detector order, each with its line break |
| LmStudio.InferMime | n6_ocrmedical/src/lmstudio_client.py:6-14 | the result is one of the four fixed media types |
| LmStudio.InferMimeIgnoresCase | n6_ocrmedical/src/lmstudio_client.py:7 | names equal up to case get the same type |
| LmStudio.SuffixesDisjoint | n6_ocrmedical/src/lmstudio_client.py:8-13 | `.png`, `.webp` and `.jpg`/`.jpeg` exclude each other |
| LmStudio.InferMimeCases | n6_ocrmedical/src/lmstudio_client.py:8-14 | png exactly for `.png`, webp exactly for `.webp`, jpeg exactly for `.jpg` or `.jpeg`, octet-stream exactly for anything else |
| LmStudio.ParseBuiltDataUrl | n6_ocrmedical/src/lmstudio_client.py:20 | a `data:` URL built from a type without `;` reads back as that type and the data |
| LmStudio.ToDataUrl | n6_ocrmedical/src/lmstudio_client.py:16-20 | `data:`, the guessed media type, `;base64,` and the encoded text; `DataUrlRoundTrip` states what can be read back |
| LmStudio.DataUrlRoundTrip | n6_ocrmedical/src/lmstudio_client.py:16-20 | the type and the base64 text can be read back from the URL `to_data_url` builds |
| Dashboard.HumanSize | n6_ocrmedical/src/app_ver3.py:52-69 | the size text of `human_size`; `HumanSizeRoundsDown` and `HumanSizeUnknown` state its properties |
| Dashboard.HumanSizeRoundsDown | n6_ocrmedical/src/app_ver3.py:61-67 | outside the one-decimal range, the size reads back as a whole number of KB (below 1 MiB) or MB (from 10 MiB), rounded down, and as `1 KB` below 1 KiB |
| Dashboard.HumanSizeUnknown | n6_ocrmedical/src/app_ver3.py:59-69 | `--` appears exactly when the size cannot be read |
| Dashboard.GreetingFor | n6_ocrmedical/src/app_ver3.py:469-477 | the part of the day an hour falls in; `GreetingBuckets` states the buckets |
| Dashboard.GreetingBuckets | n6_ocrmedical/src/app_ver3.py:469-477 | hours 5-11 morning, 12-16 afternoon, 17-21 evening, all others night; the greeting changes exactly at 5, 12, 17 and 22 |
| Dashboard.GreetingTextDistinct | n6_ocrmedical/src/app_ver3.py:470-477 | different parts of the day greet differently |
| Dashboard.Basename | n6_ocrmedical/src/app_ver3.py:523 | a base name holds no separator |
| Dashboard.BasenameOfJoin | n6_ocrmedical/src/app_ver3.py:506 | the base name of a folder joined with a plain name is that name |
| Dashboard.FilesIn | n6_ocrmedical/src/app_ver3.py:505-508 | no more files than directory entries |
| Dashboard.Listed | n6_ocrmedical/src/app_ver3.py:499-513 | the files `populate_from_directory` lists; `ListedOrder` states what and in which order |
| Dashboard.ListedOrder | n6_ocrmedical/src/app_ver3.py:499-513 | a missing or unreadable folder lists nothing; otherwise every file once, in order of lower-cased name, with equal keys in listing order |
| Dashboard.NewRows | n6_ocrmedical/src/app_ver3.py:515-516 | the rows are numbered consecutively from the first number, each with its name and size text |
| Dashboard.Dropped | n6_ocrmedical/src/app_ver3.py:522-523 | each path is shown under its base name, or `Unnamed` when empty |
| Dashboard.FileListPanel.constructor | n6_ocrmedical/src/app_ver3.py:362-367 | the panel starts empty with `Total files: 0` |
| Dashboard.FileListPanel.AppendFileItem | n6_ocrmedical/src/app_ver3.py:529-543 | one row and one history line, with the same name and size text |
| Dashboard.FileListPanel.UpdateTotalLabel | n6_ocrmedical/src/app_ver3.py:545-546 | the label shows the row count |
| Dashboard.FileListPanel.AppendAll | n6_ocrmedical/src/app_ver3.py:515-516 | rows are appended numbered on from the current count, and the numbering stays 1..n |
| Dashboard.FileListPanel.PopulateFromDirectory | n6_ocrmedical/src/app_ver3.py:494-518 | the list holds the listed files numbered 1..n; the total equals the row count |
| Dashboard.FileListPanel.AddFiles | n6_ocrmedical/src/app_ver3.py:520-525 | each new row's number is the current count + 1; afterwards the numbering is 1..n and the total equals the row count |
| Ordering.SortByPermutes | BV/test5.py:165 | sorting only reorders |
| Ordering.SortBySorted | BV/test5.py:190 | sorting yields non-decreasing keys |
| Ordering.SortByStable | BV/test5.py:190 | Python's sort is stable: elements with equal keys keep their order |
| Ordering.ArgMax | n6_ocrmedical/src/app.py:42 | `np.argmax` is the first index of the maximum |
| Ordering.MedianBounds | BV/test5.py:177-178 | the median lies between the least and the greatest value |
| Text.ParseNatToString | n6_ocrmedical/src/app_ver3.py:65 | `int(str(n)) == n` |
| Text.StringLeIsTotalOrder | n6_ocrmedical/src/app_ver3.py:513 | Python's string order is a total order, so the name sort is well defined |
| Pixels.Invert | n6_ocrmedical/src/app.py:24 | `bitwise_not` maps every value `v` to `255 - v` |
| Pixels.InvertInvolutive | n6_ocrmedical/src/app.py:24 | inverting twice gives the image back |
| Pixels.SumInvert | n6_ocrmedical/src/app.py:23-24 | the total of the inverse is `255 * size - total` |
| Pixels.MeanAbove | n6_ocrmedical/src/app.py:23-24 | comparing the mean with a threshold is comparing the total with threshold times size |

## Left out

- Image processing and recognition: grey conversion, thresholding, morphology, Laplacian sharpness, CLAHE, resizing, the detector and the recognisers. Their results are inputs: sharpness is a score function, the recogniser is a function returning `None` for an exception, and the grey image is a parameter.
- I/O and user interfaces: file reads and writes, `os.listdir`, Streamlit and PySide6 widgets, drawing the overlay, matplotlib. The directory listing is the `Folder` input. The history panel keeps the name before `elide` shortens it to the panel's font width.
- The HTTP call to the vision model and the base64 encoding: the encoded text is an input of `LmStudio.ToDataUrl`.
- Concurrency: the worker threads and signals of the desktop screens.
- Floating point: coordinates, scores and confidences are exact reals. The `1e-6` in the overlap ratio and the confidence 0.40 are exact. A double compared with the double nearest 0.4 behaves as a comparison with 2/5, because no double lies between them.
- Dashboard.HumanSize: the one-decimal MB text for sizes from 1 MiB to 10 MiB is a parameter (`oneDecimal`), since it is floating-point formatting. Sizes of 2^53 bytes or more, where `size / 2**20` is no longer exact, are not distinguished.
- Text.Lower: lower-casing is modelled on ASCII letters only. For the extension test this is exact, because no other character lower-cases to a letter of `.png`, `.webp`, `.jpg` or `.jpeg`. For the dashboard's name sort, names with non-ASCII capitals are ordered by their ASCII-only lower-casing.
- Dashboard.Join and Dashboard.Basename: POSIX separators only. Windows `\` paths are not modelled.
- Dashboard.FileListPanel.AddFiles: the size of an empty path is whatever `sizeOf` says of `""`; on a real system `getsize("")` raises, giving `--`.
- Assembly.CropFails: the resized width is computed on exact reals as `int(cw * (64 / max(1, ch)))`. In floating point the product can fall just below a whole number, so a crop whose width times 64 equals its height may also be refused. The model also treats a crop of height 0 and width at least 1 as one the resize accepts.
- Assembly and MedicalApp: the crop function is a parameter of the assembly lemmas. `Assembly.AssembleText` instantiates it with the script's crop (`Cropper`), and `MedicalApp` instantiates it with `SafeCut`.
- MedicalApp.SafeRect: uses the truncated least coordinate instead of the least truncated coordinate. The two are equal because truncation is monotone (`Geometry.TruncMonotone`).
- StreamlitOcr.AutoInvertLightMean: stated for an image that is its own grey version. The grey conversion of an inverted colour image is not modelled.
- Selection.PickVariantCases: the dictionary `max` is modelled as the first maximum over the three variants in insertion order. That is how Python's `max` with a key behaves.
- The duplicate copies of `human_size`, `update_greeting` and `populate_from_directory` in the other desktop screens are not part of this model.

## Findings

| source | as written | input that shows it | evidently intended | confidence | as-written member | corrected member |
|---|---|---|---|---|---|---|
| n6_ocrmedical/src/app.py:44-45 | `overlay_result(overlay, boxes, txts)` zips ALL detector boxes with the texts of the crops `safe_crops` kept. Once a box is dropped, every later text is drawn on the wrong box. | In a 100 by 100 image, a box at x 150-170 (dropped) followed by a box at x 10-30 (kept): the text read from the second box is drawn on the first, and the second gets none. | Pair each kept box with the text of its own crop. | not executed | MedicalApp.OverlayShiftExample | MedicalApp.OverlayOwnText |
