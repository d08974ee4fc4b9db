# assnotations in Dafny

This is a model of `assnotations.py`, the script that turns YouTube's
annotation XML into an Advanced SubStation Alpha (ASS) subtitle script.
The model follows the script's steps:

- **Parsing.** Each annotation child is read into a record (`Records.Annotation`).
  The records are merged one by one: a `highlightText` child adds its text
  to the annotation it points at; if that annotation has not been seen yet,
  the text is held back. The first `a-v=` video id is kept. The annotations
  are then sorted by start time (`Merge`).
- **Events.** Each usable annotation becomes:
  - one background event (an ASS drawing: a rectangle, or a speech bubble
    whose pointer is spliced into one edge);
  - a caption event when it has text;
  - a link-icon event when it has a URL (`Compose`).
- **Helpers.** The pieces those events are made of:
  - colour codes (`Encoders`, `Hex`);
  - percent to pixel conversion and alpha codes (`Encoders`);
  - the pointer direction and the bubble outline (`Direction`, `Bubble`);
  - rescaling of a drawing's numbers (`Drawing`);
  - Python's string operations that the script relies on (`Text`).

Events are values (`Compose.Line`): a background, a caption or an icon,
with the fields that vary between annotations. A drawing is a list of
points (`Bubble.Point`). Rendering events and points to text is not
modelled. Coordinates are real numbers.

The script's two loops, and the body of the second one, are imperative
methods, each proved equal to a specification function:

- `Merge.Parse` is the loop over the XML children (equal to `Merge.MergeAll`).
- `Compose.ToAss` is the loop over the sorted annotations (equal to `Compose.AllLines`).
- `Compose.ComposeBackground` and `Compose.ComposeForeground` together are
  the body of that loop, which updates the annotation record in place.

Python behaviour is written out where it matters:

- `int()` truncates toward zero.
- `:02x` pads negative numbers after the sign.
- Negative slice bounds are clamped.
- `a or b` treats an empty string, `0` and `None` as missing.
- `str.strip` uses Python's set of whitespace characters.
- `str.replace` replaces left to right without overlaps.
- Reassigning a dict key keeps its position.
- `sorted` is stable, and the key `start or -1` sends a start of `0` and a
  missing start to the same place.

Behaviour worth noting:

- `bg_alpha` is a transparency percentage: the reader stores 100 minus the
  XML's `bgAlpha` fraction times 100 (assnotations.py:94), and a missing value
  becomes 20.
- `alpha_to_hex` truncates `255 * alpha / 100`: transparency 0 gives `00`
  (opaque), 100 gives `FF` (fully transparent), and the default 20 gives `33`.
- `speech_bubble` returns an empty drawing when the anchor has no
  direction (for example, an anchor inside the box).
- `rgb_to_bgr` emits the last pair, then the middle one, then the first:
  `rrggbb` becomes `bbggrr`.
- The text of `highlightText` children is merged into its annotation while
  parsing, before any event is built.

## Model

| member | source | states |
|---|---|---|
| Text.Join | assnotations.py:176 | `sep.join(parts)`; Text.JoinSplit and Text.SplitJoin relate it to Text.Split |
| Text.Split | assnotations.py:44 | `str.split` on one character: at least one piece, and no piece contains the separator |
| Text.JoinSplit | assnotations.py:176 | joining the pieces of a split with the separator gives back the string |
| Text.SplitJoin | assnotations.py:44 | splitting a join of separator-free pieces gives back the pieces |
| Text.StripEmptyIffBlank | assnotations.py:217 | `strip()` is empty exactly when every character is Python whitespace |
| Text.LStripShape | assnotations.py:225 | `lstrip()` removes a whitespace prefix and leaves a string that is empty or starts with a non-space |
| Text.RStrip | assnotations.py:227 | `str.rstrip()`; Text.RStripEmpty states when it is empty |
| Text.Strip | assnotations.py:217 | `str.strip()`; Text.StripEmptyIffBlank states when it is empty |
| Text.Replace | assnotations.py:227 | `str.replace`, left to right and without overlaps; Text.ReplaceRemoves states what it removes |
| Text.ReplaceRemoves | assnotations.py:227 | after replacing a character by text that does not contain it, the character no longer occurs |
| Text.Find | assnotations.py:145-146 | the index of the first occurrence of the pattern, or none exactly when it does not occur |
| Hex.FormatHexNonNegative | assnotations.py:41 | `:0Nx` upper-cased on a non-negative value: upper-case hex digits whose value is the number, exactly N long when the value fits |
| Hex.FormatHexNegative | assnotations.py:170 | `:0Nx` upper-cased on a negative value: a minus sign followed by the hex digits of its magnitude |
| Encoders.Color | assnotations.py:39-41 | no colour exactly when the attribute is missing or empty |
| Encoders.ColorSixDigits | assnotations.py:39-41 | a value below 0x1000000 gives six upper-case hex digits that encode it |
| Encoders.RgbToBgr | assnotations.py:166-167 | for input of six or more characters, the last three character pairs in reverse order; shorter input gives a result as long as the input |
| Encoders.RgbToBgrInvolution | assnotations.py:166-167 | swapping a six-character colour twice gives it back |
| Encoders.RgbToBgrLastSix | assnotations.py:166-167 | only the last six characters matter |
| Encoders.RgbToBgrSwapsBytes | assnotations.py:166-167 | the swapped code of a 24-bit colour encodes the number with its red and blue bytes exchanged |
| Encoders.Trunc | assnotations.py:170 | `int()` of a real rounds toward zero |
| Encoders.AlphaToHex | assnotations.py:169-170 | `alpha_to_hex`; Encoders.AlphaToHexInRange and Encoders.AlphaToHexExamples state its range and values |
| Encoders.AlphaToHexInRange | assnotations.py:169-170 | a transparency in [0, 100] gives two upper-case hex digits whose value is the truncation of 255 * transparency / 100 |
| Encoders.AlphaToHexExamples | assnotations.py:169-170 | 0 gives `00`, 100 gives `FF`, the default 20 gives `33`, 1 gives `02`, -1 gives `-2` |
| Encoders.PercentToPixels | assnotations.py:163-164 | a percentage in [0, 100] of a non-negative size lies between 0 and the size |
| Encoders.PercentToPixelsInverse | assnotations.py:163-164 | converting the pixels back to a percentage gives the percentage |
| Encoders.PercentToPixelsMonotone | assnotations.py:163-164 | a larger percentage never gives fewer pixels |
| Encoders.TimestampToSeconds | assnotations.py:43-44 | `timestamp_to_seconds`, with `float()` as a parameter; Encoders.TimestampOfFields states its value |
| Encoders.TimestampOfFields | assnotations.py:43-44 | a colon-joined timestamp is the sum of its last three fields weighted 1, 60 and 3600 from the right |
| Encoders.TimestampHoursMinutesSeconds | assnotations.py:43-44 | `h:m:s` is 3600 h + 60 m + s |
| Direction.GetPointDirection | assnotations.py:249-261 | each answer says where the anchor lies: below or above the box and right or left of its centre line, or beside it within its (padded) height |
| Direction.FirstMatch | assnotations.py:249-261 | no direction exactly when none of the tests holds |
| Direction.CascadeIsFirstMatch | assnotations.py:249-261 | the direction is that of the first test in the cascade that holds |
| Direction.InsideBoxUndetermined | assnotations.py:249-261 | an anchor inside the box, or on its border, has no direction |
| Direction.PaddingOnlyAffectsTopRightAndRight | assnotations.py:254-259 | changing the padding can only change a top-right, right or missing answer |
| Direction.BottomMirror | assnotations.py:250-253 | below the box, mirroring the anchor across the centre swaps bottom-right and bottom-left |
| Direction.SideDirections | assnotations.py:258-261 | right only for anchors right of the box within its padded height; left exactly for anchors strictly left of it and within its height |
| Bubble.Rectangle | assnotations.py:214 | the four corners (x,y), (x2,y), (x2,y2), (x,y2) in drawing order; Bubble.SpliceIntoEdge and Compose.PlainBoxExample relate it |
| Bubble.SpeechBubble | assnotations.py:263-313 | an empty drawing exactly when the anchor has no direction, and seven points otherwise |
| Bubble.SpliceIntoEdge | assnotations.py:267-311 | removing the three pointer points gives the rectangle, and the pointer's tip is the anchor |
| Bubble.Fractions | assnotations.py:244-247 | the base multipliers put the pointer's base inside one half of its edge |
| Bubble.BasePointsOnEdge | assnotations.py:267-311 | the pointer's base points lie on the edge between its corners, in drawing order |
| Bubble.BaseInNamedHalf | assnotations.py:267-311 | the pointer's base is in the half of the edge the direction names |
| Drawing.RemoveFirst | assnotations.py:176 | `replace(c, "", 1)` removes one character when it occurs and nothing otherwise |
| Drawing.RemoveFirstAt | assnotations.py:176 | the character removed is the first occurrence of `c`; everything before and after it is kept |
| Drawing.ScaleDrawing | assnotations.py:175-176 | `scale_drawing`, with the scaled number's text as a parameter; Drawing.ScaleDrawingKeepsTokens states its effect |
| Drawing.ScaleDrawingKeepsTokens | assnotations.py:175-176 | the rescaled drawing has the same tokens in the same places, numbers replaced by their scaled text and commands kept |
| Drawing.NumericTokenExamples | assnotations.py:176 | `4.15` and `-4.15` are numbers |
| Drawing.NonNumericTokenExamples | assnotations.py:176 | `m`, `l` and `1.2.3` are not numbers, while `4-1` passes the script's test |
| Merge.VideoIdOf | assnotations.py:145-146 | none exactly when there is no `a-v=` or the text after the first one is empty or starts with `&` or `a-v=`; otherwise the id is that text up to its first `&` or next `a-v=`: a non-empty prefix with no `&` and no marker starting inside it, followed by the end, a `&` or a marker |
| Text.SplitFirstPiece | assnotations.py:146 | the first piece of `split(sep)` is a prefix that ends at the end of the string or at a separator |
| Merge.Absorb | assnotations.py:142-160 | one pass of the merge loop; Merge.HighlightTextFoldsIn, Merge.HighlightTakesHeldText and Merge.OrdinaryChildStored state its cases |
| Merge.MergeAll | assnotations.py:142-160 | the merge loop over all children from the empty state; Merge.MergeAllValid and Merge.MergeKeepsFirstVideoId state its result |
| Merge.AbsorbKeepsValid | assnotations.py:142-160 | merging one child keeps every listed key stored, listed once, and every stored key listed |
| Merge.MergeAllValid | assnotations.py:142-160 | the state after any number of children is well formed |
| Merge.HighlightTextFoldsIn | assnotations.py:147-159 | a `highlightText` child adds its text on a new line to the main annotation's text, or replaces an empty one; when the main annotation is not yet stored, the text is held back |
| Merge.HighlightTakesHeldText | assnotations.py:142-144 | a `highlight` annotation takes the text held back for its id, and the held entry is removed |
| Merge.OrdinaryChildStored | assnotations.py:160 | any other child is stored under its id; an existing id keeps its place and a new one goes last; held-back texts are unchanged except the entry a highlight takes |
| Merge.MergeKeepsFirstVideoId | assnotations.py:145-146 | the video id is the first one any child's `log_data` yields |
| Merge.SortByStart | assnotations.py:161 | `sorted(..., key=lambda k: k["start"] or -1)` as a stable insertion sort; Merge.SortByStartCorrect states its result |
| Merge.InsertSorted | assnotations.py:161 | inserting into a sorted list keeps it sorted |
| Merge.SortByStartCorrect | assnotations.py:161 | the result is sorted by `start or -1`, is a permutation, and keeps the input order among equal keys |
| Merge.ValuesListsEachOnce | assnotations.py:161 | in a well-formed state, `annotations.values()` has one entry per stored annotation and lists every stored annotation under its key |
| Merge.Parse | assnotations.py:50-161 | the loop's video id and held texts are those of the merge, its state is well formed, and the annotations come out stably sorted by start |
| Compose.ComposeBackground | assnotations.py:188-215 | the background event, the clip rectangle, and the record as the loop updates it: default transparency, and a highlight's fallback text colour |
| Compose.ComposeForeground | assnotations.py:216-239 | the caption event when there is text, then the icon event when there is a URL |
| Compose.ToAss | assnotations.py:178-242 | the events of all annotations, in order |
| Compose.LinesFor | assnotations.py:182-241 | the events of one annotation; Compose.LinesForShape states their shape |
| Compose.AllLines | assnotations.py:181-242 | the events of all annotations in order; Compose.AllLinesAppend and Compose.OneBackgroundPerEligible state its properties |
| Compose.LinesForShape | assnotations.py:181-241 | no events exactly when a time, a coordinate or the background colour is missing; otherwise the background first, the caption exactly when the text is not blank, and the icon last exactly when there is a URL |
| Compose.AllLinesAppend | assnotations.py:181-241 | the events of two lists of annotations are the events of each, concatenated |
| Compose.SkippedAnnotationVanishes | assnotations.py:182-187 | an annotation missing a time, a coordinate or the background colour contributes nothing |
| Compose.OneBackgroundPerEligible | assnotations.py:181-240 | the script has exactly one background event per usable annotation |
| Compose.HighlightClip | assnotations.py:196-219 | a highlight clips the inside of its background at half the outline, and other annotations do not; the caption is clipped to the same rectangle |
| Compose.ForegroundFallback | assnotations.py:208 | a highlight's text colour is its foreground, else its highlight font colour, else its background colour, so it is set whenever the background is |
| Compose.DefaultTransparency | assnotations.py:200-235 | a missing transparency becomes 20, so the background fill and the icon outline get alpha `33` |
| Compose.BackgroundColorSwappedOnce | assnotations.py:203-204 | black emits no colour tag; any other six-digit colour is emitted in BGR order, and swapping it back gives the colour |
| Compose.CaptionHasNoNewline | assnotations.py:227 | the caption body has no newline left: every line break became a `\N` tag |
| Compose.LeadingSpaceMarked | assnotations.py:225-227 | text that starts with whitespace is prefixed with a zero-width space, which survives stripping and replacement |
| Compose.PlainBoxExample | assnotations.py:188-214 | a black box without anchor, on a 1440 by 1080 canvas, gives one background rectangle with alpha `33` and no colour tag |

## Left out

- Command-line handling, globbing, reading files and printing (assnotations.py:9-16, 318-326): these are I/O.
- The ASS header template and its formatting (assnotations.py:18-37, 180): it is constant text with the canvas size and video id filled in.
- Navigation of the XML tree (assnotations.py:47-141). Each child is given already read into a record, with its `spaceRelative` id and `log_data`.
- `float()` and `int()` of attribute text. `Encoders.Color` takes the attribute text together with the number it parses to. `Encoders.TimestampToSeconds` takes the float parser as a parameter.
- A malformed number makes the script raise an exception. Those exceptions are not modelled.
- Floating-point arithmetic. The model computes over exact reals, so results that depend on rounding at an exact boundary may differ.
- `str()` of floats, `timedelta` time stamps (assnotations.py:198), and rendering events and drawings as text. Events carry their times in seconds and their drawings as point lists.
- `wrap` (assnotations.py:172-173), which depends on `textwrap`. The caption body is the text handed to it, and its width argument is not modelled.
- The arithmetic of the caption margins and `\pos`, the `\fs` font size, and the icon's position (assnotations.py:218, 222-223, 230, 238). A caption records only whether its size was changed.
- Drawing.ScaleDrawing: the `str((float(i) * scale) or 0)` rendering of each number is a parameter. The model states where numbers are replaced, not their digits.
- Drawing.IsDigits: `str.isdigit` also accepts non-ASCII digits; the model accepts ASCII digits only.
- Record fields the conversion never reads (border colour, alpha and width, gloss, effects, font weight, highlight width, logable, itct) are not carried.
- `to_json` (assnotations.py:315-316) serialises the parse result. JSON output is not modelled.
- The icon's drawing (assnotations.py:230-231) is not carried by the icon event: the icon path is a constant scaled by `height / 1.2 / 1440`, and `Drawing.ScaleDrawing` models that scaling on its own.
- Bubble.SpeechBubble: the unclosed `{` that an empty bubble leaves in the event text is not modelled, because event text is not rendered.
