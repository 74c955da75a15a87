# CMR filler — a verified model

The CMR filler is a small desktop tool that fills in a CMR consignment note
(the international road-freight waybill). The user types ten shipment fields
into a form: sender, receiver, carrier, places of loading and unloading,
goods, weight, pieces, date of dispatch and vehicle number. The tool then
draws those values onto an overlay page for every page of a PDF template and
merges each overlay onto its page. The output is named after the dispatch
date. The last submission is saved, and the form is pre-filled from it on
the next launch.

This Dafny project models the core of that tool, shared by `createCMR.py`
and `createCMR_old.py`, and proves what it does:

- `wrappers.dfy` — `Option` and `Result`.
- `strings.dfy` (module `Strings`) — Python's `str.split` on one separator
  character, and `str.join`. Split cuts at every occurrence, so neighbouring
  separators give empty pieces. The module proves the counting, separation
  and round-trip facts.
- `text_wrap.dfy` (module `TextWrap`) — `split_text`, the greedy word
  wrapper. `SplitText` is the source's loop with its two accumulators, proved
  to compute the specification function `Wrapped`. The lemmas state what the
  wrapper guarantees:
  - multi-word lines fit the limit;
  - for every text, runs of spaces included, words are never cut, merged,
    dropped or reordered: the words of the lines are the words of the text;
  - when the text has no empty words, rejoining the lines with spaces gives
    back the text (with one extra leading space after a first word at
    least as long as the limit);
  - where it departs from an ideal wrapper: a leading empty line, and, with
    a positive limit, never a trailing one.
- `drawing.dfy` (module `Drawing`) — the canvas as a `Canvas` class that
  records every call made on it, in order. `DrawMultilineText` is
  `draw_multiline_text`: line i is drawn at (x, y − i·line_height).
- `cmr.dfy` (module `Cmr`) — the rest of the core:
  - the field table: key, wrap width and origin of each field, the line
    height, the font and the stamp placements;
  - the overlay drawn for one record, including the failure on the first
    missing key;
  - `create_cmr_from_template`'s two page loops, with pages held in an
    array and the library's merge passed as a function parameter;
  - the output file name;
  - the record the form submits;
  - the pre-fill of the form from the saved record.

A few facts about the code that the model keeps:

- The stamp image is drawn unconditionally at both placements on every
  overlay. There is no optional stamp and no status flag.
- The record has exactly ten fields, one per entry of the form.
- The wrapped text of the empty string is empty, but its line list is `[""]`
  when the limit is below 1 (`TextWrap.WrapEmptyText`).

## Model

| member | source | states |
|---|---|---|
| Strings.Join | createCMR.py:35 | Joining puts exactly one separator between neighbouring parts: the result is as long as all parts together plus one per gap, and empty only for no parts or one empty part |
| Strings.Split | createCMR.py:18 | Splitting on a separator always yields at least one piece, even for the empty text |
| Strings.SplitCount | createCMR.py:18 | There is exactly one more piece than occurrences of the separator |
| Strings.SplitPiecesAvoidSep | createCMR.py:40 | No piece contains the separator |
| Strings.JoinSplit | createCMR_old.py:13 | Joining the pieces back with the separator gives exactly the original text |
| Strings.SplitJoin | createCMR.py:40 | Splitting text that was joined with a separator gives back the parts, when no part holds the separator (the drawing step's split undoes the wrapper's newline join) |
| Strings.SplitAfterSep | createCMR_old.py:35 | Text after the last separator becomes the last piece; the pieces before it are those of the prefix |
| Strings.SplitConcat | createCMR_old.py:13 | Splitting a text around one separator gives the pieces of the part before it followed by the pieces of the part after it |
| Strings.JoinWords | createCMR.py:35 | The words of joined parts (the non-empty pieces between separators) are the words of each part in turn, so joining never cuts or merges a word |
| TextWrap.StepFlushes | createCMR.py:23-30 | One iteration flushes the pending line, and only it, exactly when the word plus one joining space would pass the limit, even when the pending line is empty; a pending line extended by a space and the word fits the limit |
| TextWrap.FillLineCount | createCMR.py:22-33 | Each word flushes at most one line, so there are never more finished lines than words and at most one more returned line |
| TextWrap.Wrapped | createCMR.py:32-35 | The returned text is empty exactly when there is no line or only one empty line |
| TextWrap.SplitText | createCMR.py:16-35 | The loop returns `Wrapped(text, maxLength)`. It splits at single spaces and flushes the pending line whenever `len + len(word) + 1` exceeds the limit, even when the pending line is empty. It keeps the pending line only if non-empty and joins the lines with newlines |
| TextWrap.WrapEmptyText | createCMR.py:32-35 | The empty text wraps to the empty text for every limit; the line list is `[""]` when the limit is below 1 and empty otherwise |
| TextWrap.FillWellFormed | createCMR.py:22-30 | Every finished or pending line of the loop is empty, exactly one input word, or a line that contains a space and fits the limit |
| TextWrap.MultiWordLinesFit | createCMR.py:23-30 | A returned line containing a space fits the limit; a line without a space is empty or exactly one input word, so only a single overlong word exceeds the limit |
| TextWrap.FillExtendsLines | createCMR.py:22-25 | The loop only ever appends to the finished lines: the lines after a prefix of the words are a prefix of the final lines |
| TextWrap.RejoinRestoresText | createCMR_old.py:11-30 | With no empty words, the lines rejoined with single spaces give back the text exactly, except for one extra leading space when the first word is at least as long as the limit |
| TextWrap.RoundTrip | createCMR.py:16-35 | With no empty words and every word shorter than the limit, the lines rejoined with spaces are exactly the text and every line fits the limit |
| TextWrap.StepKeepsWords | createCMR.py:23-30 | Every branch of one iteration keeps the words held in the finished and pending lines and adds the new word's words after them |
| TextWrap.FillKeepsWords | createCMR.py:22-30 | After the loop, the finished and pending lines hold exactly the non-empty words, in order, whatever the empty words and the limit |
| TextWrap.KeepsWords | createCMR.py:16-35 | For every text and limit, runs of spaces included, the words of the returned lines, line by line, are the words of the text, and so are the words of the lines rejoined with spaces: no word is cut, merged, dropped or reordered |
| TextWrap.ShortWordsFit | createCMR_old.py:17-25 | Words all shorter than the limit give lines that all fit it |
| TextWrap.LeadingEmptyLine | createCMR.py:23-25 | A first word at least as long as the limit flushes the still-empty pending line, so the first line is empty; with a positive limit the word follows on a second line and the result starts with a newline |
| TextWrap.NoTrailingEmptyLine | createCMR.py:32-33 | With a positive limit the last returned line is never empty, so the result never ends with a newline |
| TextWrap.FillAvoids | createCMR_old.py:17-25 | A character other than the space that occurs in no word occurs in no line, in particular a newline |
| TextWrap.WrappedLines | createCMR.py:35-40 | For text without newlines, cutting the wrapped result at newlines, as the drawing step does, gives back exactly the wrapped lines, or one empty line when there are none |
| Drawing.Canvas.constructor | createCMR.py:52 | A fresh canvas holds no calls |
| Drawing.Canvas.SetFontTo | createCMR.py:54 | Setting the font appends exactly that call and changes nothing else |
| Drawing.Canvas.DrawString | createCMR.py:42 | Drawing a string appends exactly one text call at the given point |
| Drawing.Canvas.DrawImage | createCMR.py:70-71 | Drawing an image appends exactly one image call with its placement |
| Drawing.Place | createCMR_old.py:36-37 | A block of lines is drawn with exactly one call per line |
| Drawing.PlaceAt | createCMR.py:41-42 | Line i of a block is drawn at (x, y − i·line_height) |
| Drawing.MultilineDrawsAt | createCMR_old.py:33-37 | `draw_multiline_text` makes one call per newline-separated piece (at least one, even for the empty text); piece i at (x, y − i·line_height) |
| Drawing.DrawMultilineText | createCMR.py:38-42 | The indexed loop appends exactly the calls `MultilineDraws` describes, in order, after whatever the canvas held |
| Cmr.Position | createCMR.py:57-66 | Each of the ten fields is drawn exactly once, at one position of the drawing order |
| Cmr.KeysDistinct | createCMR.py:104-115 | The ten fields are stored under ten distinct keys |
| Cmr.PlacementOf | createCMR_old.py:52-61 | The wrap width is 20 for the carrier, 40 for the goods and 30 for every other field |
| Cmr.FieldDraws | createCMR.py:57 | A field's value is drawn with at least one call; every call draws text at the field's x, call i at i line heights below the field's y |
| Cmr.FirstMissing | createCMR.py:57-66 | The first field in drawing order whose key the record lacks: none exactly when the record is complete; otherwise its key is absent and every earlier field's key is present |
| Cmr.FirstMissingIs | createCMR_old.py:52-61 | A field is the first missing one if and only if its key is absent and the keys of all fields drawn before it are present |
| Cmr.OverlayOps | createCMR.py:54-71 | The overlay of a record succeeds if and only if every key is present; a failure names a missing key, and every key drawn before it is present |
| Cmr.WrappedBlock | createCMR.py:57 | A value without newlines, wrapped at a width and drawn from (x, y), gives one text call per wrapped line (a single empty call when there are none), line i at (x, y − 15·i) |
| Cmr.FieldLineAt | createCMR.py:57-66 | For a value without newlines, call i of a field's block draws line i of its wrapped value, at the field's x and i line heights below its y |
| Cmr.OverlayPage | createCMR.py:54-71 | A complete record's overlay sets the Helvetica 12 font once, first, and draws `stamp.png` at (430, 650) and (240, 75), 120 by 48, last; every call in between draws text |
| Cmr.OverlayFieldAt | createCMR.py:54-71 | The overlay page opens with the Helvetica 12 font and ends with the two stamps. Call i of the k-th field's block comes right after the font and the blocks of the fields before it |
| Cmr.DrawField | createCMR.py:57 | One field's draw succeeds exactly when the record holds its key. It then appends the field's block; otherwise the canvas is unchanged |
| Cmr.DrawNext | createCMR_old.py:52-61 | Drawing the k-th field after the blocks of the fields before it either extends the canvas with that field's block, or finds its key missing. It is then the first missing field, and the canvas holds exactly the blocks of the fields before it |
| Cmr.DrawFields | createCMR.py:57-66 | The ten field draws report exactly the first missing field. With none missing, they append every field's block in table order; with one missing, exactly the blocks of the fields before it |
| Cmr.RenderOverlay | createCMR.py:51-78 | One pass of the first page loop: a fresh canvas gets the font, the ten field blocks and the two stamps. The result equals the overlay specification `OverlayOps`, so the first missing key is an error |
| Cmr.MergedPages | createCMR.py:80-83 | Merging gives exactly one page per template page |
| Cmr.MergedPagesAt | createCMR.py:80-83 | Page i of the result is template page i with overlay i merged on top |
| Cmr.MergedPagesEach | createCMR_old.py:75-78 | Pages that are each their template page merged with the matching overlay are exactly the merged pages |
| Cmr.MergeOverlays | createCMR.py:80-83 | The second loop merges overlay i onto page i in place, so the array becomes the merged pages of its old contents |
| Cmr.CreateCmrFromTemplate | createCMR.py:45-85 | Fails exactly when the template has pages and the record lacks a key. A failure reports the overlay's error and leaves every page untouched. On success there is one overlay per page, all equal to the record's overlay, and page i is template page i merged with overlay i |
| Cmr.OutputFileName | createCMR.py:122-123 | The dispatch date can be read back from the output name |
| Cmr.FileNameRoundTrip | createCMR.py:122-123 | The output name is `cmr_filled_` + date + `.pdf` and nothing else: the date is recovered from the name, and only a generated name gives that date back |
| Cmr.FormRecord | createCMR.py:104-115 | The submitted record holds all ten keys, each mapped to its entry's text, and no other key |
| Cmr.Default | createCMR.py:135-144 | Every entry's placeholder is non-empty |
| Cmr.Prefill | createCMR.py:135-144 | An entry shows the saved value when its key was saved and its placeholder otherwise, so it starts blank only when a blank value was saved |
| Cmr.SaveThenPrefill | createCMR.py:135-144 | Pre-filling from a saved submission restores every entry exactly; with nothing saved every entry shows its placeholder |
| Cmr.GenerateCmr | createCMR.py:102-126 | Generation keeps the submitted record as the saved state and names the output after the dispatch date. The record is always complete, so the overlay succeeds and every page becomes its old self merged with that one overlay |

## Left out

- The Tkinter window is not modelled: labels, entries, button, status label, `root.after` and the main loop. Entry texts are the function parameter `entry`.
- `save_data` and `load_data` are not modelled; they do JSON file I/O. The saved state is the record `GenerateCmr` returns, and the loaded state is the `saved` parameter of `Prefill`. The model therefore cannot tell a missing file, which loads as `{}`, from one with missing keys.
- JSON values that are not strings are not modelled: a record maps strings to strings.
- PDF reading and writing is not modelled: opening the template, `PdfWriter`, the trailer, `showPage`/`save` into a byte buffer and re-reading the overlay page. Template pages are an array of an uninterpreted type `P`, and the library's page merge is a function parameter of which nothing is assumed. An overlay is the list of calls made on its canvas.
- Rendering is not modelled: the A4 page size, font metrics, the image's pixels and `mask='auto'`. Widths are counts of characters, as in the source.
- Exceptions other than the missing key are not modelled: a missing template, a missing `stamp.png` and I/O errors.
- `Cmr.DrawFields`: the ten `draw_multiline_text` statements are modelled as one loop over the field table. It makes the same calls in the same order.
- `Cmr.OverlayFieldAt`: places call i of a field's block on the overlay page. `Cmr.FieldLineAt` states that, for a value without newlines, this call is line i of the wrapped value. No single lemma states both.
- `Cmr.FieldLineAt`: says nothing about a value that holds newlines. `split_text` cuts only at spaces, but `draw_multiline_text` then cuts at newlines, so a value's own newlines start extra drawn lines and call i is no longer wrapped line i. `Cmr.FieldDraws` models that case as the code does; its contract gives the column and the line spacing of every call, and no lemma relates those calls to the wrapped lines.
- `Cmr.MergedPages`: states only that each template page and its overlay are combined by `merge`, not what the merged PDF page looks like.
- `createCMR_old.py` is not modelled separately where it differs:
  - its `generate_cmr` does not save the record;
  - its entries start with widget texts, some of which differ from `populate_fields`' placeholders: "Receivers Stamp", "Date", "PO4 JS13 / TSK AC18".
  Both are form set-up, not the core.
