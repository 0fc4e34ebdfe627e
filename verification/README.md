# Meme editor — a Dafny model

This project models the logic of a browser meme editor and of the feed cards
that show the saved memes. It proves properties of that model.

The editor has one background image and an ordered list of text boxes. Each
box has an id, text, a centre, a font size and a colour. The user can add,
select, edit, delete and drag boxes. Two style controls, font size and colour,
follow the selected box and are written back into it. The finished picture is
exported at the image's native resolution.

There are two versions of the editor:

- `components/MemeCanvas.tsx`, the React editor (module `MemeCanvas`, with
  module `Renderer` for the preview and export geometry);
- `script.js`, the earlier vanilla-JavaScript `MemeGenerator` (module
  `MemeGenerator`).

Module `EditorComparison` states where the two editors agree and where they
part ways.

Around the editor, the model covers:

- the relative-time label of a feed entry (`lib/utils.ts`, module
  `RelativeTime`);
- the author line, avatar letter and "new" badge of a card
  (`components/MemeCard.tsx`, module `MemeCard`);
- the upvote toggle (`components/UpvoteButton.tsx`, module `UpvoteButton`);
- the magic-code sign-in dialog (`components/SignInDialog.tsx`, module
  `SignInDialog`).

Shared pieces:

- `Types`: the records of `types/index.ts`.
- `Geometry`: the canvas sizing, the mouse mapping and the hit test, which
  both editors write identically.
- `Boxes`: the list operations.
- `JsMath` and `JsString`: the JavaScript built-ins the code relies on.

## How the model reads the code

Every handler is a pure function from the old state to the new one. Coordinates
are reals:

- `Math.round(x)` is `floor(x + 0.5)`, so halves round up, including negative
  halves.
- Assigning a fractional size to `canvas.width` truncates.

`ctx.measureText` is an unknown function that never returns a negative number,
passed in as a parameter. Fresh ids (`Date.now().toString()`, `id()`) and clock
readings are also parameters.

React's two style effects (`components/MemeCanvas.tsx:411-421`) are modelled as
`MemeCanvas.Commit`, which runs after every handler. An effect runs when its
control or the selected id changed and the selected id is truthy. It then writes
the control into every box with that id. On top of this the model proves that
the controls always show the selected box's style (`Synced`).

A consequence of this design: selecting a box whose stored colour is empty
turns the colour control white. The colour effect then writes "#ffffff" into
the box (`SelectingFillsEmptyColour`).

The drag clamp (`components/MemeCanvas.tsx:353-363`) measures a box's height
as its font size and pads it by `max(8, round(fontSize · 0.35))`, which is 18
for a font size of 50. A box whose bold text is 120 pixels wide, in a 50-pixel
font, dragged to (5, 5) on an 800×600 canvas therefore stops at (78, 43)
(`DragToCornerExample`).

The clamp keeps the padded box on the canvas only when the padded box fits.
When it does not fit, the centre is pinned to the left or top bound and the
text runs off the other side. `DragClamp` states both cases.

A very thin image (for example 100000×1) gets a working side of 0 pixels.
Export then divides by zero and the scale is not finite. The model reports this
as `Export.Unbounded` (React) and `Download.Unbounded` (legacy).

`formatRelativeTime` has a "Today" branch that can never be taken. Beyond a
day of distance, the rounded day count is never 0. Because halves round up, the
day buckets are lopsided:

- 129600 s in the past is "Yesterday";
- 129600 s in the future is "in 2 days".

## Model

| member | source | states |
|---|---|---|
| JsMath.Round | lib/utils.ts:27 | `Math.round` lands within half a unit of its argument, with halves going up |
| JsMath.Clamp | components/MemeCanvas.tsx:362-363 | `Math.max(lo, Math.min(v, hi))` is never below `lo`; it is at most `hi` when `lo <= hi`; it keeps an in-range value; it is `lo` when the bounds cross |
| JsMath.Truncate | components/MemeCanvas.tsx:143-144 | assigning a non-negative size to a canvas side keeps its whole part |
| JsString.Trim | components/SignInDialog.tsx:41 | `trim()` removes only leading and trailing whitespace; the result's ends are not whitespace; it is empty exactly for an all-whitespace string |
| JsString.TrimTrimmed | components/SignInDialog.tsx:41 | trimming a string whose ends are not whitespace leaves it unchanged |
| JsString.ToLowerTwice | components/SignInDialog.tsx:41 | lower-casing is idempotent and does not change which characters are whitespace |
| JsString.BeforeFirst | components/MemeCard.tsx:28-30 | `split("@")[0]` is the prefix before the first "@"; it contains no "@"; it is the whole string when there is no "@" |
| Boxes.FirstIndexOf | components/MemeCanvas.tsx:243 | the position `find` stops at is the first box with the id, and there is none exactly when no box has the id |
| Boxes.FindById | components/MemeCanvas.tsx:243 | `find` returns a box with the id from the list, or nothing when no box has it; with unique ids that box is the only match |
| Boxes.RemoveId | components/MemeCanvas.tsx:232 | `filter` removes every box with the id and keeps every other box in its order and as many times as it occurs (the result is a subsequence with the same count of each kept box); it changes nothing for an absent id and keeps ids unique |
| Boxes.ApplyEdit | components/MemeCanvas.tsx:250-271 | a spread update changes the one edited field and keeps every other field, including the id |
| Boxes.UpdateAll | components/MemeCanvas.tsx:250-271 | the `map` edits every box with the id in place, leaves the others alone, keeps the length and the ids, and is a no-op for an absent id |
| Boxes.UpdateFirst | script.js:193-215 | find-then-mutate edits only the first box with the id and is a no-op for an absent id |
| Boxes.UpdateFirstMatchesUpdateAll | script.js:193-215 | with unique ids, editing the first match equals editing every match |
| Boxes.FirstIndexAfterUpdate | components/MemeCanvas.tsx:243 | an edit does not move any id, so the first position of every id is unchanged |
| Boxes.FindAfterUpdate | components/MemeCanvas.tsx:241-248 | after an edit to one id, looking up another id finds the same box, and looking up the edited id finds the edited box |
| Geometry.FitScale | components/MemeCanvas.tsx:137-141 | `min(800/w, 600/h)` for an oversized image is strictly between 0 and 1; it fits both sides within 800×600 and makes one side exactly reach its bound |
| Geometry.WorkingSize | components/MemeCanvas.tsx:127-145 | the working canvas is the image's size when it fits 800×600; it never exceeds 800×600, never enlarges the image, and when scaled one side reaches its bound |
| Geometry.ToCanvas | components/MemeCanvas.tsx:305-312 | the canvas point is the offset within the element times canvas size over displayed size, on each axis |
| Geometry.ToCanvasCoversCanvas | components/MemeCanvas.tsx:305-312 | a mouse position over the displayed element lands on the canvas, and the far corner maps to the canvas corner |
| Geometry.TopmostBelow | components/MemeCanvas.tsx:280-296 | the reverse scan finds the highest position whose closed rectangle covers the point, and finds none exactly when no box covers it |
| Geometry.Topmost | components/MemeCanvas.tsx:280-296 | the same scan over the whole list: the last-added covering box, or none |
| Geometry.BoxAtPoint | components/MemeCanvas.tsx:273-297 | `getTextBoxAtPoint` returns a box exactly when some box covers the point, and the box it returns covers the point; "covers" (`Covers`, with the regular-weight width `HitWidth`) is the closed rectangle of lines 282-292 |
| Geometry.LaterBoxWins | components/MemeCanvas.tsx:280-296 | of two overlapping boxes under the point, the later one (or one later still) is found |
| MemeCanvas.ImageLoaded | components/MemeCanvas.tsx:187-191 | a loaded image sets the image and the working size and changes no other field: boxes, selection, controls, drag state and cursor are kept |
| MemeCanvas.Hydrate | components/MemeCanvas.tsx:169-172 | seeding from a stored meme replaces the boxes and clears the selection when the stored list is non-empty, changing no other field, and otherwise changes nothing |
| MemeCanvas.AddTextBox | components/MemeCanvas.tsx:208-228 | with no image nothing changes; otherwise exactly one box is appended at the canvas centre with the current size and colour, the default text and the 200×40 nominal size, and it becomes the selection |
| MemeCanvas.AddTextBoxAlert | components/MemeCanvas.tsx:210-213 | the "upload an image first" alert is raised exactly when there is no image |
| MemeCanvas.DeleteTextBox | components/MemeCanvas.tsx:231-239 | the boxes are filtered by id; deleting the selected id clears the selection and resets the controls to 40 and white; otherwise selection and controls are kept; no other field changes |
| MemeCanvas.SelectTextBox | components/MemeCanvas.tsx:241-248 | the selection is set even for an unknown id; the controls load the first match's size and colour (white for an empty colour), or stay as they were; no other field changes |
| MemeCanvas.EditText | components/MemeCanvas.tsx:250-254 | a text edit only rewrites the text of the boxes with that id |
| MemeCanvas.FontSizeInput | components/MemeCanvas.tsx:628 | the range input changes only the size control and no other field; no box is touched by the handler itself |
| MemeCanvas.ColorInput | components/MemeCanvas.tsx:639 | the colour input changes only the colour control and no other field; no box is touched by the handler itself |
| MemeCanvas.PressAt | components/MemeCanvas.tsx:313-327 | a press on a box starts a drag, selects it, stores the mouse's offset from its centre, shows "grabbing" and loads its style, changing no other field; a press elsewhere changes nothing |
| MemeCanvas.MouseDown | components/MemeCanvas.tsx:299-327 | with an image, a press maps the client point onto the canvas and acts as `PressAt` there: the drag starts exactly when a box is under the mouse (or one was already on), and the boxes, image and canvas never change; without an image nothing changes (see also `PressStartsDrag`) |
| MemeCanvas.DragPadding | components/MemeCanvas.tsx:356 | the drag margin is at least 8 and at least the rounded 35% of the font size, and is one of the two |
| MemeCanvas.DragClamp | components/MemeCanvas.tsx:353-363 | measuring the bold text (`BoldWidth`), the padded text's left and top edges stay on the canvas; its right and bottom edges do too when it fits, otherwise the centre is pinned to the minimum; a target already inside is kept |
| MemeCanvas.MoveTo | components/MemeCanvas.tsx:344-378 | during a drag every box with the selected id moves to the clamped target; outside a drag only the cursor changes, to "grab" over a box and "default" elsewhere |
| MemeCanvas.MouseMove | components/MemeCanvas.tsx:329-379 | with an image, a move maps the client point onto the canvas and acts as `MoveTo` there; it never changes the selection, the drag flag, the controls or the number of boxes; without an image nothing changes (see also `DragKeepsBoxOnCanvas` and `HoverSetsCursor`) |
| MemeCanvas.MouseUp | components/MemeCanvas.tsx:381-389 | a release always ends the drag; during a drag the cursor returns to "move"; otherwise nothing changes |
| MemeCanvas.Commit | components/MemeCanvas.tsx:411-421 | the effects keep every field of the editor except the boxes, and keep the number of boxes |
| MemeCanvas.CommitFrame | components/MemeCanvas.tsx:411-421 | the effects change only the font size and colour of boxes with the truthy selected id |
| MemeCanvas.CommitStyle | components/MemeCanvas.tsx:411-421 | an effect runs (`FontEffectRuns`, `ColorEffectRuns`) when the selected id is truthy and its control or the selection changed; an effect that runs leaves its control's value in every selected box; one that does not run leaves that field of every box alone |
| MemeCanvas.InitialIsSynced | components/MemeCanvas.tsx:38-46 | the mounted editor has synced controls, unique ids and no drag |
| MemeCanvas.HandleStyles | components/MemeCanvas.tsx:241-389 | handlers other than add, delete and hydrate keep every box's id, font size and colour |
| MemeCanvas.HandleKeepsStyle | components/MemeCanvas.tsx:208-389 | after any handler, the boxes with the selected id show the controls' style except where the following effect is due to run |
| MemeCanvas.DispatchKeepsSynced | components/MemeCanvas.tsx:411-421 | after every event (`Handle`) and its effects (`Dispatch` = `Commit` after `Handle`), the controls still show the selected boxes' font size and colour |
| MemeCanvas.DispatchKeepsIdsUnique | components/MemeCanvas.tsx:215-228 | ids stay unique under every event, given a fresh id for each new box and a duplicate-free stored list |
| MemeCanvas.CommitFindOther | components/MemeCanvas.tsx:411-421 | the two effects never change what a lookup by an unselected id returns |
| MemeCanvas.SecondSelectionWins | components/MemeCanvas.tsx:241-248 | selecting two boxes in turn leaves the second selected, with the controls showing its style |
| MemeCanvas.DeleteSelectedResetsControls | components/MemeCanvas.tsx:234-238 | deleting the selected box clears the selection, resets the controls and keeps the other boxes in their order |
| MemeCanvas.FontSizeControlWritesSelection | components/MemeCanvas.tsx:411-415 | moving the size control writes the new size into every box with the truthy selected id and nowhere else |
| MemeCanvas.ColorControlWritesSelection | components/MemeCanvas.tsx:417-421 | picking a colour writes it into every box with the truthy selected id and nowhere else |
| MemeCanvas.SelectingFillsEmptyColour | components/MemeCanvas.tsx:241-248 | selecting a box whose colour is empty stores "#ffffff" in it |
| MemeCanvas.AddWithoutImageIsRefused | components/MemeCanvas.tsx:208-213 | adding a box without an image changes nothing and raises the alert |
| MemeCanvas.DragKeepsBoxOnCanvas | components/MemeCanvas.tsx:344-373 | a drag step moves only the dragged box and keeps its text and style; when its padded text fits, it ends up wholly on the canvas |
| MemeCanvas.DragToCornerExample | components/MemeCanvas.tsx:353-363 | a 50-pixel box measuring 120 pixels, dragged to (5, 5) on 800×600, stops at (78, 43) |
| MemeCanvas.HoverSetsCursor | components/MemeCanvas.tsx:375-378 | outside a drag a move only sets the cursor, "grab" over a box and "default" elsewhere |
| MemeCanvas.PressStartsDrag | components/MemeCanvas.tsx:313-327 | a press on a box starts a drag of the topmost box under the mouse, selects it and records the offset from its centre |
| Renderer.DrawBox | components/MemeCanvas.tsx:71-122 | one box is drawn at its scaled centre in its scaled bold size, on a backdrop centred on the text and padded by the backdrop padding, with the stroke and blur of its font size and a non-empty fill; it is outlined only when asked, 5 pixels outside the text on every side |
| Renderer.BackdropPadding | components/MemeCanvas.tsx:80 | the padding is 6 or the rounded 0.3 of the font size, whichever is larger |
| Renderer.StrokeWidth | components/MemeCanvas.tsx:90 | the stroke is 2 or the rounded sixth of the font size, whichever is larger |
| Renderer.ShadowBlur | components/MemeCanvas.tsx:92 | the shadow blur is 2 or the rounded twelfth of the font size, whichever is larger |
| Renderer.ScaleX | components/MemeCanvas.tsx:443 | the horizontal export factor is non-negative and carries the canvas width onto the image width |
| Renderer.ScaleY | components/MemeCanvas.tsx:444 | the vertical export factor is non-negative and carries the canvas height onto the image height |
| Renderer.Preview | components/MemeCanvas.tsx:57-125 | nothing is drawn without an image; otherwise every box at scale 1 in list order, outlined exactly when selected |
| Renderer.ExportMeme | components/MemeCanvas.tsx:500-564 | export is refused exactly without an image or without boxes; it is not finite exactly for a zero working side; otherwise it has the image's size, one glyph per box and no outline |
| Renderer.DrawBoxScales | components/MemeCanvas.tsx:446-481 | drawing one box with scale factors gives the unscaled drawing with centre and font size multiplied by them, same text and fill, and no outline |
| Renderer.ExportScalesPreview | components/MemeCanvas.tsx:446-485 | the export is the preview with centres and font sizes multiplied by the scale factors, the same text and fill, and no outline |
| Renderer.UnscaledExportIsPreview | components/MemeCanvas.tsx:443-444 | an image that needed no downscaling exports exactly as previewed, minus the outline |
| Renderer.HelloExample | components/MemeCanvas.tsx:128-228 | a 1600×1200 image gets an 800×600 canvas; a new box sits at (400, 300); typing "Hello" and moving the size control to 50 leaves one box "Hello" at (400, 300) in size 50, selected |
| Renderer.HelloExport | components/MemeCanvas.tsx:443-485 | that edited example exports 1600×1200 with "Hello" centred at (800, 600) in a 100-pixel font |
| MemeGenerator.Start | script.js:3-14 | the generator starts with no image, no boxes, no selection, no drag and a zero drag offset, on the page's canvas with the page's slider and picker values and the "move" cursor |
| MemeGenerator.LoadImage | script.js:111-130 | a loaded image sets the image and the same working size as the React editor, and changes nothing else |
| MemeGenerator.AddTextBox | script.js:132-151 | with no image nothing changes; otherwise one box is pushed at the centre with the slider's size and picker's colour and selected |
| MemeGenerator.DeleteTextBox | script.js:165-176 | the id is filtered out; deleting the selection clears it and resets slider and picker to 40 and white; otherwise both are kept; no other field changes |
| MemeGenerator.SelectTextBox | script.js:178-191 | the selection is set; slider and picker load the first match's style (white for an empty colour), or stay as they were; no other field changes |
| MemeGenerator.SliderInput | script.js:45-53 | the slider writes its value into the first box with the selected id when there is a selection, and into no box otherwise; only the slider and the boxes change |
| MemeGenerator.PickerInput | script.js:55-61 | the picker writes its colour into the first box with the selected id when there is a selection, and into no box otherwise; only the picker and the boxes change |
| MemeGenerator.EditText | script.js:209-215 | a text edit rewrites only the first box with the id |
| MemeGenerator.MouseDown | script.js:304-334 | a press on a box starts a drag, selects it, stores the offset and loads the hit box's own style, changing no other field; otherwise nothing changes |
| MemeGenerator.ClampCentre | script.js:357-359 | the legacy clamp keeps only the centre within the canvas and keeps a centre already on it |
| MemeGenerator.MouseMove | script.js:336-368 | during a drag the first box with the selected id moves to the centre-clamped target; otherwise only the cursor changes |
| MemeGenerator.MouseUp | script.js:370-375 | a release always ends the drag, resetting the cursor only if a drag was on |
| MemeGenerator.DrawScaled | script.js:412-445 | one box is drawn at its scaled centre and size, with a stroke of 6 times the scale and a non-empty fill |
| MemeGenerator.Render | script.js:397-410 | nothing is drawn without an image; otherwise every box at scale 1, outlined exactly when selected |
| MemeGenerator.DownloadMeme | script.js:447-498 | the download is refused exactly without an image or without boxes; it is not finite for a zero working side; otherwise it is the image's size with every box scaled |
| MemeGenerator.DownloadScalesRender | script.js:466-486 | the download is the on-screen picture with centre, font size and stroke scaled, and no outline |
| MemeGenerator.DispatchKeepsIdsUnique | script.js:132-215 | ids stay unique under every legacy event (`Dispatch`), given fresh ids for new boxes |
| EditorComparison.ClampsDisagreeNearLeftEdge | script.js:357-359 | near the left edge the legacy clamp lets the padded text run off the canvas, while the React clamp keeps it on |
| EditorComparison.ClampsAgreeAwayFromEdges | components/MemeCanvas.tsx:357-363 | away from the edges both clamps leave the target where it is |
| EditorComparison.ExportsAgree | script.js:447-486 | both exports refuse, fail and succeed in the same cases and place every box's text at the same centre, size and fill; the legacy stroke is 6 times the scale while the React stroke follows the font size, and the React backdrop and shadow have no legacy counterpart |
| EditorComparison.EditTextRunsNoEffect | components/MemeCanvas.tsx:411-421 | a text edit triggers neither style effect |
| EditorComparison.TextEditsAgree | script.js:209-215 | with unique ids both editors edit text identically |
| EditorComparison.DuplicateIdsDiverge | script.js:209-215 | with a duplicated id the legacy editor edits one box and the React editor both |
| RelativeTime.Per | lib/utils.ts:40 | `Math.round(s / unit)` is the nearest whole number of units, halves rounding up |
| RelativeTime.Seconds | lib/utils.ts:26-27 | the rounded second count is the whole number of seconds nearest to the millisecond distance, halves rounding up |
| RelativeTime.Classify | lib/utils.ts:26-64 | a non-zero timestamp is never "unknown" nor "Today"; "Just now" holds exactly within 45 s; every relative value is non-zero with the sign of the distance |
| RelativeTime.FormatRelativeTime | lib/utils.ts:20-65 | the label is "unknown" exactly for a zero timestamp, is never "Today", is "Just now" within 45 s, and is the absolute date from 30 days on |
| RelativeTime.MinuteRange | lib/utils.ts:39-41 | minutes are used exactly from 45 s to under an hour, with 1 to 60 of them |
| RelativeTime.HourRange | lib/utils.ts:43-45 | hours are used exactly from an hour to under a day, with 1 to 24 of them |
| RelativeTime.NeighbourDays | lib/utils.ts:47-50 | "Yesterday" is exactly 86400 to 129600 s past (both included); "Tomorrow" exactly 86400 s to under 129600 s ahead |
| RelativeTime.DayRange | lib/utils.ts:47-53 | days are used exactly from 129600 s to under 561600 s ahead and from over 129600 s to 561600 s back, with 2 to 6 of them |
| RelativeTime.WeekRange | lib/utils.ts:55-64 | weeks fill the rest of the first 30 days, with 1 to 4 of them; from 30 days on the absolute date is shown |
| RelativeTime.JustNowWindow | lib/utils.ts:26-35 | in milliseconds, "Just now" covers from 44.5 s past to under 44.5 s ahead |
| RelativeTime.OneDayEitherWay | lib/utils.ts:47-50 | exactly a day past is "Yesterday" and exactly a day ahead is "Tomorrow" |
| MemeCard.IsOwner | components/MemeCard.tsx:19-22 | the card is the user's exactly when the author is set and equals the user's id or e-mail; a signed-out viewer owns nothing |
| MemeCard.UuidByPosition | components/MemeCard.tsx:23-27 | the UUID test `IsUuid`, the 8-4-4-4-12 hex pattern, holds exactly for 36 characters with hyphens at 8, 13, 18 and 23 and hex digits elsewhere |
| MemeCard.HexSlice | components/MemeCard.tsx:24 | a hex group of the pattern accepts a slice exactly when every character in it is a hex digit |
| MemeCard.UuidShapeMatches | components/MemeCard.tsx:24 | reading the pattern group by group means 36 characters, hyphens at 8, 13, 18 and 23, and hex runs between them |
| MemeCard.Handle | components/MemeCard.tsx:28-30 | a handle exists exactly when the author contains "@"; it is the author's text up to the first "@" |
| MemeCard.RawName | components/MemeCard.tsx:31-41 | the label is never empty; the owner's is "You (@handle)" for a non-empty handle and exactly "You" otherwise; an e-mail author shows "@" and the local part only, never the domain; a UUID shows "Member"; other authors show as is; no author shows "Anonymous" |
| MemeCard.DisplayName | components/MemeCard.tsx:42-43 | the shown name is at most 21 characters: the label itself up to 18, else its first 18 and "..." |
| MemeCard.CharAt0 | components/MemeCard.tsx:45-46 | `charAt(0)` is the first character of a non-empty string, or "" for ""; a character here is a code point, not a UTF-16 unit |
| MemeCard.AvatarInitial | components/MemeCard.tsx:44-48 | the avatar is one character: the upper-cased first letter of a non-empty handle, else of the shown name's first non-blank character, else "A" |
| MemeCard.IsNew | components/MemeCard.tsx:50-51 | the badge shows for memes created in the last 15 minutes and not in the future |
| MemeCard.NewMemeLabel | components/MemeCard.tsx:49-51 | a card with the "new" badge reads "Just now" or 1 to 15 minutes ago |
| MemeCard.EmailAuthor | components/MemeCard.tsx:28-48 | an e-mail author is shown by its local part, as "You (@local)" to the owner and "@local" to others, with the local part's first letter as avatar |
| MemeCard.OwnerById | components/MemeCard.tsx:19-48 | the user's own meme recorded under the user's id reads exactly "You" with the letter "Y" |
| MemeCard.AnonymousAuthor | components/MemeCard.tsx:31-48 | a meme without an author reads "Anonymous" with the letter "A" |
| UpvoteButton.Identifiers | components/UpvoteButton.tsx:21-23 | the identifiers are exactly the user's non-empty id and e-mail, the id first |
| UpvoteButton.Acting | components/UpvoteButton.tsx:21-24 | the acting identifier is the first identifier: the id when the user has one, else the e-mail, and none exactly when the user has neither |
| UpvoteButton.ExistingVote | components/UpvoteButton.tsx:25-28 | the existing vote is the first one cast under an identifier, and there is none exactly when no vote is |
| UpvoteButton.HasVotedIff | components/UpvoteButton.tsx:25-29 | `HasVoted`: the user has voted exactly when some vote is recorded under their non-empty id or e-mail |
| UpvoteButton.Title | components/UpvoteButton.tsx:30-34 | the title asks to sign in without an identifier, else offers to remove or cast the vote |
| UpvoteButton.Disabled | components/UpvoteButton.tsx:73 | the button is disabled exactly signed out or while a vote is in flight |
| UpvoteButton.Click | components/UpvoteButton.tsx:36-60 | a disabled click sends nothing; a voter's click deletes their vote with the count lowered by one, or set to 0 when it was below 1; anyone else's click casts one vote under the acting identifier with the count raised by one |
| UpvoteButton.Apply | components/UpvoteButton.tsx:42-59 | a committed transaction deletes the voter's vote or appends the new one and writes the count it carries; a disabled click commits nothing (see `ClickTwiceRestores` for the round trip) |
| UpvoteButton.SettledVoting | components/UpvoteButton.tsx:61-65 | a sent click clears the in-flight flag whether it succeeded or failed |
| UpvoteButton.DeleteVote | components/UpvoteButton.tsx:43 | deleting a vote id removes exactly the votes with that id and keeps every other vote in its order and as many times as it occurs; it is a no-op when no vote has the id |
| UpvoteButton.CountStaysNonNegative | components/UpvoteButton.tsx:41-59 | from a non-negative count no click makes the count negative |
| UpvoteButton.ExistingVoteAppended | components/UpvoteButton.tsx:25-28 | the vote cast by a user who had not voted is the one found afterwards |
| UpvoteButton.DeleteAppended | components/UpvoteButton.tsx:43 | deleting a just-cast vote with a fresh id restores the old votes |
| UpvoteButton.ClickTwiceRestores | components/UpvoteButton.tsx:36-66 | a vote followed by an unvote returns the store to its original votes and count |
| SignInDialog.IsValidEmail | components/SignInDialog.tsx:15 | an accepted address contains "@" and has at least five characters |
| SignInDialog.ValidEmailIffPattern | components/SignInDialog.tsx:15 | the direct test `IsValidEmail` and the pattern `MatchesEmailPattern` agree: the direct test (no whitespace, one "@" after a non-empty local part, a "." strictly inside the domain) accepts exactly what the pattern matches |
| SignInDialog.ValidEmailMatches | components/SignInDialog.tsx:15 | every address the direct test accepts matches the pattern |
| SignInDialog.MatchIsValidEmail | components/SignInDialog.tsx:15 | every address the pattern matches passes the direct test |
| SignInDialog.PlainSplit | components/SignInDialog.tsx:15 | a matched address has no whitespace and its only "@" is the separator |
| SignInDialog.NormaliseIdempotent | components/SignInDialog.tsx:41 | normalising an address twice is normalising it once |
| SignInDialog.Normalise | components/SignInDialog.tsx:41 | the trimmed, lower-cased address is no longer than the input, has no whitespace at either end and no upper-case ASCII letter |
| SignInDialog.Open | components/SignInDialog.tsx:31-38 | opening returns to an empty e-mail step, leaving the busy flags alone |
| SignInDialog.SendCode | components/SignInDialog.tsx:40-60 | an invalid address sets the error and sends nothing; a valid one is sent normalised, and on success is remembered with the code step shown, on failure the message or the default error is shown and the step kept |
| SignInDialog.Sending | components/SignInDialog.tsx:47-59 | the settled send always clears the sending flag and changes only the step, the remembered address and the error; success remembers the sent address, shows the code step and clears the error; failure keeps step and remembered address and shows a non-empty error |
| SignInDialog.VerifyCode | components/SignInDialog.tsx:62-86 | a blank code sets the error and calls nothing; otherwise the trimmed code is checked against the remembered or normalised address, only the error and the (cleared) verifying flag change, and success signs in under that address and closes the dialog |
| SignInDialog.ChangeEmail | components/SignInDialog.tsx:168 | "Change email" returns to the e-mail step and changes nothing else, so the typed and remembered addresses survive |
| SignInDialog.OpenIsConsistent | components/SignInDialog.tsx:31-38 | the opened dialog is consistent |
| SignInDialog.SendCodeKeepsConsistent | components/SignInDialog.tsx:40-60 | sending a code remembers only an address that passed the pattern, and shows the code step only once one is remembered |
| SignInDialog.DispatchKeepsConsistent | components/SignInDialog.tsx:31-168 | every event (`Dispatch`: open, typing, send, verify and "Change email") keeps the remembered address empty or valid, and the code step only after an address is remembered |
| SignInDialog.CodeStepVerifiesSentAddress | components/SignInDialog.tsx:72-76 | in the code step the code is always checked against the valid address it was sent to |

## Left out

- Pixels: clearing and drawing the image, fill and stroke styles, shadows, dash patterns, `toBlob`/`toDataURL` and the download link. Only the geometry numbers are modelled.
- Image decoding: `FileReader` and `Image.onload` are asynchronous browser I/O. A decoded image arrives as an event carrying its natural size.
- `ensureSignedIn` before an upload, a template or a post: an auth check with a dialog side effect. An upload is modelled from the moment the image has loaded.
- The `hasInitializedRef` guard and React scheduling. Seeding is the `Hydrate` event, and the effects run synchronously in `Commit` after each handler.
- Touch start and touch move, in both editors: each builds a new DOM `MouseEvent` and dispatches it on the canvas. The model has no touch events and makes no claim about what a touch does. In script.js the mouse listeners sit on the canvas itself, so the re-dispatched event plausibly reaches them. In components/MemeCanvas.tsx the event is created without `bubbles: true`, while React listens for mouse events at its root, so the React handlers plausibly never see it. Touch end is the release handler, which the model does cover.
- A missing canvas element or 2D context (`canvasRef.current`/`getContext` returning null). This includes the drag fallback at components/MemeCanvas.tsx:365-366, which runs only without a context.
- A canvas displayed at zero size. `DisplayRect` requires a positive displayed size, because JavaScript would compute infinities there.
- `parseInt` on the range input, and the browser's own clamping and normalisation of `<input type="range">` and `<input type="color">` values.
- MemeGenerator.SliderInput: the value arrives as a number, not as the string `parseInt` reads.
- Start: the legacy canvas's initial cursor comes from the page's stylesheet, which is not part of this model; the model starts it as "move", the value the release handler restores.
- The list markup of script.js (`updateTextBoxList`, `escapeHtml`) and the focus timer in `addTextBox`.
- JsString.ToLower and JsString.ToUpper: only ASCII letters change case. JavaScript's full Unicode case mapping, including the characters that map to two characters, is not modelled.
- MemeCard.CharAt0 and MemeCard.AvatarInitial: `charAt(0)` yields the first UTF-16 code unit, so for a handle or name that starts outside the Basic Multilingual Plane (an emoji, say) JavaScript yields half a surrogate pair; the model yields the whole first code point, because strings here are sequences of code points.
- MemeCard.DisplayName: lengths count Dafny characters (code points), whereas JavaScript counts UTF-16 code units. Text outside the Basic Multilingual Plane can be cut differently.
- The English wording from `Intl.RelativeTimeFormat` and `Intl.DateTimeFormat`. `RelativeTime` returns the bucket, unit and value instead.
- RelativeTime.FormatRelativeTime: a `NaN` timestamp, which is also falsy, is not modelled; timestamps are integers.
- `Date.now()` and `id()`: fresh ids and clock readings are parameters. Uniqueness of ids is an assumption stated where it is needed.
- InstantDB calls (`db.transact`, `db.useQuery`, `db.useAuth`) and the auth calls `sendMagicCode`/`signInWithMagicCode`. Their outcome is a parameter, and the store is modelled only as far as one meme's votes and count.
- Card deletion, the confirm prompt and the card's canvas drawing, whose text branch is disabled.
- Floating point. Coordinates are exact reals, so there are no IEEE-754 claims. The non-finite export scale of a zero-sized working side is reported as a separate outcome instead of being computed.
