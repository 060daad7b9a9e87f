# Portfolio page logic, modelled in Dafny

The portfolio page's `script.js` is mostly wiring between browser events and the
document. This project lifts out the parts that compute something and gives them
plain inputs (strings, sequences, reals, booleans). It then proves what the page
promises about them:

- **Contact form** (`contact_form.dfy`, module `ContactForm`). `validateForm` checks
  three fields and returns its errors in a fixed order. The email pattern
  `/^[^S@]+@[^S@]+\.[^S@]+$/` is modelled exactly as written. The class is
  `[^S@]`, so a capital `S` is rejected (`"Sam@example.com"` fails) and spaces are
  allowed. `handleFormSubmission` shows only the first error; when there is none
  it sends the form with a `fullName` entry.
- **Bubble animation** (`bubbles.dfy`, module `Bubbles`). One frame of
  `animateBubbles`, which `animateFooterBubbles` (script.js:687-711) repeats
  line for line. Each bubble is advanced and clamped to `[0, W - w] x [0, H - h]`,
  and a clamp flips that axis's velocity. A bubble that comes too close to the
  pointer is then pushed away. The container and bubble sizes are measured again
  every frame, so they are inputs of the frame.
- **Active navigation link** (`navigation.dfy`, module `Navigation`).
  `updateActiveNavLink` picks the last section whose window
  `[top - 150, top - 150 + height)` holds `scrollY`. It then lights exactly the
  links whose href is `#` followed by that id.
- **Skills accordion** (`accordion.dfy`, module `Accordion`). `toggleSkill` closes
  every other item and then flips the clicked one.
- **Sent-email list** (`sent_emails.dfy`, module `SentEmails`). The contact form's
  `input` and `submit` listeners both trim and lower-case the address and show the
  "already sent" notice for a stored one. Only the `submit` listener changes the
  list: it ignores a blank address and pushes a new one at the end.
- **Skill bars** (`skill_bars.dfy`, module `SkillBars`). `animateSkillBars` maps a
  level's text to a bar width.
- **JavaScript text operations** (`js_text.dfy`, module `JsText`). A nullable value
  (`Option`), `trim` (over the ECMAScript WhiteSpace and LineTerminator
  characters), `toLowerCase`, `length` in UTF-16 code units, and the text `${v}`
  gives (`"null"` for null).

Some JavaScript edge cases are modelled as the code behaves:

- A form entry that is missing is `None`, and it fails its check.
  `${firstName} ${lastName}` prints a missing name as `null`.
- A section without an `id` sets `current` to null, and the link `#null` is then lit.
- If a bubble is wider than its container (`W < w`) and the advanced coordinate is
  negative, both clamps fire on that axis in one frame. The bubble then sits at
  `W - w` and its velocity is flipped twice, so it is left unchanged (`AxisStep`).
- `length` counts UTF-16 code units, so a single character outside the Basic
  Multilingual Plane is already a two-character name.
- The email listener records the address even when `validateForm` rejects the form.
  The two `submit` listeners are independent.

The frame clamps only before the push: script.js:607-608 move the bubble by twice
its new velocity with no clamp afterwards. So a pushed bubble can end a frame
outside the container; `Bubbles.PushCanLeaveContainer` gives a frame that ends with
`x = -2`. After the clamp of every frame, `x <= W - w` and `y <= H - h` always hold;
`0 <= x` holds when the bubble is no wider than the container (`w <= W`), and
`0 <= y` when it is no taller (`Bubbles.Advance`). After every whole frame the
bubble is inside `[0, W - w] x [0, H - h]` as long as the pointer is away, the
bubble fits in the container, and its radius is at most half its larger side, as
it is created (`Bubbles.AbsentPointerKeepsBubbleInside`). The push direction is taken from the
bubble's centre after the clamp (script.js:600-605), not before the advance.

## Model

| member | source | states |
|---|---|---|
| `JsText.TrimStart` | script.js:155 | removes exactly the longest all-space prefix: what is removed is all space, and what remains is a suffix that is empty or starts with a non-space |
| `JsText.TrimEnd` | script.js:155 | removes exactly the longest all-space suffix |
| `JsText.Trim` | script.js:155 | `trim` is the slice that starts after the leading spaces; everything after it is space; it neither starts nor ends with a space |
| `JsText.TrimUnchanged` | script.js:645 | a string without a leading or trailing space is its own trim |
| `JsText.TrimEmptyIffAllSpace` | script.js:166 | `trim` returns "" exactly when every character is a space |
| `JsText.ToLower` | script.js:645 | `toLowerCase` keeps the length and maps each character on its own |
| `JsText.ToLowerIdempotent` | script.js:297 | lower-casing twice equals lower-casing once |
| `JsText.JsLength` | script.js:155 | `length` counts UTF-16 code units: between the number of characters and twice it, and equal to it when no character lies above U+FFFF (the exact count per character is `JsLengthOfChar`) |
| `JsText.JsLengthConcat` | script.js:155 | the length of a concatenation is the sum of the lengths |
| `JsText.JsLengthOfChar` | script.js:155 | a character above U+FFFF has length 2, any other character length 1; with `JsLengthConcat` this fixes the length of every string |
| `ContactForm.ErrorText` | script.js:156-167 | each failed check has its own instruction text, starting "Please enter " |
| `ContactForm.ErrorTextsDiffer` | script.js:156-167 | different checks show different texts |
| `ContactForm.MatchesEmailPattern` | script.js:160 | the language of `^[^S@]+@[^S@]+\.[^S@]+$` read off the pattern: run, `@`, run, `.`, run; every match has at least 5 characters |
| `ContactForm.EmailPatternTest` | script.js:160-161 | a passing address has at least 5 characters, an `@` and no capital S |
| `ContactForm.EmailPatternTestCorrect` | script.js:160-161 | the hand-written test accepts exactly the language of `^[^S@]+@[^S@]+\.[^S@]+$`: no capital S, exactly one `@` with text before it, and a `.` with text on both sides after it |
| `ContactForm.TestMatchesPattern` | script.js:160-161 | every string the test accepts splits as run `@` run `.` run of `[^S@]` characters |
| `ContactForm.PatternPassesTest` | script.js:160-161 | every string the pattern matches passes the test |
| `ContactForm.EmailPatternRejectsCapitalS` | script.js:160 | "Sam@example.com" is rejected while "sam@example.com" is accepted |
| `ContactForm.EmailPatternAllowsSpaces` | script.js:160 | "a b@c.d" is accepted: the class does not exclude spaces |
| `ContactForm.EmailPatternRejectsMalformed` | script.js:160 | a second `@` ("a@b@c.d") or an empty part between `@` and `.` ("a@.cd") is rejected |
| `ContactForm.AstralNameIsLongEnough` | script.js:155 | a first name of one character outside the Basic Multilingual Plane has length 2 and passes |
| `ContactForm.EmojiMessageIsLongEnough` | script.js:166 | a message of five emoji has length 10 and passes |
| `ContactForm.PushedErrors` | script.js:152-170 | for the three check outcomes, the pushed list is empty iff all pass, holds each error iff its check failed, and is strictly ordered name, email, message |
| `ContactForm.ValidateForm` | script.js:151-171 | no errors iff the trimmed name is at least 2 UTF-16 code units long, the email passes the pattern and the trimmed message is at least 10 code units long; each error present iff its check fails; errors strictly in name, email, message order, hence at most 3 and none twice |
| `ContactForm.MissingFieldFails` | script.js:155-168 | a missing first name, email or message makes the list non-empty |
| `ContactForm.FullName` | script.js:214-216 | `${firstName} ${lastName}`.trim(): no longer than the two texts and a space, and neither starting nor ending with a space |
| `ContactForm.HandleSubmission` | script.js:213-224 | the form is sent iff all three checks pass, with `fullName` the trimmed "first last"; otherwise the text shown is that of the first failing check in the order name, email, message; lengths count UTF-16 code units |
| `Navigation.InWindow` | script.js:64-68 | `scrollY` lies in `[top - 150, top - 150 + height)`; only a section of positive height has a non-empty window |
| `Navigation.Current` | script.js:62-71 | `current` is the initial '' or the id of some section whose window holds `scrollY` |
| `Navigation.CurrentWhenNoneMatches` | script.js:62-71 | when no section's window holds `scrollY`, `current` stays '' |
| `Navigation.CurrentIsLastMatch` | script.js:64-71 | when section `j` matches and no later one does, `current` is section `j`'s id |
| `Navigation.ActiveHrefSameIffSameText` | script.js:75 | two values of `current` light the same link exactly when they print the same text; a missing id and the id "null" light the same link |
| `Navigation.SelectCurrent` | script.js:62-71 | the loop over the sections leaves `current` equal to the last-match selection |
| `Navigation.UpdateActiveNavLink` | script.js:61-79 | every link is active exactly when its href equals `#` followed by the selected id (or `#null`); all others are cleared |
| `Navigation.MissingIdHighlightsNull` | script.js:69-75 | a last matching section without an id makes `#null` the active href |
| `Accordion.Toggled` | script.js:519-534 | after a click the flags have the same length, every other item is closed, and the clicked one is open iff it was closed |
| `Accordion.ToggledState` | script.js:519-534 | after a click at most one item is open |
| `Accordion.ToggleTwiceRestores` | script.js:519-534 | from a state where only the clicked item may be open, two clicks on it give back that state |
| `Accordion.ToggleOtherMovesOpen` | script.js:521-530 | clicking another item while one is open leaves exactly the clicked item open |
| `Accordion.ToggleSkill` | script.js:516-535 | the flags after the handler are the toggled state of the flags before it |
| `SentEmails.Normalize` | script.js:630-645 | `trim().toLowerCase()`: no longer than the raw value, empty iff the value is all space, without ASCII capitals and without a leading or trailing space |
| `SentEmails.NormalizeIdempotent` | script.js:645 | trimming and lower-casing an already normalised address changes nothing |
| `SentEmails.Recorded` | script.js:644-661 | a blank address leaves the list alone; a new one is appended at the end; a known one changes nothing; afterwards a non-blank address is in the list |
| `SentEmails.RecordedKeepsNoDuplicates` | script.js:657-660 | a list without duplicates keeps none after a submit |
| `SentEmails.RecordedIdempotent` | script.js:645-660 | a repeated submit changes nothing more, and submitting the normalised form is the same as submitting the raw one |
| `SentEmails.AlreadySent` | script.js:635-651 | the notice condition: when it holds a submit leaves the list unchanged; when it fails for a non-blank address the submit grows the list by one |
| `SentEmails.SubmitThenNotice` | script.js:630-638 | after a submit, any value normalising to the same address raises the "already sent" notice |
| `SentEmails.SentEmailLog.constructor` | script.js:647-650 | the log starts from the stored list |
| `SentEmails.SentEmailLog.Submit` | script.js:644-661 | shows the notice iff the non-blank address was already stored, and the new list is the recorded list |
| `SkillBars.LevelPercentage` | script.js:296-310 | the width is 90, 70, 50 or 60; 90 exactly for "advanced", 70 for "intermediate", 50 for "basic" or "learning" (after lower-casing), otherwise 60 |
| `SkillBars.LevelPercentageIgnoresCase` | script.js:297 | the width of a level and of its lower-cased text agree |
| `SkillBars.CapitalisedLevelIsRecognised` | script.js:297-299 | "Advanced" is lower-cased before the switch and gets 90 |
| `SkillBars.UntrimmedLevelIsDefault` | script.js:293-297 | the text is not trimmed: every level that starts or ends with a space, such as " Advanced ", gets the default 60 |
| `Bubbles.AxisStep` | script.js:594-599 | after advance and clamp a coordinate is at most `limit`, and at least 0 when `limit >= 0`; velocity is only ever negated; the four cases (no clamp, low clamp, high clamp, both) give position and velocity exactly |
| `Bubbles.Advance` | script.js:594-599 | `x <= W - w` and `y <= H - h`, with `0 <= x` when `w <= W` and `0 <= y` when `h <= H`; each velocity component keeps its magnitude; radius and speed unchanged |
| `Bubbles.TooClose` | script.js:600-603 | `Math.hypot(cx - mouse.x, cy - mouse.y) < r + 24`, with `(cx, cy)` the centre after the clamp, compared on squares; a pointer can only be too close when `r + 24` is positive |
| `Bubbles.TooCloseWithinReach` | script.js:600-603 | a pointer that is too close lies strictly within `r + 24` of the centre on each axis |
| `Bubbles.Repel` | script.js:600-609 | out of reach (`hypot >= r + 24`) the bubble is unchanged; in reach the velocity is `speed` times the heading and the position moves by twice the new velocity |
| `Bubbles.SentinelOutOfReach` | script.js:580-603 | a bubble inside the container whose radius is at most half its larger side, as script.js:580 creates it, is never in reach of the sentinel pointer (-1000, -1000) |
| `Bubbles.FrameStep` | script.js:594-609 | a whole frame keeps radius and speed, and a bubble that is not pushed ends it within `[0, W - w] x [0, H - h]` (on each axis where the box holds it) |
| `Bubbles.AbsentPointerOnlyReflects` | script.js:580-609 | with the pointer away, a bubble of the created radius in a fitting container is only advanced and clamped |
| `Bubbles.RepelSetsSpeed` | script.js:604-606 | with a unit heading the velocity after a push has magnitude `speed` |
| `Bubbles.RepelMovesAway` | script.js:604-606 | with the heading a positive multiple of the offset, the new velocity has a positive dot product with the offset from the pointer to the centre |
| `Bubbles.PushCanLeaveContainer` | script.js:596-608 | a bubble moving left into the left wall is clamped and reflected, then pushed left by the pointer, and ends the frame at `x = -2`, outside the container |
| `Bubbles.Frames` | script.js:591-615 | repeated frames keep radius and speed |
| `Bubbles.AbsentPointerKeepsBubbleInside` | script.js:580-615 | over any number of frames with the pointer away, a fitting container and the created radius, the bubble stays in `[0, W - w] x [0, H - h]`, its velocity components keep their magnitudes, and radius and speed are unchanged |
| `Bubbles.StepBubble` | script.js:594-609 | the statement-by-statement loop body computes the frame step of the bubble |
| `Bubbles.AnimateFrame` | script.js:591-615 | every bubble ends as the frame step of its own old state with its own size; no bubble's update depends on another's |

## Left out

- The document itself is not modelled: element lookups, styles, class strings,
  `innerHTML`, and creating and removing elements. This covers `showFormFeedback`,
  `createScrollToTopButton`, `toggleDetails`, `closeExpModal`, `initProjectCards`,
  `initLazyLoading`, the preloader, `handleNavbarScroll`, the link-click smooth
  scroll, and the accordion's `maxHeight` values. They hold no logic beyond writing
  to the page.
- `fetch` in `handleFormSubmission` and its success, failure and button-state
  handling are left out (network). `HandleSubmission` stops at the decision to send.
- `localStorage` and `JSON.parse` are left out (storage). The list is the field that
  `SentEmailLog` starts with, so a stored value that fails to parse and is read as
  `[]` is not modelled.
- `gtag` analytics in `trackCVDownload` is left out (a foreign call).
- `Bubbles.Repel`: `Math.hypot` is compared exactly as a square on reals. The
  direction `cos(atan2)`/`sin(atan2)` is the `heading` parameter, so its value is
  assumed, not computed.
- JavaScript numbers are floating point; the model uses exact reals, so rounding
  is not modelled.
- The random set-up of positions, speeds and angles (script.js:573-581) is left out.
  The pointer handlers (script.js:583-590) are too: the pointer is a parameter, and
  `Sentinel` is the value they set on leave.
- The endless `requestAnimationFrame` loop is one frame here (`AnimateFrame`), and
  `Frames` for a run with fixed inputs.
- Timer-driven behaviour is left out: `debounce`, the `setTimeout` chain of
  `typeWriter`, and fading the feedback and the notice. It is scheduling, not logic.
- IntersectionObserver callbacks, `isInViewport` and the CSS-variable helpers are
  left out. They are browser APIs or plain layout reads.
- `JsText.ToLower`: maps only the ASCII letters A-Z. The full Unicode case mapping of
  `toLowerCase` (which can change a string's length) is not modelled.
- `ContactForm.ValidateForm`: an entry that `FormData.get` returns as a file is not
  modelled; entries are strings or null.
- `JsText.JsLength`: a Dafny `char` is a Unicode scalar value, so a string holding a
  lone surrogate code unit cannot be written; such strings are not modelled.
