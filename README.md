# Portfolio page script, modelled in Dafny

Of what the portfolio site's page script (`script.js`) wires to the document, four behaviours are modelled:

- a mobile navigation panel whose open state is mirrored into the toggle button's `aria-expanded`;
- a typed-text animation that types, pauses on, deletes and changes a fixed list of phrases, one timer tick at a time;
- a contact form that re-checks its three fields on every submit, marks each one valid or invalid, and builds a `mailto:` address only when all three pass;
- a project search that sets or clears each project card's `hidden` attribute from the query, then updates the "no results" indicator and the "N projects" count.

The project models these behaviours with the document taken out of the picture. Element contents and attributes are passed in as values. What the script writes back is a class field that a method updates, an element of the card array that a method updates in place, or a value that a method returns.

Files:

- `dom.dfy`, module `Dom`: the JavaScript built-ins the script uses, stated over strings. These are `String(bool)`, `trim` (with the ECMAScript white-space set), ASCII `toLowerCase`, `includes`, and the decimal rendering of a count.
- `navigation.dfy`, module `Navigation`: class `Nav`, with the toggle handler and the anchor-click handler.
- `typed_text.dfy`, module `TypedText`: the animation as a pure state machine (`Next`, `Render`, `Delay`) and as class `Typer`, whose `Tick` updates the three cursors in place. Lemmas cover whole typing, deleting and full cycles.
- `contact_form.dfy`, module `ContactForm`: the email pattern as a predicate, the per-field checks, class `Field` with `SetError`, the submit handler, and the `mailto:` address with a parser that reads it back.
- `project_filter.dfy`, module `ProjectFilter`: cards as records in an `array`, filtered in place by a loop. It also covers the visible count, its label and the "no results" display.

Two behaviours of the code are easy to misread; the model follows the code:

- The email pattern is tested on the raw field value, not the trimmed one (`script.js:112`).
- The typed text's prefix is the three characters `â€”` that a mis-decoded em dash shows up as, with a space on each side. It is not a real em dash (`script.js:43`).

## Model

| member | source | states |
|---|---|---|
| Dom.IsSpace | script.js:104 | definition: the ECMAScript WhiteSpace and LineTerminator characters, which `\s` matches and `trim` removes |
| Dom.Trim | script.js:111-113 | `trim` gives the slice of its input that remains once the leading and trailing white space is cut: everything before and after it is white space, and it neither starts nor ends with white space |
| Dom.Lower | script.js:144-147 | `toLowerCase` keeps the length and lowers each character on its own |
| Dom.Contains | script.js:148 | definition: `includes` holds when the query occurs at some position of the text |
| Dom.DecimalString | script.js:139 | the count renders as one or more decimal digits with no leading zero |
| Dom.BoolString | script.js:8 | `String(isOpen)` is `"true"` exactly when the flag is set and `"false"` exactly when it is not |
| Dom.TrimEmptyIffAllSpace | script.js:111-113 | a value fails the `!value.trim()` test exactly when every character is white space |
| Dom.DecimalRoundTrip | script.js:139 | the decimal text of the visible count reads back as that count |
| Navigation.AfterClicks | script.js:6-9 | definition: the open flag after n clicks, each click flipping it |
| Navigation.ClickParity | script.js:6-9 | after n toggle clicks the panel is flipped exactly when n is odd |
| Navigation.AnchorHandled | script.js:16-19 | a link is handled exactly when its `href` is present, is neither `''` nor `#`, and selects an element; a missing, empty or bare `#` `href` is never handled |
| Navigation.Nav.constructor | script.js:2-5 | the two elements' presence, the panel's open flag and `aria-expanded` are as given |
| Navigation.Nav.ToggleClick | script.js:5-9 | with both elements present, a click flips `open` and writes `String(open)` to `aria-expanded`; otherwise nothing changes |
| Navigation.Nav.ToggleClicks | script.js:5-9 | with both elements present, n clicks leave `open` at `AfterClicks` of the start and, `aria-expanded` at `String(open)` after at least one click and unchanged after none; otherwise nothing changes |
| Navigation.Nav.AnchorClick | script.js:15-25 | default navigation is prevented exactly when the link is handled; then the panel is closed and `aria-expanded` set to `"false"` whatever they were before; otherwise nothing changes |
| TypedText.Render | script.js:41-43 | the text written is the fixed prefix followed by the first `charIndex` characters of the current phrase |
| TypedText.Next | script.js:45-60 | a tick keeps `phraseIndex < |phrases|` and `charIndex <= |phrases[phraseIndex]|`, moves `charIndex` by at most one, and changes phrase only when deleting has reached 0, moving to the next phrase modulo the list length in typing mode |
| TypedText.Delay | script.js:45-60 | the delay is 90 exactly while typing, 50 exactly while deleting, 1200 exactly at a full phrase in typing mode, and 250 exactly at an empty phrase in deleting mode |
| TypedText.TypingPhase | script.js:45-47 | typing from c characters reaches the full phrase after L - c ticks, each one showing c, c+1, … characters and waiting 90 |
| TypedText.DeletingPhase | script.js:48-50 | deleting from c characters reaches 0 after c ticks, each one showing c, c-1, … characters and waiting 50 |
| TypedText.FullToNext | script.js:45-58 | from a full phrase in typing mode: a 1200 pause showing the whole phrase, L deleting ticks, a 250 pause on the empty text, then the next phrase at 0 in typing mode |
| TypedText.Cycle | script.js:36-61 | from `(p, 0, typing)` the state is `((p+1) % n, 0, typing)` after exactly 2L+2 ticks; the frames show prefixes of length 0..L-1 at 90, the whole phrase at 1200, lengths L..1 at 50, and nothing at 250 |
| TypedText.FirstPhraseCycle | script.js:31-38 | on the page's own list, "Developer" takes 20 ticks before "IS Student" starts |
| TypedText.Typer.constructor | script.js:36-38 | the animation starts at the first phrase, with nothing typed, in typing mode |
| TypedText.Typer.Tick | script.js:40-61 | one callback returns `Render` and `Delay` of the state before it, leaves the state at `Next` of the old state, and keeps the cursor invariant |
| ContactForm.ValidateEmail | script.js:104 | definition: the unanchored `test` succeeds when some stretch of the value is run, `@`, run, `.`, run, each run made of characters that are neither white space nor `@` |
| ContactForm.EmailLocalCharacterisation | script.js:104 | the unanchored pattern matches exactly when some `@` has a non-space, non-`@` character before it, then a run of them, a `.`, and one more such character |
| ContactForm.EmailUnanchored | script.js:104 | text before and after a matching string never hides the match |
| ContactForm.NoAtNoEmail | script.js:104 | a value without `@` never matches |
| ContactForm.GoodEmailExample | script.js:104 | `a@b.co` matches the pattern |
| ContactForm.BadEmailExample | script.js:104 | `bad` does not match the pattern |
| ContactForm.ValidEmailNotBlank | script.js:104-112 | any value the pattern accepts is non-blank after trimming |
| ContactForm.NameOk | script.js:111 | definition: the name passes when it is not blank after trimming |
| ContactForm.EmailOk | script.js:112 | definition: the email passes when it is not blank after trimming and the raw value matches the pattern |
| ContactForm.MessageOk | script.js:113 | definition: the message passes when it is not blank after trimming |
| ContactForm.EmailOkIsPattern | script.js:112 | the email test (non-blank after trimming and matches the pattern) holds exactly when the pattern matches |
| ContactForm.Check | script.js:109-113 | each field's message is non-empty exactly when its own check fails; the messages are the fixed texts; `valid` is the conjunction of the three checks |
| ContactForm.BlankNameExample | script.js:109-113 | empty name, `a@b.co`, `Hi`: only the name error, form not valid |
| ContactForm.BadEmailFormExample | script.js:109-113 | `Jo`, `bad`, `Hi`: only the email error, form not valid |
| ContactForm.ValidFormExample | script.js:109-115 | `Jo`, `a@b.co`, `Hi`: no errors and the form is valid |
| ContactForm.Subject | script.js:117 | definition: `Portfolio message from ` followed by the trimmed name, before encoding |
| ContactForm.Body | script.js:118 | definition: the trimmed name, email and message under their labels, before encoding |
| ContactForm.Mailto | script.js:121 | the address always begins with `mailto:youremail@example.com?subject=` and contains `&body=` |
| ContactForm.MailtoRoundTrip | script.js:117-121 | for an encoded subject without `&`, the subject and body are read back exactly from the address |
| ContactForm.Field.constructor | script.js:94-96 | a field holds its value, with no error text and no `aria-invalid` yet |
| ContactForm.Field.SetError | script.js:98-102 | the message is written where the field has an error container; `aria-invalid` becomes `"true"` for a non-empty message and `"false"` for an empty one; the value is untouched |
| ContactForm.Mark | script.js:111-113 | one field's line: a failing check writes the message where there is a container, a passing one clears it; `aria-invalid` is `String(!ok)`; the value is untouched |
| ContactForm.Submit | script.js:106-123 | all three fields are re-evaluated; each gets its error text and `aria-invalid` from its own check; an address is returned exactly when the form is valid, built from the encoded subject and body templates |
| ProjectFilter.FirstText | script.js:146-147 | definition: the attribute when it is present and not empty, else the element's text when there is one, else `''` |
| ProjectFilter.SearchTitle | script.js:146 | definition: the lower-cased `data-title`, falling back to the `h3` text and then to `''` |
| ProjectFilter.SearchDescription | script.js:147 | definition: the lower-cased `data-description`, falling back to the `p` text and then to `''` |
| ProjectFilter.Query | script.js:144 | the trimmed, lower-cased query is empty exactly when there is no search box or its value is all white space |
| ProjectFilter.Matches | script.js:148 | definition: an empty query matches every card; otherwise the lower-cased title or description must contain it |
| ProjectFilter.Filtered | script.js:145-154 | filtering changes only the `hidden` flags, and a card ends up hidden exactly when it does not match the query |
| ProjectFilter.FilterIdempotent | script.js:143-154 | filtering twice with the same query gives the same cards as filtering once |
| ProjectFilter.FilterForgetsHidden | script.js:145-154 | the result does not depend on which cards were hidden before |
| ProjectFilter.VisibleCount | script.js:137 | the count is at most the number of cards; it is 0 exactly when every card is hidden, and it is the number of cards exactly when none is |
| ProjectFilter.VisibleIffSome | script.js:156-157 | some card is visible exactly when the visible count is not 0 |
| ProjectFilter.EmptyQueryShowsAll | script.js:144-148 | a missing search box or a blank query shows every card |
| ProjectFilter.CountLabel | script.js:139 | definition: the decimal count followed by ` project`, plus `s` unless the count is 1 |
| ProjectFilter.CountLabelReadsBack | script.js:139 | the label is the count in decimal, followed by ` project` when the count is 1 and ` projects` otherwise |
| ProjectFilter.EmptyQueryExample | script.js:143-159 | cards "Alpha" and "Beta" with an empty query read "2 projects" and the "no results" indicator stays hidden (`none`) |
| ProjectFilter.AlphaQueryExample | script.js:143-159 | query "alpha" leaves only "Alpha" visible and reads "1 project" |
| ProjectFilter.NoMatchExample | script.js:143-159 | query "zzz" hides both cards, reads "0 projects" and shows the indicator (`block`) |
| ProjectFilter.AnyVisible | script.js:156 | `some(c => !hidden)` is true exactly when some card is not hidden |
| ProjectFilter.UpdateProjectCount | script.js:136-141 | the label written is the label of the number of cards not hidden |
| ProjectFilter.HideUnmatched | script.js:145-154 | the loop leaves the array equal to `Filtered` of its old contents |
| ProjectFilter.NoResultsDisplay | script.js:157 | the indicator's `display` is `none` exactly when some card is visible and `block` exactly when none is |
| ProjectFilter.ShowResults | script.js:156-158 | from the cards as they are: the indicator gets `block` exactly when the visible count is 0 and `none` otherwise, and the label is that of the visible count |
| ProjectFilter.FilterProjects | script.js:143-159 | the cards become `Filtered` of the old cards under the trimmed, lower-cased query; the indicator gets `block` exactly when no card is visible and `none` otherwise; the count label matches the visible count |

## Left out

- DOM lookup and event wiring (`querySelector`, `addEventListener`, `dataset`) are left out. Element contents come in as parameters and record fields, and the presence of an element is a boolean or an `Option`.
- The count and "no results" elements may be missing (`script.js:138`, `script.js:157`). `FilterProjects` returns what would be written to them; it does not model them being absent.
- `scrollIntoView` and `window.location.href` are browser side effects and are left out. `AnchorClick` returns whether it took over the click, and `Submit` returns the address the page would navigate to.
- `setTimeout` is left out: real time is outside the model. `Typer.Tick` returns the delay it would schedule, and `Trace` stands for the chain of callbacks.
- The typed-text element being removed from the document mid-animation is not modelled.
- The scroll-reveal observer and the injected style (`script.js:66-89`) are left out. They depend on browser layout and viewport geometry.
- The footer year (`script.js:127-128`) is left out because it reads the wall clock.
- `encodeURIComponent` is a library function. It is the parameter `encode` of `Submit`, and `Mailto` takes already-encoded text.
- MailtoRoundTrip: stated only for encoded subjects without `&`, because that is what `encodeURIComponent` produces; the function itself is not modelled.
- `toLowerCase` lowers only the ASCII letters `A`-`Z`. Unicode case mapping is a library table that the model does not reproduce.
- Strings are sequences of Unicode code points, not of UTF-16 code units. A character outside the Basic Multilingual Plane has length 1 here and 2 in JavaScript, and a lone surrogate, which a field value can hold, cannot be represented. No length the model computes depends on user text: the typed phrases are fixed ASCII text. `trim` and `\s` use the ECMAScript white-space and line-terminator set.
- `document.querySelector(href)` throws on a malformed selector. Whether it finds a target is the parameter `targetFound`; the exception is not modelled.
- The submit handler always calls `e.preventDefault()` (`script.js:107`). The model has no default form submission to suppress, so `Submit` does not model that call.
- A missing form field (`nameEl` and the others being `null`) makes the handler throw. `Submit` requires three distinct existing fields.
- An empty phrase list makes `typeLoop` throw. `Typer`'s constructor requires a non-empty list; the page's own list has three phrases.
