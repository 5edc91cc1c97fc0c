# English Janala vocabulary widget — a Dafny model

The widget is a browser page for learning vocabulary. It shows one button per
lesson level. Clicking a lesson fetches that level's words and shows them as
cards. Each card has a headline, a meaning/pronunciation line, an info action and
a speak action. A search box filters the full word list by case-insensitive
substring. The info action opens a detail modal, which shows the word's synonyms
as a row of pills.

This project models the list and string logic of `js/script.js`. The page is
modelled as a view-model instead of HTML. The page's containers become the
fields of a `Page` class: lesson buttons, word cards or the empty-state panel,
the spinner and word-container visibility, and the details box and its modal.
Network responses become plain parameters (`Option`: `None` when the request or
its JSON fails).

Modules:

- `Text` (`text.dfy`): the JavaScript string built-ins the page uses.
  - `trim` uses the full ECMAScript white-space set.
  - `toLowerCase` is modelled for ASCII letters only.
  - `includes` is given two definitions: a recursive one and the
    position-based one, proved equivalent.
- `Decimal` (`decimal.dfy`): how a level number of magnitude at most 2^53 is
  written inside a template literal. A parse round trip proves that distinct
  levels get distinct ids.
- `View` (`view.dfy`): the records the page renders.
  - Word cards, with a placeholder for each missing field.
  - Lesson buttons (`lesson-btn-<level>`) and the exclusive-active selection.
  - `createElements` as pills joined by single spaces.
  - The word-detail view, which has no placeholders.
- `Search` (`search.dfy`): the query normalisation and the filter.
- `Widget` (`widget.dfy`): the class `Page` and its event handlers. These are
  `manageSpinner`, `removeActive`, `displayLevelWord`, `displayLesson`,
  `loadLevelWord`, the search click, `displayWordDetails` and `loadWordDetail`.
  Each is proved against the functions of `View` and `Search`.

A word's string fields are JavaScript values: absent (`Undefined`), `Null` or a
string. A card uses a field only when it is truthy. The empty string is falsy,
so it also gets the placeholder. The template literals that have no fallback
show a missing field as the text `undefined` or `null`. These are the speak
action and the detail view.

Four behaviours of the code as written that a reader might not expect:

- The clicked lesson button becomes active only after its words have arrived,
  not when the click happens (js/script.js:49-51).
- The detail view has no placeholders for missing fields (js/script.js:72-94).
- A missing synonyms array makes `createElements` throw. `loadWordDetail` catches
  that error, and no modal opens (js/script.js:58-67, js/script.js:92).
- If no button has the id `lesson-btn-<id>`, the success handler of
  `loadLevelWord` throws after `removeActive` has run. The `.catch` logs the
  error, so every button is left inactive and the spinner stays shown
  (js/script.js:49-54).

## Model

| member | source | states |
|---|---|---|
| `Text.TrimStart` | js/script.js:178 | removes exactly the leading white space: the result is a suffix, all that was cut is white space, and the result does not start with it |
| `Text.TrimEnd` | js/script.js:178 | removes exactly the trailing white space: the result is a prefix, all that was cut is white space, and the result does not end with it |
| `Text.TrimIsCore` | js/script.js:178 | `trim()` gives a slice s[i..j] of the input whose cut-off ends are all white space |
| `Text.Trim` | js/script.js:178 | `trim()` is never longer than its input, and a non-empty result neither starts nor ends with white space |
| `Text.TrimIdempotent` | js/script.js:178 | trimming a trimmed query changes nothing |
| `Text.TrimEmptyIffBlank` | js/script.js:178 | the trimmed query is empty exactly when the input is all white space |
| `Text.LowerChar` | js/script.js:178 | maps A-Z to a-z and leaves every other character alone; the result is never an upper-case letter |
| `Text.ToLower` | js/script.js:178 | lower-casing keeps the length and lowers each character in place |
| `Text.ToLowerIdempotent` | js/script.js:178 | lower-casing is idempotent and leaves no upper-case letter |
| `Text.LowerKeepsSpace` | js/script.js:178 | lower-casing a character neither creates nor removes white space |
| `Text.TrimStartCommutesLower` | js/script.js:178 | removing leading white space and lower-casing can be done in either order |
| `Text.TrimEndCommutesLower` | js/script.js:178 | removing trailing white space and lower-casing can be done in either order |
| `Text.TrimCommutesLower` | js/script.js:178 | `trim()` and `toLowerCase()` can be applied in either order |
| `Text.Includes` | js/script.js:187 | a text includes a query only if the query is no longer than the text |
| `Text.IncludesIffOccurs` | js/script.js:187 | the recursive `includes` holds iff the query occurs at some position of the text (both directions) |
| `Text.IncludesEmpty` | js/script.js:187 | every text includes the empty query |
| `Decimal.NatToString` | js/script.js:161 | a level number is written as one or more decimal digits with no leading zero |
| `Decimal.IntToString` | js/script.js:161 | the text starts with a minus sign exactly when the level is negative |
| `Decimal.ParseNatToString` | js/script.js:161 | reading the digits back gives the number again |
| `Decimal.ParseIntToString` | js/script.js:161 | reading an integer's text back gives the integer again |
| `Decimal.IntToStringInjective` | js/script.js:161 | two levels are written alike iff they are equal |
| `Decimal.PrefixedIntInjective` | js/script.js:50 | `lesson-btn-${a}` equals `lesson-btn-${b}` iff a equals b |
| `View.Interpolate` | js/script.js:139-141 | a string field is shown as it is; an absent one as the text "undefined" and a null one as the text "null" |
| `View.OrPlaceholder` | js/script.js:123-132 | the shown text is the field's own string or the placeholder, and never blank when the placeholder is not |
| `View.CardOf` | js/script.js:118-146 | a card's headline, meaning and pronunciation are never blank; its info action carries the word id and its speak action the raw word text |
| `View.CardFallbacks` | js/script.js:123-132 | each of word, meaning and pronunciation shows its own value when truthy and its own placeholder otherwise |
| `View.CardFieldsIndependent` | js/script.js:123-132 | changing one field of a word never changes the card's other fields |
| `View.WordListView` | js/script.js:101-148 | the word container is never left empty, and a non-empty list gives one node per word |
| `View.WordListViewShape` | js/script.js:101-148 | an empty list gives only the empty-state panel; a non-empty list gives exactly one card per word in input order, and no panel |
| `View.ButtonOf` | js/script.js:158-168 | a lesson's button loads that lesson's level and starts inactive |
| `View.LessonButtons` | js/script.js:156-168 | one button per lesson, in order, each loading its own lesson's level, and none active |
| `View.ButtonNamesItsLevel` | js/script.js:161-164 | a button's id is `lesson-btn-<n>` and its label `Lesson - <n>` exactly for its own level n |
| `View.FindById` | js/script.js:50 | the lookup finds the first button in document order whose id matches, or reports that none does |
| `View.FindLessonButton` | js/script.js:50 | among rendered buttons, `lesson-btn-<level>` is found iff some lesson has that level, and it is the first such lesson's button |
| `View.Deactivated` | js/script.js:36-39 | no button keeps `active`, and ids, labels and levels are unchanged |
| `View.SelectLesson` | js/script.js:49-51 | after a lesson click at most one button is active, and ids, labels and levels are unchanged |
| `View.SelectIsExclusive` | js/script.js:36-39 | after remove-all-then-activate, the active set is exactly the found button (or empty), and ids, labels and levels are unchanged |
| `View.ClickedLessonIsOnlyActive` | js/script.js:49-51 | clicking any rendered lesson button leaves exactly one button active, and it belongs to the clicked level |
| `View.Join` | js/script.js:6 | joining n elements gives 2n-1 items, and nothing for none |
| `View.JoinLayout` | js/script.js:6 | the joined elements stand at the even positions in order and the separator at every odd position |
| `View.CreateElements` | js/script.js:2-7 | no synonyms give no markup; n synonyms give 2n-1 items |
| `View.CreateElementsLayout` | js/script.js:2-7 | the i-th synonym is the pill at position 2i, and every odd position is one space |
| `View.CreateElementsStep` | js/script.js:2-7 | the row of two or more synonyms is the first pill, one space, then the row of the rest |
| `View.CreateElementsRoundTrip` | js/script.js:2-7 | reading the pill labels back gives exactly the synonyms, in their given order |
| `View.CreateElementsSpaces` | js/script.js:2-7 | n synonyms are separated by exactly n-1 spaces |
| `View.DetailOf` | js/script.js:70-94 | the detail view exists iff the synonyms array does; its pills carry the synonyms and every other field is shown without placeholders |
| `View.DetailHasNoFallbacks` | js/script.js:75 | a missing word reads "undefined" in the detail view while its card shows the placeholder |
| `Search.SearchKey` | js/script.js:178 | the normalised query contains no upper-case letter |
| `Search.Matches` | js/script.js:187 | the empty key matches every word, and a key longer than the word never matches |
| `Search.FilterWords` | js/script.js:186-188 | the result is no longer than the list and holds only words of the list |
| `Search.FilterMembership` | js/script.js:186-188 | a word is kept iff it is in the list and its lower-cased word includes the key (both directions) |
| `Search.FilterConcat` | js/script.js:186-188 | filtering distributes over concatenation, so kept words stay in their original order |
| `Search.FilterSingle` | js/script.js:186-188 | a single word survives iff it matches |
| `Search.FilterIdempotent` | js/script.js:186-188 | searching the result again with the same key returns it unchanged |
| `Search.BlankQueryKeepsAll` | js/script.js:178-188 | a query that is empty or all white space keeps every word, in order |
| `Search.MatchIgnoresCase` | js/script.js:187 | two words that differ only in letter case match the same queries |
| `Search.SearchKeyIgnoresCase` | js/script.js:178 | two inputs that differ only in letter case give the same search key |
| `Search.HelloTrim` | js/script.js:178 | trimming " HeLLo " gives "HeLLo" |
| `Search.HelloLower` | js/script.js:178 | lower-casing "HeLLo" gives "hello" |
| `Search.HelloKey` | js/script.js:178 | the input " HeLLo " normalises to "hello" |
| `Search.HelloMatches` | js/script.js:187 | "Hello" and "say hello" include "hello" once lower-cased, and "World" does not |
| `Search.FilterThree` | js/script.js:186-188 | of three words where only the middle one fails to match, the outer two are kept in order |
| `Search.HelloFilter` | js/script.js:186-188 | the key "hello" keeps "Hello" and "say hello", in that order, and drops "World" |
| `Widget.Page.ManageSpinner` | js/script.js:17-25 | afterwards the spinner is shown iff status, and the word container is shown iff not status |
| `Widget.Page.RemoveActive` | js/script.js:36-39 | every lesson button loses `active`, and nothing else about the buttons changes |
| `Widget.Page.ActivateLessonButton` | js/script.js:50-51 | the first button with id `lesson-btn-<level>` gains `active`; when there is none, nothing changes and the handler fails |
| `Widget.Page.DisplayLevelWord` | js/script.js:99-151 | the container is replaced by the empty-state panel or by one card per word in order, and the spinner is hidden |
| `Widget.Page.DisplayLesson` | js/script.js:154-169 | the lesson container is replaced by one button per lesson, in order |
| `Widget.Page.LoadLevelWord` | js/script.js:42-55 | the spinner is on first; on success the buttons are exclusively selected and the words are shown with the spinner off; a failed fetch or a missing button leaves the words unchanged and the spinner on |
| `Widget.Page.SearchClick` | js/script.js:175-192 | no lesson button stays active; with a response, the container shows the filtered words and the spinner is hidden |
| `Widget.Page.DisplayWordDetails` | js/script.js:70-96 | the details box holds the detail view and the modal is open, unless the synonyms are missing and nothing changes |
| `Widget.Page.LoadWordDetail` | js/script.js:58-67 | a failed fetch or a failed rendering opens no modal and changes no details |
| `Widget.SameButtonsFindById` | js/script.js:49-50 | removing `active` classes does not change which button an id lookup finds |
| `Widget.StartupThenLessonClick` | js/script.js:28-55 | after the lessons are rendered and one lesson is clicked and answered, exactly one button is active, it is for the clicked level, the container shows that level's words, and the spinner is hidden |

## Left out

- Network I/O: `fetch`, JSON parsing and the console logging in `loadLessons`,
  `loadLevelWord`, `loadWordDetail` and the search handler. Each response is a
  parameter. `loadLessons` is then only `Widget.Page.DisplayLesson` applied to
  the response.
- `pronounceWord` (speech synthesis) is a platform call. Only the text a card's
  speak action passes to it is modelled (`Card.speech`).
- `showModal()` is modelled as the flag `modalOpen`. Closing the modal belongs
  to the browser and is not modelled. The smooth-scroll handler is not modelled.
- HTML markup, CSS classes other than `active` and `hidden`, and the empty-state
  panel's text are modelled as abstract records. Characters in a word that would
  break the `onclick` markup (a quote) are therefore not modelled.
- Asynchronous ordering is not modelled. Each handler runs as one step, so the
  race between two responses that both write the word container is not
  modelled, and neither is a lesson click arriving while a search is pending.
- `Text.ToLower`: lower-cases ASCII letters only, not the full Unicode
  `toLowerCase`.
- `Search.FilterWords`: requires every word to have a string `word` field. On
  a null or missing one the source throws inside the search handler, which has
  no `.catch`, so nothing is shown. That case is left out rather than modelled.
- `Decimal.IntToString`: assumes the level number's magnitude is at most 2^53,
  where a JavaScript number holds the integer exactly and writes its exact
  digits. Beyond 2^53, JSON parsing rounds the number, and JavaScript writes the
  shortest digits that round back to it, padded with zeros (from 10^21 on, in
  exponent notation such as `1e+21`). That is not modelled.
- `Decimal.NatToString`: the same bound of 2^53 applies, for the same reason.
- The id of a word and the level number of a lesson are assumed to be integers.
  Other JSON values in those fields, and a response whose `data` is not a list,
  are not modelled.
- The page's initial markup is not part of this model. Its spinner and
  word-container visibility are constructor parameters, and its containers
  start empty.
