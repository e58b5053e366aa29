# Structured-response extraction and study-card helpers, modelled in Dafny

This project models the post-processing that turns a text-generation
service's free-form reply into structured study material, and the small pure
helpers of the web client that display it.

- **Backend extractor** (`backend/app/utils.py`). `parse_gpt_json` recovers a
  JSON value from a reply. It tries three strategies in order: the whole
  text, the body of a fenced code block, and the span from the first `{` to
  the last `}`. The first one that parses wins. An empty reply, or a reply
  where every strategy fails, gives `{}`. `extract_structured_digest` and
  `extract_smartnotes` build five-key records with defaults.
  `extract_flashcards` keeps the list elements that are objects with both
  `front` and `back`.
- **Flashcard grid** (`FlashcardGrid.jsx`). Covers the set of flipped cards
  (`toggleFlip`, `flipAll`), the Anki CSV export and the plain-text copy.
- **Transcript card** (`TranscriptCard.jsx`). Covers the `m:ss` duration
  label.
- **Result card** (`ResultCard.jsx`). Covers the open/closed state of each
  section, the clipboard text and the count badge.

Modules: `Wrappers` (Option/Result), `Text` (decimal notation, padding,
joining, Python and JavaScript whitespace, trimming), `Json` (decoded
values and Python `str()`), `Records` (the `models.py` record shapes),
`Patterns` (the two regex searches), `Extractor`, `FlashcardGrid`,
`TranscriptCard`, `ResultCard`.

Foreign behaviour becomes a parameter. `json.loads` is `parse: string ->
Option<Json>`, and `None` stands for `JSONDecodeError`. Python's `str()` of a
list or dict is `render`. `str()` of a string, bool, `None` or int is
written out. The two regular expressions are written out in full as the
searches `re.search` performs. The backtracking of
```` ```(?:json)?\s*(\{.*?\})\s*``` ```` is deterministic. The `\s*` runs
are maximal. The optional `json` tag is taken whenever it is present.
The lazy body stops at the first `}` that is followed by blanks and a fence.
The match starts at the leftmost position where all of this succeeds. `\s` is
Python's `str.isspace()` class. JavaScript's `trim()` uses a different class.

`parse_gpt_json` is typed to return `Dict[str, Any]` (backend/app/utils.py:6),
and its docstring promises "Parsed JSON as dictionary, or empty dict if
parsing fails" (lines 14-15). The code does not keep that promise. If the whole reply parses to something other than an
object (`[]`, `null`, `42`), strategy 1 returns it unchanged. The `.get` call
in `extract_*` then raises. The model follows the code and returns
`Err(AttributeError)` in that case. `extract_flashcards` iterates whatever is
stored under `flashcards`. A string or an object gives no cards. `null`, a
bool or a number raises `TypeError`, and the model returns that error.

## Model

| member | source | states |
|---|---|---|
| Patterns.SkipSpace | backend/app/utils.py:29 | the `\s*` run from `i` ends at the first non-blank, and everything it skips is blank |
| Patterns.LazyClose | backend/app/utils.py:29 | the lazy body ends at the first `}` followed by blanks and a fence; none before it does; `None` exactly when no position closes |
| Patterns.OpenAt | backend/app/utils.py:29 | a match starting at `p` needs a fence at `p`, and its group opens with `{` after the fence |
| Patterns.OpenAtComplete | backend/app/utils.py:27-29 | a fence followed by blanks and `{`, or by `json`, blanks and `{`, opens a match at that `{` |
| Patterns.MatchAt | backend/app/utils.py:28-32 | group 1 of a match at `p` opens at the `{`, ends at the first closing `}` after it, and no earlier `}` closes |
| Patterns.FirstSome | backend/app/utils.py:28-32 | the first position holding a match; none before it holds one; `None` when none does |
| Patterns.FirstSomeSkips | backend/app/utils.py:28-32 | positions without a match are passed over, and the search resumes after them |
| Patterns.FirstMatch | backend/app/utils.py:28-32 | `re.search` takes the leftmost start that matches; no earlier start matches; `None` when no start matches |
| Patterns.MatchHere | backend/app/utils.py:28-32 | the search stops at a start where the pattern matches |
| Patterns.NoMatchBefore | backend/app/utils.py:28-32 | text without a backtick before a position holds no match start, so the search resumes there |
| Patterns.FencedBody | backend/app/utils.py:28-35 | a fenced body, when found, starts with `{` and ends with `}` |
| Patterns.NoFenceNoBody | backend/app/utils.py:28-33 | a reply without a backtick has no fenced body |
| Patterns.FirstMatchSkips | backend/app/utils.py:28-32 | starts where the pattern does not match are passed over, and the search resumes after them |
| Patterns.LazyCloseSkips | backend/app/utils.py:29 | braces that are not followed by blanks and a fence are passed over by the lazy body |
| Patterns.NoEarlyClose | backend/app/utils.py:29 | inside an object without backticks, no `}` but the last can end the lazy body |
| Patterns.FenceOnNextLine | backend/app/utils.py:29 | a `}` with a fence on the next line ends the lazy body |
| Patterns.ObjectThenFence | backend/app/utils.py:29 | for an object followed by a fence on the next line, the lazy body stops at the object's own last `}` |
| Patterns.MatchFromParts | backend/app/utils.py:29 | an opening and the first close after it make a match whose group 1 runs from `{` to `}` |
| Patterns.FirstMatchBody | backend/app/utils.py:28-35 | `group(1)` is the group of the start the search returns |
| Patterns.NoMatchInProse | backend/app/utils.py:28-32 | prose without a backtick holds no match start |
| Patterns.TaggedReplyLayout | backend/app/utils.py:27 | where the prose, the tagged fence, the object and the closing fence sit in a tagged reply |
| Patterns.TaggedFenceOpens | backend/app/utils.py:27-29 | a fence, the `json` tag and a line break before an object open the match at the object's `{` |
| Patterns.FencedObjectBody | backend/app/utils.py:27-35 | a `json`-tagged fenced object after backtick-free text is exactly `group(1)` |
| Patterns.TaggedReplyBody | backend/app/utils.py:27-35 | prose + "```json\n" + object + "\n```" yields exactly the object, when neither the prose nor the object holds a backtick |
| Patterns.TaggedReplyExample | backend/app/utils.py:27-35 | the reply `Here you go:` + a fenced `{"summary": "ok"}` yields that object |
| Patterns.FirstIndex | backend/app/utils.py:40 | the first `{` is at the returned index and nowhere before it |
| Patterns.LastIndex | backend/app/utils.py:40 | the last `}` is at the returned index and nowhere after it |
| Patterns.BraceBounds | backend/app/utils.py:40 | the greedy span runs from the first `{` to the last `}`, and the `}` comes after the `{` |
| Patterns.BraceBoundsExist | backend/app/utils.py:40-41 | the brace search matches exactly when some `{` has a `}` after it |
| Patterns.BraceSpan | backend/app/utils.py:40-43 | the brace candidate starts with `{` and ends with `}` |
| Patterns.BraceSpanOf | backend/app/utils.py:40-43 | for prose without `{`, a braced object and a tail without `}`, `group(0)` is exactly the object |
| Extractor.Candidate | backend/app/utils.py:22-43 | strategy 1 hands over the whole text; strategies 2 and 3 hand over only braced text |
| Extractor.Attempt | backend/app/utils.py:20-45 | the definition of one strategy: its search, then `json.loads` of what it found; its meaning in the chain is stated by `FirstSuccess` and `ParseGptJson` |
| Extractor.FirstSuccess | backend/app/utils.py:20-45 | the chosen strategy parses, every earlier one failed, and `None` means all failed |
| Extractor.ParseGptJson | backend/app/utils.py:17-48 | an empty reply gives `{}`; if the whole text parses, that value is returned verbatim; otherwise the fenced body, then the brace span; `{}` when all fail |
| Extractor.TaggedReplyParses | backend/app/utils.py:20-37 | a fenced, `json`-tagged object is what the function returns when the whole reply does not parse |
| Extractor.BraceReplyParses | backend/app/utils.py:20-45 | a braced object between prose without `{` and a tail without `}`, with no fence anywhere, is returned when the whole reply does not parse |
| Extractor.SummaryReplyExample | backend/app/utils.py:20-37 | the reply `Here you go:` + a fenced `{"summary": "ok"}` returns `{"summary": "ok"}` |
| Extractor.NonObjectOnlyFromWholeText | backend/app/utils.py:21-43 | if braced text only ever parses to objects, a non-object result must come from parsing the whole reply |
| Extractor.PlainProseGivesEmptyObject | backend/app/utils.py:47-48 | prose with no backtick and no `{` that does not parse gives `{}` |
| Extractor.WithDefaults | backend/app/utils.py:73-79 | the record has exactly the keys that have defaults; a present key keeps its value and an absent key gets its default |
| Extractor.WithDefaultsIdempotent | backend/app/utils.py:73-79 | filling in defaults twice gives the same record as once |
| Extractor.WithDefaultsKeepsComplete | backend/app/utils.py:73-79 | a mapping that already has exactly the record's keys comes back unchanged |
| Extractor.ExtractDigest | backend/app/utils.py:70-79 | raises exactly when the recovered value is not an object; otherwise exactly the five digest keys, present values passed through, `""`/`[]` defaults |
| Extractor.ExtractSmartNotes | backend/app/utils.py:101-109 | the same for the five smart-notes keys, with `""` defaults for `summary` and `eli12` |
| Extractor.DigestRoundTrip | backend/app/models.py:15-21 | a reply that encodes a `DigestData` record is extracted exactly as sent |
| Extractor.SmartNotesRoundTrip | backend/app/models.py:81-87 | a reply that encodes a `SmartNotesData` record is extracted exactly as sent |
| Extractor.DigestOfEmptyObject | backend/app/utils.py:73-79 | the reply `{}` gives the all-default digest |
| Extractor.ListReplyRaises | backend/app/utils.py:22 | a reply of `[]` makes the digest extraction raise `AttributeError` |
| Extractor.ExtractDigestTotal | backend/app/utils.py:73-79 | the corrected digest never fails, agrees with the as-written one where that succeeds, and is all defaults where that raises |
| Extractor.ValidCards | backend/app/utils.py:134-140 | at most as many cards as elements, and as many only when every element is a card |
| Extractor.IsCard | backend/app/utils.py:136 | the definition of the card test `isinstance(card, dict) and "front" in card and "back" in card`; `ValidCards` and `KeptIndices` state what it keeps |
| Extractor.ToCard | backend/app/utils.py:137-140 | the definition of the kept card, with `str()` of both fields; `ValidCardsFromKept` states that the k-th card is the k-th kept element converted this way |
| Extractor.KeptIndices | backend/app/utils.py:135-136 | the kept positions are ascending, each holds an object with `front` and `back`, and every such position is kept |
| Extractor.CorrespondsSnoc | backend/app/utils.py:135-140 | one more list element extends the card-to-position correspondence by at most that element |
| Extractor.ValidCardsFromKept | backend/app/utils.py:134-142 | the k-th card is the k-th kept element coerced to strings: an order-preserving subsequence |
| Extractor.CardsOf | backend/app/utils.py:131-135 | a list yields its valid cards; a string or object yields none; `null`, bool and number raise `TypeError` |
| Extractor.CollectCards | backend/app/utils.py:134-142 | the validation loop computes exactly the kept cards |
| Extractor.ExtractFlashcards | backend/app/utils.py:130-142 | non-object reply raises; a missing `flashcards` key gives `[]`; otherwise the cards of that value |
| Extractor.DropsPartialCard | backend/app/utils.py:136-140 | a card without `back` is dropped while the complete one is kept |
| Json.PyStr | backend/app/utils.py:138-139 | `str()` leaves a string unchanged and prints an integer in decimal that reads back as the integer |
| Json.Get | backend/app/utils.py:74-79 | the definition of `dict.get(key, default)`; `WithDefaults` and `ExtractDigest` state its meaning for the records |
| FlashcardGrid.ToggleFlip | frontend/src/components/FlashcardGrid.jsx:9-19 | only the clicked index changes membership |
| FlashcardGrid.ToggleFlipTwice | frontend/src/components/FlashcardGrid.jsx:9-19 | clicking a card twice restores the flipped set |
| FlashcardGrid.AllIndices | frontend/src/components/FlashcardGrid.jsx:26 | the full set is exactly 0..n-1 and has n elements |
| FlashcardGrid.FlipAll | frontend/src/components/FlashcardGrid.jsx:21-29 | empty set when the count matches the number of cards; otherwise every index below n |
| FlashcardGrid.Step | frontend/src/components/FlashcardGrid.jsx:9-29 | the definition of one click, on a card or on flip-all; `RunStaysInRange` and `FlipAllAlternates` state its meaning |
| FlashcardGrid.Run | frontend/src/components/FlashcardGrid.jsx:9-29 | the definition of a sequence of clicks, applied in order; `RunStaysInRange` and `FlipAllAlternates` state its meaning |
| FlashcardGrid.FullIffAll | frontend/src/components/FlashcardGrid.jsx:22 | with in-range indices, the size test holds exactly when every card is flipped |
| FlashcardGrid.RunStaysInRange | frontend/src/components/FlashcardGrid.jsx:98-108 | clicks on rendered cards and on flip-all keep every flipped index below n |
| FlashcardGrid.FlipAllAlternates | frontend/src/components/FlashcardGrid.jsx:21-29 | flip-all resets a fully flipped grid and otherwise flips every card |
| FlashcardGrid.EscapeQuotes | frontend/src/components/FlashcardGrid.jsx:36-37 | escaping never shortens a field |
| FlashcardGrid.CsvRow | frontend/src/components/FlashcardGrid.jsx:36-38 | the definition of one exported row, `"front","back"` and a line break with quotes doubled; `ReadRow` states that it reads back as its card |
| FlashcardGrid.ExportCsv | frontend/src/components/FlashcardGrid.jsx:33-39 | the definition of the export, the rows concatenated in card order; `ExportCsvRoundTrip` and `ExportCsvSnoc` state its meaning |
| FlashcardGrid.ReadQuoted | frontend/src/components/FlashcardGrid.jsx:36-38 | the quoted-field reader of RFC 4180 always consumes input |
| FlashcardGrid.ReadEscaped | frontend/src/components/FlashcardGrid.jsx:36-38 | un-doubling an escaped field recovers it exactly (section 2, rule 7 of RFC 4180) |
| FlashcardGrid.ReadRow | frontend/src/components/FlashcardGrid.jsx:38 | one exported row reads back as its card |
| FlashcardGrid.ExportCsvRoundTrip | frontend/src/components/FlashcardGrid.jsx:33-39 | reading the export back gives every card, in order |
| FlashcardGrid.ExportCsvSnoc | frontend/src/components/FlashcardGrid.jsx:34-38 | each further card appends exactly one row |
| FlashcardGrid.CopyEntry | frontend/src/components/FlashcardGrid.jsx:55 | the definition of one copied entry `i+1. Q: front` / `   A: back`; `CopyAllTextShape` states its shape |
| FlashcardGrid.CopyAllText | frontend/src/components/FlashcardGrid.jsx:54-56 | the definition of the copied text, the entries joined by a blank line; `CopyAllTextShape` and `CopyAllTextSnoc` state its meaning |
| FlashcardGrid.CopyAllTextShape | frontend/src/components/FlashcardGrid.jsx:54-56 | no cards give the empty text; otherwise it starts `1. Q: ` and ends with the last answer, with no trailing separator |
| FlashcardGrid.CopyAllTextSnoc | frontend/src/components/FlashcardGrid.jsx:54-56 | each further card adds a blank line and its numbered entry |
| Text.NatToString | frontend/src/components/TranscriptCard.jsx:19 | decimal notation is all digits, has no leading zero, and is one digit exactly below 10 |
| Text.ParseNatToString | frontend/src/components/TranscriptCard.jsx:19 | decimal notation reads back as the number |
| Text.PadStart | frontend/src/components/TranscriptCard.jsx:19 | `padStart` keeps the string as a suffix and fills in front up to the width |
| Text.TrimEnd | frontend/src/components/ResultCard.jsx:46 | the trimmed text is a prefix, does not end in whitespace, and only whitespace was removed |
| Text.TrimStart | frontend/src/components/ResultCard.jsx:46 | the trimmed text is a suffix, does not start with whitespace, and only whitespace was removed |
| Text.Trim | frontend/src/components/ResultCard.jsx:46 | the definition of `.trim()` as `TrimStart` after `TrimEnd`; `TrimEnd` and `TrimStart` state what each side removes |
| Text.IsJsSpace | frontend/src/components/ResultCard.jsx:46 | the definition of the whitespace `trim()` removes; `TrimEnd` and `TrimStart` state its role |
| Text.IsPySpace | backend/app/utils.py:29 | the definition of the `\s` class of the fence pattern; `SkipSpace` states its role |
| Text.Join | frontend/src/components/FlashcardGrid.jsx:56 | the definition of `Array.prototype.join`; `JoinSnoc` and `JoinEndsWithLast` state its meaning |
| Text.JoinSnoc | frontend/src/components/FlashcardGrid.jsx:56 | joining one more part appends the separator and that part |
| Text.JoinEndsWithLast | frontend/src/components/FlashcardGrid.jsx:56 | a non-empty join ends with its last part |
| TranscriptCard.TwoDigits | frontend/src/components/TranscriptCard.jsx:19 | two digits read back as their value |
| TranscriptCard.OneDigitString | frontend/src/components/TranscriptCard.jsx:19 | a one-digit seconds part is padded with a leading zero |
| TranscriptCard.TwoDigitString | frontend/src/components/TranscriptCard.jsx:19 | a two-digit seconds part is left as its two digits |
| TranscriptCard.SecondsField | frontend/src/components/TranscriptCard.jsx:18-19 | the padded seconds part is exactly two digits |
| TranscriptCard.ColonJoin | frontend/src/components/TranscriptCard.jsx:19 | in `mins:ss` the only colon sits three characters from the end |
| TranscriptCard.Clock | frontend/src/components/TranscriptCard.jsx:17-19 | the definition of the `m:ss` label of a positive duration; `ClockReadsBack` states that it reads back as the duration |
| TranscriptCard.ClockReadsBack | frontend/src/components/TranscriptCard.jsx:17-19 | the label reads back as minutes and seconds below 60 with 60·mins + secs = input |
| TranscriptCard.FormatDuration | frontend/src/components/TranscriptCard.jsx:15-20 | "N/A" exactly for missing or zero seconds; otherwise a single-colon `m:ss` label that reads back as the input |
| ResultCard.InitialExpanded | frontend/src/components/ResultCard.jsx:15-21 | the five section keys, all open |
| ResultCard.ToggleSection | frontend/src/components/ResultCard.jsx:24-29 | only the clicked key flips (a missing key reads as closed and becomes open); every other key is unchanged |
| ResultCard.ToggleSectionTwice | frontend/src/components/ResultCard.jsx:24-29 | clicking a present section twice restores the map |
| ResultCard.Toggles | frontend/src/components/ResultCard.jsx:24-29 | the definition of a sequence of header clicks, applied in order; `TogglesKeepKeys` and `TogglesParity` state its meaning |
| ResultCard.TogglesKeepKeys | frontend/src/components/ResultCard.jsx:24-29 | clicks on the card's own headers keep the key set |
| ResultCard.TogglesParity | frontend/src/components/ResultCard.jsx:24-29 | a section's open state after many clicks depends only on whether it was clicked an odd number of times |
| ResultCard.Numbered | frontend/src/components/ResultCard.jsx:36 | the definition of a numbered list: the items as `1. x`, `2. y` and so on, joined by line breaks; `NumberedLines` states its meaning |
| ResultCard.NumberedLines | frontend/src/components/ResultCard.jsx:36 | lists are numbered from 1, one item per line joined by a line break |
| ResultCard.Lists | frontend/src/components/ResultCard.jsx:34-45 | the list part opens with `\n\nHighlights:\n`, the `Highlights` header after a blank line |
| ResultCard.Body | frontend/src/components/ResultCard.jsx:33-45 | the definition of the template's content, the summary line and the four lists; `CopyTextTrimsOnlyTheEnd` states what the copy keeps of it |
| ResultCard.CopyText | frontend/src/components/ResultCard.jsx:32-46 | the definition of the copied text, the template trimmed; `CopyTextTrimsOnlyTheEnd` and `CopyTextExact` state its meaning |
| ResultCard.ClosingIsBlank | frontend/src/components/ResultCard.jsx:45-46 | the template's closing line break and indentation are all whitespace |
| ResultCard.FramedEnd | frontend/src/components/ResultCard.jsx:32-46 | trimming the end removes the closing indentation and the body's trailing whitespace, keeping the leading line break |
| ResultCard.StartAfterBreak | frontend/src/components/ResultCard.jsx:32-33 | trimming the start removes only the template's opening line break |
| ResultCard.TrimKeepsHead | frontend/src/components/ResultCard.jsx:33-35 | the summary line survives trimming because a visible header follows it |
| ResultCard.TrimFramed | frontend/src/components/ResultCard.jsx:32-46 | trimming the template only removes its framing and trailing whitespace |
| ResultCard.CopyTextTrimsOnlyTheEnd | frontend/src/components/ResultCard.jsx:32-46 | the copy is the sections in order, with only trailing whitespace trimmed, and starts with the summary line |
| ResultCard.CopyTextExact | frontend/src/components/ResultCard.jsx:32-46 | when the body does not end in whitespace, the copy is exactly the body |
| ResultCard.Utf16Length | frontend/src/components/ResultCard.jsx:67 | a string's `length` is between its character count and twice that, and equals the count in the Basic Multilingual Plane |
| ResultCard.ItemCount | frontend/src/components/ResultCard.jsx:67 | the badge is 0 exactly for missing or empty items; a list shows its length; text shows its UTF-16 length |
| ResultCard.ItemsOf | frontend/src/components/ResultCard.jsx:116-155 | the five section keys receive items; the summary badge is the summary's UTF-16 length; the `actions` section shows the action items |

## Left out

- `json.loads` is an abstract parameter. Its grammar, float numbers and duplicate-key handling are not modelled, and the JSON number type holds integers only.
- Python `str()` of a list or dict (its `repr`) is an abstract parameter. `Json` objects are unordered maps, so `render` cannot see the key order that Python prints for a dict.
- `parse_gpt_json(None)` also returns `{}` through the falsy test at backend/app/utils.py:17. The model's reply is always a string.
- `parse_gpt_json` catches only `JSONDecodeError`. Other exceptions of `json.loads`, such as `RecursionError` on deeply nested input or `ValueError` for integers over the interpreter's digit limit, escape it. The parser parameter cannot raise, so these paths are not modelled.
- `formatDuration` is modelled over whole seconds. The client passes a float duration, and `Math.floor` of fractional parts and `NaN` are not modelled. A missing duration is `None`. Durations are unbounded naturals, so JavaScript number limits are not modelled. Minutes of 10^21 or more print in exponent form such as `1e+21`, and precision is lost above 2^53.
- The transcript clean-up functions called at backend/app/main.py:179-180 are not defined in `utils.py`, so they are not part of this model.
- The HTTP endpoints, service clients, audio compression, vector store, search and chat paths are left out. They are I/O and external services.
- Pydantic validation of the records is left out. Only the shapes are used.
- Clipboard writes, the CSV download, `setTimeout`, animation and JSX rendering are left out. They are UI side effects. Only the strings and state updates are modelled.
- The `copied` flags of the three components are left out. They are only set and reset around clipboard writes.

## Findings

| source | as written | input that shows it | evidently intended | confidence | as-written member | corrected member |
|---|---|---|---|---|---|---|
| backend/app/utils.py:22 | strategy 1 returns whatever `json.loads` gives, and `extract_structured_digest` then calls `.get` on it (line 74) | the reply `[]` (or `null`, `42`) | a dict, `{}` when no object was recovered, as the function's documentation says (lines 14-15) | medium; not executed | Extractor.ListReplyRaises | Extractor.ExtractDigestTotal |
