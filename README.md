# PDF redaction service: the redaction core in Dafny

The service accepts an uploaded PDF and extracts the text of each page. On every page it replaces sensitive information with fixed tokens such as `[EMAIL REDACTED]`, `[PHONE REDACTED]` or `[SSN REDACTED]`. It counts what it found per category and returns the redacted pages, the per-page counts and the document totals. The web page then shows those counts as a one-line summary such as `Phones: 3, Emails: 1`.

This project models three parts of it:

- **`redact_sensitive_info`** and its helper **`apply_patterns`** (`backend/main.py`). The email pattern runs first, followed by ten categories of patterns in a fixed order: phones, ssn, credit_cards, dates, addresses, names, companies, financial, ids, network.
  - Each pattern counts its matches in the ORIGINAL text but substitutes in the working copy, which earlier patterns may already have rewritten.
  - If a pattern raises during counting (`findall`), it is skipped entirely.
  - If a pattern raises only during substitution (`sub`), its count is kept and the text stays as it was.
  - Every category records its count under its key, even when the count is 0.
  - An exception raised by the email pass is not caught here; it reaches the page loop.
- **The page loop of `redact_pdf`** (`backend/main.py`), without the file upload and PDF parsing:
  - a name that does not end in `.pdf` is rejected;
  - a reader that fails gives the "Failed to process the PDF" error;
  - a page without text gets the no-text placeholder;
  - a page whose processing raised gets the error placeholder;
  - the counts of each successfully redacted page are folded into `total_redactions`.
- **`formatRedactionStats`** (`frontend/src/App.js`): keep the positive counts, sort them by count (largest first, with a stable sort), turn `snake_case` keys into `Title Case` labels, render each as `Label: count`, and join them with `", "`.

Modules:

| file | module | contents |
|---|---|---|
| `wrappers.dfy` | `Wrappers` | `Option` and `Outcome` (a value, or the message of an exception) |
| `patterns.dfy` | `Patterns` | the regular-expression engine as a parameter; `findall` counting and `sub` |
| `catalog.dfy` | `Catalog` | the email pattern, the ten categories, their patterns as written, tokens and keys |
| `redactor.dfy` | `Redactor` | `redact_sensitive_info` as a specification function and as the imperative class `RedactionRun` |
| `redactor_properties.dfy` | `RedactorProperties` | what the counts and the redacted text are |
| `document.dfy` | `Document` | one page, the page loop, and the aggregation of the totals |
| `document_properties.dfy` | `DocumentProperties` | what the totals are |
| `stats_format.dfy` | `StatsFormat` | the summary line of the web page |

The regular-expression language is not modelled. An `Engine` is a parameter that says where a match starts, how long it is, and whether evaluating a pattern on a text raises an exception. The patterns themselves are kept as their exact source strings. Every property below therefore holds for every engine.

## Model

| member | source | states |
|---|---|---|
| `Patterns.SpansFrom` | backend/main.py:133 | The matches found from a position on are non-empty, lie inside the text, and run left to right without overlapping. Each one is exactly the match the engine reports at its start. |
| `Patterns.SpansFromComplete` | backend/main.py:133 | The scan skips no match: every position from the start on at which the engine reports a match that fits in the text lies inside one of the spans found. |
| `Patterns.MatchIsCounted` | backend/main.py:133-134 | Text in which the engine reports a match that fits has a positive `findall` count, and that match's position is covered by a counted span. |
| `Patterns.Sub` | backend/main.py:135 | Substitution leaves the text as it was when the pattern has no match. |
| `Patterns.SubLength` | backend/main.py:135 | After substitution, the length is the old length, minus the characters the matches covered, plus one replacement token per counted match. |
| `Patterns.SubPlacesReplacement` | backend/main.py:135 | When there is a match, the text before the first match is unchanged and the replacement token follows it. |
| `Catalog.CatalogLabels` | backend/main.py:145-175 | The category keys are, in order, phones, ssn, credit_cards, dates, addresses, names, companies, financial, ids, network. Together with `emails`, all eleven keys are distinct. |
| `Catalog.CatalogKeysDistinct` | backend/main.py:145-175 | No two categories share a key, and none uses `emails`. So no category overwrites another's count. |
| `Redactor.Redact` | backend/main.py:24-177 | `redact_sensitive_info` raises exactly when the email pattern raises on the input. Otherwise it returns the redacted text and the counts. |
| `Redactor.RedactionRun.constructor` | backend/main.py:26-27 | The working copy starts as the input, and the counts start empty. |
| `Redactor.RedactionRun.ApplyPatterns` | backend/main.py:128-140 | The loop over a category's patterns leaves the count and the working copy that the pattern fold gives. The result is stored under the category's key, and the other counts are unchanged. |
| `Redactor.RedactSensitiveInfo` | backend/main.py:24-177 | The imperative run (the email pass, then `apply_patterns` for each category in order) returns exactly `Redact`. This includes the exception from the email pass. |
| `RedactorProperties.CountFromOriginal` | backend/main.py:131-134 | A category's count is the sum, over its patterns, of their matches in the ORIGINAL text. Patterns whose `findall` raises add 0. The working copy plays no part. |
| `RedactorProperties.RunCategoriesCounts` | backend/main.py:139-175 | Running the categories adds exactly their keys to the counts. Each key holds its category's sum, and any other key keeps its value. |
| `RedactorProperties.RedactCounts` | backend/main.py:139-175 | A successful redaction has exactly the eleven keys. `emails` holds the number of email matches in the input, and each category key holds its category's sum. |
| `RedactorProperties.ChainAppend` | backend/main.py:131-135 | Applying two lists of rewrite rules in turn is the same as applying their concatenation. |
| `RedactorProperties.PatternsWorking` | backend/main.py:131-138 | A category's working copy is its rules applied one after another. Each rule rewrites every match unless its pattern raises on the input or on the working copy. |
| `RedactorProperties.RunCategoriesText` | backend/main.py:148-175 | The text left by the categories is the chain of all their rules, category after category. |
| `RedactorProperties.RedactText` | backend/main.py:135-175 | The redacted text is the whole pipeline applied to the input: the email rule first, then every catalog pattern in order, each applied to the previous result. |
| `RedactorProperties.PatternsNoMatch` | backend/main.py:131-138 | A category none of whose patterns matches leaves the count and the working copy as they were. |
| `RedactorProperties.RunCategoriesNoMatch` | backend/main.py:148-175 | Categories none of whose patterns match leave the text unchanged and record 0 under each of their keys. |
| `RedactorProperties.ZeroCountsSplit` | backend/main.py:145-175 | The all-zero counts are `emails` plus the ten category keys, each 0. |
| `RedactorProperties.NoMatchUnchanged` | backend/main.py:24-177 | Text in which no pattern matches comes back unchanged, with all eleven keys present and every count 0. |
| `RedactorProperties.PatternsAppend` | backend/main.py:131 | Running a list of patterns split in two is the same as running the two parts in turn. |
| `RedactorProperties.PatternsShift` | backend/main.py:134 | A larger starting count only shifts the final count. The working copy does not depend on the count. |
| `RedactorProperties.FindallFailureSkipsPattern` | backend/main.py:132-138 | A pattern whose `findall` raises is as if absent: it adds no count and changes no text, and the patterns after it still run. |
| `RedactorProperties.SubFailureKeepsCount` | backend/main.py:132-138 | A pattern whose `sub` alone raises still adds its count of matches in the input. It leaves the working copy as the earlier patterns left it, and the later patterns still run. |
| `Document.RedactPage` | backend/main.py:200-225 | The body of the page loop gives one page's text and counts. The counts go into the totals only when redaction succeeded: empty or missing text gives the placeholder and `{}`, and an exception gives the error placeholder and `{}`. |
| `Document.AddStats` | backend/main.py:215-219 | The fold of a page's counts into the totals gives the key-wise sum. Keys that are already present are added to, and new keys are inserted. |
| `Document.RedactPdf` | backend/main.py:181-238 | A name not ending in `.pdf` is rejected with "Only PDF files are allowed". A reader failure gives "Failed to process the PDF: ..." with its message. Otherwise there is one text and one counts entry per page, in order, `total_pages` is the number of pages, and `total_redactions` is the aggregation over the redacted pages. |
| `DocumentProperties.TotalsAreSums` | backend/main.py:214-219 | A key is in the totals exactly when some redacted page has it. Its total is the sum of its counts over the redacted pages. |
| `DocumentProperties.KeySumAppend` | backend/main.py:199-219 | The per-key sum over two runs of pages is the sum of the two. |
| `DocumentProperties.DropUnredactedKeySum` | backend/main.py:203-225 | Removing a page that was not redacted leaves every per-key sum unchanged. |
| `DocumentProperties.DropUnredactedSeen` | backend/main.py:203-225 | Removing a page that was not redacted leaves unchanged which keys appear. |
| `DocumentProperties.UnredactedPageAddsNothing` | backend/main.py:203-225 | A page without text, or one whose processing raised, leaves `total_redactions` as it would be without that page. |
| `DocumentProperties.NoRedactedPageNoTotals` | backend/main.py:194-233 | When no page was redacted, `total_redactions` is the empty dictionary. |
| `DocumentProperties.PageOutcome` | backend/main.py:200-225 | A page is redacted exactly when it has non-empty text and the email pass, the only unguarded step, does not raise on it; its counts then have the eleven keys. Other pages have no counts, and a page with no or empty text gets the no-text placeholder. |
| `DocumentProperties.TotalsKeys` | backend/main.py:214-219 | Once any page has non-empty text on which the email pass does not raise (so that its redaction succeeds), `total_redactions` has exactly the eleven keys. |
| `StatsFormat.Positive` | frontend/src/App.js:10-11 | The filter keeps exactly the entries with a positive count. |
| `StatsFormat.SortedFirstIsLargest` | frontend/src/App.js:12 | In a sorted list, the first entry has the largest count. |
| `StatsFormat.Insert` | frontend/src/App.js:12 | Inserting into a sorted list keeps it sorted (largest first), adds one element, and keeps all the others. |
| `StatsFormat.SortByCount` | frontend/src/App.js:12 | The sort returns the same entries, ordered by count from largest to smallest. |
| `StatsFormat.WithCountAppend` | frontend/src/App.js:12 | The entries with a given count, taken from two lists joined, are those of the first list followed by those of the second. |
| `StatsFormat.WithCountAbsent` | frontend/src/App.js:12 | A list without a given count has no entries with that count. |
| `StatsFormat.InsertStable` | frontend/src/App.js:12 | Insertion puts the new entry after every entry with an equal count. |
| `StatsFormat.InsertStableBehind` | frontend/src/App.js:12 | Insertion behind the head of the list keeps the order among equal counts. |
| `StatsFormat.InsertStableInFront` | frontend/src/App.js:12 | Insertion in front of a head with a smaller count keeps the order among equal counts. |
| `StatsFormat.SortIsStable` | frontend/src/App.js:12 | The sort is stable: entries with equal counts keep their original order. |
| `StatsFormat.InsertPermutes` | frontend/src/App.js:12 | Insertion adds exactly one occurrence of the new entry. |
| `StatsFormat.SortPermutes` | frontend/src/App.js:12 | The sort is a permutation of its input. |
| `StatsFormat.PositiveKeepsOrder` | frontend/src/App.js:10-11 | The filter keeps the entries of each positive count in their original order. |
| `StatsFormat.ReplaceUnderscoresAt` | frontend/src/App.js:19 | Every `_` becomes a space, and every other character is kept. |
| `StatsFormat.CapitalizeWordsAt` | frontend/src/App.js:20 | A word character that does not follow another word character is upper-cased, and every other character is kept. |
| `StatsFormat.FormatLabelAt` | frontend/src/App.js:18-20 | A label has the key's length. Each `_` becomes a space, each letter that begins a word (after `_` or a non-word character) is upper-cased, and every other character is kept. |
| `StatsFormat.NatToStringRoundTrip` | frontend/src/App.js:22 | A count is shown as a non-empty run of decimal digits, without a leading zero, that reads back as the count. |
| `StatsFormat.RenderAll` | frontend/src/App.js:16-23 | Each entry is rendered as `Label: count`, in order. |
| `StatsFormat.JoinStartsWithFirst` | frontend/src/App.js:23 | The joined line starts with the first part. |
| `StatsFormat.FormatRedactionStats` | frontend/src/App.js:6-24 | A missing stats object gives `null` and a present one gives a string. When no count is positive, that string is "No sensitive information detected". |
| `StatsFormat.FormatPositive` | frontend/src/App.js:9-23 | When some count is positive, the line joins the rendered positive entries with `", "`, largest count first, with equal counts in their original order. The line starts with the largest entry and is never the "nothing detected" message. |

## Left out

- The regular-expression language: an `Engine` parameter stands in for Python's `re`.
  - Empty matches cannot be represented: a length of 0 means "no match here".
  - A reported match that would run past the end of the text is treated as no match.
  - `findall` is modelled through the number of matches only. How it groups its results is irrelevant to `len(...)`.
- The replacement-string escape processing of `re.sub`: no token in the catalog contains a backslash.
- The ten explicit `apply_patterns` calls are modelled as one loop over the ordered catalog `Catalog.Categories`. The keys, tokens and order are those of the source.
- PDF handling: reading the upload, `PyPDF2.PdfReader` and `extract_text` are not modelled. The reader is a parameter that gives either one `Extraction` per page or the exception it raised.
- Logging, FastAPI routing, CORS, the server start-up script (`start_app.py`), `frontend/src/config.js` and the React `App` component are not part of this model.
- `DocumentProperties.NoRedactedPageNoTotals`: when no page is redacted, `total_redactions` is `{}` (main.py:194), not a map of zeros; the model follows the code.
- `StatsFormat.FormatRedactionStats`: the stats object is modelled as the ordered list of its entries (the order `Object.entries` gives). Only the `null`/`undefined` case of `!stats` is modelled, because the caller never passes another falsy value.
- `StatsFormat.UpperCase`: upper-cases ASCII letters only. That is enough, because JavaScript's `\w` matches only ASCII word characters.
- `Redactor.Redact`, `Document.AddStats`: the counts are maps, so the order of their keys is not modelled. In the source, `redaction_info` is filled `emails` first and then in catalog order, and `total_redactions` takes keys in first-seen order. Because the summary line's stable sort keeps the JSON key order for equal counts, the model does not tie that order to the backend: `StatsFormat.FormatRedactionStats` takes its entries in whatever order it is given.
