# Forensic timeline viewer — verified model of its core

The repository turns mail and browser exports into a single timeline page.
Three pieces of its own logic are modelled here:

* **The viewer (`timeline.js`).** The page keeps three event arrays
  (`sentEvents`, `inboxEvents`, `imageEvents`) and two sender sets
  (`markedSenders`, `excludedSenders`). The model is a `Session` class with
  those fields. Its methods are the add and remove handlers of the sets, the
  JSON load handler, the image picker handler and `renderTimeline`.
  `renderTimeline` is a method that returns what one render draws: the shared
  axis, the five labels, and the inbox, sent and image markers with their
  positions, "marked" flags and body previews. It is proved equal to the
  function `TimelineOf`, and the lemmas about the rendering are stated on
  that function.
* **The Firefox history exporter (`parse_firefox_history.py`).** The loop
  groups the query rows by URL into a dictionary and returns its values.
  The model runs the same loop over a key-order sequence and a map. It is
  proved equal to a declarative specification (`Grouped`), and the lemmas
  on that specification give the exporter's guarantees.
* **The mbox exporter (`parse_emails.py`).** The model builds one record per
  message: ids, defaults, lower-casing, dropping empty receivers, and the
  body chosen by `get_email_body`. It then sorts the records stably by
  timestamp string. The mail libraries are parameters.

Modules: `Wrappers` (Option, Result), `Text` (JavaScript `trim`,
lower-casing, the sender normal form), `TimelineFilter`, `TimelineLayout`,
`BodyPreview`, `Timeline`, `FirefoxHistory`, `MboxEvents`.

Behaviour of the code that the model keeps as written:

* A JSON load empties its target array before parsing. If parsing fails, the
  array stays empty and its earlier contents are lost.
* When every event has the same time, the axis duration is 0. `xPos` then
  divides by zero. The model gives such positions as `NotFinite` and does
  not require a non-zero duration.
* `timeline.js` has no browser-history array, no loader or renderer for
  browser events, and no date-range filter. The model has none of these
  either.

## Model

| member | source | states |
|---|---|---|
| `Timeline.Session.constructor` | timeline.js:11-16 | The page starts with three empty event arrays and two empty sender sets. The object invariant holds: both sets contain only non-empty strings in normal form. |
| `Timeline.Session.AddExclude` | timeline.js:58-67 | The input is accepted iff its trimmed, lower-cased form is non-empty. An accepted input adds exactly that normal form to `excludedSenders`. A blank input changes nothing. Only `excludedSenders` may change, and the invariant is kept. |
| `Timeline.Session.AddMark` | timeline.js:70-79 | The same rule as `AddExclude`, for `markedSenders`. |
| `Timeline.Session.RemoveExcluded` | timeline.js:94-98 | Removes exactly the clicked sender from `excludedSenders`. Nothing else changes. |
| `Timeline.Session.RemoveMarked` | timeline.js:119-123 | Removes exactly the clicked sender from `markedSenders`. Nothing else changes. |
| `Timeline.Session.LoadJson` | timeline.js:41-48 | On success the target array equals the parsed array. On failure the alert is raised and the target array is empty, so its old contents are lost. The other array is unchanged. |
| `Timeline.Session.LoadImages` | timeline.js:18-29 | `imageEvents` holds one entry per selected file, in file order. Each entry carries the file's name, the file, and its `lastModified` time. |
| `Timeline.Session.Render` | timeline.js:131-163 | The rendering equals `TimelineOf` of the current state: nothing when all arrays are empty, otherwise the axis, the labels and the three marker lists. |
| `Timeline.DrawInbox` | timeline.js:166-198 | The inbox loop with its `continue` yields exactly `InboxDots`: one marker per event that is not skipped, in array order. |
| `Timeline.DrawSent` | timeline.js:201-250 | The sent loop, using the receiver scan, yields exactly `SentDots`. |
| `Timeline.DrawImages` | timeline.js:253-272 | Every image gets one marker, in order, placed at `xPos` of its time. |
| `Timeline.Dots` | timeline.js:166-179 | Every marker comes from a shown event of the list and carries that event's verdict flag, position and preview. Every shown event has its marker. There are no more markers than events. |
| `Timeline.NothingDrawnIffEmpty` | timeline.js:135-138 | A render draws nothing iff all three arrays are empty. |
| `Timeline.RenderAxis` | timeline.js:135-146 | When something is drawn, there is at least one time, and the axis is the minimum and maximum over all sent, inbox and image times. The sender sets play no part in it. |
| `Timeline.AxisSpansAllEvents` | timeline.js:135-146 | The axis covers the time of every sent, inbox and image event, including events that exclusion skips. |
| `Timeline.MarkersWithinAxis` | timeline.js:143-150 | When the duration is positive, every drawn marker lies in [0, 100]%. When the duration is 0, no marker has a finite position. |
| `Timeline.DrawnEvents` | timeline.js:171-228 | A sent event is drawn iff none of its receivers is excluded. It is then boosted iff some receiver is marked. An inbox event is drawn iff its inbox verdict is "shown". |
| `Timeline.ExcludedAddressExample` | timeline.js:171-223 | Excluding a@x.com hides both an inbox message from a@x.com and a sent message to a@x.com. |
| `TimelineFilter.InboxVerdictSpec` | timeline.js:171-179 | An inbox event is skipped iff its normalised sender is non-empty and excluded. It is boosted iff that sender is non-empty, not excluded and marked. Exclusion wins over marking. A missing or blank sender is neither skipped nor boosted. |
| `TimelineFilter.InboxGuardRedundant` | timeline.js:171-177 | When neither set holds "", the inbox rule is plain set membership of the normalised sender. |
| `Timeline.SenderSetInboxRule` | timeline.js:58-67 | The sets the add handlers keep (non-empty normal forms, the `Session` invariant) never hold "", so for them the inbox rule is plain membership of the normalised sender. |
| `TimelineFilter.ScanReceivers` | timeline.js:207-221 | The loop sets `isExcluded` iff some receiver, trimmed and lower-cased, is excluded. It stops at the first excluded receiver: then `isMarked` says whether some receiver before that one is marked. When nothing is excluded, `isMarked` is set iff some receiver is marked. `isMarked` is never set without a marked receiver. |
| `TimelineFilter.SentEventVerdict` | timeline.js:207-223 | Gives the declarative sent verdict: skipped iff some receiver is excluded, otherwise boosted iff some receiver is marked. A non-array `receivers` is never skipped and never boosted. |
| `TimelineFilter.SentExclusionWins` | timeline.js:210-223 | One excluded receiver is enough to skip a sent event, whatever its other receivers are. |
| `TimelineFilter.SentVerdictOrderFree` | timeline.js:211-221 | The `break` makes the scan order-dependent, but the verdict is not: reordering the receivers gives the same verdict. |
| `TimelineLayout.MinOf` | timeline.js:144 | The minimum is one of the times and no time is below it. |
| `TimelineLayout.MaxOf` | timeline.js:145 | The maximum is one of the times and no time is above it. |
| `TimelineLayout.AxisOf` | timeline.js:143-146 | Both ends of the axis are attained. Every time lies between them, so the duration is never negative. |
| `TimelineLayout.XPos` | timeline.js:148-150 | The position is not finite iff the duration is 0. Otherwise the position times the duration equals `(t - minTime) * 100`. |
| `TimelineLayout.XPosEnds` | timeline.js:148-150 | With a positive duration, `xPos(minTime)` is 0% and `xPos(maxTime)` is 100%. |
| `TimelineLayout.XPosMonotone` | timeline.js:148-150 | With a positive duration, `xPos` is monotone. |
| `TimelineLayout.XPosInRange` | timeline.js:148-150 | With a positive duration, every time inside the axis maps into [0, 100]. |
| `TimelineLayout.LabelTimes` | timeline.js:153-155 | There are exactly 5 label times. The first is `minTime`, the last is `maxTime`, and neighbours differ by `duration / 4`. |
| `TimelineLayout.Labels` | timeline.js:157-163 | There is one label per label time, in order. |
| `TimelineLayout.LabelPositions` | timeline.js:153-160 | With a positive duration, the labels sit at 0, 25, 50, 75 and 100%. With duration 0, none has a finite position. |
| `BodyPreview.FlattenLines` | timeline.js:184 | Every line feed becomes a space. Every other character stays, so the length is unchanged and no line feed is left. |
| `BodyPreview.Preview` | timeline.js:184 | A missing or empty body gives "". Otherwise the preview holds the first 200 characters with line feeds turned into spaces. One "…" follows exactly when the body is longer than 200. |
| `Text.Trim` | timeline.js:60 | The result of `trim()` has no whitespace at either end. |
| `Text.TrimCutsOnlySpace` | timeline.js:60 | `trim()` returns one contiguous slice of its input. Everything it cuts off, at the front and at the back, is whitespace. |
| `Text.NormalizeOfNormal` | timeline.js:60 | A string that is already trimmed and has no upper-case letter is its own normal form. |
| `Text.NormalizeIdempotent` | timeline.js:60 | Trimming and lower-casing twice gives the same result as doing it once. This is why the sender sets stay in normal form. |
| `Text.NormalizeTrimmed` | timeline.js:212 | A normalised receiver or sender has no whitespace at either end. |
| `FirefoxHistory.Urls` | parse_firefox_history.py:31-38 | The dictionary keys are distinct and non-empty. They are exactly the URLs of the kept rows. |
| `FirefoxHistory.Visits` | parse_firefox_history.py:42 | A URL's timestamps are empty iff no kept row has that URL. Each timestamp is the visit date of a kept row with that URL. |
| `FirefoxHistory.FirstRow` | parse_firefox_history.py:37-40 | Finds the first kept row of a URL, or reports that there is none. |
| `FirefoxHistory.Grouped` | parse_firefox_history.py:46-47 | The export has one entry per key, in key order. |
| `FirefoxHistory.ParseFirefoxPlaces` | parse_firefox_history.py:23-47 | The `defaultdict` loop, with `continue` for falsy url or date, first-seen metadata and one append per row, followed by `list(entries.values())`, equals `Grouped(rows)`. |
| `FirefoxHistory.EntryShape` | parse_firefox_history.py:24-42 | Every entry has type "browser", a non-empty URL and at least one timestamp. URLs are distinct. Every kept row's URL has an entry, and every entry's URL comes from a kept row. |
| `FirefoxHistory.FirstAppearanceOrder` | parse_firefox_history.py:37-47 | Entries are ordered by the first kept row of their URL (dictionary insertion order). |
| `FirefoxHistory.FirstRowMetadata` | parse_firefox_history.py:37-40 | Title (None becomes "") and visit count come from the URL's first kept row. Later rows never overwrite them. |
| `FirefoxHistory.TimestampsPerKeptRow` | parse_firefox_history.py:31-42 | The entries hold as many timestamps in total as there are kept rows. |
| `FirefoxHistory.TimestampsAscending` | parse_firefox_history.py:20-42 | If the kept rows are ascending by visit date (the query's ORDER BY), each entry's timestamps are non-decreasing. |
| `MboxEvents.FirstUsable` | parse_emails.py:10-20 | Finds the first part that is `text/plain`, not an attachment, and decodes. If there is none, no part qualifies. |
| `MboxEvents.GetEmailBody` | parse_emails.py:7-27 | For a multipart message: the text of the first usable part in walk order, or "" if there is none. For a single-part message: the decoded payload, or "" if decoding fails. |
| `MboxEvents.LowerNonEmpty` | parse_emails.py:47 | Receivers are non-empty and lower-case. Each comes from a non-empty address, and every non-empty address is kept. The list is empty iff every address is empty. |
| `MboxEvents.Built` | parse_emails.py:34-65 | There is one record per message, none dropped. The i-th message gives record number i + 1. |
| `MboxEvents.BuiltRecords` | parse_emails.py:34-65 | Ids are 1..n in mailbox order. The subject is the Subject header when it is non-empty, and "(No subject)" otherwise. The sender is the lower-cased parsed From address when that is non-empty, and "(unknown)" otherwise. Receivers are the lower-cased non-empty addresses of a non-empty To header, and empty without one. The timestamp is the parsed Date header, absent when there is no header or it does not parse. The body is the one `get_email_body` chooses. |
| `MboxEvents.InsertByKey` | parse_emails.py:68 | One insertion step adds exactly the new event. |
| `MboxEvents.SortByTimestamp` | parse_emails.py:68 | The sort returns a permutation of its input. |
| `MboxEvents.SortSorted` | parse_emails.py:68 | The result is ascending by `timestamp or ""` in Python's string order. |
| `MboxEvents.SortStable` | parse_emails.py:68 | For every key, events with that key keep their input order. |
| `MboxEvents.WithKeyIncreasing` | parse_emails.py:34-68 | Within each key, ids are increasing, so ties stay in mailbox order. |
| `MboxEvents.ParseMbox` | parse_emails.py:30-69 | One record per message, sorted stably: the same count, a permutation of the built records, ascending by key, each key's records in input order with increasing ids. |

## Left out

- DOM construction, CSS classes, hover colours, tooltip text other than the body preview, and the `updateExcludedList`/`updateMarkedList` rendering are left out. They are presentation.
- `copyToClipboard`, `window.open` and `URL.createObjectURL` are left out. They are browser side effects.
- `FileReader`, the file-input wiring, the `if (!file) return` guard and the async handlers are left out. `LoadJson` models only the synchronous `onload` body.
- The `renderTimeline()` calls inside the handlers are left out. A render is a separate call of `Render`.
- `JSON.parse` is an input. Its outcome is a parsed array or a `LoadError`. JSON values that are not event objects, such as a receiver that is not a string, are not modelled. Neither is a render that throws inside the `try` and raises the alert after the data has been loaded.
- Date parsing and formatting are left out: `new Date(...).getTime()`, `toISOString`, `toLocaleDateString` and `datetime.utcfromtimestamp(...).isoformat()`. Viewer times are integer milliseconds, browser visit times are the raw `visit_date`, and mbox timestamps are the opaque strings `dateparser` yields. A timestamp that does not parse, giving NaN in JavaScript, is not modelled.
- Timeline.Session.LoadJson: does not model the `RangeError` that `targetArray.push(...data)` throws when the array has more elements than the engine accepts as call arguments. On such a load the code alerts and leaves the array empty, while the model's load of a parsed array always succeeds, because the argument limit depends on the engine.
- Timeline.Session.Render: does not model the `RangeError` that `Math.min(...times)` and `Math.max(...times)` throw past the same engine limit, which stops the render with nothing drawn. The model always draws a non-empty state, because that limit depends on the engine.
- FirefoxHistory.ParseFirefoxPlaces: does not model the exception `datetime.utcfromtimestamp(visit_date / 1_000_000)` raises for a visit date outside the platform's date range, which aborts the whole export. The model always returns `Grouped(rows)`, because the range depends on the platform's C library.
- TimelineLayout.XPos: computed in exact reals, not IEEE doubles. Division by a zero duration is `NotFinite` and NaN and ±Infinity are not told apart.
- Text.ToLower: folds ASCII letters only. JavaScript `toLowerCase` and Python `lower` fold all of Unicode.
- BodyPreview.Preview: counts Unicode characters. JavaScript `length` and `slice` count UTF-16 code units, so a surrogate pair can be split differently.
- The SQLite connection and query are left out. The rows are an input sequence, and their order is stated as a precondition where it matters.
- `mailbox`, `parseaddr`, `getaddresses`, `dateparser` and payload decoding are parameters or given inputs. `msg.walk()` is given as its sequence of parts in walk order.
- The `__main__` blocks of both Python files are left out. They handle prompts, `json.dump` and file writes.
- Python's Timsort is represented by an insertion sort with the same stable result. Stability and permutation are proved. That a stable sort's result is unique is not proved.
