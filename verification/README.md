# Torn bank bot: credential store and bank report, modelled in Dafny

The bot links a Discord user to a Torn API key and, on request, shows a digest
of the player's recent money transactions. This project models the domain logic
of its three slash commands in `main.py`:

- `/key <api_key>` verifies the key with one API fetch and, when the response is
  usable, stores `{key, player}` under the user's id, overwriting any older record;
- `/deletekey` removes the user's record when there is one, and only then saves;
- `/bank` refuses unregistered users without fetching anything; otherwise it fetches
  the log and the networth sections, fails if the log response is unusable, and
  builds a report: entries of the last 60 days whose lower-cased title contains one
  of `paid`, `deposit`, `withdraw`, `sold`, `received`, `sent`, newest first, at most
  25, or a fixed "No relevant money transactions found in the past 2 months." line
  when none survive, followed by a networth line when that section is present.

Modules, one per concern:

- `Wrappers` (`wrappers.dfy`): `Option`.
- `Text` (`text.dfy`): ASCII lower-casing and substring search with its reference definition `Occurs`.
- `Api` (`api.dfy`): log entries, requests, decoded response objects, and `Usable`,
  the guard `not r or "error" in r` negated. Python's truthiness is modelled: an
  empty JSON object is as unusable as a failed request.
- `Credentials` (`credentials.dfy`): the store `map<UserId, Record>`, `RegisterKey`, `DeleteKey`.
  Each returns the new store, whether the file was written, and the reply.
- `Ordering` (`ordering.dfy`): the stable newest-first sort and the `[:25]` slice.
- `Selection` (`selection.dfy`): the 60-day window, the keyword filter, the filter loop
  over the log object, and `IsSelection`, the definition of a correct listing.
- `Report` (`report.dfy`): the report's lines and the `/bank` command.

Inputs the program gets from the outside are parameters. The verification response is an
`Option<Response>`, with `None` for a non-200 status. The `/bank` fetches are a function
`fetch: Request -> Option<Response>`, so the requests issued can be stated. The clock `now`
is an integer count of microseconds since the epoch, which is the resolution of
`datetime.utcnow()`. With that clock the cutoff comparison is exact:
`ts * 1000000 >= now - 60 * 86400 * 1000000`.

Behaviour of `main.py` the model keeps:

- `/bank` makes two separate fetches, `selections=log` then `selections=networth` (main.py:85-86).
  Both are made before the log response is checked, and only the log response can fail the report.
- Each entry line also shows the entry's category (main.py:111).
- A log response without a `"log"` key gives the no-transactions line.
  A log response that is an empty object is treated as a failed fetch.
- The networth response is not checked for an `"error"` field. Only the presence of a `"networth"` section matters.

## Model

| member | source | states |
|---|---|---|
| Credentials.RegisterKey | main.py:47-55 | a failed, empty or error verification leaves the store unchanged, saves nothing and replies "invalid key"; otherwise the user's record holds the given key and the response's name or "Unknown", the store is saved, and every other user's record is unchanged |
| Credentials.DeleteKey | main.py:64-69 | the user is absent afterwards; the store is saved exactly when the user was present; an absent user leaves the store unchanged; only the user's key is removed and other records are unchanged |
| Credentials.RegisterIdempotent | main.py:53-55 | registering again with the same key and verification result changes nothing further |
| Credentials.DeleteUndoesRegister | main.py:53-66 | a successful registration followed by a deletion leaves the original store minus the user |
| Credentials.RegisterOverwrites | main.py:53-54 | re-registration overwrites: the result does not depend on the user's previous record |
| Credentials.DeleteTwice | main.py:64-69 | a second deletion finds nothing, leaves the store unchanged and does not save |
| Text.Lower | main.py:101 | lower-casing keeps the length, keeps every character that is not an ASCII capital, turns each capital into the small letter at the same alphabet position, and leaves no capital |
| Text.LowerIdempotent | main.py:101 | lower-casing twice equals lower-casing once |
| Text.Contains | main.py:101 | the scan answers true exactly when the word occurs as a contiguous piece of the text |
| Text.NoOccurrence | main.py:101 | a word cannot occur where its first two characters never appear together |
| Selection.MentionsMoneyIgnoresCase | main.py:101-103 | the keyword test gives the same answer for a title and its lower-cased form |
| Selection.FilterLog | main.py:95-104 | every kept row is the log's own entry under its id, inside the 60-day window and mentioning a keyword; every such entry of the log is kept; no log id is kept twice |
| Selection.FilteredSize | main.py:95-104 | the filtered rows are exactly as many as the relevant log ids |
| Selection.SelectRows | main.py:94-109 | the listing satisfies `IsSelection`: only relevant entries, no id twice, non-increasing timestamps, exactly min(25, number of relevant entries) rows, and no relevant entry is left out while an older one is listed |
| Selection.WholeSecondCutoff | main.py:94-100 | when the clock reads a whole second, an entry is in the window iff its timestamp is at least now minus 5184000 seconds |
| Selection.FractionalSecondCutoff | main.py:94-100 | when the clock is strictly between two seconds, an entry is in the window iff its timestamp is strictly greater than the whole second minus 5184000 |
| Ordering.SortNewestFirst | main.py:109 | the sorted rows are a permutation of the input in non-increasing timestamp order, and the sort is stable: for every timestamp, the rows carrying it keep their input order |
| Ordering.OfTimeInsert | main.py:109 | inserting a row adds it in front of the rows with its timestamp and leaves the rows of every other timestamp as they were |
| Ordering.UniqueIdsPermutation | main.py:95-109 | reordering rows whose ids are distinct keeps the ids distinct |
| Ordering.Take | main.py:109 | the slice is a prefix of length min(n, number of rows) |
| Report.EntryLines | main.py:109-111 | one line per listed row, in order, each with the row's timestamp, title and category |
| Report.NetworthLines | main.py:113-116 | a networth line appears exactly when the networth response has a "networth" section, carrying its "total" or 0 |
| Report.ReportLines | main.py:92-116 | header, blank line, then either the listed rows in order or the single no-transactions line, then the optional networth line last; the no-transactions line is present iff nothing is listed |
| Report.ReportRequests | main.py:77-86 | an unregistered user causes no request; a registered user causes the log request then the networth request, both with the stored key |
| Report.Bank | main.py:72-118 | unregistered: no request and the register-first reply; unusable log response: the failure reply after both fetches; otherwise a report built from a correct selection of the log section and the networth response |
| Report.NoTransactionsIffNothingRelevant | main.py:106-111 | the report contains the no-transactions line iff the log has no relevant entry |
| Report.MissingLogSection | main.py:95-107 | a log response without a "log" key yields the no-transactions line |
| Report.ReportUsesRegisteredKey | main.py:81-86 | after a successful registration the report fetches with the newly stored key |
| Report.NoRequestsAfterDelete | main.py:77-79 | after a deletion the report makes no request |
| Report.RecentPaymentIsRelevant | main.py:94-104 | "Received payment" one day old passes the filter |
| Report.FactionEventIsIrrelevant | main.py:94-104 | "Joined faction" one day old fails the filter |
| Report.OldPaymentIsIrrelevant | main.py:94-104 | "Paid bounty" ninety days old fails the filter |

## Left out

- Discord wiring is not modelled. This covers the bot and command tree, the decorators, `on_ready`, the deferred and ephemeral replies, the prefix `bank` fallback and `bot.run` (main.py:14-17, 42-43, 121-131). It is framework plumbing.
- `fetch_torn_data` and aiohttp (main.py:33-39) are not modelled. Their result is an input: `None` for a non-200 status, otherwise the decoded object. The abstract `Request(endpoint, key)` also hides how the URL is built: main.py:35 appends `?key=...&comment=bankbot` to endpoints that already contain `?selections=...` (main.py:85-86), so the `/bank` URLs carry a second `?` and no well-formed `key` parameter.
- Creating, loading and saving `data.json` (main.py:20-30) is file I/O and is not modelled. The store is an in-memory map, and `saved` records whether the command would write it.
- The rendered text is not modelled. Each `Line` keeps the values it shows instead. This covers the header text, the `strftime` date format and the `${net:,.0f}` currency format. The networth total is an integer, although the API's value is a float.
- Reading configuration from the environment (main.py:10-12) and all async behaviour are not modelled.
- Text.Lower: lowers ASCII capitals only, whereas Python's `str.lower()` also lowers other Unicode letters.
- Selection.SelectRows: leaves open the order of entries with equal timestamps. The key order of the API's "log" object is not part of the model, so the filter loop visits keys in an arbitrary order. The sort's own stability is part of the contract of Ordering.SortNewestFirst.
- Responses whose log entries lack a "timestamp", "title" or "category" field (main.py:99, 101, 111), and timestamps `utcfromtimestamp` rejects, make the source raise. The model's entries are always complete, so that error path is not modelled.
- A "name" field whose value is not a string is not modelled. Such a value would be stored as the player name as it is.
