# F1TV console client — a Dafny model

pyF1Viewer is a console client for the F1TV streaming service, and f1tv_content.py is an
earlier revision of the same client. Every screen prints a numbered menu. The user types
an ordinal. The client then follows identifiers that it cuts out of the provider's URLs
with chains of Python `split`, until it reaches a content id and a channel to play.

This project models the client's decision logic:

- `PyStr`: Python's `in`, `find`, `split`, `join` and `partition` on strings. A Python
  `IndexError` or `KeyError` is the `None` of an `Option`.
- `Urls`: the identifiers cut out of URLs:
  - the channel id of a `playbackUrl`;
  - the collection id of a tray's `uriOriginal`;
  - the page id of a block's action URI;
  - the fallback query-string parse;
  - the query parameters of a playback request.
- `Client`: the client object's token cache and its playback request.
  - `login` reuses the token stored in `auth.json` while it is younger than 23 hours
    (82800 seconds). Otherwise it authenticates and overwrites the record.
  - `F1TVApp` is a class whose `Login` updates the stored record and the in-memory
    `ascendontoken`.
  - `Login` is proved equal to the transition function `LoginStep`.
- `Menu`: the shared counter loops that print the meeting, session, archive, year-block,
  archive-year and main menus. The counter advances even past entries that are not
  printed, so an ordinal still selects the entry it was printed beside. The stream menu's
  loop is in `Streams`, and the shows and documentaries menu's loop is in `Catalog`.
- `Streams`: the additional-streams menu of a session. The main feed is line 1; stream
  `k - 2` is line `k`.
- `Catalog`: the season, meeting, archive, archive-year, block, shows and documentaries
  menus, and the targets they lead to.
- `MainPage`: the viewer's main menu and dispatch, and the older revision's two-entry main
  page.
  - The viewer inserts live events at index 1 of the menu.
  - It dispatches on the first keyword the chosen entry contains.

HTTP responses, the clock and the user's typed ordinals are parameters. Nothing is printed
or fetched. In both revisions `login`, `play_content` and `check_additional_streams` do the
same thing, so each is modelled once. The rows below cite pyF1Viewer.py for them.

## Model

| member | source | states |
|---|---|---|
| PyStr.FindFrom | pyF1Viewer.py:128-132 | the leftmost occurrence of the pattern at or after the start index, and none if there is no occurrence there |
| PyStr.Find | pyF1Viewer.py:128-132 | `s.find(pat)`: the leftmost occurrence, with no earlier one; `None` exactly when `pat not in s` |
| PyStr.Split | pyF1Viewer.py:128-132 | `s.split(sep)` always yields at least one piece |
| PyStr.SplitPieces | pyF1Viewer.py:128-132 | the pieces of a split join back to the text, and no piece contains the separator |
| PyStr.SplitHead | pyF1Viewer.py:358 | `split(sep)[0]` is the text before the first separator, or the whole text |
| PyStr.SplitTail | pyF1Viewer.py:251-252 | without a separator the split has one piece; otherwise the later pieces are the split of the text after the first separator |
| PyStr.Field | pyF1Viewer.py:280 | `split(sep)[k]` with `IndexError` as `None`: field 0 is the text before the first separator; field 1 exists exactly when the separator occurs, and is the text up to the second separator |
| PyStr.FindAfterPrefix | pyF1Viewer.py:358 | when no separator starts inside `a`, the first separator of `a + sep + b` is right after `a` |
| PyStr.SplitAfterPrefix | pyF1Viewer.py:358 | splitting `a + sep + b` then gives `a` followed by the pieces of `b` |
| PyStr.UniqueLastCharBorderFree | pyF1Viewer.py:358 | a separator whose last character occurs nowhere else in it has no border |
| PyStr.NoOccurrenceAcrossBorder | pyF1Viewer.py:358 | text without a border-free separator gains no occurrence when a proper prefix of the separator follows it |
| PyStr.ContainsChar | pyF1Viewer.py:330 | a one-character separator occurs exactly when its character is in the text |
| PyStr.AbsentFirstChar | pyF1Viewer.py:357-370 | text without the first character of a keyword does not contain the keyword |
| PyStr.SplitJoin | pyF1Viewer.py:301-305 | for a border-free separator, splitting the join of pieces that do not contain it gives the pieces back |
| Urls.ChannelId | pyF1Viewer.py:128-132 | the channel id is `None` when the playback URL has no `CONTENT/PLAY?`; otherwise it is cut from the first `&`-segment of the query, after its first `=` |
| Urls.ChannelIdOfPlaybackUrl | pyF1Viewer.py:128-132 | a URL `<prefix>CONTENT/PLAY?<key>=<id>&<rest>` yields exactly `id`, whatever `rest` holds, further play markers included |
| Urls.FirstSegmentBeforeMarker | pyF1Viewer.py:130-131 | the first `&`-segment of `<key>=<id>&<rest>`, cut at the next play marker, is `<key>=<id>`, since any later marker lies in `rest` |
| Urls.CollectionId | pyF1Viewer.py:278-280 | the collection id is `None` exactly when `/TRAY/EXTCOLLECTION/` is missing; it is the text between the first and the second marker, and holds no marker |
| Urls.CollectionIdOfUri | pyF1Viewer.py:278-280 | `<prefix>/TRAY/EXTCOLLECTION/<id>` yields `id` |
| Urls.PageId | pyF1Viewer.py:247-253 | the page id is `None` exactly when `ALL/PAGE/` is missing; otherwise it is the text after the marker up to the next `/`, and contains no `/` |
| Urls.PageIdOfUri | pyF1Viewer.py:247-253 | `<prefix>ALL/PAGE/<id>/<rest>` yields `id` |
| Urls.PlayParams | pyF1Viewer.py:99-101 | `contentId` is always sent; `channelId` is sent exactly when it is a non-empty string, and with that value; there are no other keys |
| Urls.EmptyChannelIsMainFeed | pyF1Viewer.py:100-101 | an empty channel id gives the main feed's request |
| Urls.QueryPair | pyF1Viewer.py:330 | a segment without `=` fails; otherwise the key runs to the first `=` and the value to the next `=` or the end, and neither holds `=` |
| Urls.AssignKeys | pyF1Viewer.py:329-330 | the keys of the filled dictionary are exactly the keys assigned |
| Urls.AssignLastWins | pyF1Viewer.py:329-330 | each key holds the value of its last assignment |
| Urls.ParseQuery | pyF1Viewer.py:320-330 | the dictionary loop computes the fallback query parse `QueryParams` |
| Urls.QueryPairOfSegment | pyF1Viewer.py:330 | a segment `key=value` is read back as that pair |
| Urls.QuerySegmentsOfUri | pyF1Viewer.py:322-327 | the segments of `<prefix>?<query>` are the `&`-pieces of the query |
| Urls.QueryMapOfSegments | pyF1Viewer.py:329-330 | segments `key=value` give the dictionary that assigns the pairs in order |
| Urls.QueryParamsOfUri | pyF1Viewer.py:320-330 | `<prefix>?k1=v1&k2=v2...` parses to the dictionary that assigns the pairs in order |
| Client.StaleIsPermanent | pyF1Viewer.py:57-65 | a record that is due for refresh stays due at every later time, and a later login never reuses it |
| Client.StaleBoundary | pyF1Viewer.py:57-78 | a record written at `t` is reused at `t + 82799` and refreshed at `t + 82800` |
| Client.LoginStep | pyF1Viewer.py:51-94 | a record is reused exactly while it is younger than 23 hours, which loads its token and leaves the file alone; otherwise a token stores `{now, token}`; a failed authentication changes nothing; after success the token in use is the stored, fresh one |
| Client.FreshRecordNeedsNoCall | pyF1Viewer.py:56-78 | with a fresh record the authentication response is irrelevant |
| Client.CacheLifetime | pyF1Viewer.py:52-94 | a first login stores `{t, T}`; a login before `t + 82800` reuses `T`; one at or after it stores the new token and time |
| Client.LoginIdempotent | pyF1Viewer.py:52-94 | logging in again at the same moment after a success reuses the token and changes nothing |
| Client.F1TVApp.constructor | pyF1Viewer.py:13-20 | a new client holds no token |
| Client.F1TVApp.Login | pyF1Viewer.py:33-94 | the object's new record and token are exactly those of `LoginStep` applied to its old state |
| Client.F1TVApp.PlayContent | pyF1Viewer.py:96-104 | the request carries `PlayParams`, the `User-Agent` `RaceControl` and the in-memory token, and no other header |
| Menu.ListingLabelled | pyF1Viewer.py:269-275 | every printed line shows the label of the entry at its ordinal minus one |
| Menu.ListingAscending | pyF1Viewer.py:269-275 | printed ordinals rise |
| Menu.ListingComplete | pyF1Viewer.py:269-275 | every entry that qualifies is printed |
| Menu.NumberShown | pyF1Viewer.py:268-275 | the counter loop that skips entries prints exactly the listing, labelled, ascending and complete |
| Menu.NumberFrom | pyF1Viewer.py:163-166 | the counter loop that prints every entry puts entry `i` at `first + i` |
| Menu.NumberedLists | pyF1Viewer.py:163-168 | a menu that prints every entry from 1 is a listing of all of them |
| Menu.OrdinalSelectsListedEntry | pyF1Viewer.py:275-280 | the ordinal on a printed line selects the entry that line shows, and no other line carries it |
| Streams.CheckAdditionalStreams | pyF1Viewer.py:112-154 | with no stream list the main feed plays; otherwise line 1 is the main feed and line `j + 2` is stream `j` with its channel id; a failed extraction stops the menu at that stream and nothing plays; ordinal 1 plays the main feed, ordinal `k` the channel printed on line `k` |
| Catalog.YearContent | pyF1Viewer.py:174-193 | meetings are listed from 1 as `key,id - title`, and the chosen one's meeting key is passed on |
| Catalog.MeetingContent | pyF1Viewer.py:156-172 | sessions are listed from 1 as `id - title`, and the chosen one's id is passed on |
| Catalog.Archive | pyF1Viewer.py:261-281 | every line shows the label of a labelled tray with results, under that tray's position plus one; every such tray is listed, in rising order; the chosen tray gives its collection id, or nothing without the marker |
| Catalog.Target | pyF1Viewer.py:246-259 | a block leads to a year page exactly when its action URI has `ALL/PAGE/`, with that page id; otherwise it is content with its own id |
| Catalog.ArchiveYearBlock | pyF1Viewer.py:224-259 | blocks are listed from 1 by title on a search page, else by season or title; the chosen block leads to its target |
| Catalog.YearCategoriesListed | pyF1Viewer.py:201-205 | a listing of an archive year shows each category with results under its position plus one, a null label as "None", and omits no such category |
| Catalog.ArchiveYear | pyF1Viewer.py:196-222 | exactly the categories with results are listed under their own positions, a null label as "None"; the chosen category's items are listed from 1; the chosen item's id is passed on, or nothing when the category has no items |
| Catalog.JoinSnoc | pyF1Viewer.py:303-305 | joining one more title appends the separator and the title |
| Catalog.TerminatedIsJoin | pyF1Viewer.py:303-305 | the `+=` loop builds the `, `-join followed by one `, ` |
| Catalog.CombineTitles | pyF1Viewer.py:300-307 | the combined text of an unnamed block is its titles joined by `, `, or "None" without items |
| Catalog.TitleSeparatorBorderFree | pyF1Viewer.py:304 | `, ` has no border |
| Catalog.CombinedTitlesSplit | pyF1Viewer.py:300-305 | splitting the combined text at `, ` gives the titles back when none contains `, ` |
| Catalog.ShowsSource | pyF1Viewer.py:312-331 | a tray with a collection marker leads to that collection; otherwise to a search with its parsed query parameters, and nowhere when that parse fails |
| Catalog.ShowsDocumentaries | pyF1Viewer.py:285-331 | every tray is listed from 1 by its label or its combined titles; the chosen tray leads to its source |
| MainPage.Reversed | pyF1Viewer.py:345-348 | reversal keeps the length |
| MainPage.ReversedIndex | pyF1Viewer.py:345-348 | reversal maps index `k` to `n - 1 - k` |
| MainPage.MainMenu | pyF1Viewer.py:335-348 | the main menu has the five fixed entries and one per live event |
| MainPage.MenuWithInsert | pyF1Viewer.py:345-348 | inserting a live event at index 1 puts it in front of the live events found before |
| MainPage.MenuWithLayout | pyF1Viewer.py:335-348 | the menu with live items `live` holds "Login" at index 0, the label of `live[L - k]` at index `k` for `1 <= k <= L`, then "Year Choice", "Archive", "Shows" and "Documentaries" |
| MainPage.LiveInMembers | pyF1Viewer.py:342-343 | an item is a live item of a row exactly when the row holds it with subtype `LIVE` |
| MainPage.LiveItemsMembers | pyF1Viewer.py:341-343 | an item is a live item of the page exactly when some row holds it with subtype `LIVE` |
| MainPage.BuildMainMenu | pyF1Viewer.py:335-348 | the nested insert loop builds "Login", the live events from the last found to the first, then the other four fixed entries |
| MainPage.Dispatch | pyF1Viewer.py:356-370 | the first keyword the entry contains, in the order `LIVE EVENT`, Login, Year Choice, Archive, Shows, Documentaries, decides its action, each action exactly when its keyword is the first present; a live event is watched by its text before `" -"`; an entry with none of the six keywords does nothing |
| MainPage.LoginDispatch | pyF1Viewer.py:359-361 | "Login" logs in |
| MainPage.YearChoiceDispatch | pyF1Viewer.py:362-364 | "Year Choice" asks for a year |
| MainPage.ArchiveDispatch | pyF1Viewer.py:365-366 | "Archive" opens the archive |
| MainPage.ShowsDispatch | pyF1Viewer.py:367-368 | "Shows" opens page 410 |
| MainPage.DocumentariesDispatch | pyF1Viewer.py:369-370 | "Documentaries" opens page 413 |
| MainPage.LiveLabelDispatch | pyF1Viewer.py:345-358 | choosing a live event's entry watches that event's id, when the id holds no `" -"` |
| MainPage.MenuWithOrdinal | pyF1Viewer.py:349-370 | for a menu with `L` live items, ordinal 1 logs in, 2 to `L + 1` watch the live items from the last to the first, and the next four open year, archive, shows and documentaries |
| MainPage.MainMenuOrdinals | pyF1Viewer.py:333-370 | with `L` live events, ordinal 1 logs in, 2 to `L + 1` watch them from the last found to the first, and the next four open year, archive, shows and documentaries |
| MainPage.ViewerMainPage | pyF1Viewer.py:333-370 | the menu is printed from 1, and the chosen entry is dispatched |
| MainPage.ContentMainPage | f1tv_content.py:167-176 | 1 logs in, 2 asks for a year, anything else does nothing |
| MainPage.MainPagesAgree | f1tv_content.py:167-176 | with nothing live, the viewer's first two entries do what the older revision's two entries do |

## Left out

- HTTP requests, JSON decoding and response status checks (`if ... .ok`) are left out.
  Decoded responses are parameters. A failed status is not modelled.
- Reading and writing `auth.json` are left out. The file is the `authFile` field.
- Client.F1TVApp.Login: the clock is one parameter `now`. The source reads it once for
  the staleness test and again for the record it writes.
- Client.F1TVApp.Login: the authentication call is the parameter `response`. A response
  without `subscriptionToken` raises `KeyError` before any assignment, which is the
  `Failed` outcome.
- `get_api_key` is left out: the regular expression over a downloaded script is not
  modelled.
- The group-id fetch at the start of the viewer's `login` is left out. It catches only
  `KeyError`. An empty `userLocation` list raises `IndexError`, and a response that is not
  JSON raises a decode error. Either one aborts `login` before `auth.json` is read. The model
  does not capture that abort: `Login` always reaches the cache step.
- `print`, `input`, the `while True` main loop and launching `mpv` are left out. Printed
  menus are sequences of `Line`. Typed ordinals are parameters.
- Catalog.Archive, Catalog.ArchiveYear, Catalog.ArchiveYearBlock, Catalog.ShowsDocumentaries,
  Catalog.YearContent, Catalog.MeetingContent, Streams.CheckAdditionalStreams and
  MainPage.ViewerMainPage require ordinals within the menu. Python's wrap-around for
  ordinal 0 or negative ordinals, and the `IndexError` past the end, are not modelled.
  A non-numeric input is not modelled either.
- Catalog.ArchiveYearBlock and Catalog.ShowsDocumentaries: their `try` blocks also catch
  `KeyError`/`IndexError` raised later, inside the page they open (`archive_year`,
  `archive_year_block`). The model returns the target instead of following it, so it does
  not capture that a failure deep inside a later page falls back to the earlier choice.
- Missing JSON keys are modelled only where the source handles them:
  - a null label;
  - no `season`;
  - no `actions`;
  - no item list;
  - no `additionalStreams`.
  Other keys (`id`, `title`, `uriOriginal`) are always present in the model.
- Catalog.CombineTitles: a `KeyError` raised by an item without a title part-way through
  the loop is not modelled, because items always carry a title.
- Client.F1TVApp.PlayContent: the request keeps the token header as `None` before any
  login. Dropping `None` headers is the HTTP library's business.
- The older revision's fixed group id `14` in its URLs is not modelled, because URLs are
  not modelled.
