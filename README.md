# xiaohongshu-crawler core, modelled in Dafny

The system is a browser-driven scraper for the Xiaohongshu (RedNote) site,
served to AI clients through an MCP server. It searches notes by keyword,
scrolls listing and comment pages until enough items have loaded, parses
listing cards into nine-field summaries, and fetches note details with
comments under a bounded retry. A long-lived `CrawlerSession` owns the
browser and serialises every operation behind a lock. It also lists the
saved data files. Errors reach the client as a six-way coded record.

This project models that core. Every call into the browser driver is an
oracle: `query_selector`, `wait_for_selector`, `goto`, `new_page` and the
login probe. An oracle returns a value or one of the outcomes `Ok`,
`Timeout` or `Error`. The model proves what the code between those calls
does.

Modules follow the source files:

- `Parser` (`src/parser.py`): `normalize_count` over an exact decimal
  reading, and `parse_search_card` over a card given as a map from selector
  to element plus a card-wide "a query raises" flag.
- `Harvest` holds what `src/search.py` and `src/comment.py` share:
  - first-match selector detection;
  - the stale-counter scroll loop, specified by the run it produces (`IsRun`);
  - "parse the first N, drop failures" (`Somes`, `Head`).
- `Search` (`src/search.py`) and `Comment` (`src/comment.py`): the
  harvesters. The visible item count is an oracle indexed by measurement
  number; scroll distances are chosen nondeterministically within their
  bounds.
- `Note` (`src/note.py`):
  - the `/explore/` id scanner;
  - the ready-selector wait;
  - one attempt and the bounded retry loop over freshly opened pages;
  - the batch loop with its skips and delays.
- `Session` (`src/session.py`): `CrawlerSession` as a class with `running`,
  `bm` and `exitStack` fields, a ghost `locked` flag and a ghost log of the
  collaborator calls. Also the stem → keyword function and the saved-file
  filter.
- `Errors` (`src/errors.py`): the error record, `to_dict`, and the six
  factories.
- `Storage` (`src/storage.py`): `_sanitize_filename` and the writes that
  `save_search_results` plans.
- `Server` (`mcp_server.py`) covers the validation layer of the tools:
  - stripping and clamping;
  - the timeout table and the timeout wrapper;
  - the `safe_url` prefix;
  - the file-name guard of the data resource.
- Shared helpers:
  - `Driver`: page oracles and a `Browser` class that counts pages requested, open and closed;
  - `Text`: strip, split, find and lower-case over ASCII;
  - `Numerals`: digit strings;
  - `Wrappers`: `Option` and `Reply`, a value or a raised failure.

The scroll loops terminate only if the count settles. `Settles(p)` says the
count oracle is monotone and bounded by a ceiling. An oscillating count
makes the source loop forever, so the harvesters require it.

## Model

| member | source | states |
|---|---|---|
| Parser.NormalizeCount | src/parser.py:44-45 | empty text reads as 0 |
| Parser.ParseDecimal | src/parser.py:58-61 | an accepted literal is `<digits>` or `<digits>.<digits>` with at least one digit, and the text is exactly that literal |
| Parser.WanNumber | src/parser.py:50 | a match captures a non-empty prefix of the text made of digits and points; the text ends in 万, w or W, or in one of them followed by a single newline, before which `$` also matches |
| Parser.ParseDigits | src/parser.py:58-59 | a non-empty digit string is read as a whole number |
| Parser.ParsePointed | src/parser.py:58-59 | `<whole>.<fraction>` with at least one digit is read as those two parts |
| Parser.ParseRejects | src/parser.py:54-55 | a lone point and any text with two points are not literals |
| Parser.ReadPlainDigits | src/parser.py:58-59 | a digit string on the plain path reads as its value |
| Parser.PlainCount | src/parser.py:47 | surrounding whitespace is ignored: padding around a number's digits reads as the number |
| Parser.NegativeCount | src/parser.py:58-59 | "-n" reads as -n, so the result can be negative |
| Parser.CommaGroupedCount | src/parser.py:47 | digits with interior commas read as the value of the digits alone ("3,240" → 3240) |
| Parser.CommaGroupedClean | src/parser.py:47 | for such text, cleaning removes the commas and nothing else |
| Parser.ViaPlain | src/parser.py:50-61 | when the suffix pattern does not match, the count is the plain reading of the cleaned text |
| Parser.NumberClean | src/parser.py:47-59 | a number that starts and ends with a digit is already clean and takes the plain path |
| Parser.NumberCleanFacts | src/parser.py:47-50 | such a number is its own cleaned form and does not match the suffix pattern |
| Parser.WanPattern | src/parser.py:50-53 | `<number><spaces><suffix>` reads as the suffix reading of the number |
| Parser.WanTextClean | src/parser.py:47 | a suffixed number is its own cleaned form |
| Parser.WanTextCapture | src/parser.py:50 | the pattern captures exactly the number before the spaces and suffix |
| Parser.WanBeforeNewline | src/parser.py:47-53 | `<number><spaces><suffix>\n,` takes the suffix reading: the comma survives strip(), is then removed, and `$` matches before the newline it leaves |
| Parser.WanNewlineClean | src/parser.py:47 | cleaning such text removes only the final comma |
| Parser.WanNewlineCapture | src/parser.py:50 | the pattern captures the number of `<number><spaces><suffix>\n` |
| Parser.WanNewlineCount | src/parser.py:47-53 | `<digits><spaces><suffix>\n,` reads as the digits' value times 10000 |
| Parser.WanCount | src/parser.py:50-53 | `<digits><spaces><suffix>` reads as the digits' value times 10000 ("2万" → 20000) |
| Parser.WanDecimalCount | src/parser.py:50-53 | `<whole>.<fraction><spaces><suffix>` reads as whole × 10000 plus the first four fraction digits, truncated and never rounded |
| Parser.TruncatedCount | src/parser.py:58-59 | a plain decimal truncates to its whole part |
| Parser.PointedUnsigned | src/parser.py:58-59 | `<whole>.<fraction>` carries no sign and parses as its two parts |
| Parser.TwoPointsCount | src/parser.py:51-55 | a suffixed number with two points reads as 0 ("1.2.3万") |
| Parser.TwoPointsNumber | src/parser.py:50 | `<a>.<b>.<c>` is made of pattern characters and starts and ends with a digit, so the pattern captures it |
| Parser.NoDigitParse | src/parser.py:58-61 | text without a digit never parses as a literal |
| Parser.StripKeeps | src/parser.py:47 | stripping keeps only characters of the original |
| Parser.NoDigitCount | src/parser.py:57-61 | text without any digit reads as 0 and never fails ("赞" → 0) |
| Parser.NoDigitWan | src/parser.py:51-55 | on the suffix path, a number without digits reads as 0 |
| Parser.NoDigitPlain | src/parser.py:57-61 | on the plain path, text without digits reads as 0 |
| Parser.ExampleWanPoint | src/parser.py:33 | "1.2万" → 12000 |
| Parser.ExampleWanLetter | src/parser.py:34 | "3.5w" → 35000 |
| Parser.ExampleWanSpaced | src/parser.py:50 | "1.2 万" → 12000 |
| Parser.ExampleWanBeforeNewline | src/parser.py:47-53 | "5万\n," → 50000 |
| Parser.ExampleWanWhole | src/parser.py:50-53 | "2万" → 20000 |
| Parser.ExampleWanTwoPoints | src/parser.py:51-55 | "1.2.3万" → 0 |
| Parser.ExamplePlain | src/parser.py:47 | "  500  " → 500 |
| Parser.ExampleTruncated | src/parser.py:58-59 | "1.9" → 1 |
| Parser.ExampleNoDigit | src/parser.py:57-61 | "赞" → 0 |
| Parser.HrefId | src/parser.py:97 | the id read from an href contains neither '/' nor '?' |
| Parser.HrefIdOf | src/parser.py:97 | the id of `<dir>/<id><query>` is `<id>`: the query is dropped, then the last '/'-segment is taken |
| Parser.Locate | src/parser.py:88-110 | the explore anchor's link when it yields an id; otherwise the id comes from the cover or first anchor, and with no anchor at all the id is empty and the url is whatever the explore step set |
| Parser.ExploreCardLocated | src/parser.py:92-97 | an explore href `/explore/<id><query>` gives the base URL plus the href, and the id |
| Parser.CoverCardLocated | src/parser.py:100-110 | without an explore anchor, a '/'-relative cover href gives the base URL plus the href, and its id |
| Parser.ExploreAbsoluteLocated | src/parser.py:92-97 | an explore href that is not '/'-relative is kept verbatim as the url, with its last segment as the id |
| Parser.HttpCoverLocated | src/parser.py:100-110 | without an explore anchor, a cover href starting with "http" is kept verbatim as the url, with its last segment as the id |
| Parser.ExploreUrlKept | src/parser.py:104-110 | a fallback href that is neither '/'-relative nor http leaves note_url as the explore step set it |
| Parser.AnchorlessCard | src/parser.py:112-114 | a card without any anchor yields no record |
| Parser.FirstAccepted | src/parser.py:132-144 | the position of the first selector the acceptance rule takes: every earlier one is refused |
| Parser.FirstAcceptedUnique | src/parser.py:132-144 | any position with that first-accepted property is that position |
| Parser.TextOf | src/parser.py:131-144 | the cascade's text is empty exactly when no selector has an element with non-blank text |
| Parser.TextFromFirstNonBlank | src/parser.py:131-144 | the cascade takes the stripped text of the first selector with non-blank text |
| Parser.ReadText | src/parser.py:140-144 | the loop with `break` yields the cascade's text (title, author, publish time) |
| Parser.LikesOf | src/parser.py:188-194 | with no count element the likes are 0 |
| Parser.LikesFromFirstPresent | src/parser.py:188-194 | the likes come from the first existing count element; a blank one gives 0 even when a later selector matches |
| Parser.CoverUrlChoice | src/parser.py:118-127 | the chosen image's data-src when non-empty, else its src; "" without an image |
| Parser.ReadLikes | src/parser.py:188-194 | the loop takes the first existing count element, even when its text is empty |
| Parser.ProfileTail | src/parser.py:172-174 | the author id has no '?' and no trailing '/' |
| Parser.ProfileTailOf | src/parser.py:172-174 | "/user/profile/<uid>?<rest>" splits into two parts and gives `<uid>` |
| Parser.AuthorIdOf | src/parser.py:164-175 | the author id never contains '?', and is "" when no profile anchor splits into two parts |
| Parser.AuthorIdFromFirstProfile | src/parser.py:164-175 | the author id is the tail of the first profile anchor whose href splits into exactly two parts |
| Parser.ReadAuthorId | src/parser.py:164-175 | the loop takes the first profile anchor whose href splits into exactly two parts |
| Parser.CardRecord | src/parser.py:84-218 | no record exactly when a query raises or no id is derived; otherwise the record's id is the located, non-empty id |
| Parser.LocateNote | src/parser.py:88-110 | the id/url block computes `Locate` |
| Parser.ReadExploreLink | src/parser.py:92-97 | the explore step yields the explore anchor's link |
| Parser.ParseSearchCard | src/parser.py:64-218 | parse_search_card returns `CardRecord`: never a partial record |
| Text.TrimStart | src/parser.py:47 | a suffix of the text whose dropped front consists of trimmed characters and which does not start with one |
| Text.TrimEnd | src/parser.py:97 | a prefix of the text whose dropped tail consists of trimmed characters and which does not end with one |
| Text.TrimPadded | src/parser.py:47 | trimming padding around a text that starts and ends with a kept character yields that text |
| Text.Split | src/parser.py:172 | a split yields at least one part, and no part contains the separator |
| Text.SplitJoin | src/parser.py:172 | joining the parts of a split with the separator gives back the text |
| Text.Find | src/parser.py:172 | the found position holds the pattern and no earlier position does; nothing is found exactly when the text does not contain it |
| Text.FreeBeforeFirst | src/parser.py:172 | the text before the first occurrence of a pattern does not contain it |
| Text.BeforeFirst | src/parser.py:97 | the prefix up to the first occurrence of the character, which it does not contain |
| Text.AfterLast | src/parser.py:97 | the suffix after the last occurrence of the character, which it does not contain |
| Text.RemoveAll | src/parser.py:47 | the result has no occurrence of the character, and only characters of the input |
| Text.Lower | src/session.py:375 | lower-casing keeps the length, leaves no upper-case ASCII letter, keeps every other character, and maps each upper-case letter to the same letter in lower case |
| Text.LowerIdempotent | src/session.py:375 | lower-casing twice is lower-casing once |
| Numerals.NatToString | src/session.py:315-320 | a non-empty digit string without leading zeros that reads back as the number |
| Numerals.IntToString | src/errors.py:99 | the text starts with a minus sign exactly when the number is negative, and the rest is a digit string without leading zeros whose value is the magnitude |
| Driver.Browser.NewPage | src/note.py:198 | the next tab oracle's answer, and one more page requested and, when it opened, open |
| Driver.Browser.ClosePage | src/note.py:243-244 | one page fewer open and one more closed |
| Harvest.DetectedFacts | src/search.py:142-154 | no selector exactly when no candidate matches; otherwise the first candidate, in list order, whose wait succeeds with at least one match |
| Harvest.DetectSelector | src/search.py:142-154 | the first-match loop computes `Detected` |
| Harvest.StaleAfterCounts | src/search.py:194-201 | the stale counter counts the trailing non-growing rounds and resets at the last growth |
| Harvest.StopAtTarget | src/search.py:176-181 | reaching the target at a top-of-round read ends the run |
| Harvest.Step | src/search.py:192-201 | one round increments the stale counter without growth and resets it with growth; reaching the threshold ends the run |
| Harvest.RunDetermined | src/search.py:175-201 | two runs over the same page make the same rounds, so the loop is determined by the count oracle |
| Harvest.MetTargetNoRound | src/search.py:176-181 | no scroll happens exactly when the first count already meets the target |
| Harvest.StaticCountRounds | src/search.py:194-199 | with a static count below target, the loop makes exactly `threshold` rounds |
| Harvest.Head | src/search.py:106 | Python's `s[:n]`: a prefix of s holding the first n elements (all when fewer), or for negative n all but the last -n (none when fewer) |
| Harvest.Somes | src/search.py:105-111 | the kept parses are at most as many as the parses |
| Harvest.SomesMembers | src/search.py:105-111 | a record is kept exactly when some parse produced it |
| Harvest.SomesAppend | src/search.py:105-111 | keeping distributes over concatenation, so order is preserved |
| Harvest.SomesAll | src/search.py:105-111 | when every parse succeeds, all are kept in order |
| Harvest.HeadSomesBound | src/search.py:105-111 | the result never has more entries than the input, nor more than max_count for a non-negative max_count |
| Search.DetectCardSelector | src/search.py:131-154 | first-match detection over the card selectors |
| Search.ScrollToLoad | src/search.py:157-201 | the loop performs a run (`IsRun`) with threshold 2, every distance lies in [300, 600], and every scroll is a page wheel |
| Search.StaticListingScrollsTwice | src/search.py:194-199 | a static count below target causes exactly 2 scrolls |
| Search.SearchResult | src/search.py:85-128 | [] when no selector is found or a query fails; for a non-negative max_count, never more than max_count |
| Search.SearchResultMembers | src/search.py:105-111 | a summary is returned exactly when one of the first max_count cards parses to it |
| Search.AllCardsParse | src/search.py:105-111 | when all of the first max_count cards parse, the result is their records in order |
| Search.ParseCards | src/search.py:105-111 | the parse loop keeps the successful parses in order |
| Search.SearchNotes | src/search.py:55-128 | a new_page failure propagates; otherwise the result is `SearchResult` and the scroll loop ran as specified; the opened page is closed exactly once |
| Comment.DetectCommentSelector | src/comment.py:112-129 | first-match detection over the comment selectors |
| Comment.ScrollTargetFacts | src/comment.py:158-169 | a page wheel exactly when no scroll container exists; otherwise the first existing container, .note-scroller before .interaction-container |
| Comment.ChooseScroller | src/comment.py:160-169 | the inner loop with its `scrolled` flag computes that target |
| Comment.ScrollRound | src/comment.py:151-176 | one round reads the count, scrolls once by a distance in [200, 400] on the chosen target, and reads again |
| Comment.ScrollingStep | src/comment.py:176-185 | one round resets the stale counter on growth and increments it otherwise; the run continues below the threshold |
| Comment.ScrollComments | src/comment.py:132-185 | the loop performs a run with threshold 3, every distance lies in [200, 400], and each round scrolls the target of that round |
| Comment.StaticCommentsScrollThrice | src/comment.py:176-185 | a static count below target causes exactly 3 scroll rounds |
| Comment.CommentsResultFacts | src/comment.py:74-109 | [] without scrolling when no selector is found; a failing query propagates; for a non-negative max_count, never more than max_count comments |
| Comment.CommentsResultMembers | src/comment.py:95-101 | a comment is returned exactly when one of the first max_count elements parses to it |
| Comment.KeepParsed | src/comment.py:95-101 | the parse loop keeps the successful parses in order |
| Comment.FetchComments | src/comment.py:50-109 | fetch_comments computes `CommentsResult`; it does not scroll without a selector |
| Note.AlnumRun | src/note.py:59 | the longest ASCII-alphanumeric prefix |
| Note.AlnumRunOf | src/note.py:59 | an alphanumeric id followed by a non-alphanumeric character is read as that id |
| Note.FirstMatch | src/note.py:73 | the scanner's position is the end of the text or a "/explore/" followed by an alphanumeric character |
| Note.FirstMatchFacts | src/note.py:73 | no match lies before that position |
| Note.ScanFromFacts | src/note.py:73-74 | the scanner returns the alphanumeric run after the first match, or nothing |
| Note.ExtractNoteId | src/note.py:62-74 | nothing exactly when no "/explore/" is followed by an alphanumeric character; otherwise the maximal alphanumeric run after the first such occurrence |
| Note.ExtractAfterPrefix | src/note.py:65 | `<site>/explore/<id><rest>` yields `<id>` |
| Note.NoIdAfterMarker | src/note.py:73-74 | a URL ending in "/explore/" yields nothing |
| Note.ExtractFromDetailUrl | src/note.py:65 | the documented detail URL with an xsec_token query yields its id |
| Note.ExtractNoIdAfterMarker | src/note.py:73-74 | the site URL followed by "/explore/" alone yields nothing |
| Note.WaitFromFacts | src/note.py:255-264 | a timeout never escapes the wait; it fails exactly when some selector raises a non-timeout error after only timeouts before it |
| Note.WaitForContent | src/note.py:249-266 | stops at the first ready selector, never raises when all time out, and sleeps once unless an error escapes |
| Note.AttemptFacts | src/note.py:199-226 | a failed navigation raises its failure; a `None` parse yields `None`; success is the parsed detail with `comments` set to the fetched list |
| Note.Attempt | src/note.py:199-226 | one attempt computes `AttemptResult`; it navigates to the given URL and, once the page is ready, parses for the given note id |
| Note.Retrying | src/note.py:197 | between 1 and `_MAX_RETRIES`+1 = 3 attempts |
| Note.RetryingFacts | src/note.py:228-239 | every attempt but the last ended in a timeout; a raised result is the last new_page failure |
| Note.OnlyTimeoutsRetry | src/note.py:240-242 | an attempt that does not time out ends the retry loop; a non-timeout failure yields `None` |
| Note.TimeoutsExhaust | src/note.py:228-239 | three timeouts yield `None` after exactly three attempts |
| Note.FetchNote | src/note.py:188-246 | the attempt loop computes `Retrying`; every opened page is closed; a back-off precedes each retry and never follows the last attempt; every attempt navigates to the note URL it was given and parses only for the note id it was given, and a detail comes from a parse for that id |
| Note.FetchSingleNote | src/note.py:77-111 | no id: `None` without opening a page; otherwise the retry loop runs with the extracted id and the unchanged URL: every page navigates to the URL, every parse is for that id, and a returned detail was parsed for it |
| Note.WantedInOrder | src/note.py:143-149 | the fetched items are visited in increasing input order |
| Note.PositionsBelow | src/note.py:143-178 | an item is fetched exactly when it has both an id and a URL; a delay follows it exactly when it is not the last input |
| Note.BatchSkip | src/note.py:147-149 | a skipped item gets neither a fetch nor a delay |
| Note.BatchStep | src/note.py:153-163 | a fetched item appends its detail when there is one and the batch continues with the rest |
| Note.BatchRaise | src/note.py:198 | a new_page failure aborts the whole batch with that failure |
| Note.Visit | src/note.py:151-178 | one loop iteration advances the batch specification |
| Note.FetchNoteDetails | src/note.py:114-185 | the batch loop computes `BatchFrom`; every page is closed; the fetched and delayed positions are those `PositionsBelow` describes |
| Errors.ToDict | src/errors.py:45-52 | exactly the keys error, code, message and action |
| Errors.ToDictRoundTrip | src/errors.py:45-52 | the record can be read back from its dictionary, and `error` is true |
| Errors.ToDictInjective | src/errors.py:45-52 | different records give different dictionaries |
| Errors.BrowserNotRunningError | src/errors.py:60-66 | code BROWSER_NOT_RUNNING with the not-running message |
| Errors.BrowserCrashedError | src/errors.py:69-75 | code BROWSER_CRASHED |
| Errors.LoginExpiredError | src/errors.py:78-87 | code LOGIN_EXPIRED, and the action names the verify_login script |
| Errors.TimeoutError | src/errors.py:90-101 | code TIMEOUT, and the message contains the tool name and the decimal seconds |
| Errors.InvalidInputError | src/errors.py:104-115 | code INVALID_INPUT; the message contains the field and the reason, and the action contains the field |
| Errors.CrawlFailedError | src/errors.py:118-128 | code CRAWL_FAILED; the message is the fixed prefix followed by the detail |
| Errors.CrawlFailedDetail | src/errors.py:118-128 | removing the prefix from the message gives back the detail |
| Errors.CodesDistinct | src/errors.py:60-128 | the six factories yield pairwise-distinct codes |
| Storage.ReplaceSafe | src/storage.py:139 | after replacement no unsafe character remains |
| Storage.ReplaceKeep | src/storage.py:139 | replacement keeps the non-separator content |
| Storage.CollapseShape | src/storage.py:141 | collapsing leaves no two adjacent underscores, is empty only for empty input, and keeps the first and last characters |
| Storage.CollapseSafe | src/storage.py:141 | collapsing keeps safety |
| Storage.CollapseKeep | src/storage.py:141 | collapsing keeps the content between separators |
| Storage.CollapseClean | src/storage.py:141 | text without doubled underscores is unchanged |
| Storage.TrimSplit | src/storage.py:142 | the text is underscores, then its trimmed form, then underscores |
| Storage.TrimKeep | src/storage.py:142 | trimming keeps the content |
| Storage.TrimNoDoubles | src/storage.py:142 | trimming introduces no doubled underscore |
| Storage.TrimSafeChars | src/storage.py:142 | trimming keeps safety |
| Storage.TrimEnds | src/storage.py:142 | a non-empty trimmed text neither starts nor ends with '_' |
| Storage.UnnamedSafe | src/storage.py:142 | the default "unnamed" is a safe name |
| Storage.SanitizeSafe | src/storage.py:128-142 | the output is non-empty, has no unsafe character, no doubled underscore, and no '_' at either end |
| Storage.SanitizeKeepsContent | src/storage.py:138-142 | the output keeps the input's content; input with no content gives "unnamed" |
| Storage.AllUnsafeUnnamed | src/storage.py:142 | input made only of unsafe characters and underscores gives "unnamed" |
| Storage.SanitizeClean | src/storage.py:138-142 | a name already meeting the constraints is returned unchanged |
| Storage.SanitizeIdempotent | src/storage.py:138-142 | sanitising twice equals sanitising once |
| Storage.SaveFacts | src/storage.py:69-92 | an empty result list writes nothing; otherwise one JSON document and one CSV append as configured, each carrying all results at its path |
| Storage.FilesStayInPlace | src/storage.py:102-115 | the sanitised file names contain no '/' |
| Session.LastIndex | src/session.py:75 | the position of the last occurrence of a character, or none when it is absent |
| Session.KeywordOfStem | src/session.py:57-78 | `<keyword>_<date>_<time>` gives `<keyword>` |
| Session.KeywordOfNotesStem | src/session.py:70-77 | `notes_<keyword>_<date>_<time>` gives `<keyword>` |
| Session.DropPrefix | src/session.py:71-72 | a leading "notes_" is dropped |
| Session.LastTwoBlocks | src/session.py:75 | the last two '_' of `<keyword>_<date>_<time>` are the ones after keyword and date |
| Session.KeywordBeforeBlocks | src/session.py:75-77 | with two or more underscores, the text before the last two blocks |
| Session.KeywordWithoutTimestamp | src/session.py:76-78 | with fewer than two underscores, the remaining stem |
| Session.StemSuffix | src/session.py:369-372 | a file name is its stem followed by its suffix |
| Session.PickedMembers | src/session.py:364-384 | a file is listed exactly when some entry passes the filter and produces it |
| Session.FilesInMembers | src/session.py:364-384 | a file is listed exactly when an entry is a regular file, has suffix .json or .xlsx, and its keyword matches case-insensitively |
| Session.ListEntries | src/session.py:364-384 | the inner loop computes the filtered listing of one subdirectory |
| Session.SavedFileMembers | src/session.py:357-386 | a file is listed exactly when it is a listed entry of raw or processed |
| Session.ListingFacts | src/session.py:178-186 | the search reply carries the keyword and a count equal to the number of results, at most max_count; the results are the parses of the first max_count cards |
| Session.DetailFacts | src/session.py:208-214 | the detail reply is never `None`: a URL without an id or a `None` fetch becomes the failure message |
| Session.LoginMessages | src/session.py:245-252 | only the not-logged-in message names the verify_login script |
| Session.LoginAdvice | src/session.py:242-257 | a login reply reports the browser running, and names the verify_login script exactly when not logged in |
| Session.TotalCommentsAppend | src/session.py:314 | the comment total adds up over concatenated detail lists |
| Session.SummaryNamesKeyword | src/session.py:315-320 | the summary names the keyword |
| Session.BatchAtMostOnePerItem | src/note.py:143-163 | the batch returns at most one detail per item |
| Session.DetailsFor | src/session.py:302-308 | an empty search result gives no details and opens no page; otherwise the batch over the results' items runs as `BatchFrom` says, with every page closed |
| Session.FinishCrawl | src/session.py:302-328 | after the search: the batch fetch when there are results, then the save, then the totals |
| Session.CrawlWith | src/session.py:290-328 | the crawl computes `CrawlOf` with min(max_notes, 20), each logged call carrying the lock state the caller passes |
| Session.CrawlFacts | src/session.py:290-328 | the crawl searches first with min(max_notes, 20), logs every call with the lock state it runs under, reports detail_count ≤ search_count, and search_count ≤ 20 for a non-negative max_notes, skips the batch exactly when the search found nothing, and saves last |
| Session.CrawlerSession.constructor | src/session.py:90-100 | a new session is not running and holds no manager or exit stack |
| Session.CrawlerSession.IsRunning | src/session.py:102-104 | reports `running`, which for a valid session is true exactly when it holds a manager and an exit stack |
| Session.CrawlerSession.Start | src/session.py:106-127 | a no-op when running; otherwise exactly one manager is entered, and state is set only after it entered, so a failed start leaves the session stopped |
| Session.CrawlerSession.Stop | src/session.py:130-138 | closes the stack only if one exists; a close that raises propagates and leaves manager, stack and running flag as they were; otherwise the session ends stopped with neither |
| Session.CrawlerSession.SearchNotes | src/session.py:155-186 | not running: the not-running error without taking the lock; running: the lock is taken exactly once, and a stop before it gives the not-running error with no collaborator call, otherwise one search under the lock; no path enters a browser manager, the racing stop leaves the session stopped after one stack close, and no other path closes the stack |
| Session.CrawlerSession.GetNoteDetail | src/session.py:188-214 | the same guards and single lock acquisition; otherwise one detail fetch under the lock, and a `None` result becomes an error record; the session state after a racing stop is stated as for search |
| Session.CrawlerSession.CheckLoginStatus | src/session.py:216-260 | the same guards and single lock acquisition; otherwise one probe page, closed on every path; the session state after a racing stop is stated as for search |
| Session.CrawlerSession.CrawlKeyword | src/session.py:262-328 | the same guards and single lock acquisition; otherwise the crawl `CrawlOf` run with the lock held; the session state after a racing stop is stated as for search |
| Session.CrawlerSession.GetSavedData | src/session.py:330-386 | raw then processed, each in listing order, filtered as `FilesIn` says |
| Server.Clamp | mcp_server.py:214 | the result lies in [lo, hi], and in-range values are unchanged |
| Server.TimeoutsOrdered | mcp_server.py:63-67 | every budget lies between 90 and crawl_keyword's 600 |
| Server.WithTimeout | mcp_server.py:143-158 | the answer when not expired, else a TIMEOUT error |
| Server.TimeoutNamesTool | mcp_server.py:153-158 | the timeout message names the tool and its budget |
| Server.BlankNamesField | mcp_server.py:209-211 | a blank argument gives INVALID_INPUT naming the field |
| Server.SafeUrl | mcp_server.py:252 | the URL up to the first '?': a '?'-free prefix of it, the whole URL when it has none |
| Server.FallbackNamesUrl | mcp_server.py:262-264 | the fallback is CRAWL_FAILED, and its message contains the safe URL |
| Server.FilterKeywordFacts | mcp_server.py:333 | an empty or blank keyword becomes `None`, otherwise the stripped keyword |
| Server.SearchNotes | mcp_server.py:192-224 | a blank keyword is rejected without calling the session; otherwise the stripped keyword and max_count clamped to [1, 50] are passed, under the tool's timeout |
| Server.GetNoteDetail | mcp_server.py:227-267 | a blank URL is rejected; otherwise the unstripped URL and max_comments clamped to [0, 50] are passed |
| Server.CrawlKeyword | mcp_server.py:279-318 | a blank keyword is rejected; otherwise the stripped keyword, max_notes in [1, 20] and max_comments in [0, 50] are passed |
| Server.CheckLoginStatus | mcp_server.py:166-184 | the session's login reply, with no timeout wrapper |
| Server.GetSavedData | mcp_server.py:321-337 | the session's listing for the filtered keyword |
| Server.GetDataResource | mcp_server.py:356-384 | a name with "..", '/' or '\\' is rejected before any lookup; otherwise raw is tried before processed |
| Server.LookupsStayInside | mcp_server.py:370-378 | an allowed name's paths stay directly inside the data subdirectory |

## Left out

- Parser.NormalizeCount: reads decimals exactly, not through a binary float.
  - The `None` argument the docstring mentions has no counterpart: the model's text is always a string, and the empty string reads as 0.
  - Python's `int(float("0.29") * 10000)` is 2899, where the model gives 2900.
  - The grammar is ASCII digits, '.', ',', ASCII whitespace and 万/w/W.
  - `float()` also accepts exponents, underscores and "nan" (read as 0). "inf" raises an uncaught `OverflowError`. None of these are modelled.
- Unicode: `\s`, `\d`, `str.strip()` and `str.lower()` are Unicode-aware in Python. The model fixes an ASCII whitespace set and ASCII lower-casing.
- Browser driver:
  - `query_selector`, `wait_for_selector`, `goto`, `new_page` and `is_logged_in` are oracle fields of a page or oracle functions of a browser.
  - `src/browser.py`, `src/stealth.py` and `src/auth.py` are not part of this model.
  - A card's failing query is one card-wide flag. The model does not say which selector raised.
- Sleeps, randomness and delays:
  - `asyncio.sleep`, `random.uniform` and the render wait are dropped.
  - Back-offs, batch delays and the final render sleep are counted.
  - Scroll distances are a nondeterministic choice within their integer bounds.
- Concurrency and the asyncio lock:
  - The lock is a ghost `locked` flag with a ghost count of acquisitions.
  - "stop() ran to its end while this call awaited the lock" is the parameter `stopFirst`. A racing stop whose close raised leaves the session as it was, which is the `stopFirst = false` case.
  - `stop()` takes no lock (src/session.py:130-138), so in the source it can also land while a locked operation runs, for example between the search and the batch of `crawl_keyword`, whose second read of the manager (src/session.py:304-305) then hands `None` to the batch, which raises as soon as it opens a page. The model does not describe a stop in the middle of an operation.
  - The model has no interleavings and makes no claims about FIFO order.
- Failures of cleanup calls:
  - `page.close()` in a `finally` block (src/search.py:127-128, src/note.py:243-244, src/session.py:258-260) cannot fail in the model. In the source, a close that raises replaces the block's result with its exception.
  - A harvester failure after selector detection is the page's single `fault` outcome. It stands for a raising scroll, a raising count read inside the scroll loop (src/search.py:176-192, src/comment.py:151-176) or a raising final collection. The result is the same in each case, but the model still counts the full scroll run before the fault.
- Timeouts: `asyncio.wait_for` expiry is the parameter `expired`. The model does not represent cancellation of the inner coroutine's effects.
- Collaborators recorded as events and left opaque:
  - `parse_note_detail` and `parse_comment` are oracle fields of a page.
  - `Storage.save_all`, which `src/session.py` calls, is not defined in `src/storage.py`. It is recorded as a save event in the session's call log.
- File and process I/O, left out:
  - JSON and CSV writing: `SaveSearchResults` returns the planned writes.
  - Directory creation.
  - `stat` and ctime: each entry carries its time and size.
  - Directory iteration and sorting: the listing is given, already sorted.
  - `Path` normalisation.
  - The file reads of `get_data_resource`: the files are a map from path to content.
- `get_config_resource` (mcp_server.py:345-353) is a file read and is not modelled. Neither are logging, FastMCP registration and the lifespan hook.
- URL percent-encoding: `quote(keyword)` (src/search.py:75) encodes per section 2.1 of RFC 3986. It is left opaque: the search page is an oracle, whatever the encoded URL.
- Server.GetNoteDetail: the `result is None` fallback at mcp_server.py:262-264 is unreachable, because the session always returns a dictionary. The fallback error itself is modelled as `FallbackError`, with `FallbackNamesUrl`.
- Session.KeywordOfStem: excludes keywords that start with "notes_" or equal "notes". For those, the source's prefix rule consumes part of the keyword, so another keyword comes back. `KeywordOfNotesStem` covers the prefixed form.
- The harvesters require `Settles`: a monotone count bounded by a ceiling. With an oscillating count the source loops forever, and the model does not describe that.
