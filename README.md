# UBH Chonkers Bot: the sync-and-dedup core, in Dafny

The bot copies a YouTube channel into PostgreSQL and a data directory:
videos, thumbnails, users, profile pictures and every chat message of
every livestream replay. This project models the part of it that decides
what gets written and when:

- the rotate-on-change store that keeps every distinct version of a
  downloaded file (`modules/Classes.py`);
- the normalisers that turn API and chat JSON into table rows;
- the chat ingestion loop, with the nickname matcher and the recovery file;
- the user batch reconciliation;
- the SQL text `modules/Database.py` builds, and the store those
  statements act on;
- the older synchroniser in the root `Classes.py`, and the driver in
  `Main.py` that runs it video by video.

Decoded JSON is one datatype, `Values.Value`. A missing key and a JSON
`null` both read as `Null`, as `dict.get` reads them. Files are a map
from path to bytes. The database is a class, `Store.Database`, holding
a map from table name to rows. Each statement is modelled by its effect
on those rows.

Collaborators the code calls but does not define are function-valued
parameters:

- `json.dumps`;
- `xxh128_hexdigest`;
- the image download;
- the chat source.

Every loop in the source is a `method` with a `while` or `for` loop. Each
such method is proved equal to a recursive specification function; for
instance, `Entities.ScanMembership` runs the `for badge in badge_data` loop
of `_Membership_Level`, and `Nicknames.ScanAliases` runs the two nested
loops of the nickname matcher. The properties are lemmas about those
functions. The library calls `re.finditer` and `sorted` are functions
(`Nicknames.Occurrences`, `Nicknames.SortByLength`).

Modules, source file by source file:

| module | models |
|---|---|
| `Values`, `Wrappers` | Python values, `dict.get`, `in`, `re.findall(r'\d+')` |
| `Timestamps` | `_get_date_time` |
| `Assets` | the rotate-on-change block, once for all four copies |
| `Entities` | `VideoClass`, `MessageClass`, `UserClass`, `_Membership_Level` in `modules/Classes.py` |
| `Sql` | the query text of `modules/Database.py`, and the row-to-dict zip |
| `Store` | the rows those statements leave, and the `Database` class |
| `Nicknames` | the nickname matcher |
| `Chat` | `ChatStats`, `_WriteFile` and `Get_Messages` of `modules/Classes.py` |
| `Videos` | `Get_Video_Info` and `Get_Thumbnail` |
| `Users` | `Get_User_Batch` |
| `Legacy` | the root `Classes.py`: `_NamespaceConvert`, its classes, `Get_All_Videos`, `Get_Messages` |
| `Driver` | `MainProcess` in `Main.py` |

## Model

| member | source | states |
|---|---|---|
| Values.Strip | modules/Classes.py:454-455 | `del video["kind"]; del video["etag"]` succeeds exactly on a dict that has both keys. |
| Values.FirstInteger | modules/Classes.py:317 | `int(re.findall(r'\d+', title)[0])`: a non-string raises `TypeError`; a string with no digit raises `IndexError`; otherwise the result is the value of the first maximal run of digits. |
| Timestamps.Fraction | modules/Classes.py:891 | The fraction group of the pattern captures at most six digits, and the remaining text is `.digits` then an optional `Z`. |
| Timestamps.ParseDateTime | modules/Classes.py:889-904 | Every failure is `ValueError` carrying the input string. |
| Timestamps.ParseComposed | modules/Classes.py:891-904 | Every `YYYY-MM-DDTHH:MM:SS`, with or without `.` and 1-6 digits, with or without `Z`, parses to the fields of its head and its right-padded fraction. |
| Timestamps.ParsedIsComposed | modules/Classes.py:891-894 | Only such strings parse: a string that parses starts with a well-formed `YYYY-MM-DDTHH:MM:SS` head, continues with `.` and at most six digits when it has a fraction and an optional `Z`, and parses to the fields of that head and fraction. |
| Timestamps.FractionRightPadded | modules/Classes.py:899-903 | The fraction is right-padded to six digits; an absent fraction is 0 microseconds. |
| Timestamps.BuildFields | modules/Classes.py:899-903 | Each field of the datetime is the value of its slice of the head; the microseconds are the right-padded fraction. |
| Timestamps.TooManyFractionDigits | modules/Classes.py:891-894 | Seven or more fraction digits raise `ValueError`. |
| Timestamps.ParseExamples | modules/Classes.py:889-904 | `.5Z` reads as 500000 microseconds, no fraction as 0, and a space instead of `T` is refused. |
| Timestamps.BaseFieldsExample | modules/Classes.py:899-903 | A head with no fraction builds 0 microseconds; with fraction "5" it builds 500000. |
| Assets.FirstFree | modules/Classes.py:171-181 | `N` is the least `i >= 1` whose numbered file is absent; every slot below it exists. |
| Assets.Known | modules/Classes.py:160-181 | The digest set holds exactly the digests of the canonical file and of slots `1..N-1`. |
| Assets.Commit | modules/Classes.py:156-190 | The whole block (temp write, digest, slot search, remove or rename) leaves the files and status of `Rotate`. |
| Assets.RotateNew | modules/Classes.py:189-190 | Without a canonical file the download becomes canonical, the status is New and no numbered file is made. |
| Assets.RotateExisting | modules/Classes.py:184-185 | A download whose digest matches the canonical file or a slot below `N` only deletes the temp file; the status is Existing. |
| Assets.RotateUpdate | modules/Classes.py:186-188 | Any other download moves the canonical file to slot `N` and takes its place; the status is Update. |
| Assets.TempNeverSurvives | modules/Classes.py:184-190 | The temp file never survives, and the download is either canonical or already known. |
| Assets.NothingLost | modules/Classes.py:183-190 | Every stored file keeps its content, except the canonical file on an update, whose old content is then in slot `N`. |
| Assets.OthersUntouched | modules/Classes.py:170-190 | Slots `1..N-1` are never written, and files of other assets are untouched. |
| Assets.FetchTwice | modules/Classes.py:163-185 | Fetching the same content again reports Existing and changes nothing. |
| Assets.DistinctFetches | modules/Classes.py:157-190 | `k` fetches with pairwise-distinct digests, from no files, leave the last one canonical and exactly slots `1..k-1`, in fetch order. |
| Assets.ChainStep | modules/Classes.py:186-188 | A fetch whose digest is new extends the chain of versions by one. |
| Assets.FirstFetch | modules/Classes.py:189-190 | The first fetch into an empty asset starts the chain and touches no other asset. |
| Assets.ChainFirstFree | modules/Classes.py:171-181 | After `k` distinct fetches the slot search stops at `k`. |
| Assets.ChainKnown | modules/Classes.py:160-181 | After distinct fetches the digest set is the canonical file's digest and those of the earlier fetches up to the slot searched. |
| Entities.OptionalDate | modules/Classes.py:97-101 | `None` stays `None`; a string parses or raises as `_get_date_time` does; any other value raises `TypeError`. |
| Entities.BestImage | modules/Classes.py:110-125 | The URL is the `url` of the first size present among maxres, standard, high, medium, default; with none present it is `None`; a non-dict raises. |
| Entities.ImageSlot | modules/Classes.py:108-125 | Without a `thumbnails` entry the attribute is left unset; otherwise it is the chosen URL, or the error of choosing it. |
| Entities.LiveFlags | modules/Classes.py:84-93 | `livestream` holds iff `liveBroadcastContent` is present and not "none"; `islive` iff it is "live". |
| Entities.StreamTimes | modules/Classes.py:95-105 | Without `liveStreamingDetails` all three times are `None`; otherwise each is its parsed date or `None`. |
| Entities.VideoSnippet | modules/Classes.py:73-126 | The snippet yields every video column but the id, with the live flags above, and the thumbnail unset exactly when `thumbnails` is absent. |
| Entities.NormalizeVideo | modules/Classes.py:64-139 | A non-dict video raises `AttributeError` for `id` from the handler, because `self.id` was never bound; a video without `snippet` raises reading `title`; a built video has the eight columns in order, its id first, and the status it was given. |
| Entities.LiveImpliesLivestream | modules/Classes.py:88-93 | A built video is never live without being a livestream. |
| Entities.TenureOf | modules/Classes.py:312-321 | One badge title: untitled is -1, "New member" is 0; otherwise a title containing "month" gives its first integer, else one containing "year" twelve times it, else `None` (skip); a title `in` cannot search raises `TypeError`, and the integer's own errors propagate. |
| Entities.MonthTenure | modules/Classes.py:316-317 | A title that mentions "month" counts the value of its first run of digits. |
| Entities.YearTenure | modules/Classes.py:318-319 | A title that mentions "year" and not "month" counts twelve times the value of its first run of digits. |
| Entities.MembershipLevel | modules/Classes.py:304-321 | The scan returns `None` or an integer of at least -1. |
| Entities.ScanMembership | modules/Classes.py:311-321 | The `for badge` loop, returning from inside the loop on the first deciding badge, computes `MembershipLevel`. |
| Entities.MembershipFirstDecisive | modules/Classes.py:311-321 | The scan returns the outcome of the first badge whose title decides, whatever follows it. |
| Entities.MembershipNoneDecides | modules/Classes.py:311-321 | When no badge decides, the scan returns `None`. |
| Entities.FirstIntegerOf | modules/Classes.py:317-319 | A title whose first run of digits is `d` reads as the value of `d`. |
| Entities.TenureExamples | modules/Classes.py:314-319 | "6 months" is 6, "2 years" is 24, and "Moderator" decides nothing. |
| Entities.FirstIntegerExamples | modules/Classes.py:317-319 | The first integer of "Member (6 months)" is 6, of "Member (2 years)" 2. |
| Entities.ContainsExamples | modules/Classes.py:316-318 | The substring tests on those titles pick the month rule, the year rule, or neither. |
| Entities.MembershipExamples | modules/Classes.py:311-321 | A skipped badge lets a later tenure through, and an earlier tenure shadows a later one. |
| Entities.MembershipStopExamples | modules/Classes.py:311-321 | An untitled badge stops the scan at -1; a list with no deciding badge gives `None`. |
| Entities.BadgeFlags | modules/Classes.py:225-238 | The three flags reflect the last badge's title only; an empty list leaves them unset; the loop succeeds iff every badge is a dict. |
| Entities.ScanBadgeFlags | modules/Classes.py:225-238 | The badge loop, reassigning all three flags per badge, computes `BadgeFlags`. |
| Entities.BadgeFlagsPrefix | modules/Classes.py:225-226 | A badge that is not a dict fails the loop whatever follows it. |
| Entities.BadgeFlagsError | modules/Classes.py:226 | The only error of the badge loop is `.get` on a non-dict. |
| Entities.ReadAuthor | modules/Classes.py:215-243 | No author leaves every author attribute unset; no `badges` gives -1 and three false flags; an empty list leaves the flags unset. |
| Entities.Visited | modules/Classes.py:270-278 | The image loop visits up to and including the first image that stops it, and no earlier image stops it. |
| Entities.VisitedFirstStop | modules/Classes.py:270-278 | The loop visits exactly the images up to the first that stops it. |
| Entities.EmoteUrl | modules/Classes.py:268-278 | No images give `None`; otherwise the URL is the `url` of one of the images. |
| Entities.EmoteUrlFirstStop | modules/Classes.py:270-278 | The first image whose id is source, 48x48 or 24x24 gives the URL, in list order, whatever follows it. |
| Entities.EmoteUrlLast | modules/Classes.py:270-272 | With no such id, the last image's URL is kept. |
| Entities.ScanImages | modules/Classes.py:268-278 | The loop with its three `break`s computes `EmoteUrl`. |
| Entities.EmoteEntry | modules/Classes.py:264-279 | One emote row has the columns id, name, url, custom; without images its url is `None`. |
| Entities.EmoteEntries | modules/Classes.py:262-280 | One row per emote, in order. |
| Entities.CollectEmotes | modules/Classes.py:258-280 | The emote loop, appending to `e_emote_entries`, computes `EmoteEntries`. |
| Entities.ReadEmotes | modules/Classes.py:258-263 | No `emotes` key gives no rows. |
| Entities.Microseconds | modules/Classes.py:206-208 | No timestamp leaves the attribute unset; an integer is kept in microseconds; a value that cannot be divided raises. |
| Entities.ReadMoney | modules/Classes.py:245-254 | Without `money` all three columns are `None`; otherwise they are its three fields. |
| Entities.MessageEntry | modules/Classes.py:282-299 | Reading an unset `time_absolute` or `usr_id` raises; otherwise the sixteen columns are built in order from the attributes. |
| Entities.NormalizeMessage | modules/Classes.py:202-302 | A non-dict message raises `AttributeError` for `id` from the handler; no timestamp, no author, or an empty badge list fails construction; a built message carries its id, text, video id and author id in its row. |
| Entities.MessageFlags | modules/Classes.py:223-243 | With badges the flags reflect only the last badge; without a `badges` key the member status is -1 and all three flags are false. |
| Entities.EntryFlags | modules/Classes.py:282-299 | A built message's `user_member_status` and three flag columns are those read from its author block. |
| Entities.NormalizeUser | modules/Classes.py:331-378 | A non-dict user raises `AttributeError` for `id` from the handler; a user without snippet or statistics fails construction; a built user has the six columns in order and its picture unset exactly without `thumbnails`. |
| Sql.ParamsOf | modules/Database.py:58 | The values are bound in key order, one per column. |
| Sql.InsertStatement | modules/Database.py:56-63 | The parameters of an `INSERT` are the row's values in key order. |
| Sql.InsertStatements | modules/Database.py:55-71 | One statement per row, in list order; none for an empty list. |
| Sql.Conditions | modules/Database.py:125 | One `col = %s` per filter key, in key order. |
| Sql.InsertPlaceholders | modules/Database.py:56-63 | An `INSERT` of a non-empty row has exactly one placeholder per column and binds the row's values in column order. |
| Sql.ConflictClause | modules/Database.py:59-63 | A non-empty conflict target `c` ends the statement with " ON CONFLICT (c) DO NOTHING"; without one the statement does not end in " DO NOTHING". |
| Sql.InsertColumns | modules/Database.py:56-58 | The column list of an `INSERT` is the row's keys, in order, joined by ", ". |
| Sql.UpdatePlaceholders | modules/Database.py:96-98 | `UPDATE t SET d = %s WHERE f = %s` has two placeholders and binds exactly `(data_value, filter_value)`. |
| Sql.DeletePlaceholders | modules/Database.py:121-137 | A filtered `DELETE` has one placeholder per bound value; an unfiltered one is the bare `DELETE FROM t`. |
| Sql.SelectPlaceholders | modules/Database.py:157-168 | The `SELECT` of `GetEntries` has one placeholder per bound value. |
| Sql.WherePlaceholders | modules/Database.py:161-165 | The `WHERE` clause has one placeholder per filter key. |
| Sql.JoinPlaceholders | modules/Database.py:125 | Joining parts that each end in one placeholder gives one placeholder per part. |
| Sql.ZipIntoLookup | modules/Database.py:176 | Every column of the zip reads the last value paired with it; an unpaired column is left as it was. |
| Sql.ZipDistinct | modules/Database.py:176 | With distinct columns, the zip pairs column `i` with value `i`. |
| Sql.ZipOneColumn | modules/Database.py:176 | A one-column query yields dicts whose only key is that column, bound to the fetched value. |
| Sql.DictSet | modules/Database.py:176 | `dict[k] = v` makes `k` read `v` and leaves every other key's value. |
| Sql.Results | modules/Database.py:170-179 | One dict per fetched row, in fetch order; rows without a description raise `NameError`. |
| Sql.CollectResults | modules/Database.py:173-177 | The append loop computes `Results`. |
| Store.Select | modules/Database.py:159-166 | The rows a filter reaches are exactly the table's rows matching every `col = value`, never more than the table holds; no filter reaches every row. |
| Store.Query | modules/Database.py:157-179 | `GetEntries` returns as many rows as the filter reaches; `*` returns the reached rows themselves, named columns give rows with exactly those columns. |
| Store.QueryMembers | modules/Database.py:157-179 | A row is returned exactly when it is the projection of a table row the filter matches. |
| Store.AbsentMeans | modules/Classes.py:648 | `len(GetEntries(..., filter={c: v})) == 0` holds iff no row has `v` under `c`. |
| Store.Insert | modules/Database.py:59-63 | With a conflict target, a row agreeing with a stored row on it is dropped; otherwise the row is appended. |
| Store.UpdateAll | modules/Database.py:96-98 | An update keeps the number of rows. |
| Store.UpdateEffect | modules/Database.py:96-98 | The update writes the column on exactly the matching rows and changes nothing else. |
| Store.DeleteWhere | modules/Database.py:121-137 | No filter deletes every row; a filter keeps exactly the rows it does not match. |
| Store.InsertIfAbsent | modules/Classes.py:648-649 | An insert made after finding no row with the key's value keeps the key unique. |
| Store.InsertConflictUnique | modules/Database.py:59-61 | An insert guarded by a one-column conflict target keeps that column unique. |
| Store.InsertAllUnique | modules/Database.py:55-71 | Inserting a list with a one-column conflict target keeps that column unique. |
| Store.UpdateUnique | modules/Database.py:96-98 | Updating a column other than the key keeps the key unique. |
| Store.Database.GetEntries | modules/Database.py:142-179 | Reading the store returns one row per reached row, exactly the projections of the rows the filter matches, with the requested columns. |
| Store.Database.InsertEntries | modules/Database.py:40-74 | The loop issues the statements of `InsertStatements` and leaves the rows of `InsertAll`. |
| Store.Database.UpdateEntry | modules/Database.py:76-107 | Issues the `UPDATE` statement and leaves the rows of `UpdateAll`. |
| Store.Database.DeleteEntries | modules/Database.py:109-140 | Issues the `DELETE` statement and leaves the rows of `DeleteWhere`. |
| Store.UpdateEach | modules/Classes.py:866-868 | One `UpdateEntry` per entry column, in order, leaving `UpdateColumns`. |
| Store.SetFlag | modules/Classes.py:870 | Setting a column on an id's rows flags every row with that id. |
| Store.KeepFlag | modules/Classes.py:866-870 | An update of another column, or of the same column to the same value, keeps a flag set. |
| Store.UpdateColumnsKeep | modules/Classes.py:866-868 | The column updates of an entry that does not write the flag keep it set. |
| Store.InsertCarries | Classes.py:254-256 | Inserting a video's entry leaves a row with its id, and every row with that id carries the entry. |
| Store.UpdateCarries | Classes.py:262-264 | Updating a stored video column by column leaves every row with its id carrying the entry. |
| Store.ConflictColumns | modules/Database.py:59-61 | An empty conflict string means no conflict target, and only it does. |
| Store.DictSetFresh | modules/Database.py:176 | Setting a key not yet in the dict appends it at the end, as a Python dict does. |
| Store.ZipRebuilds | modules/Database.py:170-177 | Reading back a stored row with its own columns rebuilds it exactly. |
| Nicknames.Occurrences | modules/Classes.py:696-698 | `re.finditer` yields whole-word case-insensitive matches from left to right, never overlapping. |
| Nicknames.OccurrencesComplete | modules/Classes.py:698 | Every match is found, unless it lies inside a found one. |
| Nicknames.Record | modules/Classes.py:700-708 | Recording a free occurrence keeps `used_positions` equal to the claimed spans and the spans pairwise disjoint. |
| Nicknames.ClaimFacts | modules/Classes.py:698-708 | The inner loop keeps that invariant, only appends entries for found occurrences, and settles every one. |
| Nicknames.MatchAliasesFacts | modules/Classes.py:695-708 | A later alias never removes or alters an entry. |
| Nicknames.AllSettled | modules/Classes.py:695-708 | Every occurrence of every alias is recorded or overlaps a claimed position. |
| Nicknames.RepeatAddsNothing | modules/Classes.py:695-708 | An alias searched again adds nothing. |
| Nicknames.InsertByLength | modules/Classes.py:684 | Inserting an alias puts it after every alias at least as long. |
| Nicknames.SortByLength | modules/Classes.py:684 | The sort is a permutation of its input. |
| Nicknames.SortFacts | modules/Classes.py:684 | `sorted(key=len, reverse=True)` is descending by length and stable: each length class keeps its input order. |
| Nicknames.InsertPermutes | modules/Classes.py:684 | Inserting one alias adds exactly that alias to the multiset. |
| Nicknames.InsertDescending | modules/Classes.py:684 | Inserting into a list in descending length order keeps it descending. |
| Nicknames.SortExample | modules/Classes.py:684 | "Kiara Hime" sorts before "Kiara". |
| Nicknames.LongOccurrences | modules/Classes.py:698 | "Kiara Hime" occurs once in "hi Kiara Hime!", at position 3. |
| Nicknames.ShortOccurrences | modules/Classes.py:698 | "Kiara" occurs once there too, at position 3. |
| Nicknames.ClaimExample | modules/Classes.py:694-708 | Matching the sorted aliases claims positions 3-12 for "Kiara Hime" only. |
| Nicknames.AliasesAreColumnName | modules/Classes.py:679-683 | Rows fetched with the column `nickname` contribute the name "nickname" once each, never the stored values. |
| Nicknames.CollectAliases | modules/Classes.py:680-683 | The nested key loops compute the alias list. |
| Nicknames.FindMatches | modules/Classes.py:686-708 | No aliases record nothing; a `None` text records nothing; another non-string raises. |
| Nicknames.ScanAliases | modules/Classes.py:686-708 | The nested loops over the sorted aliases and their occurrences, from empty `used_positions` and `entries`, compute `MatchAliases`. |
| Nicknames.SearchMessage | modules/Classes.py:694-708 | The search for one message, running `ScanAliases`, computes `FindMatches`. |
| Nicknames.MatchesSound | modules/Classes.py:694-708 | Recorded spans are pairwise disjoint, each a whole-word case-insensitive occurrence of a listed alias, and every occurrence is recorded or overlaps a recorded one. |
| Nicknames.MatchesMaximal | modules/Classes.py:695-708 | An occurrence the scan finds is recorded or overlaps a recorded span. |
| Nicknames.MatchesComplete | modules/Classes.py:698-708 | Every occurrence is recorded, overlaps a recorded span, or lies inside an earlier-found occurrence of the same alias. |
| Nicknames.RepeatedAlias | modules/Classes.py:695-708 | Listing an alias twice changes nothing. |
| Nicknames.KiaraExample | modules/Classes.py:684-708 | With the aliases Kiara and Kiara Hime, only (3, 13, "Kiara Hime") is recorded in "hi Kiara Hime!". |
| Chat.Combine | modules/Classes.py:45-51 | Four counters add and `exist_user_ids` is the union; `invalid_users` is not carried over. |
| Chat.CombineAssociative | modules/Classes.py:45-51 | Adding per-video statistics in any grouping gives the same totals. |
| Chat.CombineZero | modules/Classes.py:37-51 | A fresh `ChatStats` adds nothing. |
| Chat.ChatStats.AppendAll | modules/Classes.py:45-51 | The other object's counters become the combination; this object is left alone. |
| Chat.Gather | modules/Classes.py:587-589 | `e_ids` holds the id of every message on file, and the pass succeeds exactly when every id is readable. |
| Chat.GatherExact | modules/Classes.py:587-589 | `e_ids` holds nothing but ids of messages on file; a failure is the error of the first message whose id cannot be read. |
| Chat.Unseen | modules/Classes.py:591-596 | The kept messages are exactly the list's messages whose id is not in `e_ids`; an unreadable id raises. |
| Chat.UnseenSingle | modules/Classes.py:591-596 | One message is kept, as itself, exactly when its id is not in `e_ids`. |
| Chat.UnseenConcat | modules/Classes.py:591-596 | Filtering a concatenation is the concatenation of the filtered parts, so the list's order is kept. |
| Chat.UnseenCounts | modules/Classes.py:591-596 | A message with an unseen id is kept as many times as it occurs in the list; a seen one, never. |
| Chat.Written | modules/Classes.py:579-602 | Without a file the list is written verbatim; with one, the file's messages then the unseen new ones. |
| Chat.AppendFailureNone | modules/Classes.py:591-596 | Over a file that is not a list, the second loop raises nothing exactly when every id is readable and on file. |
| Chat.AppendFailureAt | modules/Classes.py:591-596 | Over a file that is not a list, the first message not skipped decides the exception: its id's error, or `append` for an id the file lacks. |
| Chat.WrittenNotList | modules/Classes.py:581-599 | A recovery file that is not a list is rewritten unchanged when every id is on file; otherwise the first unreadable or unseen message raises, as the in-order `append` loop does. |
| Chat.AppendBeforeKeyError | modules/Classes.py:591-596 | With `{}` on file, a new message ahead of one without `message_id` raises `AttributeError('append')`, not `KeyError`. |
| Chat.WrittenMerges | modules/Classes.py:581-599 | The merged file is the file's messages followed by `Unseen` of the new list: the file's order is kept and the unseen messages follow in list order. |
| Chat.WrittenIdempotent | modules/Classes.py:579-602 | Merging the same list twice gives the file one merge gives. |
| Chat.DuplicatesKept | modules/Classes.py:591-596 | `n` copies of a message new to the file are all appended, since `e_ids` is not updated inside the loop. |
| Chat.UnseenCopies | modules/Classes.py:591-596 | `n` copies of a message with an unseen id are all kept. |
| Chat.AllSeen | modules/Classes.py:593-594 | Messages whose ids are all on file are all skipped. |
| Chat.GatherIds | modules/Classes.py:587-589 | The first loop of `_WriteFile` computes `IdsOf`. |
| Chat.WriteFile | modules/Classes.py:572-602 | `_WriteFile`, whose `append` raises inside the loop for a file that is not a list, computes `Written`. |
| Chat.Ingest | modules/Classes.py:638-724 | `message_list` is a prefix of the chat: all of it when nothing raises, and short of the message that raised otherwise. |
| Chat.Finish | modules/Classes.py:724-731 | `_WriteFile` runs on every path after the loop and its error wins; otherwise the file is written, then the loop's exception is raised, or the chat source's own exception after a clean loop, or the statistics when the chat ended cleanly. |
| Chat.ProcessUnique | modules/Classes.py:647-672 | A user row is inserted only if no row has its id, a message row only if none has its message id. |
| Chat.RecordUnique | modules/Classes.py:647-719 | Storing one message keeps both id columns unique. |
| Chat.RecordNewUnique | modules/Classes.py:670-672 | Inserting a message whose id is absent keeps `message_id` unique. |
| Chat.EntryId | modules/Classes.py:282-299 | A built message's row holds its id under `message_id`. |
| Chat.RecordMatchesOnlyNew | modules/Classes.py:670-717 | Storing one message leaves `nickname_matches` alone unless it counts the message as new. |
| Chat.IngestUnique | modules/Classes.py:638-721 | The loop keeps both id columns unique however often a chat is ingested. |
| Chat.ProcessBalanced | modules/Classes.py:639-719 | Every iteration counts the message; a finished one counts it as exactly one of new and existing. |
| Chat.RecordBalanced | modules/Classes.py:713-717 | Storing leaves the total alone and counts a finished message once. |
| Chat.StoreBalanced | modules/Classes.py:670-719 | Storing the message itself counts it once, as new or as existing, and as neither when matching raises. |
| Chat.IngestBalanced | modules/Classes.py:638-721 | The loop adds one total per message seen and one new-or-existing per finished message. |
| Chat.MatchingOnlyForNew | modules/Classes.py:670-711 | `nickname_matches` changes only in an iteration that counts a new message. |
| Chat.AliasesOfStore | modules/Classes.py:679-683 | The alias list is the column name `nickname` once per `nicknames` row. |
| Chat.GetMessagesUnique | modules/Classes.py:560-731 | The whole call keeps both id columns unique, whatever it returns or raises. |
| Chat.GetMessagesBalanced | modules/Classes.py:560-731 | Returned statistics count every message once, as new or as existing. |
| Chat.ProcessOne | modules/Classes.py:639-724 | One iteration against the database and the statistics object computes `Process`. |
| Chat.ProcessCases | modules/Classes.py:638-641 | An iteration counts the message, then raises the normaliser's error or stores the message. |
| Chat.RecordOne | modules/Classes.py:647-719 | Storing user, emotes and message against the database computes `Record`. |
| Chat.RecordUserOne | modules/Classes.py:648-655 | The user check against the database computes `RecordUser`. |
| Chat.RecordNewOne | modules/Classes.py:670-715 | Inserting a new message and its matches computes `RecordNew`. |
| Chat.MatchedOne | modules/Classes.py:693-712 | With no aliases on file only the new-message count rises; otherwise the search's exception is returned with nothing changed, or its matches are inserted and the count rises, as `Matched` states. |
| Chat.StoreMatches | modules/Classes.py:708-712 | The match rows go in under the `message_id,index_start,index_end` conflict target and the new-message count rises by one, nothing else changing. |
| Chat.StoreMessageOne | modules/Classes.py:670-719 | The message check against the database computes `StoreMessage`: insert when no row has its id, otherwise count it as existing. |
| Chat.IsAbsent | modules/Classes.py:670 | `len(GetEntries(..., filter={c: v})) == 0` is true exactly when no row of the table has `v` under `c`. |
| Chat.ReadAliases | modules/Classes.py:679-683 | Reading `nicknames` through the store gives the alias list of its rows. |
| Chat.IngestAll | modules/Classes.py:638-724 | The loop against the database computes `Ingest`. |
| Chat.GetMessages | modules/Classes.py:560-731 | The call, with the recovery file as state, computes `GetMessagesSpec`. |
| Videos.FirstItem | modules/Classes.py:448-452 | `len(videos) > 0` then `videos[0]`: an empty container gives `None`. |
| Videos.GetVideoInfo | modules/Classes.py:443-506 | The call computes `VideoInfo`: strip, write the temp JSON, rotate, then build the video with the rotation's status. |
| Videos.VideoInfoStatus | modules/Classes.py:457-504 | A returned video carries its rotation's status; the canonical file is the fresh JSON unless Existing; no temp file is left. |
| Videos.VideoInfoKeepsFiles | modules/Classes.py:457-500 | Whatever the call returns or raises, every stored file but the temp one survives. |
| Videos.EmptyListing | modules/Classes.py:450-506 | An empty listing returns `None` and writes nothing. |
| Videos.GetThumbnail | modules/Classes.py:141-190 | An unset `thumbnail` raises, a `None` URL does nothing, any other URL is downloaded and rotated in. |
| Videos.NoThumbnailsDict | modules/Classes.py:108-143 | A video whose snippet has no `thumbnails` is built, but `Get_Thumbnail` on it raises. |
| Users.Picture | modules/Classes.py:812-859 | An unset `pfp` raises; a `None` URL is skipped; otherwise the picture is rotated in. |
| Users.MarkGoneMarks | modules/Classes.py:881-882 | Marking an id gone sets `exists` false and `processed` true on every row with it. |
| Users.EntryColumns | modules/Classes.py:367-374 | The columns `UserClass` fills are none of `id`, `processed` and `exists`. |
| Users.StoreUserMarks | modules/Classes.py:758-873 | A user's pass that completes marks its id processed, and a pass unmarks no other id. |
| Users.StoreAllMarks | modules/Classes.py:757-875 | `valid_ids` only grows, and every id in it is marked processed. |
| Users.StopsAtFailure | modules/Classes.py:757-875 | An exception stops the pass: users after the failing one are never visited. |
| Users.MarkGoneKeeps | modules/Classes.py:881-882 | Marking one id gone clears no flag of any id. |
| Users.ReconcileMarks | modules/Classes.py:879-884 | After the second loop every requested id outside `valid_ids` is gone and processed, and no mark is lost. |
| Users.Missing | modules/Classes.py:879-880 | Each requested id outside `valid_ids` occurs as often as it was requested; no id in `valid_ids` occurs. |
| Users.ReconcileCount | modules/Classes.py:879-884 | The second loop counts the missing ids with repetition. |
| Users.BatchMarks | modules/Classes.py:743-886 | Every requested id ends processed; an id whose pass did not complete ends marked as not existing. |
| Users.BatchCount | modules/Classes.py:743-886 | The result is the missing requested ids with repetition, plus one if an exception ended the pass. |
| Users.StoreUserOne | modules/Classes.py:758-873 | One turn against the database computes `StoreUser`. |
| Users.StoreEach | modules/Classes.py:757-875 | The first loop against the database computes `StoreAll`. |
| Users.MarkMissing | modules/Classes.py:877-884 | The second loop against the database computes `Reconcile`. |
| Users.GetUserBatch | modules/Classes.py:733-886 | The call computes `UserBatch`; a failure before the `try` leaves the store as it was. |
| Legacy.Convert | Classes.py:35-41 | Dicts become namespaces, lists become lists, and anything else is kept as it was. |
| Legacy.PlainConvert | Classes.py:35-41 | The conversion keeps every key, element and order: reading back gives the input. |
| Legacy.Attr | Classes.py:56-59 | A missing attribute, or any attribute of a non-namespace, raises `AttributeError` of that name. |
| Legacy.AttrOfConverted | Classes.py:37 | An attribute of a converted dict is its entry, converted. |
| Legacy.BestThumbnail | Classes.py:62-74 | `thumbnail` stays unassigned exactly when none of the sizes is present. |
| Legacy.BestThumbnailFirst | Classes.py:63-72 | The size chosen is the first present of maxres, standard, high, medium, default. |
| Legacy.VideoOf | Classes.py:53-85 | A non-dict raises reading `id`; a built video's entry has distinct keys and its id under `id`. |
| Legacy.LevelAgreesWithTenure | Classes.py:129-135 | On a title that is neither null nor a dict, the legacy reading agrees with the tenure rules of `modules/Classes.py`. |
| Legacy.FirstBadgeOnly | Classes.py:109-110 | Only the first badge is read: when it decides nothing the result is `None`, whatever badges follow. |
| Legacy.MessageOf | Classes.py:95-127 | A message without `message_id` raises `AttributeError` on `id`; a built message's entry has its id under `message_id`. |
| Legacy.Concat | Classes.py:217 | `video_list + items` concatenates lists or strings; anything else raises `TypeError`. |
| Legacy.Listing | Classes.py:195-218 | A first page without `nextPageToken`, or without `items`, raises. |
| Legacy.FollowJoins | Classes.py:204-218 | The listing is the in-order concatenation of the pages' items up to the first page without a token. |
| Legacy.FollowStep | Classes.py:204-217 | One page with a token appends its items and follows its `nextPageToken`. |
| Legacy.FollowUnfinished | Classes.py:204-218 | Responses that all carry a token never end the listing. |
| Legacy.ListVideos | Classes.py:195-218 | The loop rebinding `next_page` and `video_list` computes `Listing`. |
| Legacy.SkipRule | Classes.py:229-250 | A video is skipped exactly when its file exists and it is processed; otherwise its file and thumbnail file are written. |
| Legacy.VisitStores | Classes.py:252-264 | A stored video has a row with its id, and every such row carries its entry, whether inserted or updated. |
| Legacy.VisitOne | Classes.py:226-264 | One turn against the database computes `Visit`. |
| Legacy.VisitEach | Classes.py:226-264 | The video loop against the database computes `VisitAll`, stopping at the first exception. |
| Legacy.GetAllVideos | Classes.py:185-265 | The call computes `AllVideosRun`. |
| Legacy.HandlerOutcome | Classes.py:296-322 | A message the handler takes is counted once by each check; one it fails on fails with the exception of its `MessageClass`. |
| Legacy.IngestStops | Classes.py:294-327 | A failing message ends the loop with it appended; the exception is `NameError` on the first message, its own later. |
| Legacy.IngestAll | Classes.py:294-322 | With no failing message every message is appended and counted once by each check. |
| Legacy.CrashFile | Classes.py:277-331 | The crash file holds this call's messages up to and including the failing one, and nothing earlier calls wrote. |
| Legacy.CompleteFile | Classes.py:277-331 | With every message valid the file holds exactly this call's messages; the call succeeds iff the feed did not raise, and then counts every message once per check. |
| Legacy.AddUserSound | Classes.py:298-302 | The author's insert-if-absent keeps `user_ids` unique and leaves the other tables alone. |
| Legacy.AddMessageSound | Classes.py:307-311 | The message's insert-if-absent keeps `messages` unique and leaves `videos` alone. |
| Legacy.HandlerPreserves | Classes.py:296-322 | Handling any message keeps both id columns unique and leaves `videos` alone. |
| Legacy.IngestSound | Classes.py:294-322 | The loop keeps both id columns unique and leaves `videos` as it was. |
| Legacy.ChatSound | Classes.py:267-331 | A re-run inserts no user and no message twice, and `Get_Messages` never writes `videos`. |
| Legacy.HandlerKeepsVideos | Classes.py:302-321 | On any store, handling a message inserts only into `user_ids` and `messages`, so `videos` is unchanged. |
| Legacy.IngestKeepsVideos | Classes.py:296-324 | On any store, the message loop leaves `videos` as it was, wherever it stops. |
| Legacy.ChatKeepsVideos | Classes.py:267-331 | On any store, `Get_Messages` leaves `videos` as it was, whatever the chat source yields. |
| Legacy.AbsorbOne | Classes.py:298-318 | Both checks against the database compute `Absorb`. |
| Legacy.GetMessages | Classes.py:267-331 | The call against the database and the files computes `ChatRun`. |
| Driver.SettledCounts | Main.py:93-109 | Settling a chat keeps `processed = success + no_chat + error + skipped`, and counts the video iff no exception escapes. |
| Driver.TurnCounts | Main.py:80-110 | A turn keeps the counters accounted for, moves `processed_videos` by one when nothing escapes, and otherwise leaves them alone. |
| Driver.ProcessAllCounts | Main.py:80-110 | The loop keeps the counters accounted for, counts at most one per video, and counts every video when none raised. |
| Driver.MainRunCounts | Main.py:67-110 | A finished run counted `len(all_video_json)` videos, each under one outcome. |
| Driver.SkipIgnoresChat | Main.py:87-92 | A processed video is skipped without fetching its chat and without touching the store or the files; it counts as skipped. |
| Driver.ChatOutcome | Main.py:93-109 | A stored chat or a missing replay flags every row with the video's id processed; an unplayable video leaves `videos` as it was; any other exception escapes. |
| Driver.MarkedIsSkipped | Main.py:87-99 | Once a row with the video's id and `videoId` is marked, the next run skips the video. |
| Driver.MarkKeeps | Main.py:95-102 | Marking a video keeps the id columns unique and clears no processed flag. |
| Driver.SettledKeeps | Main.py:93-109 | Settling a chat keeps the id columns unique and clears no processed flag. |
| Driver.TurnKeeps | Main.py:80-110 | A turn keeps the id columns unique and clears no processed flag. |
| Driver.ProcessAllKeeps | Main.py:80-110 | The whole run keeps the id columns unique and every processed flag set before or during it. |
| Driver.ProcessOne | Main.py:83-109 | One video against the database computes `Turn`. |
| Driver.MainProcess | Main.py:67-110 | The loop against the database computes `MainRun`. |

## Left out

- Network, OAuth and the API client: responses, chat feeds, downloads and `json.dumps` are parameters. `Get_Upload_Count` calls only the API and is not modelled.
- `json.load` of `__All_Videos.json` in `MainProcess`: the decoded list is a parameter.
- The root `Database.py` is not part of this model. The legacy code's queries use the model of `modules/Database.py`; the legacy `InsertEntries` calls pass no conflict target, so both builders issue the same statements for them.
- Executing SQL: a failing statement, type errors in PostgreSQL, commits and transactions. The store is a map of tables, and constraints are modelled only where the code states them (`ON CONFLICT`).
- `xxh128` is an uninterpreted digest, so two different contents may share a digest, as in the source.
- Calendar range checks of `strptime` and Unicode in regular expressions: characters are ASCII, `\d` is `0-9`, and case folding is ASCII only.
- Timestamps.ParseDateTime: `$` is read as the end of the string. Python's `$` also matches before a final newline, so the source parses `"2024-01-01T00:00:00Z\n"` while the model refuses it with `ValueError`.
- JSON numbers are integers only: floats in payloads (`time_in_seconds`, `money.amount`) have no representation. A JSON object is taken to have distinct keys; for a duplicated key `Field` reads the first, where `json.load` keeps the last.
- `timestamp / 1000000` produces a float in the source; the model keeps integer microseconds.
- Logging, `tqdm` progress bars and postfix strings.
- `Get_All_Videos` and `Get_Messages(skip_download)` beyond what is stated above: `modules/Classes.py`'s own `Get_All_Videos` (it lists ids only through the API) is not modelled.
- `unique_user_ids` in `modules/Classes.py` `Get_Messages` is written but never read.
- File paths are keyed by JSON values: two different values that format to the same path name (`1` and `"1"`) name different files here.
- `dir()` on a value that is not a namespace is treated as holding none of the names the code asks about; a string's `title` method is the only bound method modelled.
- A failed thumbnail download (`img_response` not ok, or raising) is not modelled: the download always yields some bytes.
- Legacy.MessageOf: the missing-`message_id` error is stated in one direction only, because a missing `author.id` raises the same `AttributeError("id")`.
- Legacy.GetMessages: the four counters are only logged in the source; the model returns them so that their balance can be stated.
- `e_ids` is a model set of values. Python's `set` raises `TypeError` on an unhashable id (a list or dict `message_id`) and treats `1`, `1.0` and `True` as the same element; the model accepts every id and keeps `Int(1)` and `Bool(true)` apart.
- Videos.FirstItem: `len()` of a value other than a list, string or dict raises `TypeError` in the model without distinguishing the exception Python would raise.
